/** The earlier problem definitions kept under archive/: the two case
    studies of archive/Optimizer.py (CS3 minimises mass; CS4 also minimises a
    weld length) and the single problem of archive/OptimizerPythonScript.py.
    None of them goes through the adapter: each writes its own request row,
    reads the solver's output file directly and writes its own history row. */
module ArchiveOptimizer {
  import opened Results
  import opened Text
  import opened FloatText
  import opened DesignRepair
  import opened RealArith
  import PO = PanelOptimizer
  import FEM = FiniteElementModel

  /** Fixed simulation parameters; the panel size and the pressure are
      Python integers, the mesh size a float. */
  const PanelWidth: int := 3
  const PanelLength: int := 6
  const Pressure: int := -150000
  const FixedMesh: real := 0.03
  const MeshCount: nat := 5

  const ArchiveBounds: Bounds := Bounds(
    [1.0, 1.0, 0.005, 0.05, 0.005, 0.005, 0.010, 0.010, 0.005, 0.005, 0.010],
    [10.0, 10.0, 0.050, 1.00, 0.050, 0.050, 0.750, 0.950, 0.050, 0.050, 0.500])

  const ScriptBounds: Bounds := Bounds(
    [2.0, 2.0, 0.005, 0.05, 0.005, 0.005, 0.010, 0.010, 0.005, 0.005, 0.010],
    [4.0, 7.0, 0.050, 1.00, 0.050, 0.050, 0.750, 0.950, 0.050, 0.050, 0.500])

  /** Both boxes have the shape the repair needs, so a repaired candidate
      stays inside its box. */
  lemma ArchiveRepairInBounds(x: seq<real>)
    ensures ArchiveBounds.WellFormed() && ScriptBounds.WellFormed()
    ensures ArchiveBounds.Contains(x) ==> ArchiveBounds.Contains(Repair(x))
    ensures ScriptBounds.Contains(x) ==> ScriptBounds.Contains(Repair(x))
  {
    if ArchiveBounds.Contains(x) {
      RepairStaysInBounds(ArchiveBounds, x);
    }
    if ScriptBounds.Contains(x) {
      RepairStaysInBounds(ScriptBounds, x);
    }
  }

  datatype Problem = CS3 | CS4 | Script

  // ---------------------------------------------------------------------------
  // The request row

  function Meshes(): seq<real> {
    seq(MeshCount, _ => FixedMesh)
  }

  /** The row archive/Optimizer.py appends: the eleven design values, the
      pressure, five mesh sizes, width and length, comma-separated with no
      trailing comma. */
  function RequestRow(c: FloatCodec, r: seq<real>): (row: string)
    ensures |row| > 0 && row[|row| - 1] == '\n'
    ensures |r| == NVar && AllExact(c, r) && Exact(c, FixedMesh) ==>
      '\n' !in row[..|row| - 1] && Split(row[..|row| - 1], ',') == RequestFields(c, r)
  {
    var line := RequestLine(c, r);
    RequestLineFacts(c, r);
    assert (line + "\n")[..|line|] == line;
    line + "\n"
  }

  /** The request line splits into its fields and holds no line break,
      whenever the values print exactly. */
  lemma RequestLineFacts(c: FloatCodec, r: seq<real>)
    ensures |r| == NVar && AllExact(c, r) && Exact(c, FixedMesh) ==>
      '\n' !in RequestLine(c, r) && Split(RequestLine(c, r), ',') == RequestFields(c, r)
  {
    if |r| == NVar && AllExact(c, r) && Exact(c, FixedMesh) {
      RequestLineSplits(c, r);
      RequestLineOneLine(c, r);
    }
  }

  function RequestLine(c: FloatCodec, r: seq<real>): string
  {
    FEM.CommaTerminated(ShowAll(c, r)) + (IntToString(Pressure) + [','] + RequestTail(c))
  }

  /** The texts the request line is made of, in order. */
  function RequestFields(c: FloatCodec, r: seq<real>): seq<string>
  {
    ShowAll(c, r) + [IntToString(Pressure)] + ShowAll(c, Meshes()) + [IntToString(PanelWidth), IntToString(PanelLength)]
  }

  /** The row archive/OptimizerPythonScript.py appends: the eleven design
      values, each followed by a comma. */
  function ScriptRow(c: FloatCodec, r: seq<real>): (row: string)
    ensures |row| > 0 && row[|row| - 1] == '\n'
    ensures |r| == NVar && AllExact(c, r) ==> Split(row[..|row| - 1], ',') == ShowAll(c, r) + [""]
  {
    var line := FEM.CommaTerminated(ShowAll(c, r));
    ScriptLineSplits(c, r);
    assert (line + "\n")[..|line|] == line;
    line + "\n"
  }

  /** The script's line splits into the eleven values and one empty field,
      whenever the values print exactly. */
  lemma ScriptLineSplits(c: FloatCodec, r: seq<real>)
    ensures |r| == NVar && AllExact(c, r) ==>
      Split(FEM.CommaTerminated(ShowAll(c, r)), ',') == ShowAll(c, r) + [""]
  {
    if |r| == NVar && AllExact(c, r) {
      ShowAllNoSep(c, r, ',');
      CommaTerminatedSplit(ShowAll(c, r), "");
      assert FEM.CommaTerminated(ShowAll(c, r)) + "" == FEM.CommaTerminated(ShowAll(c, r));
    }
  }

  function Row(p: Problem, c: FloatCodec, r: seq<real>): string
  {
    if p.Script? then ScriptRow(c, r) else RequestRow(c, r)
  }

  /** The 19 values the solver script is meant to find in a request row. */
  function RequestValues(r: seq<real>): (v: seq<real>)
    ensures |v| == |r| + 8
  {
    r + [Pressure as real] + Meshes() + [PanelWidth as real, PanelLength as real]
  }

  lemma CommaTerminatedSplit(fields: seq<string>, rest: string)
    requires |fields| >= 1 && NoSep(fields, ',')
    ensures Split(FEM.CommaTerminated(fields) + rest, ',') == fields + Split(rest, ',')
  {
    var j := Join(fields, ',');
    assert FEM.CommaTerminated(fields) + rest == j + [','] + rest;
    SplitAround(j, rest, ',');
    SplitJoin(fields, ',');
  }

  lemma PlainNoSep(xs: seq<string>, sep: char)
    requires forall i :: 0 <= i < |xs| ==> Plain(xs[i])
    requires sep == ',' || IsSpace(sep)
    ensures NoSep(xs, sep)
  {
    forall i | 0 <= i < |xs|
      ensures sep !in xs[i]
    {
      assert Plain(xs[i]);
    }
  }

  /** The part of the request line after the pressure. */
  function RequestTail(c: FloatCodec): string
  {
    FEM.CommaTerminated(ShowAll(c, Meshes())) + (IntToString(PanelWidth) + [','] + IntToString(PanelLength))
  }

  lemma RequestTailSplits(c: FloatCodec)
    requires Exact(c, FixedMesh)
    ensures Split(RequestTail(c), ',') == ShowAll(c, Meshes()) + [IntToString(PanelWidth), IntToString(PanelLength)]
  {
    var w := IntToString(PanelWidth);
    var l := IntToString(PanelLength);
    assert AllExact(c, Meshes());
    SplitWithoutSep(w, ',');
    SplitWithoutSep(l, ',');
    SplitAround(w, l, ',');
    ShowAllNoSep(c, Meshes(), ',');
    CommaTerminatedSplit(ShowAll(c, Meshes()), w + [','] + l);
  }

  lemma RequestLineSplits(c: FloatCodec, r: seq<real>)
    requires |r| == NVar && AllExact(c, r) && Exact(c, FixedMesh)
    ensures Split(RequestLine(c, r), ',') == RequestFields(c, r)
  {
    var p := IntToString(Pressure);
    RequestTailSplits(c);
    SplitWithoutSep(p, ',');
    SplitAround(p, RequestTail(c), ',');
    ShowAllNoSep(c, r, ',');
    CommaTerminatedSplit(ShowAll(c, r), p + [','] + RequestTail(c));
  }

  lemma RequestFieldsParse(c: FloatCodec, r: seq<real>)
    requires |r| == NVar
    requires AllExact(c, r) && Exact(c, FixedMesh) && PythonFloat(c)
    ensures FEM.ParseAll(c, RequestFields(c, r)) == Ok(RequestValues(r))
  {
    var fields := RequestFields(c, r);
    assert ReadsInt(c, Pressure) && ReadsInt(c, PanelWidth) && ReadsInt(c, PanelLength);
    forall i | 0 <= i < |fields|
      ensures c.parse(fields[i]) == Some(RequestValues(r)[i])
    {
      if i < NVar {
        assert fields[i] == c.show(r[i]);
      } else if i == NVar {
        assert fields[i] == IntToString(Pressure);
      } else if i < NVar + 1 + MeshCount {
        assert fields[i] == c.show(FixedMesh);
      } else if i == NVar + 1 + MeshCount {
        assert fields[i] == IntToString(PanelWidth);
      } else {
        assert fields[i] == IntToString(PanelLength);
      }
    }
    var v := FEM.ParseAll(c, fields);
    assert v.value == RequestValues(r);
  }

  /** The request row is one line of 19 comma-separated fields, and reading
      it back as numbers gives the design followed by the fixed parameters. */
  lemma RequestRowRoundTrip(c: FloatCodec, r: seq<real>)
    requires |r| == NVar
    requires AllExact(c, r) && Exact(c, FixedMesh) && PythonFloat(c)
    ensures RequestRow(c, r) == RequestLine(c, r) + "\n"
    ensures '\n' !in RequestLine(c, r)
    ensures |Split(RequestLine(c, r), ',')| == 19
    ensures FEM.ParseAll(c, Split(RequestLine(c, r), ',')) == Ok(RequestValues(r))
  {
    RequestLineSplits(c, r);
    RequestFieldsParse(c, r);
    RequestLineOneLine(c, r);
  }

  /** No field of the request line holds a line break, so neither does the line. */
  lemma RequestLineOneLine(c: FloatCodec, r: seq<real>)
    requires |r| == NVar && AllExact(c, r) && Exact(c, FixedMesh)
    ensures '\n' !in RequestLine(c, r)
  {
    var fields := RequestFields(c, r);
    RequestLineSplits(c, r);
    assert AllExact(c, Meshes());
    forall i | 0 <= i < |fields|
      ensures '\n' !in fields[i]
    {
      if i < NVar {
        assert Plain(c.show(r[i]));
      } else if NVar < i < NVar + 1 + MeshCount {
        assert Plain(c.show(FixedMesh));
      }
    }
    JoinSplit(RequestLine(c, r), ',');
    FEM.JoinHasNoSep(fields, ',', '\n');
  }

  /** The script's row ends in a comma, so it splits into the eleven values
      and one empty field, and a whole-row `float()` pass fails on it. */
  lemma ScriptRowFields(c: FloatCodec, r: seq<real>)
    requires |r| == NVar && AllExact(c, r) && PythonFloat(c)
    ensures ScriptRow(c, r) == FEM.CommaTerminated(ShowAll(c, r)) + "\n"
    ensures Split(FEM.CommaTerminated(ShowAll(c, r)), ',') == ShowAll(c, r) + [""]
    ensures FEM.ParseAll(c, Split(FEM.CommaTerminated(ShowAll(c, r)), ',')) == Err(ValueError)
  {
    ShowAllNoSep(c, r, ',');
    CommaTerminatedSplit(ShowAll(c, r), "");
    assert FEM.CommaTerminated(ShowAll(c, r)) + "" == FEM.CommaTerminated(ShowAll(c, r));
    var fields := ShowAll(c, r) + [""];
    assert c.parse(fields[NVar]) == None;
  }

  // ---------------------------------------------------------------------------
  // The weld-length objective of CS4

  /** `f2 = 4*nT*W + 4*nL*L + 4*nL*hL*nT + 4*nL*wLF*nT`. */
  function WeldLength(r: seq<real>): (w: real)
    requires |r| == NVar
    // without transverse stiffeners only the longitudinal ones are welded along
    // the length, and vice versa across the width
    ensures r[TransverseCount] == 0.0 ==> w == 4.0 * r[LongitudinalCount] * PanelLength as real
    ensures r[LongitudinalCount] == 0.0 ==> w == 4.0 * r[TransverseCount] * PanelWidth as real
  {
    4.0 * r[TransverseCount] * PanelWidth as real + 4.0 * r[LongitudinalCount] * PanelLength as real
      + 4.0 * r[LongitudinalCount] * r[LongitudinalHeight] * r[TransverseCount]
      + 4.0 * r[LongitudinalCount] * r[10] * r[TransverseCount]
  }

  /** Each extra transverse stiffener adds four welds across the width plus
      four around every crossing with a longitudinal stiffener and its flange. */
  lemma WeldPerTransverseStiffener(r: seq<real>)
    requires |r| == NVar
    ensures WeldLength(r[TransverseCount := r[TransverseCount] + 1.0]) - WeldLength(r)
         == 4.0 * (PanelWidth as real + r[LongitudinalCount] * (r[LongitudinalHeight] + r[10]))
  {
    var r2 := r[TransverseCount := r[TransverseCount] + 1.0];
    var t := r[TransverseCount];
    var n := r[LongitudinalCount];
    var h := r[LongitudinalHeight];
    var w := r[10];
    assert r2[LongitudinalCount] == n && r2[LongitudinalHeight] == h && r2[10] == w;
    assert n * h * (t + 1.0) == n * h * t + n * h;
    assert n * w * (t + 1.0) == n * w * t + n * w;
  }

  /** On any design of the box (a repaired candidate is one, by
      ArchiveRepairInBounds), the weld length is at least the straight welds
      alone, so at least 36 (one stiffener of each kind). */
  lemma WeldLengthLowerBound(r: seq<real>)
    requires ArchiveBounds.Contains(r)
    ensures WeldLength(r) >= 12.0 * r[TransverseCount] + 24.0 * r[LongitudinalCount]
    ensures WeldLength(r) >= 36.0
  {
    var t, n, h, w := r[TransverseCount], r[LongitudinalCount], r[LongitudinalHeight], r[10];
    assert t >= 1.0 && n >= 1.0 && h >= 0.0 && w >= 0.0;
    ProductNonnegative(n, h);
    ProductNonnegative(n * h, t);
    ProductNonnegative(n, w);
    ProductNonnegative(n * w, t);
    var crossings := n * h * t;
    var flanges := n * w * t;
    assert WeldLength(r) == 12.0 * t + 24.0 * n + 4.0 * crossings + 4.0 * flanges;
  }

  // ---------------------------------------------------------------------------
  // One evaluation

  /** What one `_evaluate` leaves behind: the solver's input file, history.csv,
      and the objectives handed to the optimiser or the exception. */
  datatype ArchiveStep = ArchiveStep(inputFile: string, historyFile: string, result: Result<PO.Objectives>)

  /** The objectives from the repaired design and the two numbers read. */
  function ObjectivesOf(p: Problem, r: seq<real>, stress: real, mass: real): (o: PO.Objectives)
    requires |r| == NVar
    ensures PO.Feasible(o) <==> stress <= PO.StressLimit && r[LongitudinalHeight] <= r[TransverseHeight]
    ensures |o.f| == (if p.CS4? then 2 else 1) && o.f[0] == FEM.Num(mass)
    ensures p.CS4? ==> o.f[1] == FEM.Num(WeldLength(r))
  {
    var g := [stress - PO.StressLimit, r[LongitudinalHeight] - r[TransverseHeight]];
    assert PO.Feasible(PO.Objectives([], g)) <==> g[0] <= 0.0 && g[1] <= 0.0;
    PO.Objectives(if p.CS4? then [FEM.Num(mass), FEM.Num(WeldLength(r))] else [FEM.Num(mass)], g)
  }

  /** The history row: the two output lines as read, and the weld length for CS4. */
  function ArchiveHistoryRow(p: Problem, c: FloatCodec, r: seq<real>, lines: seq<string>): (row: string)
    requires |r| == NVar && |lines| >= 2
    ensures |row| >= |lines[0]| + |lines[1]| + 2 && row[|row| - 1] == '\n'
    ensures row[..|lines[0]| + 1 + |lines[1]|] == lines[0] + "," + lines[1]
    // only CS4 adds a field after the two output lines
    ensures p.CS4? <==> row != lines[0] + "," + lines[1] + "\n"
  {
    lines[0] + "," + lines[1] + (if p.CS4? then "," + c.show(WeldLength(r)) else "") + "\n"
  }

  /** `_evaluate(x)` of the archived problems: the design is repaired, then
      evaluated. Its constraint on the heights always holds. */
  function EvaluateArchive(p: Problem, c: FloatCodec, inputFile: string, historyFile: string,
                           x: seq<real>, outputFile: Option<string>): (s: ArchiveStep)
    requires |x| == NVar
    ensures s.inputFile == inputFile + Row(p, c, Repair(x))
    ensures s.result.Ok? ==> |s.result.value.g| == 2 && s.result.value.g[1] < 0.0
  {
    EvaluateRepaired(p, c, inputFile, historyFile, Repair(x), outputFile)
  }

  /** The rest of `_evaluate` for the repaired design `r`. `outputFile` is
      the content of the solver's output file, or None when the solver left
      none. */
  function EvaluateRepaired(p: Problem, c: FloatCodec, inputFile: string, historyFile: string,
                            r: seq<real>, outputFile: Option<string>): (s: ArchiveStep)
    requires |r| == NVar
    // the request row is appended whatever happens next
    ensures s.inputFile == inputFile + Row(p, c, r)
    ensures s.result.Err? ==> s.historyFile == historyFile
    ensures outputFile.None? ==> s.result == Err(MissingFile)
    ensures outputFile.Some? ==>
      var lines := FEM.ReadLines(outputFile.value);
      && (|lines| < 2 ==> s.result == Err(IndexError))
      && (|lines| >= 2 ==>
            && (s.result.Ok? <==> c.parse(lines[0]).Some? && c.parse(lines[1]).Some?)
            && (s.result.Err? ==> s.result.error == ValueError)
            && (s.result.Ok? ==>
                  && s.result.value == ObjectivesOf(p, r, c.parse(lines[0]).value, c.parse(lines[1]).value)
                  && s.historyFile == historyFile + ArchiveHistoryRow(p, c, r, lines)))
  {
    var file := inputFile + Row(p, c, r);
    if outputFile.None? then ArchiveStep(file, historyFile, Err(MissingFile))
    else
      var lines := FEM.ReadLines(outputFile.value);
      if |lines| < 2 then ArchiveStep(file, historyFile, Err(IndexError))
      else match c.parse(lines[1])
        case None => ArchiveStep(file, historyFile, Err(ValueError))
        case Some(mass) =>
          match c.parse(lines[0])
          case None => ArchiveStep(file, historyFile, Err(ValueError))
          case Some(stress) =>
            ArchiveStep(file, historyFile + ArchiveHistoryRow(p, c, r, lines), Ok(ObjectivesOf(p, r, stress, mass)))
  }

  /** CS4 is CS3 with one more objective: the same request, the same
      outcome, the same mass and constraints; its history row is CS3's with
      the weld length appended. */
  lemma CaseStudiesAgree(c: FloatCodec, inputFile: string, historyFile: string, x: seq<real>, outputFile: Option<string>)
    requires |x| == NVar
    ensures
      var s3 := EvaluateArchive(CS3, c, inputFile, historyFile, x, outputFile);
      var s4 := EvaluateArchive(CS4, c, inputFile, historyFile, x, outputFile);
      && s3.inputFile == s4.inputFile
      && s3.result.Ok? == s4.result.Ok?
      && (s3.result.Err? ==> s3 == s4)
      && (s3.result.Ok? ==>
            && s4.result.value.f == s3.result.value.f + [FEM.Num(WeldLength(Repair(x)))]
            && s4.result.value.g == s3.result.value.g
            && LastLineWidened(s3.historyFile, s4.historyFile, c.show(WeldLength(Repair(x)))))
  {
    RepairedCaseStudiesAgree(c, inputFile, historyFile, Repair(x), outputFile);
  }

  /** `CaseStudiesAgree` for a repaired design. */
  lemma RepairedCaseStudiesAgree(c: FloatCodec, inputFile: string, historyFile: string, r: seq<real>, outputFile: Option<string>)
    requires |r| == NVar
    ensures
      var s3 := EvaluateRepaired(CS3, c, inputFile, historyFile, r, outputFile);
      var s4 := EvaluateRepaired(CS4, c, inputFile, historyFile, r, outputFile);
      && s3.inputFile == s4.inputFile
      && s3.result.Ok? == s4.result.Ok?
      && (s3.result.Err? ==> s3 == s4)
      && (s3.result.Ok? ==>
            && s4.result.value.f == s3.result.value.f + [FEM.Num(WeldLength(r))]
            && s4.result.value.g == s3.result.value.g
            && LastLineWidened(s3.historyFile, s4.historyFile, c.show(WeldLength(r))))
  {
    assert Row(CS3, c, r) == Row(CS4, c, r);
    if EvaluateRepaired(CS3, c, inputFile, historyFile, r, outputFile).result.Ok? {
      SuccessesAgree(c, inputFile, historyFile, r, outputFile);
      SuccessHistoriesAgree(c, inputFile, historyFile, r, outputFile);
    } else {
      FailuresAgree(c, inputFile, historyFile, r, outputFile);
    }
  }

  lemma FailuresAgree(c: FloatCodec, inputFile: string, historyFile: string, r: seq<real>, outputFile: Option<string>)
    requires |r| == NVar && EvaluateRepaired(CS3, c, inputFile, historyFile, r, outputFile).result.Err?
    ensures EvaluateRepaired(CS3, c, inputFile, historyFile, r, outputFile)
         == EvaluateRepaired(CS4, c, inputFile, historyFile, r, outputFile)
  {
    assert Row(CS3, c, r) == Row(CS4, c, r);
  }

  lemma SuccessesAgree(c: FloatCodec, inputFile: string, historyFile: string, r: seq<real>, outputFile: Option<string>)
    requires |r| == NVar && EvaluateRepaired(CS3, c, inputFile, historyFile, r, outputFile).result.Ok?
    ensures
      var s3 := EvaluateRepaired(CS3, c, inputFile, historyFile, r, outputFile);
      var s4 := EvaluateRepaired(CS4, c, inputFile, historyFile, r, outputFile);
      && s4.result.Ok?
      && s4.result.value.f == s3.result.value.f + [FEM.Num(WeldLength(r))]
      && s4.result.value.g == s3.result.value.g
  {
    var lines := FEM.ReadLines(outputFile.value);
    ObjectivesAgree(r, c.parse(lines[0]).value, c.parse(lines[1]).value);
  }

  /** CS4's objectives are CS3's with the weld length appended to F. */
  lemma ObjectivesAgree(r: seq<real>, stress: real, mass: real)
    requires |r| == NVar
    ensures ObjectivesOf(CS4, r, stress, mass).f == ObjectivesOf(CS3, r, stress, mass).f + [FEM.Num(WeldLength(r))]
    ensures ObjectivesOf(CS4, r, stress, mass).g == ObjectivesOf(CS3, r, stress, mass).g
  {
  }

  lemma SuccessHistoriesAgree(c: FloatCodec, inputFile: string, historyFile: string, r: seq<real>, outputFile: Option<string>)
    requires |r| == NVar && EvaluateRepaired(CS3, c, inputFile, historyFile, r, outputFile).result.Ok?
    ensures
      var s3 := EvaluateRepaired(CS3, c, inputFile, historyFile, r, outputFile);
      var s4 := EvaluateRepaired(CS4, c, inputFile, historyFile, r, outputFile);
      LastLineWidened(s3.historyFile, s4.historyFile, c.show(WeldLength(r)))
  {
    WidenedHistory(c, r, FEM.ReadLines(outputFile.value), historyFile,
                   EvaluateRepaired(CS3, c, inputFile, historyFile, r, outputFile).historyFile,
                   EvaluateRepaired(CS4, c, inputFile, historyFile, r, outputFile).historyFile);
  }

  /** CS4's history row widens CS3's, so after the same earlier rows CS4's
      file is CS3's with the weld length on the last line. */
  lemma WidenedHistory(c: FloatCodec, r: seq<real>, lines: seq<string>, historyFile: string, h3: string, h4: string)
    requires |r| == NVar && |lines| >= 2
    requires h3 == historyFile + ArchiveHistoryRow(CS3, c, r, lines)
    requires h4 == historyFile + ArchiveHistoryRow(CS4, c, r, lines)
    ensures LastLineWidened(h3, h4, c.show(WeldLength(r)))
  {
    HistoryRowsAgree(c, r, lines);
    ExtendLastLine(historyFile, ArchiveHistoryRow(CS3, c, r, lines), c.show(WeldLength(r)), h3, h4,
                   ArchiveHistoryRow(CS4, c, r, lines));
  }

  /** `after` is the file `before` with one more field, `w`, at the end of
      its last line. */
  predicate LastLineWidened(before: string, after: string, w: string) {
    |before| >= 1 && after == before[..|before| - 1] + "," + w + "\n"
  }

  /** Widening the last line of a file widens the file. */
  lemma ExtendLastLine(file: string, row: string, w: string, before: string, after: string, wider: string)
    requires before == file + row && after == file + wider
    requires LastLineWidened(row, wider, w)
    ensures LastLineWidened(before, after, w)
  {
    assert before[..|before| - 1] == file + row[..|row| - 1];
  }

  lemma HistoryRowsAgree(c: FloatCodec, r: seq<real>, lines: seq<string>)
    requires |r| == NVar && |lines| >= 2
    ensures var row3 := ArchiveHistoryRow(CS3, c, r, lines);
      && row3 == lines[0] + "," + lines[1] + "\n"
      && LastLineWidened(row3, ArchiveHistoryRow(CS4, c, r, lines), c.show(WeldLength(r)))
  {
    var row3 := ArchiveHistoryRow(CS3, c, r, lines);
    assert row3[..|row3| - 1] == lines[0] + "," + lines[1];
  }

  /** The script and CS3 differ only in the request row they write. */
  lemma ScriptMatchesCS3(c: FloatCodec, inputFile: string, historyFile: string, x: seq<real>, outputFile: Option<string>)
    requires |x| == NVar
    ensures
      var s3 := EvaluateArchive(CS3, c, inputFile, historyFile, x, outputFile);
      var sp := EvaluateArchive(Script, c, inputFile, historyFile, x, outputFile);
      && sp.result == s3.result && sp.historyFile == s3.historyFile
      && s3.inputFile == inputFile + RequestRow(c, Repair(x))
      && sp.inputFile == inputFile + ScriptRow(c, Repair(x))
  {
  }

  /** For a repaired design the height constraint holds, so feasibility is
      the stress limit alone, in every archived problem. */
  lemma ArchiveFeasibleIffStressWithinLimit(p: Problem, x: seq<real>, stress: real, mass: real)
    requires |x| == NVar
    ensures PO.Feasible(ObjectivesOf(p, Repair(x), stress, mass)) <==> stress <= PO.StressLimit
    ensures ObjectivesOf(p, Repair(x), stress, mass).f[0] == FEM.Num(mass)
  {
    var o := ObjectivesOf(p, Repair(x), stress, mass);
    if stress > PO.StressLimit {
      assert o.g[0] > 0.0;
    }
  }
}
