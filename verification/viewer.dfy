/** `Viewer.__init__`: reading one trial directory back — history.csv into
    the stress, mass and weld-length series, generations.csv run-length
    expanded into one generation label per evaluation, results.csv, and the
    rows of optimizationFile.csv — then cutting every series to the length
    of the expanded labels. */
module Viewer {
  import opened Results
  import opened Text
  import opened FloatText
  import FEM = FiniteElementModel
  import PO = PanelOptimizer

  // ---------------------------------------------------------------------------
  // history.csv

  /** One history row as the viewer reads it. */
  datatype HistoryEntry = HistoryEntry(stress: real, mass: real, weldLength: Option<real>)

  /** `float(temp[1])` then `float(temp[0])`: the mass column is read first,
      so a one-field row fails with IndexError before anything is parsed. */
  function StressMass(c: FloatCodec, fields: seq<string>): (r: Result<(real, real)>)
    ensures |fields| < 2 ==> r == Err(IndexError)
    ensures |fields| >= 2 ==>
      && (r.Ok? <==> c.parse(fields[0]).Some? && c.parse(fields[1]).Some?)
      && (r.Err? ==> r.error == ValueError)
      && (r.Ok? ==> r.value == (c.parse(fields[0]).value, c.parse(fields[1]).value))
  {
    if |fields| < 2 then Err(IndexError)
    else match c.parse(fields[1])
      case None => Err(ValueError)
      case Some(mass) =>
        match c.parse(fields[0])
        case None => Err(ValueError)
        case Some(stress) => Ok((stress, mass))
  }

  /** A history row: stress from field 0, mass from field 1, and — only
      when the row has more than two fields — the weld length from field 2. */
  function ParseRow(c: FloatCodec, line: string): (r: Result<HistoryEntry>)
    ensures var f := Split(line, ',');
      && (r.Ok? <==> StressMass(c, f).Ok? && (|f| > 2 ==> c.parse(f[2]).Some?))
      && (r.Ok? ==> r.value.stress == c.parse(f[0]).value && r.value.mass == c.parse(f[1]).value)
      && (r.Ok? ==> (r.value.weldLength.Some? <==> |f| > 2))
      && (r.Ok? && |f| > 2 ==> r.value.weldLength.value == c.parse(f[2]).value)
      && (StressMass(c, f).Err? ==> r == Err(StressMass(c, f).error))
      && (StressMass(c, f).Ok? && r.Err? ==> r.error == ValueError)
  {
    var f := Split(line, ',');
    var sm :- StressMass(c, f);
    if |f| > 2 then
      match c.parse(f[2])
      case None => Err(ValueError)
      case Some(w) => Ok(HistoryEntry(sm.0, sm.1, Some(w)))
    else Ok(HistoryEntry(sm.0, sm.1, None))
  }

  /** The three columns collected from history.csv. */
  datatype Series = Series(mass: seq<real>, stress: seq<real>, weldLength: seq<real>)

  /** The rows parsed in file order; the constructor stops at the first row
      that raises. */
  function ParseHistory(c: FloatCodec, lines: seq<string>): (r: Result<Series>)
    ensures r.Ok? ==> |r.value.mass| == |lines| && |r.value.stress| == |lines| && |r.value.weldLength| <= |lines|
    decreases |lines|
  {
    if |lines| == 0 then Ok(Series([], [], []))
    else
      var row :- ParseRow(c, lines[0]);
      var rest :- ParseHistory(c, lines[1..]);
      Ok(Series([row.mass] + rest.mass, [row.stress] + rest.stress,
                (if row.weldLength.Some? then [row.weldLength.value] else []) + rest.weldLength))
  }

  /** The columns line up with the rows: history.csv opens exactly when
      every row parses, and then entry i of mass and stress is row i's. */
  lemma {:induction false} HistoryColumns(c: FloatCodec, lines: seq<string>)
    ensures var r := ParseHistory(c, lines);
      && (r.Ok? <==> forall i :: 0 <= i < |lines| ==> ParseRow(c, lines[i]).Ok?)
      && (r.Ok? ==> forall i :: 0 <= i < |lines| ==>
            r.value.mass[i] == ParseRow(c, lines[i]).value.mass
            && r.value.stress[i] == ParseRow(c, lines[i]).value.stress)
    decreases |lines|
  {
    if |lines| > 0 {
      HistoryColumns(c, lines[1..]);
      assert forall i :: 1 <= i < |lines| ==> lines[1..][i - 1] == lines[i];
    }
  }

  /** A failure is the failure of the first row that does not parse. */
  lemma {:induction false} HistoryFirstFailure(c: FloatCodec, lines: seq<string>)
    requires ParseHistory(c, lines).Err?
    ensures exists k :: 0 <= k < |lines| && ParseRow(c, lines[k]) == Err(ParseHistory(c, lines).error)
                        && forall i :: 0 <= i < k ==> ParseRow(c, lines[i]).Ok?
    decreases |lines|
  {
    if ParseRow(c, lines[0]).Ok? {
      HistoryFirstFailure(c, lines[1..]);
      var k :| 0 <= k < |lines[1..]| && ParseRow(c, lines[1..][k]) == Err(ParseHistory(c, lines[1..]).error)
               && forall i :: 0 <= i < k ==> ParseRow(c, lines[1..][i]).Ok?;
      assert lines[1..][k] == lines[k + 1];
      forall i | 0 <= i < k + 1
        ensures ParseRow(c, lines[i]).Ok?
      {
        if i > 0 {
          assert lines[1..][i - 1] == lines[i];
        }
      }
    } else {
      assert ParseRow(c, lines[0]) == Err(ParseHistory(c, lines).error);
    }
  }

  /** The weld column keeps only the rows that carry a third field: it
      lines up with the rows when every row has one, and is empty when none
      has. */
  lemma {:induction false} WeldColumn(c: FloatCodec, lines: seq<string>)
    requires ParseHistory(c, lines).Ok?
    ensures var r := ParseHistory(c, lines).value;
      && ((forall i :: 0 <= i < |lines| ==> |Split(lines[i], ',')| > 2) ==>
            && |r.weldLength| == |lines|
            && forall i :: 0 <= i < |lines| ==> c.parse(Split(lines[i], ',')[2]) == Some(r.weldLength[i]))
      && ((forall i :: 0 <= i < |lines| ==> |Split(lines[i], ',')| <= 2) ==> r.weldLength == [])
    decreases |lines|
  {
    if |lines| > 0 {
      WeldColumn(c, lines[1..]);
      assert forall i :: 1 <= i < |lines| ==> lines[1..][i - 1] == lines[i];
    }
  }

  // ---------------------------------------------------------------------------
  // generations.csv: run-length expansion

  /** `np.full(shape=n, fill_value=g)`. */
  function Repeat(g: int, n: nat): (r: seq<int>)
    ensures |r| == n && forall i :: 0 <= i < n ==> r[i] == g
  {
    seq(n, _ => g)
  }

  /** The labels one generations.csv row contributes, and its cumulative count. */
  datatype Run = Run(labels: seq<int>, count: real)

  /** A generations.csv row `g,c` after `prev` evaluations: `int(c - prev)`
      copies of `int(g)`. The count is parsed first; a negative number of
      copies is refused by numpy with ValueError. */
  function ExpandRow(c: FloatCodec, line: string, prev: real): (r: Result<Run>)
    ensures var f := Split(line, ',');
      && (|f| < 2 ==> r == Err(IndexError))
      && (r.Err? && |f| >= 2 ==> r.error == ValueError)
      && (r.Ok? <==> |f| >= 2 && c.parse(f[1]).Some? && ParseInt(f[0]).Some? && c.parse(f[1]).value - prev > -1.0)
      && (r.Ok? ==>
            && r.value.count == c.parse(f[1]).value
            && |r.value.labels| == Trunc(r.value.count - prev)
            && forall i :: 0 <= i < |r.value.labels| ==> r.value.labels[i] == ParseInt(f[0]).value)
  {
    var f := Split(line, ',');
    if |f| < 2 then Err(IndexError)
    else match c.parse(f[1])
      case None => Err(ValueError)
      case Some(count) =>
        var n := Trunc(count - prev);
        match ParseInt(f[0])
        case None => Err(ValueError)
        case Some(g) => if n < 0 then Err(ValueError) else Ok(Run(Repeat(g, n), count))
  }

  /** The loop over generations.csv, carrying `previousIndex`. */
  function Expand(c: FloatCodec, lines: seq<string>, prev: real): (r: Result<seq<int>>)
    ensures |lines| == 0 ==> r == Ok([])
    // the only exceptions are the rows' own; a row without a comma is always fatal
    ensures r.Err? ==> r.error == IndexError || r.error == ValueError
    ensures forall i :: 0 <= i < |lines| && |Split(lines[i], ',')| < 2 ==> r.Err?
    // the first row's labels come first
    ensures r.Ok? && |lines| > 0 ==>
      ExpandRow(c, lines[0], prev).Ok? && ExpandRow(c, lines[0], prev).value.labels <= r.value
    decreases |lines|
  {
    if |lines| == 0 then Ok([])
    else
      assert forall i :: 1 <= i < |lines| ==> lines[1..][i - 1] == lines[i];
      var run :- ExpandRow(c, lines[0], prev);
      var rest :- Expand(c, lines[1..], run.count);
      Ok(run.labels + rest)
  }

  /** Cumulative evaluation counts that never fall below `prev` and never decrease. */
  predicate Counting(gens: seq<PO.Generation>, prev: int) {
    && (|gens| > 0 ==> prev <= gens[0].nEval)
    && forall i :: 0 < i < |gens| ==> gens[i - 1].nEval <= gens[i].nEval
  }

  /** The count reached before row `i`. */
  function CountBefore(gens: seq<PO.Generation>, i: nat, prev: int): int
    requires i <= |gens|
  {
    if i == 0 then prev else gens[i - 1].nEval
  }


  /** One logged line expands to `n_eval - prev` copies of `n_gen - 1`. */
  lemma ExpandLoggedRow(c: FloatCodec, g: PO.Generation, prev: int)
    requires PythonFloat(c) && prev <= g.nEval
    ensures ExpandRow(c, PO.GenerationLine(g), prev as real) == Ok(Run(Repeat(g.nGen - 1, g.nEval - prev), g.nEval as real))
  {
    assert ReadsInt(c, g.nEval);
    IntRoundTrip(g.nGen - 1);
    TruncIntegral(g.nEval - prev);
    var r := ExpandRow(c, PO.GenerationLine(g), prev as real);
    assert r.Ok?;
    assert r.value.labels == Repeat(g.nGen - 1, g.nEval - prev);
  }

  /** Evaluation `prev + k` carries the label of the row whose count range
      holds it: the labels form one contiguous run per row, in file order. */
  predicate RunsOf(labels: seq<int>, gens: seq<PO.Generation>, prev: int) {
    forall i, k :: 0 <= i < |gens| && 0 <= k < |labels| && CountBefore(gens, i, prev) <= prev + k < gens[i].nEval
      ==> labels[k] == gens[i].nGen - 1
  }

  /** The first row's run in front of the runs of the other rows. */
  lemma RunsCons(gens: seq<PO.Generation>, prev: int, run: seq<int>, rest: seq<int>)
    requires Counting(gens, prev) && |gens| > 0
    requires run == Repeat(gens[0].nGen - 1, gens[0].nEval - prev)
    requires RunsOf(rest, gens[1..], gens[0].nEval)
    ensures RunsOf(run + rest, gens, prev)
  {
    var tail := gens[1..];
    var labels := run + rest;
    forall i, k | 0 <= i < |gens| && 0 <= k < |labels| && CountBefore(gens, i, prev) <= prev + k < gens[i].nEval
      ensures labels[k] == gens[i].nGen - 1
    {
      if i == 0 {
        assert labels[k] == run[k];
      } else {
        assert CountBefore(gens, i, prev) == CountBefore(tail, i - 1, gens[0].nEval);
        CountsFromFirst(gens, prev, i);
        assert labels[k] == rest[k - |run|];
        assert tail[i - 1] == gens[i];
      }
    }
  }

  /** Run-length expansion of a log with nondecreasing counts: one label
      per evaluation, so as many labels as the last count says, and the
      evaluations between two consecutive counts carry the label of the
      later row — contiguous runs in file order. */
  lemma ExpandLog(c: FloatCodec, gens: seq<PO.Generation>, prev: int)
    requires PythonFloat(c) && Counting(gens, prev)
    ensures var r := Expand(c, PO.LogLines(gens), prev as real);
      && r.Ok?
      && |r.value| == CountBefore(gens, |gens|, prev) - prev
      && RunsOf(r.value, gens, prev)
  {
    PO.LogLinesAt(gens);
    LoggedRowsExpand(c, gens, prev);
    ExpandRuns(c, PO.LogLines(gens), gens, prev);
  }

  /** Each logged line expands to its generation's run. */
  lemma LoggedRowsExpand(c: FloatCodec, gens: seq<PO.Generation>, prev: int)
    requires PythonFloat(c) && Counting(gens, prev)
    ensures forall i :: 0 <= i < |gens| ==> RowExpands(c, PO.GenerationLine(gens[i]), gens, i, prev)
  {
    forall i | 0 <= i < |gens|
      ensures RowExpands(c, PO.GenerationLine(gens[i]), gens, i, prev)
    {
      ExpandLoggedRow(c, gens[i], CountBefore(gens, i, prev));
    }
  }

  /** Row `i` of the file expands to the run of generation `i`. */
  predicate RowExpands(c: FloatCodec, line: string, gens: seq<PO.Generation>, i: nat, prev: int)
    requires i < |gens|
  {
    var from := CountBefore(gens, i, prev);
    && from <= gens[i].nEval
    && ExpandRow(c, line, from as real) == Ok(Run(Repeat(gens[i].nGen - 1, gens[i].nEval - from), gens[i].nEval as real))
  }

  /** Rows that each expand to their generation's run expand, together, to
      those runs in file order. */
  lemma {:induction false} ExpandRuns(c: FloatCodec, lines: seq<string>, gens: seq<PO.Generation>, prev: int)
    requires Counting(gens, prev) && |lines| == |gens|
    requires forall i :: 0 <= i < |gens| ==> RowExpands(c, lines[i], gens, i, prev)
    ensures var r := Expand(c, lines, prev as real);
      && r.Ok?
      && |r.value| == CountBefore(gens, |gens|, prev) - prev
      && RunsOf(r.value, gens, prev)
    decreases |gens|
  {
    if |gens| > 0 {
      var g := gens[0];
      var tail := gens[1..];
      ShiftRows(c, lines, gens, prev);
      ExpandRuns(c, lines[1..], tail, g.nEval);
      var rest := Expand(c, lines[1..], g.nEval as real).value;
      var run := Repeat(g.nGen - 1, g.nEval - prev);
      assert RowExpands(c, lines[0], gens, 0, prev);
      ExpandCons(c, lines[0], lines[1..], prev as real, Run(run, g.nEval as real), rest);
      assert [lines[0]] + lines[1..] == lines;
      assert CountBefore(tail, |tail|, g.nEval) == CountBefore(gens, |gens|, prev);
      RunsCons(gens, prev, run, rest);
    }
  }

  /** Without its first row, the file's rows still expand to the runs of
      the remaining generations, counted from the first row's count. */
  lemma ShiftRows(c: FloatCodec, lines: seq<string>, gens: seq<PO.Generation>, prev: int)
    requires |lines| == |gens| > 0
    requires forall i :: 0 <= i < |gens| ==> RowExpands(c, lines[i], gens, i, prev)
    ensures forall i :: 0 <= i < |gens| - 1 ==> RowExpands(c, lines[1..][i], gens[1..], i, gens[0].nEval)
  {
    forall i | 0 <= i < |gens| - 1
      ensures RowExpands(c, lines[1..][i], gens[1..], i, gens[0].nEval)
    {
      assert RowExpands(c, lines[i + 1], gens, i + 1, prev);
      assert CountBefore(gens[1..], i, gens[0].nEval) == CountBefore(gens, i + 1, prev);
    }
  }

  /** Expanding a file is expanding its first row, then the rest from that row's count. */
  lemma ExpandCons(c: FloatCodec, line: string, lines: seq<string>, prev: real, run: Run, rest: seq<int>)
    requires ExpandRow(c, line, prev) == Ok(run)
    requires Expand(c, lines, run.count) == Ok(rest)
    ensures Expand(c, [line] + lines, prev) == Ok(run.labels + rest)
  {
    ConsTail(line, lines);
  }

  /** Every count from row 1 on is at least the first row's count. */
  lemma {:induction false} CountsFromFirst(gens: seq<PO.Generation>, prev: int, i: nat)
    requires Counting(gens, prev) && 1 <= i <= |gens|
    ensures gens[0].nEval <= CountBefore(gens, i, prev)
    decreases i
  {
    if i > 1 {
      CountsFromFirst(gens, prev, i - 1);
    }
  }

  // ---------------------------------------------------------------------------
  // Truncation and the assembled view

  /** `xs[0:n]`. */
  function Prefix<T>(xs: seq<T>, n: nat): (r: seq<T>)
    ensures |r| == if n < |xs| then n else |xs|
    ensures r <= xs
  {
    if n < |xs| then xs[..n] else xs
  }

  /** `range(1, n + 1)`. */
  function Evaluations(n: nat): (r: seq<int>)
    ensures |r| == n && forall i :: 0 <= i < n ==> r[i] == i + 1
  {
    seq(n, i => i + 1)
  }

  /** The files of a trial directory; None where a file does not exist. */
  datatype Trial = Trial(history: Option<string>, generations: Option<string>, results: Option<string>,
                         optimizationFile: Option<string>)

  /** The attributes `__init__` leaves on the viewer. */
  datatype View = View(evaluations: seq<int>, generations: seq<int>, mass: seq<real>, stress: seq<real>,
                       weldLength: seq<real>, results: seq<real>, variables: seq<seq<string>>, variablesMode: bool)

  /** `line.split(',')` for every row of optimizationFile.csv. */
  function Rows(lines: seq<string>): (rows: seq<seq<string>>)
    ensures |rows| == |lines| && forall i :: 0 <= i < |lines| ==> rows[i] == Split(lines[i], ',')
  {
    seq(|lines|, i requires 0 <= i < |lines| => Split(lines[i], ','))
  }

  /** `Viewer(trial)`: history.csv, then results.csv, then
      optimizationFile.csv, then the expansion of generations.csv. */
  function Load(c: FloatCodec, t: Trial): (r: Result<View>)
    ensures t.history.None? ==> r == Err(MissingFile)
    ensures t.history.Some? ==>
      var h := ParseHistory(c, FEM.ReadLines(t.history.value));
      && (h.Err? ==> r == Err(h.error))
      && (r.Ok? ==> (h.Ok? &&
            var n := if t.generations.Some? then |r.value.generations| else |h.value.mass|;
            && r.value.mass == Prefix(h.value.mass, n)
            && r.value.stress == Prefix(h.value.stress, n)
            && r.value.weldLength == Prefix(h.value.weldLength, n)))
    ensures t.history.Some? && ParseHistory(c, FEM.ReadLines(t.history.value)).Ok? && t.results.Some? ==>
      var p := FEM.ParseAll(c, FEM.ReadLines(t.results.value));
      && (p.Err? ==> r == Err(p.error))
      && (r.Ok? ==> p.Ok? && r.value.results == Prefix(p.value, if t.generations.Some? then |r.value.generations| else |p.value|))
    ensures r.Ok? && t.results.None? ==> r.value.results == []
    ensures r.Ok? ==> t.optimizationFile.Some?
    ensures r.Ok? ==>
      var rows := Rows(FEM.ReadLines(t.optimizationFile.value));
      && |rows| > 0
      && (r.value.variablesMode <==> |rows[|rows| - 1]| < 11)
      && r.value.variables == Prefix(rows, if t.generations.Some? then |r.value.generations| else |rows|)
    ensures r.Ok? ==> r.value.evaluations == Evaluations(|r.value.mass|)
    ensures r.Ok? && t.generations.None? ==> r.value.generations == []
    ensures r.Ok? && t.generations.Some? ==>
      Expand(c, FEM.ReadLines(t.generations.value), 0.0) == Ok(r.value.generations)
    ensures r.Ok? <==>
      && t.history.Some? && ParseHistory(c, FEM.ReadLines(t.history.value)).Ok?
      && (t.results.Some? ==> FEM.ParseAll(c, FEM.ReadLines(t.results.value)).Ok?)
      && t.optimizationFile.Some? && |FEM.ReadLines(t.optimizationFile.value)| > 0
      && (t.generations.Some? ==> Expand(c, FEM.ReadLines(t.generations.value), 0.0).Ok?)
    ensures && t.history.Some? && ParseHistory(c, FEM.ReadLines(t.history.value)).Ok?
            && (t.results.Some? ==> FEM.ParseAll(c, FEM.ReadLines(t.results.value)).Ok?) ==>
      && (t.optimizationFile.None? ==> r == Err(MissingFile))
      && (t.optimizationFile.Some? && |FEM.ReadLines(t.optimizationFile.value)| == 0 ==> r == Err(IndexError))
      && (t.optimizationFile.Some? && |FEM.ReadLines(t.optimizationFile.value)| > 0 && t.generations.Some? ==>
            var e := Expand(c, FEM.ReadLines(t.generations.value), 0.0);
            e.Err? ==> r == Err(e.error))
  {
    if t.history.None? then Err(MissingFile)
    else
      var h :- ParseHistory(c, FEM.ReadLines(t.history.value));
      var results :- if t.results.Some? then FEM.ParseAll(c, FEM.ReadLines(t.results.value)) else Ok([]);
      if t.optimizationFile.None? then Err(MissingFile)
      else
        var rows := Rows(FEM.ReadLines(t.optimizationFile.value));
        if |rows| == 0 then Err(IndexError)
        else Finish(c, t.generations, h, results, rows)
  }

  /** The constructor after optimizationFile.csv was read into `rows`:
      the mode from the last row, then generations.csv if there is one. */
  function Finish(c: FloatCodec, generations: Option<string>, h: Series, results: seq<real>,
                  rows: seq<seq<string>>): (r: Result<View>)
    requires |h.stress| == |h.mass| && |h.weldLength| <= |h.mass| && |rows| > 0
    ensures r.Ok? ==>
      var n := if generations.Some? then |r.value.generations| else |h.mass|;
      && r.value.mass == Prefix(h.mass, n)
      && r.value.stress == Prefix(h.stress, n)
      && r.value.weldLength == Prefix(h.weldLength, n)
      && r.value.results == Prefix(results, if generations.Some? then |r.value.generations| else |results|)
      && r.value.variables == Prefix(rows, if generations.Some? then |r.value.generations| else |rows|)
    ensures r.Ok? ==> (r.value.variablesMode <==> |rows[|rows| - 1]| < 11)
    ensures r.Ok? ==> r.value.evaluations == Evaluations(|r.value.mass|)
    ensures r.Ok? && generations.None? ==> r.value.generations == []
    ensures r.Ok? && generations.Some? ==> Expand(c, FEM.ReadLines(generations.value), 0.0) == Ok(r.value.generations)
    ensures r.Ok? <==> generations.None? || Expand(c, FEM.ReadLines(generations.value), 0.0).Ok?
    ensures generations.Some? && Expand(c, FEM.ReadLines(generations.value), 0.0).Err? ==>
      r == Err(Expand(c, FEM.ReadLines(generations.value), 0.0).error)
  {
    var mode := !(|rows[|rows| - 1]| >= 11);
    if generations.None? then
      Ok(View(Evaluations(|h.mass|), [], h.mass, h.stress, h.weldLength, results, rows, mode))
    else
      var labels :- Expand(c, FEM.ReadLines(generations.value), 0.0);
      Ok(CutToLabels(h, results, rows, mode, labels))
  }

  /** The end of the constructor with generations.csv present: every series
      cut to the number of labels. */
  function CutToLabels(h: Series, results: seq<real>, rows: seq<seq<string>>, mode: bool, labels: seq<int>): (v: View)
    ensures v.generations == labels && v.variablesMode == mode
    ensures var n := |labels|;
      && v.mass == Prefix(h.mass, n) && v.stress == Prefix(h.stress, n) && v.weldLength == Prefix(h.weldLength, n)
      && v.results == Prefix(results, n) && v.variables == Prefix(rows, n)
    ensures v.evaluations == Evaluations(|v.mass|)
  {
    var n := |labels|;
    var mass := Prefix(h.mass, n);
    View(Evaluations(|mass|), labels, mass, Prefix(h.stress, n), Prefix(h.weldLength, n),
         Prefix(results, n), Prefix(rows, n), mode)
  }

  /** With generations.csv present the series are cut to the number of
      labels; once history.csv holds at least that many rows, every
      evaluation has a label and `evaluations` runs from 1 to that number. */
  lemma TruncatedToLabels(c: FloatCodec, t: Trial)
    requires Load(c, t).Ok? && t.generations.Some?
    requires |SplitLines(t.history.value)| >= |Load(c, t).value.generations|
    ensures var v := Load(c, t).value;
      && |v.mass| == |v.generations| && |v.stress| == |v.generations|
      && v.evaluations == Evaluations(|v.generations|)
  {
  }

  // ---------------------------------------------------------------------------
  // The rows the optimisers write

  lemma RStripKeeps(s: string)
    requires |s| > 0 && !IsSpace(s[|s| - 1])
    ensures RStrip(s) == s
  {
  }

  /** The first line of a file that starts with a line without '\n'. */
  lemma FirstLine(line: string, rest: string)
    requires '\n' !in line
    ensures |SplitLines(line + "\n" + rest)| >= 1 && SplitLines(line + "\n" + rest)[0] == line
  {
    var s := line + "\n" + rest;
    assert s == line + ['\n'] + rest;
    SplitAround(line, rest, '\n');
    SplitWithoutSep(line, '\n');
  }

  /** The line `save` writes for two outputs. */
  function SaveLine(c: FloatCodec, stress: real, mass: real): string
  {
    FEM.CommaTerminated(FEM.ShowOuts(c, [FEM.Num(stress), FEM.Num(mass)]))
  }

  /** A `save` line for two outputs ends with a comma and splits into
      three fields, the last one empty. */
  lemma SaveLineSplit(c: FloatCodec, stress: real, mass: real)
    requires Exact(c, stress) && Exact(c, mass)
    ensures var line := SaveLine(c, stress, mass);
      && '\n' !in line && |line| > 0 && line[|line| - 1] == ','
      && Split(line, ',') == [c.show(stress), c.show(mass), ""]
  {
    var items := FEM.ShowOuts(c, [FEM.Num(stress), FEM.Num(mass)]);
    var line := FEM.CommaTerminated(items);
    assert items == [c.show(stress), c.show(mass)];
    assert line == c.show(stress) + [','] + (c.show(mass) + [','] + "");
    SplitWithoutSep(c.show(stress), ',');
    SplitWithoutSep(c.show(mass), ',');
    SplitAround(c.show(mass), "", ',');
    SplitAround(c.show(stress), c.show(mass) + [','] + "", ',');
    assert '\n' !in c.show(stress) && '\n' !in c.show(mass);
  }

  /** Read back from history.csv, a `save` line is the first line of the
      file, unchanged by `rstrip`, and splits into three fields, the last
      one empty. */
  lemma SaveLineFields(c: FloatCodec, stress: real, mass: real, rest: string)
    requires Exact(c, stress) && Exact(c, mass)
    ensures var line := SaveLine(c, stress, mass);
      && var lines := FEM.ReadLines(line + "\n" + rest);
      && |lines| >= 1 && lines[0] == line
      && Split(line, ',') == [c.show(stress), c.show(mass), ""]
  {
    var line := SaveLine(c, stress, mass);
    SaveLineSplit(c, stress, mass);
    RStripKeeps(line);
    FirstLine(line, rest);
  }

  /** The rows `save` writes for the two outputs end with a comma, so the
      viewer finds a third, empty field and `float('')` raises: the current
      optimiser's history.csv cannot be opened by this viewer. */
  lemma ViewerRejectsSaveRows(c: FloatCodec, stress: real, mass: real, rest: string)
    requires PythonFloat(c) && Exact(c, stress) && Exact(c, mass)
    ensures ParseRow(c, SaveLine(c, stress, mass)) == Err(ValueError)
    ensures ParseHistory(c, FEM.ReadLines(PO.HistoryRow(c, [FEM.Num(stress), FEM.Num(mass)]) + rest)) == Err(ValueError)
  {
    SaveLineFields(c, stress, mass, rest);
    var line := SaveLine(c, stress, mass);
    assert PO.HistoryRow(c, [FEM.Num(stress), FEM.Num(mass)]) + rest == line + "\n" + rest;
  }

  /** A row of the archived case studies: CS3's two output lines, or CS4's
      with the weld length after them, read back as written. */
  lemma ViewerReadsArchiveRow(c: FloatCodec, stressLine: string, massLine: string, weld: Option<real>)
    requires Plain(stressLine) && Plain(massLine)
    requires c.parse(stressLine).Some? && c.parse(massLine).Some?
    requires weld.Some? ==> Exact(c, weld.value)
    ensures var line := stressLine + "," + massLine + (if weld.Some? then "," + c.show(weld.value) else "");
      && RStrip(line) == line
      && ParseRow(c, line) == Ok(HistoryEntry(c.parse(stressLine).value, c.parse(massLine).value, weld))
  {
    if weld.Some? {
      var w := c.show(weld.value);
      ThreeFields(stressLine, massLine, w);
      RowOfThree(c, stressLine + "," + massLine + "," + w, stressLine, massLine, w);
      Regroup(stressLine + "," + massLine, ",", w);
    } else {
      TwoFields(stressLine, massLine);
    }
  }

  /** A row of three parseable fields carries a weld length. */
  lemma RowOfThree(c: FloatCodec, line: string, a: string, b: string, w: string)
    requires Split(line, ',') == [a, b, w]
    requires c.parse(a).Some? && c.parse(b).Some? && c.parse(w).Some?
    ensures ParseRow(c, line) == Ok(HistoryEntry(c.parse(a).value, c.parse(b).value, Some(c.parse(w).value)))
  {
    var f := Split(line, ',');
    assert f[0] == a && f[1] == b && f[2] == w;
  }

  /** A row that does not end in white space is left alone by `rstrip`. */
  predicate EndsPlain(s: string) {
    |s| == 0 || !IsSpace(s[|s| - 1])
  }

  /** A plain field and a comma in front of the rest of a row: one more
      field for `split(',')`, and nothing for `rstrip` to remove. */
  lemma CommaThen(a: string, rest: string)
    requires Plain(a) && EndsPlain(rest)
    ensures Split(a + "," + rest, ',') == [a] + Split(rest, ',')
    ensures EndsPlain(a + "," + rest) && RStrip(a + "," + rest) == a + "," + rest
  {
    var line := a + "," + rest;
    assert line == a + [','] + rest;
    SplitWithoutSep(a, ',');
    SplitAround(a, rest, ',');
    if |rest| > 0 {
      assert line[|line| - 1] == rest[|rest| - 1];
    } else {
      assert line[|line| - 1] == ',';
    }
    RStripKeeps(line);
  }

  /** Two plain fields joined by a comma: the row `rstrip` keeps and
      `split(',')` takes apart again. */
  lemma TwoFields(a: string, b: string)
    requires Plain(a) && Plain(b)
    ensures EndsPlain(a + "," + b) && RStrip(a + "," + b) == a + "," + b
    ensures Split(a + "," + b, ',') == [a, b]
  {
    if |b| > 0 {
      assert !IsSpace(b[|b| - 1]);
    }
    CommaThen(a, b);
    SplitWithoutSep(b, ',');
  }

  /** Three plain fields joined by commas, likewise. */
  lemma ThreeFields(a: string, b: string, w: string)
    requires Plain(a) && Plain(b) && Plain(w)
    ensures RStrip(a + "," + b + "," + w) == a + "," + b + "," + w
    ensures Split(a + "," + b + "," + w, ',') == [a, b, w]
  {
    TwoFields(b, w);
    CommaThen(a, b + "," + w);
    assert a + "," + b + "," + w == a + "," + (b + "," + w);
  }
}
