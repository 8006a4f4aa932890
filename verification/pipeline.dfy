/** How the scripts meet through their files: the request row the optimiser
    appends to input.csv and the panel script reads back, the two lines the
    panel script leaves in output.csv for the adapter, generations.csv
    written by the optimiser and expanded by the viewer, and the rows of the
    archived optimisers. */
module Pipeline {
  import opened Results
  import opened Text
  import opened FloatText
  import opened DesignRepair
  import FEM = FiniteElementModel
  import PO = PanelOptimizer
  import AO = ArchiveOptimizer
  import SP = StiffenedPanel
  import V = Viewer

  // ---------------------------------------------------------------------------
  // input.csv: optimiser to panel script

  /** The panel script reads the last line of input.csv. */
  lemma ReadsLastLine(c: FloatCodec, file: string, line: string)
    requires Terminated(file) && '\n' !in line
    ensures var rf := SP.ReadFields(c, Split(line, ','), SP.FieldCount);
      && (rf.Ok? ==> SP.ParseRequest(c, file + line + "\n") == Ok(SP.PanelOf(rf.value)))
      && (rf.Err? ==> SP.ParseRequest(c, file + line + "\n") == Err(rf.error))
  {
    AppendLine(file, line);
  }

  /** A last line of 19 fields that all parse is read as the panel of those values. */
  lemma ReadsRow(c: FloatCodec, file: string, line: string, v: seq<real>)
    requires Terminated(file) && '\n' !in line
    requires FEM.ParseAll(c, Split(line, ',')) == Ok(v) && |Split(line, ',')| == SP.FieldCount
    ensures SP.ParseRequest(c, file + line + "\n") == Ok(SP.PanelOf(v))
  {
    ReadsAllFields(c, Split(line, ','), v);
    ReadsLastLine(c, file, line);
  }

  lemma ReadsAllFields(c: FloatCodec, fields: seq<string>, v: seq<real>)
    requires FEM.ParseAll(c, fields) == Ok(v) && |fields| == SP.FieldCount
    ensures SP.ReadFields(c, fields, SP.FieldCount) == Ok(v)
  {
    var rf := SP.ReadFields(c, fields, SP.FieldCount);
    assert rf.Ok?;
    assert rf.value == v;
  }

  /** The request row `write` appends is read back by the panel script as
      the panel of those 19 values, taken by position. */
  lemma RequestReachesPanel(a: FEM.Adapter, c: FloatCodec, file: string)
    requires |a.input| == |a.inputKeys| == SP.FieldCount
    requires AllExact(c, a.input) && Terminated(file)
    ensures FEM.RequestLine(a, c).Ok?
    ensures SP.ParseRequest(c, file + FEM.RequestLine(a, c).value) == Ok(SP.PanelOf(a.input))
  {
    FEM.WriteFormat(a, c);
    var line := Join(ShowAll(c, a.input), ',');
    JoinedValuesRead(c, a.input);
    ReadsLastLine(c, file, line);
    Regroup(file, line, "\n");
  }

  /** Nineteen exactly printed values joined by commas make one line that
      reads back as those values. */
  lemma JoinedValuesRead(c: FloatCodec, v: seq<real>)
    requires |v| == SP.FieldCount && AllExact(c, v)
    ensures '\n' !in Join(ShowAll(c, v), ',')
    ensures SP.ReadFields(c, Split(Join(ShowAll(c, v), ','), ','), SP.FieldCount) == Ok(v)
  {
    var fields := ShowAll(c, v);
    ShowAllNoSep(c, v, ',');
    ShowAllNoSep(c, v, '\n');
    FEM.JoinHasNoSep(fields, ',', '\n');
    SplitJoin(fields, ',');
    FEM.ParseAllShown(c, v);
    ReadsAllFields(c, fields, v);
  }

  /** The optimiser labels request value 5 "wTF" and value 6 "tTF", while
      the panel script reads value 5 as the transverse flange thickness and
      value 6 as its width. `write` never reads the labels, so the values
      arrive by position and the labels are simply misleading. */
  lemma FlangeLabelsSwapped(a: FEM.Adapter, c: FloatCodec, file: string)
    requires a.inputKeys == PO.InputKeys && |a.input| == SP.FieldCount
    requires AllExact(c, a.input) && Terminated(file)
    ensures PO.InputKeys[5] == "wTF" && PO.InputKeys[6] == "tTF"
    ensures FEM.RequestLine(a, c).Ok?
    ensures var p := SP.ParseRequest(c, file + FEM.RequestLine(a, c).value);
      && p.Ok?
      && p.value.transverseFlangeThickness == a.input[5]
      && p.value.transverseFlangeWidth == a.input[6]
  {
    RequestReachesPanel(a, c, file);
  }

  // ---------------------------------------------------------------------------
  // output.csv: panel script to adapter

  /** The adapter reads the panel script's output file as exactly two
      numbers: the peak stress and the mass. */
  lemma PanelOutputParsed(c: FloatCodec, peak: SP.Peak, mass: real)
    requires PythonFloat(c) && Exact(c, mass) && (peak.Stress? ==> Exact(c, peak.value))
    ensures FEM.ReadLines(SP.OutputText(c, peak, mass)) == [SP.ShowPeak(c, peak), c.show(mass)]
    ensures FEM.ParsedOutputs(c, 2, SP.OutputText(c, peak, mass)) == [FEM.Num(peak.Value()), FEM.Num(mass)]
  {
    SP.OutputLines(c, peak, mass);
    var a := SP.ShowPeak(c, peak);
    var b := c.show(mass);
    assert Plain(a);
    RStripPlain(a);
    RStripPlain(b);
    assert FEM.ReadLines(SP.OutputText(c, peak, mass)) == [a, b];
  }

  lemma PanelOutputNumbers(c: FloatCodec, peak: SP.Peak, mass: real)
    requires PythonFloat(c) && Exact(c, mass) && (peak.Stress? ==> Exact(c, peak.value))
    ensures |FEM.ReadLines(SP.OutputText(c, peak, mass))| == 2
    ensures FEM.ParsedOutputs(c, 2, SP.OutputText(c, peak, mass)) == [FEM.Num(peak.Value()), FEM.Num(mass)]
  {
    PanelOutputParsed(c, peak, mass);
  }

  /** `_evaluate` against any solver whose output file reads as a stress
      line and a mass line: the objective step sees exactly those numbers,
      and the request row of the spliced, repaired design is written. */
  lemma OptimizerReadsOutputs(d: PO.Driver, c: FloatCodec, x: seq<real>, text: string, stress: real, mass: real)
    requires d.Valid() && |x| == NVar && |d.variables| == SP.FieldCount
    requires |FEM.ReadLines(text)| == 2 && FEM.ParsedOutputs(c, 2, text) == [FEM.Num(stress), FEM.Num(mass)]
    ensures var s := PO.EvaluateCandidate(d, c, x, FEM.Exited(Some(text)));
      var r := Repair(x);
      && s.result == Ok(PO.Objectives([FEM.Num(mass)], [stress - PO.StressLimit, r[LongitudinalHeight] - r[TransverseHeight]]))
      && s.driver.historyFile == d.historyFile + PO.HistoryRow(c, [FEM.Num(stress), FEM.Num(mass)])
      && s.driver.inputFile == d.inputFile + FEM.RequestLine(d.adapter.(input := r + d.variables[NVar..]), c).value
  {
    var outcome := FEM.Exited(Some(text));
    var vars := Repair(x) + d.variables[NVar..];
    FEM.EvaluateSucceeds(d.adapter, c, d.inputFile, Some(vars), outcome);
    PO.CandidateWithOutputs(d, c, x, outcome, stress, FEM.Num(mass));
  }

  /** `OptimizerReadsOutputs` for the panel script's output file. */
  lemma OptimizerMeetsPanelText(d: PO.Driver, c: FloatCodec, x: seq<real>, peak: SP.Peak, mass: real)
    requires d.Valid() && |x| == NVar && |d.variables| == SP.FieldCount
    requires |FEM.ReadLines(SP.OutputText(c, peak, mass))| == 2
    requires FEM.ParsedOutputs(c, 2, SP.OutputText(c, peak, mass)) == [FEM.Num(peak.Value()), FEM.Num(mass)]
    ensures var s := PO.EvaluateCandidate(d, c, x, FEM.Exited(Some(SP.OutputText(c, peak, mass))));
      var r := Repair(x);
      && s.result == Ok(PO.Objectives([FEM.Num(mass)], [peak.Value() - PO.StressLimit, r[LongitudinalHeight] - r[TransverseHeight]]))
      && s.driver.historyFile == d.historyFile + PO.HistoryRow(c, [FEM.Num(peak.Value()), FEM.Num(mass)])
      && s.driver.inputFile == d.inputFile + FEM.RequestLine(d.adapter.(input := r + d.variables[NVar..]), c).value
  {
    OptimizerReadsOutputs(d, c, x, SP.OutputText(c, peak, mass), peak.Value(), mass);
  }

  /** One `_evaluate` of the current optimiser against the panel script:
      when the script writes a peak stress and a mass, the candidate's
      objective is that mass, its constraints are the stress margin and the
      height gap, and history.csv gains the row of those two numbers. */
  lemma OptimizerMeetsPanel(d: PO.Driver, c: FloatCodec, x: seq<real>, peak: SP.Peak, mass: real)
    requires d.Valid() && |x| == NVar && |d.variables| == SP.FieldCount
    requires PythonFloat(c) && Exact(c, mass) && (peak.Stress? ==> Exact(c, peak.value))
    ensures var s := PO.EvaluateCandidate(d, c, x, FEM.Exited(Some(SP.OutputText(c, peak, mass))));
      var r := Repair(x);
      && s.result == Ok(PO.Objectives([FEM.Num(mass)], [peak.Value() - PO.StressLimit, r[LongitudinalHeight] - r[TransverseHeight]]))
      && s.driver.historyFile == d.historyFile + PO.HistoryRow(c, [FEM.Num(peak.Value()), FEM.Num(mass)])
      && s.driver.inputFile == d.inputFile + FEM.RequestLine(d.adapter.(input := r + d.variables[NVar..]), c).value
  {
    PanelOutputNumbers(c, peak, mass);
    OptimizerMeetsPanelText(d, c, x, peak, mass);
  }

  /** The request row of that `_evaluate`, read by the panel script: the
      spliced, repaired design with whole stiffener counts. */
  lemma OptimizerRequestReachesPanel(d: PO.Driver, c: FloatCodec, x: seq<real>, outcome: FEM.RunOutcome)
    requires d.Valid() && |x| == NVar && |d.variables| == SP.FieldCount
    requires AllExact(c, Repair(x) + d.variables[NVar..]) && Terminated(d.inputFile)
    ensures var r := Repair(x);
      var a := d.adapter.(input := r + d.variables[NVar..]);
      && FEM.RequestLine(a, c).Ok?
      && var p := SP.ParseRequest(c, d.inputFile + FEM.RequestLine(a, c).value);
      && p == Ok(SP.PanelOf(r + d.variables[NVar..]))
      && p.value.transverseCount == RoundHalfEven(x[TransverseCount])
      && p.value.longitudinalCount == RoundHalfEven(x[LongitudinalCount])
      && p.value.longitudinalHeight < p.value.transverseHeight
  {
    var r := Repair(x);
    var vars := r + d.variables[NVar..];
    RequestReachesPanel(d.adapter.(input := vars), c, d.inputFile);
    SP.PanelOfRoundedCounts(vars, RoundHalfEven(x[TransverseCount]), RoundHalfEven(x[LongitudinalCount]));
  }

  // ---------------------------------------------------------------------------
  // generations.csv: optimiser to viewer

  /** The viewer's run-length expansion of the generations.csv a run
      writes: one label per evaluation, as many as the last `n_eval`, and
      evaluation k labelled with the generation during which it was made. */
  lemma GenerationsRoundTrip(c: FloatCodec, gens: seq<PO.Generation>)
    requires PythonFloat(c) && V.Counting(gens, 0)
    requires forall i :: 0 <= i < |gens| ==> PO.WellFormedPopulation(gens[i])
    ensures PO.LogAll(PO.RunLog([], ""), gens).Ok?
    ensures var file := PO.LogAll(PO.RunLog([], ""), gens).value.generationsFile;
      var r := V.Expand(c, FEM.ReadLines(file), 0.0);
      && r.Ok?
      && |r.value| == V.CountBefore(gens, |gens|, 0)
      && V.RunsOf(r.value, gens, 0)
  {
    LogFileLines(gens);
    V.ExpandLog(c, gens, 0);
  }

  /** generations.csv, read line by line, is the logged lines themselves. */
  lemma LogFileLines(gens: seq<PO.Generation>)
    requires forall i :: 0 <= i < |gens| ==> PO.WellFormedPopulation(gens[i])
    ensures PO.LogAll(PO.RunLog([], ""), gens).Ok?
    ensures FEM.ReadLines(PO.LogAll(PO.RunLog([], ""), gens).value.generationsFile) == PO.LogLines(gens)
  {
    PO.LogAllLines(PO.RunLog([], ""), gens);
    var file := PO.LogAll(PO.RunLog([], ""), gens).value.generationsFile;
    var lines := PO.LogLines(gens);
    PO.LogLinesAt(gens);
    assert SplitLines(file) == lines by {
      assert SplitLines("") == [];
    }
    forall i | 0 <= i < |lines|
      ensures RStrip(lines[i]) == lines[i]
    {
      LineEndsInDigit(gens[i]);
    }
    StrippedLines(file, lines);
  }

  /** Lines that `rstrip` leaves alone are read as they are. */
  lemma StrippedLines(content: string, lines: seq<string>)
    requires SplitLines(content) == lines
    requires forall i :: 0 <= i < |lines| ==> RStrip(lines[i]) == lines[i]
    ensures FEM.ReadLines(content) == lines
  {
  }

  lemma LineEndsInDigit(g: PO.Generation)
    ensures RStrip(PO.GenerationLine(g)) == PO.GenerationLine(g)
  {
    var b := IntToString(g.nEval);
    var line := PO.GenerationLine(g);
    assert line[|line| - 1] == b[|b| - 1];
    V.RStripKeeps(line);
  }

  // ---------------------------------------------------------------------------
  // The archived optimisers

  /** The archived CS3/CS4 request row has the layout the panel script's
      19-field reader expects: given the row, that reader would take it as
      the design followed by the fixed pressure, mesh sizes and panel size.
      The archived optimisers themselves hand the row to their own solver
      script, which is not part of this model. */
  lemma ArchiveRequestReachesPanel(c: FloatCodec, r: seq<real>, file: string)
    requires |r| == NVar && AllExact(c, r) && Exact(c, AO.FixedMesh) && PythonFloat(c)
    requires Terminated(file)
    ensures SP.ParseRequest(c, file + AO.RequestRow(c, r)) == Ok(SP.PanelOf(AO.RequestValues(r)))
  {
    var line := AO.RequestLine(c, r);
    AO.RequestRowRoundTrip(c, r);
    ReadsRow(c, file, line, AO.RequestValues(r));
    Regroup(file, line, "\n");
  }

  /** The row of the archived stand-alone script holds only the eleven
      design values and a trailing comma, so the panel script's 19-field
      reader would reject it with ValueError on the empty twelfth field. */
  lemma ScriptRequestRejected(c: FloatCodec, r: seq<real>, file: string)
    requires |r| == NVar && AllExact(c, r) && PythonFloat(c)
    requires Terminated(file)
    ensures SP.ParseRequest(c, file + AO.ScriptRow(c, r)) == Err(ValueError)
  {
    AO.ScriptRowFields(c, r);
    var line := FEM.CommaTerminated(ShowAll(c, r));
    ShowAllNoSep(c, r, '\n');
    assert '\n' !in line by {
      FEM.JoinHasNoSep(ShowAll(c, r), ',', '\n');
      assert line == Join(ShowAll(c, r), ',') + ",";
    }
    ReadsLastLine(c, file, line);
    Regroup(file, line, "\n");
    var fields := Split(line, ',');
    assert fields[NVar] == "";
    assert c.parse(fields[NVar]) == None;
    assert SP.ReadFields(c, fields, SP.FieldCount).Err?;
  }

  /** An archived `_evaluate` given output text in the format the panel
      script writes: the result is that peak stress and mass, and the viewer
      reads the history row back as those two numbers and, for CS4, the
      weld length. */
  lemma ArchiveMeetsPanelAndViewer(p: AO.Problem, c: FloatCodec, inputFile: string, historyFile: string,
                                   x: seq<real>, peak: SP.Peak, mass: real)
    requires |x| == NVar
    requires PythonFloat(c) && Exact(c, mass) && (peak.Stress? ==> Exact(c, peak.value))
    requires Exact(c, AO.WeldLength(Repair(x)))
    ensures var s := AO.EvaluateArchive(p, c, inputFile, historyFile, x, Some(SP.OutputText(c, peak, mass)));
      var row := AO.ArchiveHistoryRow(p, c, Repair(x), [SP.ShowPeak(c, peak), c.show(mass)]);
      && s.result == Ok(AO.ObjectivesOf(p, Repair(x), peak.Value(), mass))
      && s.historyFile == historyFile + row
      && V.ParseRow(c, row[..|row| - 1])
         == Ok(V.HistoryEntry(peak.Value(), mass, if p.CS4? then Some(AO.WeldLength(Repair(x))) else None))
  {
    var r := Repair(x);
    var lines := [SP.ShowPeak(c, peak), c.show(mass)];
    PanelOutputParsed(c, peak, mass);
    SP.OutputLines(c, peak, mass);
    var weld := if p.CS4? then Some(AO.WeldLength(r)) else None;
    V.ViewerReadsArchiveRow(c, lines[0], lines[1], weld);
    var row := AO.ArchiveHistoryRow(p, c, r, lines);
    assert row[..|row| - 1] == lines[0] + "," + lines[1] + (if weld.Some? then "," + c.show(weld.value) else "");
  }
}
