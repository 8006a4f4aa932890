/** The optimisation driver of Optimizer.py: the problem `_evaluate`
    (repair, splice into the 19-value request, solver call through the
    adapter, objective and constraints, history.csv row), the sequence of
    `_evaluate` calls the optimiser makes, and the per-generation log. The
    evolutionary search itself is library code and is not modelled: a run is
    a sequence of candidates and of solver outcomes. */
module PanelOptimizer {
  import opened Results
  import opened Text
  import opened FloatText
  import opened DesignRepair
  import FEM = FiniteElementModel

  /** Labels handed to the adapter; only their number is ever used. */
  const InputKeys: seq<string> := ["nTS", "nLS", "tP", "hTS", "tTS", "wTF", "tTF", "hLS", "tLS", "tLF", "wLF",
                                   "P", "mP", "mTS", "mTF", "mLS", "mLF", "W", "L"]
  const OutputKeys: seq<string> := ["sVM", "m"]

  /** Allowable von Mises stress, 175 MPa. */
  const StressLimit: real := 175000000.0

  const CurrentBounds: Bounds := Bounds(
    [2.0, 2.0, 0.005, 0.05, 0.005, 0.005, 0.010, 0.010, 0.005, 0.005, 0.010],
    [9.0, 14.0, 0.075, 1.00, 0.075, 0.050, 0.750, 0.950, 0.075, 0.075, 0.500])

  /** The candidate's box keeps its shape under repair; a clamped
      longitudinal height lands in [0.0499, 0.95). */
  lemma CurrentRepairInBounds(x: seq<real>)
    requires CurrentBounds.Contains(x)
    ensures CurrentBounds.Contains(Repair(x))
    ensures Repaired(Repair(x))
    ensures x[LongitudinalHeight] >= x[TransverseHeight] ==>
      0.0499 <= Repair(x)[LongitudinalHeight] < 0.95
  {
    RepairStaysInBounds(CurrentBounds, x);
    RepairIdempotent(x);
  }

  /** The worked example: 7.3 and 5.6 stiffeners become 7 and 6. */
  lemma RepairScenario()
    ensures Repair([7.3, 5.6, 0.02, 0.45, 0.02, 0.02, 0.25, 0.4, 0.01, 0.01, 0.175])
         == [7.0, 6.0, 0.02, 0.45, 0.02, 0.02, 0.25, 0.4, 0.01, 0.01, 0.175]
  {
  }

  // ---------------------------------------------------------------------------
  // One evaluation

  /** `variables[0:11] = x`: the design overwrites the first eleven request
      values; pressure, mesh sizes and panel size stay as loaded. A shorter
      array cannot take the 11 values (numpy raises ValueError). */
  function Splice(variables: seq<real>, x: seq<real>): (r: Result<seq<real>>)
    requires |x| == NVar
    ensures r.Ok? <==> |variables| >= NVar
    ensures r.Ok? ==> |r.value| == |variables| && r.value[..NVar] == x && r.value[NVar..] == variables[NVar..]
    ensures r.Err? ==> r.error == ValueError
  {
    if |variables| < NVar then Err(ValueError) else Ok(x + variables[NVar..])
  }

  /** `out["F"]` and `out["G"]` as `_evaluate` sets them. F holds the mass
      slot as the adapter read it: a number, or the text `float()` rejected
      (`f1 = mass` does no arithmetic, so text passes through). */
  datatype Objectives = Objectives(f: seq<FEM.OutVal>, g: seq<real>)

  /** All inequality constraints satisfied (g <= 0). */
  predicate Feasible(o: Objectives) {
    forall i :: 0 <= i < |o.g| ==> o.g[i] <= 0.0
  }

  /** `f1 = mass`, `g1 = stress - 1.75e8`, `g2 = x[7] - x[3]`. Only the
      stress enters arithmetic: a stress that stayed text (or None) raises
      TypeError, while the mass is passed on whatever it holds. */
  function Derive(stress: FEM.OutVal, mass: FEM.OutVal, r: seq<real>): (o: Result<Objectives>)
    requires |r| == NVar
    ensures o.Ok? <==> stress.Num?
    ensures o.Err? ==> o.error == TypeError
    ensures o.Ok? ==> o.value.f == [mass] && |o.value.g| == 2
  {
    if stress.Num? then
      Ok(Objectives([mass], [stress.value - StressLimit, r[LongitudinalHeight] - r[TransverseHeight]]))
    else Err(TypeError)
  }

  /** For a repaired design the height constraint always holds, so a
      candidate is feasible exactly when its stress is within the limit —
      whatever its mass. */
  lemma FeasibleIffStressWithinLimit(s: real, m: real, x: seq<real>)
    requires |x| == NVar
    ensures Derive(FEM.Num(s), FEM.Num(m), Repair(x)).Ok?
    ensures Feasible(Derive(FEM.Num(s), FEM.Num(m), Repair(x)).value) <==> s <= StressLimit
    ensures Derive(FEM.Num(s), FEM.Num(m), Repair(x)).value.f == [FEM.Num(m)]
  {
    var o := Derive(FEM.Num(s), FEM.Num(m), Repair(x)).value;
    if s > StressLimit {
      assert o.g[0] > 0.0;
    }
  }

  /** Stress 2.0e8 gives g1 = 2.5e7 > 0: infeasible, for every mass. */
  lemma OverstressScenario(m: real, x: seq<real>)
    requires |x| == NVar
    ensures Derive(FEM.Num(200000000.0), FEM.Num(m), Repair(x)).value.g[0] == 25000000.0
    ensures !Feasible(Derive(FEM.Num(200000000.0), FEM.Num(m), Repair(x)).value)
  {
    FeasibleIffStressWithinLimit(200000000.0, m, x);
  }

  /** The optimiser's state around the problem: the adapter, the solver's
      input file, history.csv, and the 19-value request array. */
  datatype Driver = Driver(adapter: FEM.Adapter, inputFile: string, historyFile: string, variables: seq<real>)
  {
    predicate Valid() {
      adapter.inputKeys == InputKeys && adapter.outputKeys == OutputKeys && adapter.Valid()
    }
  }

  datatype Step = Step(driver: Driver, result: Result<Objectives>)

  /** The row `save` adds to history.csv for an adapter with these outputs.
      It is newline-terminated; for outputs read from a file (numbers, or
      text from a single line) it is exactly one line. */
  function HistoryRow(c: FloatCodec, outputs: seq<FEM.OutVal>): (row: string)
    ensures |row| > 0 && row[|row| - 1] == '\n'
    ensures PlainShow(c) && (forall i :: 0 <= i < |outputs| ==> FEM.NoBreak(outputs[i])) ==>
      '\n' !in row[..|row| - 1]
  {
    var line := FEM.CommaTerminated(FEM.ShowOuts(c, outputs));
    ShownRowOneLine(c, outputs);
    assert (line + "\n")[..|line|] == line;
    line + "\n"
  }

  /** `_evaluate(x)`. */
  function EvaluateCandidate(d: Driver, c: FloatCodec, x: seq<real>, outcome: FEM.RunOutcome): (s: Step)
    requires d.Valid() && |x| == NVar
    ensures s.driver.Valid()
    ensures |s.driver.variables| == |d.variables|
    ensures |d.variables| >= NVar ==> s.driver.variables[NVar..] == d.variables[NVar..]
    // `_evaluate` returns exactly when the adapter returns a snapshot whose stress is a
    // number; a mass that stayed text does not stop it
    ensures s.result.Ok? <==>
      && |d.variables| >= NVar
      && var e := FEM.Evaluate(d.adapter, c, d.inputFile, Some(Repair(x) + d.variables[NVar..]), outcome);
      && e.result.Ok? && e.result.value.output[0].Num?
    // the adapter's history is append-only; it gains the spliced repaired design whenever
    // `_evaluate` returns (and also when only the stress arithmetic fails)
    ensures |d.adapter.history| <= |s.driver.adapter.history| <= |d.adapter.history| + 1
    ensures s.driver.adapter.history[..|d.adapter.history|] == d.adapter.history
    ensures s.result.Ok? ==> |s.driver.adapter.history| == |d.adapter.history| + 1 && |d.variables| >= NVar
    ensures s.result.Ok? ==> s.driver.adapter.history[|d.adapter.history|].input == Repair(x) + d.variables[NVar..]
    // history.csv gains one row exactly when `_evaluate` returns normally
    ensures s.result.Err? ==> s.driver.historyFile == d.historyFile
  {
    var r := Repair(x);
    match Splice(d.variables, r)
    case Err(e) => Step(d, Err(e))
    case Ok(vars) =>
      assert vars == r + d.variables[NVar..] by { assert vars == vars[..NVar] + vars[NVar..]; }
      Conclude(d, c, r, vars, FEM.Evaluate(d.adapter, c, d.inputFile, Some(vars), outcome))
  }

  /** With room for the design, `_evaluate` is the adapter call on the
      spliced, repaired design followed by the objective step. */
  lemma CandidateConcludes(d: Driver, c: FloatCodec, x: seq<real>, outcome: FEM.RunOutcome)
    requires d.Valid() && |x| == NVar && |d.variables| >= NVar
    ensures var vars := Repair(x) + d.variables[NVar..];
      EvaluateCandidate(d, c, x, outcome)
      == Conclude(d, c, Repair(x), vars, FEM.Evaluate(d.adapter, c, d.inputFile, Some(vars), outcome))
  {
    var vars := Repair(x) + d.variables[NVar..];
    assert Splice(d.variables, Repair(x)) == Ok(vars);
  }

  /** What `_evaluate` leaves behind when it returns for the repaired design
      `r`: one new snapshot, whose outputs are the adapter's and whose stress
      is a number; exactly their row appended to history.csv; f the mass slot
      as read, and g the stress margin and the height difference. */
  predicate Returned(d: Driver, c: FloatCodec, r: seq<real>, s: Step)
    requires |r| == NVar
  {
    && s.result.Ok?
    && |s.driver.adapter.history| == |d.adapter.history| + 1
    && var out := s.driver.adapter.history[|d.adapter.history|].output;
    && out == s.driver.adapter.output
    && |out| == 2 && out[0].Num?
    && s.driver.historyFile == d.historyFile + HistoryRow(c, out)
    && s.result.value == Objectives([out[1]], [out[0].value - StressLimit, r[LongitudinalHeight] - r[TransverseHeight]])
  }

  lemma ConcludeReturns(d: Driver, c: FloatCodec, r: seq<real>, vars: seq<real>, e: FEM.EvalStep)
    requires |r| == NVar
    requires e.result.Ok? ==>
      && |e.adapter.history| == |d.adapter.history| + 1
      && e.result.value == e.adapter.history[|d.adapter.history|]
      && e.result.value.output == e.adapter.output
      && |e.result.value.output| == 2
    ensures Conclude(d, c, r, vars, e).result.Ok? ==> Returned(d, c, r, Conclude(d, c, r, vars, e))
  {
  }

  /** A return whose snapshot holds the given stress and mass. */
  lemma ReturnedWith(d: Driver, c: FloatCodec, r: seq<real>, s: Step, stress: real, mass: FEM.OutVal)
    requires |r| == NVar && Returned(d, c, r, s)
    requires s.driver.adapter.history[|d.adapter.history|].output == [FEM.Num(stress), mass]
    ensures s.result == Ok(Objectives([mass], [stress - StressLimit, r[LongitudinalHeight] - r[TransverseHeight]]))
    ensures s.driver.historyFile == d.historyFile + HistoryRow(c, [FEM.Num(stress), mass])
  {
  }

  /** `_evaluate` when the adapter hands back a numeric stress: it returns
      whatever the mass slot holds, with F the mass as read — text included —
      and history.csv gains the row of both slots. */
  lemma CandidateWithOutputs(d: Driver, c: FloatCodec, x: seq<real>, outcome: FEM.RunOutcome, stress: real, mass: FEM.OutVal)
    requires d.Valid() && |x| == NVar && |d.variables| >= NVar
    requires var e := FEM.Evaluate(d.adapter, c, d.inputFile, Some(Repair(x) + d.variables[NVar..]), outcome);
      && e.result == Ok(FEM.Snapshot(Repair(x) + d.variables[NVar..], [FEM.Num(stress), mass]))
      && e.adapter.history[|d.adapter.history|] == e.result.value
    ensures var s := EvaluateCandidate(d, c, x, outcome);
      var r := Repair(x);
      && s.result == Ok(Objectives([mass], [stress - StressLimit, r[LongitudinalHeight] - r[TransverseHeight]]))
      && s.driver.historyFile == d.historyFile + HistoryRow(c, [FEM.Num(stress), mass])
      && s.driver.inputFile == FEM.Evaluate(d.adapter, c, d.inputFile, Some(r + d.variables[NVar..]), outcome).inputFile
  {
    var r := Repair(x);
    var vars := r + d.variables[NVar..];
    var e := FEM.Evaluate(d.adapter, c, d.inputFile, Some(vars), outcome);
    CandidateConcludes(d, c, x, outcome);
    var s := EvaluateCandidate(d, c, x, outcome);
    assert s == Conclude(d, c, r, vars, e);
    CandidateObjectives(d, c, x, outcome);
    ReturnedWith(d, c, r, s, stress, mass);
  }

  /** When `_evaluate` returns, the adapter's newest snapshot holds a
      numeric stress; history.csv gains exactly the row of both outputs, f is
      the mass slot as read, and g the stress margin and the height
      difference of the repaired design. */
  lemma CandidateObjectives(d: Driver, c: FloatCodec, x: seq<real>, outcome: FEM.RunOutcome)
    requires d.Valid() && |x| == NVar
    ensures EvaluateCandidate(d, c, x, outcome).result.Ok? ==> Returned(d, c, Repair(x), EvaluateCandidate(d, c, x, outcome))
  {
    if |d.variables| >= NVar {
      var vars := Repair(x) + d.variables[NVar..];
      CandidateConcludes(d, c, x, outcome);
      ConcludeReturns(d, c, Repair(x), vars, FEM.Evaluate(d.adapter, c, d.inputFile, Some(vars), outcome));
    }
  }

  /** The part of `_evaluate` after the adapter answered: the objective
      arithmetic, then the history.csv row. */
  function Conclude(d: Driver, c: FloatCodec, r: seq<real>, vars: seq<real>, e: FEM.EvalStep): (s: Step)
    requires |r| == NVar
    requires e.result.Ok? ==> |e.result.value.output| == 2
    ensures s.driver.adapter == e.adapter && s.driver.inputFile == e.inputFile && s.driver.variables == vars
    ensures s.result.Ok? <==> e.result.Ok? && e.result.value.output[0].Num?
    ensures s.result.Err? ==> s.driver.historyFile == d.historyFile
    ensures s.result.Ok? ==>
      var out := e.result.value.output;
      && out[0].Num?
      && s.driver.historyFile == d.historyFile + HistoryRow(c, e.adapter.output)
      && s.result.value.f == [out[1]]
      && s.result.value.g == [out[0].value - StressLimit, r[LongitudinalHeight] - r[TransverseHeight]]
  {
    var d1 := Driver(e.adapter, e.inputFile, d.historyFile, vars);
    match e.result
    case Err(err) => Step(d1, Err(err))
    case Ok(data) =>
      match Derive(data.output[0], data.output[1], r)
      case Err(err) => Step(d1, Err(err))
      case Ok(o) => Step(d1.(historyFile := FEM.Save(e.adapter, c, d.historyFile, false).file), Ok(o))
  }

  /** The comma-terminated outputs read from a file hold no line break:
      numbers print without one, and raw text came from a single line. */
  lemma ShownRowOneLine(c: FloatCodec, out: seq<FEM.OutVal>)
    ensures PlainShow(c) && (forall i :: 0 <= i < |out| ==> FEM.NoBreak(out[i])) ==>
      '\n' !in FEM.CommaTerminated(FEM.ShowOuts(c, out))
  {
    if PlainShow(c) && (forall i :: 0 <= i < |out| ==> FEM.NoBreak(out[i])) {
      var items := FEM.ShowOuts(c, out);
      forall i | 0 <= i < |items|
        ensures '\n' !in items[i]
      {
        FEM.ShowOutOneLine(c, out[i]);
      }
      if |items| >= 1 {
        FEM.JoinHasNoSep(items, ',', '\n');
      }
    }
  }

  // ---------------------------------------------------------------------------
  // A run: `_evaluate` on each candidate in turn, aborting at the first exception

  datatype Drive = Drive(driver: Driver, objectives: seq<Objectives>, failure: Option<Error>)

  predicate AllDesigns(xs: seq<seq<real>>) {
    forall i :: 0 <= i < |xs| ==> |xs[i]| == NVar
  }

  function RunCandidates(d: Driver, c: FloatCodec, xs: seq<seq<real>>, outcomes: seq<FEM.RunOutcome>): (r: Drive)
    requires d.Valid() && AllDesigns(xs) && |xs| == |outcomes|
    ensures r.driver.Valid()
    decreases |xs|
  {
    if |xs| == 0 then Drive(d, [], None)
    else
      var s := EvaluateCandidate(d, c, xs[0], outcomes[0]);
      if s.result.Err? then Drive(s.driver, [], Some(s.result.error))
      else
        var rest := RunCandidates(s.driver, c, xs[1..], outcomes[1..]);
        Drive(rest.driver, [s.result.value] + rest.objectives, rest.failure)
  }

  /** A run stops exactly at the first failure, and never touches the
      pressure, mesh and panel-size values of the request array. */
  lemma {:induction false} RunStopsAtFirstFailure(d: Driver, c: FloatCodec, xs: seq<seq<real>>, outcomes: seq<FEM.RunOutcome>)
    requires d.Valid() && AllDesigns(xs) && |xs| == |outcomes|
    requires |d.variables| >= NVar
    ensures
      var r := RunCandidates(d, c, xs, outcomes);
      && |r.objectives| <= |xs|
      && (r.failure.None? <==> |r.objectives| == |xs|)
      && |r.driver.variables| == |d.variables|
      && r.driver.variables[NVar..] == d.variables[NVar..]
    decreases |xs|
  {
    if |xs| > 0 {
      var s := EvaluateCandidate(d, c, xs[0], outcomes[0]);
      if s.result.Ok? {
        RunStopsAtFirstFailure(s.driver, c, xs[1..], outcomes[1..]);
      }
    }
  }

  /** The `n` history entries from index `h` on are the first `n` designs,
      repaired and followed by `tail`. */
  predicate EntriesAre(hist: seq<FEM.Snapshot>, h: nat, xs: seq<seq<real>>, n: nat, tail: seq<real>)
    requires AllDesigns(xs) && n <= |xs|
  {
    h + n <= |hist| && forall i :: 0 <= i < n ==> hist[h + i].input == Repair(xs[i]) + tail
  }

  /** One evaluation's entry in front of the entries of the rest of the run. */
  lemma EntriesCons(hist: seq<FEM.Snapshot>, mid: seq<FEM.Snapshot>, h: nat, xs: seq<seq<real>>, m: nat,
                    tail: seq<real>, tail2: seq<real>)
    requires AllDesigns(xs) && m < |xs| && tail2 == tail
    requires |mid| == h + 1 && mid[h].input == Repair(xs[0]) + tail
    requires |mid| <= |hist| && hist[..|mid|] == mid
    requires EntriesAre(hist, |mid|, xs[1..], m, tail2)
    ensures EntriesAre(hist, h, xs, m + 1, tail)
  {
    assert hist[h] == hist[..|mid|][h];
    forall i | 1 <= i < m + 1
      ensures hist[h + i].input == Repair(xs[i]) + tail
    {
      assert xs[1..][i - 1] == xs[i];
    }
  }

  /** The adapter's history during a run: nothing earlier changes, and the
      i-th new entry is the i-th candidate, repaired and spliced into the
      loaded request. One more entry exists only when the last solver
      output could not enter the objective arithmetic. */
  lemma {:induction false} RunHistoryEntries(d: Driver, c: FloatCodec, xs: seq<seq<real>>, outcomes: seq<FEM.RunOutcome>)
    requires d.Valid() && AllDesigns(xs) && |xs| == |outcomes|
    requires |d.variables| >= NVar
    ensures
      var r := RunCandidates(d, c, xs, outcomes);
      var h := |d.adapter.history|;
      && |r.objectives| <= |xs|
      && h + |r.objectives| <= |r.driver.adapter.history| <= h + |r.objectives| + 1
      && (r.failure.None? ==> |r.driver.adapter.history| == h + |r.objectives|)
      && r.driver.adapter.history[..h] == d.adapter.history
      && EntriesAre(r.driver.adapter.history, h, xs, |r.objectives|, d.variables[NVar..])
    decreases |xs|
  {
    var r := RunCandidates(d, c, xs, outcomes);
    var h := |d.adapter.history|;
    if |xs| == 0 {
      assert r.driver.adapter.history[..h] == d.adapter.history;
    } else {
      var s := EvaluateCandidate(d, c, xs[0], outcomes[0]);
      if s.result.Ok? {
        var rest := RunCandidates(s.driver, c, xs[1..], outcomes[1..]);
        assert r == Drive(rest.driver, [s.result.value] + rest.objectives, rest.failure);
        RunHistoryEntries(s.driver, c, xs[1..], outcomes[1..]);
        EntriesAfterReturn(d.adapter.history, s.driver.adapter.history, rest, xs,
                           d.variables[NVar..], s.driver.variables[NVar..]);
      } else {
        assert r == Drive(s.driver, [], Some(s.result.error));
      }
    }
  }

  /** The history facts of a run whose first evaluation returned, from those
      of the rest of the run: `mid` is the history after the first
      evaluation, `r` the rest of the run's final driver. */
  lemma EntriesAfterReturn(old0: seq<FEM.Snapshot>, mid: seq<FEM.Snapshot>, r: Drive, xs: seq<seq<real>>,
                           tail: seq<real>, tail2: seq<real>)
    requires AllDesigns(xs) && |xs| > 0 && tail2 == tail
    requires |mid| == |old0| + 1 && mid[..|old0|] == old0 && mid[|old0|].input == Repair(xs[0]) + tail
    requires
      var k := |mid|;
      && |r.objectives| <= |xs| - 1
      && k + |r.objectives| <= |r.driver.adapter.history| <= k + |r.objectives| + 1
      && (r.failure.None? ==> |r.driver.adapter.history| == k + |r.objectives|)
      && r.driver.adapter.history[..k] == mid
      && EntriesAre(r.driver.adapter.history, k, xs[1..], |r.objectives|, tail2)
    ensures
      var h := |old0|;
      var n := |r.objectives| + 1;
      && h + n <= |r.driver.adapter.history| <= h + n + 1
      && (r.failure.None? ==> |r.driver.adapter.history| == h + n)
      && r.driver.adapter.history[..h] == old0
      && EntriesAre(r.driver.adapter.history, h, xs, n, tail)
  {
    var hist := r.driver.adapter.history;
    assert hist[..|old0|] == hist[..|mid|][..|old0|];
    EntriesCons(hist, mid, |old0|, xs, |r.objectives|, tail, tail2);
  }

  /** history.csv gains exactly one line per evaluation that returned. */
  lemma {:induction false} RunHistoryFile(d: Driver, c: FloatCodec, xs: seq<seq<real>>, outcomes: seq<FEM.RunOutcome>)
    requires d.Valid() && AllDesigns(xs) && |xs| == |outcomes|
    requires PlainShow(c) && Terminated(d.historyFile)
    ensures
      var r := RunCandidates(d, c, xs, outcomes);
      && |SplitLines(r.driver.historyFile)| == |SplitLines(d.historyFile)| + |r.objectives|
      && Terminated(r.driver.historyFile)
    decreases |xs|
  {
    if |xs| > 0 {
      var s := EvaluateCandidate(d, c, xs[0], outcomes[0]);
      HistoryFileStep(d, c, xs[0], outcomes[0]);
      if s.result.Ok? {
        RunHistoryFile(s.driver, c, xs[1..], outcomes[1..]);
      }
    }
  }

  /** One returning evaluation appends one line to history.csv. */
  lemma HistoryFileStep(d: Driver, c: FloatCodec, x: seq<real>, outcome: FEM.RunOutcome)
    requires d.Valid() && |x| == NVar
    requires PlainShow(c) && Terminated(d.historyFile)
    ensures var s := EvaluateCandidate(d, c, x, outcome);
      s.result.Ok? ==>
        && |SplitLines(s.driver.historyFile)| == |SplitLines(d.historyFile)| + 1
        && Terminated(s.driver.historyFile)
  {
    var s := EvaluateCandidate(d, c, x, outcome);
    if s.result.Ok? {
      CandidateObjectives(d, c, x, outcome);
      var out := s.driver.adapter.history[|d.adapter.history|].output;
      ShownRowOneLine(c, out);
      AppendLine(d.historyFile, FEM.CommaTerminated(FEM.ShowOuts(c, out)));
    }
  }

  // ---------------------------------------------------------------------------
  // Per-generation bookkeeping

  /** Python's `min(range(len(F)), key=F.__getitem__)` scanned from index
      `i` with the best index so far: a later index wins only when strictly smaller. */
  function ScanMin(F: seq<real>, i: nat, best: nat): (k: nat)
    requires best < i <= |F|
    requires forall j :: 0 <= j < i ==> F[best] <= F[j]
    requires forall j :: 0 <= j < best ==> F[j] > F[best]
    ensures k < |F|
    ensures forall j :: 0 <= j < |F| ==> F[k] <= F[j]
    ensures forall j :: 0 <= j < k ==> F[j] > F[k]
    decreases |F| - i
  {
    if i == |F| then best
    else if F[i] < F[best] then ScanMin(F, i + 1, i)
    else ScanMin(F, i + 1, best)
  }

  /** The first index of a minimal objective value. */
  function FirstArgmin(F: seq<real>): (k: nat)
    requires |F| > 0
    ensures k < |F|
    ensures forall j :: 0 <= j < |F| ==> F[k] <= F[j]
    ensures forall j :: 0 <= j < k ==> F[j] > F[k]
  {
    ScanMin(F, 1, 0)
  }

  /** The population after one `algorithm.next()`: the generation counter,
      the evaluation counter, one objective value and one design per member. */
  datatype Generation = Generation(nGen: int, nEval: int, F: seq<real>, X: seq<seq<real>>)

  /** What the loop accumulates: `best` and the content of generations.csv. */
  datatype RunLog = RunLog(best: seq<seq<real>>, generationsFile: string)

  /** The generations.csv line for one generation: `n_gen - 1,n_eval`. It is
      one line, and splits back into the label and the count. */
  function GenerationLine(g: Generation): (line: string)
    ensures '\n' !in line
    ensures Split(line, ',') == [IntToString(g.nGen - 1), IntToString(g.nEval)]
  {
    var a := IntToString(g.nGen - 1);
    var b := IntToString(g.nEval);
    var line := a + [','] + b;
    assert '\n' !in line by {
      forall j | 0 <= j < |line|
        ensures line[j] != '\n'
      {
        if j < |a| {
          assert line[j] == a[j];
        } else if j > |a| {
          assert line[j] == b[j - |a| - 1];
        }
      }
    }
    SplitAround(a, b, ',');
    SplitWithoutSep(a, ',');
    SplitWithoutSep(b, ',');
    line
  }

  /** One loop iteration: append the design at the first minimal F, log the line. */
  function LogGeneration(log: RunLog, g: Generation): (r: Result<RunLog>)
    ensures |g.F| == 0 ==> r == Err(ValueError)
    ensures r.Ok? <==> 0 < |g.F| && FirstArgmin(g.F) < |g.X|
    ensures r.Ok? ==> r.value.best == log.best + [g.X[FirstArgmin(g.F)]]
    ensures r.Ok? ==> r.value.generationsFile == log.generationsFile + GenerationLine(g) + "\n"
  {
    if |g.F| == 0 then Err(ValueError)
    else
      var k := FirstArgmin(g.F);
      if k >= |g.X| then Err(IndexError)
      else Ok(RunLog(log.best + [g.X[k]], log.generationsFile + GenerationLine(g) + "\n"))
  }

  /** A population pymoo hands back: non-empty, one design per objective value. */
  predicate WellFormedPopulation(g: Generation) {
    0 < |g.F| && |g.F| == |g.X|
  }

  /** A generation the loop body can log: F is non-empty and its first
      argmin indexes a design. */
  predicate Loggable(g: Generation) {
    0 < |g.F| && FirstArgmin(g.F) < |g.X|
  }

  /** The `while` loop over the generations: it raises exactly when some
      generation cannot be logged; otherwise `best` gains one design per
      generation, after the designs it already held. */
  function LogAll(log: RunLog, gens: seq<Generation>): (r: Result<RunLog>)
    ensures r.Ok? <==> forall i :: 0 <= i < |gens| ==> Loggable(gens[i])
    ensures r.Ok? ==> |r.value.best| == |log.best| + |gens| && r.value.best[..|log.best|] == log.best
    decreases |gens|
  {
    if |gens| == 0 then Ok(log)
    else match LogGeneration(log, gens[0])
      case Err(e) => Err(e)
      case Ok(next) => LogAll(next, gens[1..])
  }

  /** The design `best` records for a generation. */
  function Best(g: Generation): seq<real>
    requires WellFormedPopulation(g)
  {
    g.X[FirstArgmin(g.F)]
  }

  /** The lines of generations.csv, one per generation. */
  function LogLines(gens: seq<Generation>): seq<string>
    decreases |gens|
  {
    if |gens| == 0 then [] else [GenerationLine(gens[0])] + LogLines(gens[1..])
  }

  /** Line i of the log is generation i's line. */
  lemma {:induction false} LogLinesAt(gens: seq<Generation>)
    ensures |LogLines(gens)| == |gens|
    ensures forall i :: 0 <= i < |gens| ==> LogLines(gens)[i] == GenerationLine(gens[i])
    decreases |gens|
  {
    if |gens| > 0 {
      LogLinesAt(gens[1..]);
    }
  }

  /** The designs `best` records, one per generation. */
  function Bests(gens: seq<Generation>): seq<seq<real>>
    requires forall i :: 0 <= i < |gens| ==> WellFormedPopulation(gens[i])
  {
    seq(|gens|, i requires 0 <= i < |gens| && WellFormedPopulation(gens[i]) => Best(gens[i]))
  }

  lemma BestsCons(gens: seq<Generation>)
    requires |gens| > 0 && forall i :: 0 <= i < |gens| ==> WellFormedPopulation(gens[i])
    ensures Bests(gens) == [Best(gens[0])] + Bests(gens[1..])
  {
  }

  /** One generation of the loop: it logs, then the rest of the run follows. */
  lemma LogAllStep(log: RunLog, gens: seq<Generation>)
    requires |gens| > 0 && WellFormedPopulation(gens[0])
    ensures LogGeneration(log, gens[0]).Ok?
    ensures LogAll(log, gens) == LogAll(LogGeneration(log, gens[0]).value, gens[1..])
  {
  }

  /** Over a whole run, generations.csv gets exactly one `n_gen - 1,n_eval`
      line per generation, in order. */
  lemma {:induction false} LogAllLines(log: RunLog, gens: seq<Generation>)
    requires Terminated(log.generationsFile)
    requires forall i :: 0 <= i < |gens| ==> WellFormedPopulation(gens[i])
    ensures LogAll(log, gens).Ok?
    ensures SplitLines(LogAll(log, gens).value.generationsFile) == SplitLines(log.generationsFile) + LogLines(gens)
    ensures Terminated(LogAll(log, gens).value.generationsFile)
    decreases |gens|
  {
    if |gens| > 0 {
      LogAllStep(log, gens);
      var line := GenerationLine(gens[0]);
      var next := LogGeneration(log, gens[0]).value;
      AppendLine(log.generationsFile, line);
      LogAllLines(next, gens[1..]);
      AppendOne(SplitLines(log.generationsFile), line, LogLines(gens[1..]));
    }
  }

  /** ... and `best` gains one design per generation: the one at the first
      minimal objective value. */
  lemma {:induction false} LogAllBests(log: RunLog, gens: seq<Generation>)
    requires forall i :: 0 <= i < |gens| ==> WellFormedPopulation(gens[i])
    ensures LogAll(log, gens).Ok?
    ensures LogAll(log, gens).value.best == log.best + Bests(gens)
    decreases |gens|
  {
    if |gens| > 0 {
      LogAllStep(log, gens);
      var next := LogGeneration(log, gens[0]).value;
      LogAllBests(next, gens[1..]);
      BestsCons(gens);
      AppendOne(log.best, Best(gens[0]), Bests(gens[1..]));
    }
  }
}
