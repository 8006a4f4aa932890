/** The archived plotting script archive/GenerationViewer.py, up to its
    plots: history.csv read into mass and stress, generations.csv run-length
    expanded as in the viewer, results.csv read as the best values, and all
    three series cut to the number of labels. */
module GenerationViewer {
  import opened Results
  import opened Text
  import opened FloatText
  import FEM = FiniteElementModel
  import V = Viewer

  /** The series the script plots. */
  datatype Plot = Plot(generations: seq<int>, mass: seq<real>, stress: seq<real>, best: seq<real>)

  /** The mass and stress columns: field 1 and field 0 of every row; fields
      after the second are never looked at. */
  function ParseHistory(c: FloatCodec, lines: seq<string>): (r: Result<(seq<real>, seq<real>)>)
    ensures r.Ok? ==> |r.value.0| == |lines| && |r.value.1| == |lines|
    decreases |lines|
  {
    if |lines| == 0 then Ok(([], []))
    else
      var sm :- V.StressMass(c, Split(lines[0], ','));
      var rest :- ParseHistory(c, lines[1..]);
      Ok(([sm.1] + rest.0, [sm.0] + rest.1))
  }

  /** The script: the three files are opened in turn, results.csv is parsed
      as it is read, then the history rows, then the expansion. */
  function Load(c: FloatCodec, history: Option<string>, generations: Option<string>, results: Option<string>)
    : (r: Result<Plot>)
    ensures history.None? || generations.None? || results.None? ==> r == Err(MissingFile)
    ensures r.Ok? ==>
      && history.Some? && generations.Some? && results.Some?
      && V.Expand(c, FEM.ReadLines(generations.value), 0.0) == Ok(r.value.generations)
      && var n := |r.value.generations|;
      && var h := ParseHistory(c, FEM.ReadLines(history.value));
      && var best := FEM.ParseAll(c, FEM.ReadLines(results.value));
      && h.Ok? && best.Ok?
      && r.value.mass == V.Prefix(h.value.0, n)
      && r.value.stress == V.Prefix(h.value.1, n)
      && r.value.best == V.Prefix(best.value, n)
    ensures r.Ok? <==>
      && history.Some? && generations.Some? && results.Some?
      && FEM.ParseAll(c, FEM.ReadLines(results.value)).Ok?
      && ParseHistory(c, FEM.ReadLines(history.value)).Ok?
      && V.Expand(c, FEM.ReadLines(generations.value), 0.0).Ok?
    ensures history.Some? && generations.Some? && results.Some? ==>
      var best := FEM.ParseAll(c, FEM.ReadLines(results.value));
      var h := ParseHistory(c, FEM.ReadLines(history.value));
      var e := V.Expand(c, FEM.ReadLines(generations.value), 0.0);
      && (best.Err? ==> r == Err(best.error))
      && (best.Ok? && h.Err? ==> r == Err(h.error))
      && (best.Ok? && h.Ok? && e.Err? ==> r == Err(e.error))
  {
    if history.None? || generations.None? || results.None? then Err(MissingFile)
    else
      var best :- FEM.ParseAll(c, FEM.ReadLines(results.value));
      var hist :- ParseHistory(c, FEM.ReadLines(history.value));
      var labels :- V.Expand(c, FEM.ReadLines(generations.value), 0.0);
      var n := |labels|;
      Ok(Plot(labels, V.Prefix(hist.0, n), V.Prefix(hist.1, n), V.Prefix(best, n)))
  }

  /** Whatever the viewer reads from history.csv, this script reads too,
      with the same mass and stress columns. */
  lemma {:induction false} ViewersAgree(c: FloatCodec, lines: seq<string>)
    requires V.ParseHistory(c, lines).Ok?
    ensures ParseHistory(c, lines).Ok?
    ensures ParseHistory(c, lines).value.0 == V.ParseHistory(c, lines).value.mass
    ensures ParseHistory(c, lines).value.1 == V.ParseHistory(c, lines).value.stress
    decreases |lines|
  {
    if |lines| > 0 {
      ViewersAgree(c, lines[1..]);
    }
  }

  /** The columns line up with the rows: history.csv is read exactly when
      every row has two numeric leading fields, and then entry i of mass and
      stress is row i's field 1 and field 0. */
  lemma {:induction false} ParseHistoryColumns(c: FloatCodec, lines: seq<string>)
    ensures ParseHistory(c, lines).Ok? <==>
      forall i :: 0 <= i < |lines| ==> V.StressMass(c, Split(lines[i], ',')).Ok?
    ensures ParseHistory(c, lines).Ok? ==> forall i :: 0 <= i < |lines| ==>
      && ParseHistory(c, lines).value.0[i] == V.StressMass(c, Split(lines[i], ',')).value.1
      && ParseHistory(c, lines).value.1[i] == V.StressMass(c, Split(lines[i], ',')).value.0
    decreases |lines|
  {
    if |lines| > 0 {
      ParseHistoryColumns(c, lines[1..]);
      assert forall i :: 1 <= i < |lines| ==> lines[1..][i - 1] == lines[i];
    }
  }

  /** A history.csv made of `save` rows, one (stress, mass) pair per row,
      appended in order. */
  function SaveRows(c: FloatCodec, rows: seq<(real, real)>): string
    decreases |rows|
  {
    if |rows| == 0 then ""
    else
      var last := rows[|rows| - 1];
      SaveRows(c, rows[..|rows| - 1]) + V.SaveLine(c, last.0, last.1) + "\n"
  }

  /** The `save` lines of the rows, in order. */
  function SaveLines(c: FloatCodec, rows: seq<(real, real)>): (lines: seq<string>)
    ensures |lines| == |rows|
    ensures forall i :: 0 <= i < |rows| ==> lines[i] == V.SaveLine(c, rows[i].0, rows[i].1)
  {
    seq(|rows|, i requires 0 <= i < |rows| => V.SaveLine(c, rows[i].0, rows[i].1))
  }

  /** Read back, a file of `save` rows is those rows, one line each. */
  lemma {:induction false} SaveRowsLines(c: FloatCodec, rows: seq<(real, real)>)
    requires forall i :: 0 <= i < |rows| ==> Exact(c, rows[i].0) && Exact(c, rows[i].1)
    ensures Terminated(SaveRows(c, rows))
    ensures FEM.ReadLines(SaveRows(c, rows)) == SaveLines(c, rows)
    decreases |rows|
  {
    if |rows| > 0 {
      var init := rows[..|rows| - 1];
      var last := rows[|rows| - 1];
      SaveRowsLines(c, init);
      var line := V.SaveLine(c, last.0, last.1);
      SaveLineKept(c, last.0, last.1);
      ReadsAppended(SaveRows(c, init), line);
      SaveLinesSnoc(c, rows);
    }
  }

  /** A `save` line is one line that `rstrip` leaves alone. */
  lemma SaveLineKept(c: FloatCodec, stress: real, mass: real)
    requires Exact(c, stress) && Exact(c, mass)
    ensures '\n' !in V.SaveLine(c, stress, mass)
    ensures RStrip(V.SaveLine(c, stress, mass)) == V.SaveLine(c, stress, mass)
  {
    V.SaveLineSplit(c, stress, mass);
    V.RStripKeeps(V.SaveLine(c, stress, mass));
  }

  /** The lines of all rows are those of all but the last, then the last's. */
  lemma SaveLinesSnoc(c: FloatCodec, rows: seq<(real, real)>)
    requires |rows| > 0
    ensures SaveLines(c, rows) == SaveLines(c, rows[..|rows| - 1])
      + [V.SaveLine(c, rows[|rows| - 1].0, rows[|rows| - 1].1)]
  {
  }

  /** Appending a line that `rstrip` leaves alone adds exactly that line to
      what is read back. */
  lemma ReadsAppended(file: string, line: string)
    requires Terminated(file) && '\n' !in line && RStrip(line) == line
    ensures Terminated(file + line + "\n")
    ensures FEM.ReadLines(file + line + "\n") == FEM.ReadLines(file) + [line]
  {
    AppendLine(file, line);
  }

  /** The script reads the rows `save` writes, which the viewer rejects:
      every row's empty field after the trailing comma is never parsed, so
      the columns are the saved masses and stresses. */
  lemma AcceptsSaveRows(c: FloatCodec, rows: seq<(real, real)>)
    requires PythonFloat(c)
    requires forall i :: 0 <= i < |rows| ==> Exact(c, rows[i].0) && Exact(c, rows[i].1)
    ensures var lines := FEM.ReadLines(SaveRows(c, rows));
      && ParseHistory(c, lines).Ok?
      && |ParseHistory(c, lines).value.0| == |rows|
      && (forall i :: 0 <= i < |rows| ==>
            ParseHistory(c, lines).value.0[i] == rows[i].1 && ParseHistory(c, lines).value.1[i] == rows[i].0)
      && (|rows| > 0 ==> V.ParseHistory(c, lines) == Err(ValueError))
  {
    var lines := FEM.ReadLines(SaveRows(c, rows));
    SaveRowsLines(c, rows);
    forall i | 0 <= i < |rows|
      ensures V.StressMass(c, Split(lines[i], ',')) == Ok(rows[i])
    {
      SaveLineRead(c, rows[i].0, rows[i].1);
    }
    ParseHistoryColumns(c, lines);
    if |rows| > 0 {
      SaveLineRejected(c, rows[0].0, rows[0].1, lines);
    }
  }

  /** This script reads a `save` line's first two fields as the stress and
      the mass. */
  lemma SaveLineRead(c: FloatCodec, stress: real, mass: real)
    requires Exact(c, stress) && Exact(c, mass)
    ensures V.StressMass(c, Split(V.SaveLine(c, stress, mass), ',')) == Ok((stress, mass))
  {
    V.SaveLineSplit(c, stress, mass);
  }

  /** The viewer stops at a first line written by `save`. */
  lemma SaveLineRejected(c: FloatCodec, stress: real, mass: real, lines: seq<string>)
    requires PythonFloat(c) && Exact(c, stress) && Exact(c, mass)
    requires |lines| > 0 && lines[0] == V.SaveLine(c, stress, mass)
    ensures V.ParseHistory(c, lines) == Err(ValueError)
  {
    V.ViewerRejectsSaveRows(c, stress, mass, "");
  }
}
