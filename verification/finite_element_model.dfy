/** The solver adapter of FiniteElementModel.py: it appends one request row to
    the solver's input file, launches the external solver, reads one output
    line per declared key and keeps an append-only history of every
    (input, output) pair. The adapter's state is an immutable record; every
    operation returns the next state. The external run is a parameter, so each
    property holds for every outcome the solver could produce. */
module FiniteElementModel {
  import opened Results
  import opened Text
  import opened FloatText

  /** One slot of the output array: still unset (`np.empty(dtype=object)`
      holds None), a number, or the raw text of a line `float()` rejected. */
  datatype OutVal = Unset | Num(value: real) | Raw(text: string)

  /** Raw text in a slot came from one line of the output file. */
  predicate NoBreak(o: OutVal) {
    o.Raw? ==> '\n' !in o.text
  }

  datatype Status = Uninitialized | Succeeded | Failed(reason: string)

  /** A history entry: copies of the input and output arrays. */
  datatype Snapshot = Snapshot(input: seq<real>, output: seq<OutVal>)

  datatype Adapter = Adapter(
    model: string,
    inputKeys: seq<string>,
    outputKeys: seq<string>,
    input: seq<real>,
    output: seq<OutVal>,
    history: seq<Snapshot>,
    status: Status)
  {
    /** The output array keeps the length it was created with, and raw
        text in it is one line of the output file. */
    predicate Valid() {
      |output| == |outputKeys| && forall i :: 0 <= i < |output| ==> NoBreak(output[i])
    }
  }

  /** What launching the solver can come to: the process was started and
      waited for (its exit code is never looked at), leaving the output file
      present or absent; or starting/communicating raised. */
  datatype RunOutcome = Exited(outputFile: Option<string>) | LaunchFailed(message: string)

  /** The result of `read`: the next state and the exception it raised, if any. */
  datatype ReadStep = ReadStep(adapter: Adapter, raised: Option<Error>)

  /** The result of `evaluate`: next state, next content of the input file,
      and the returned history entry or the exception. */
  datatype EvalStep = EvalStep(adapter: Adapter, inputFile: string, result: Result<Snapshot>)

  /** The result of `save`: next content of the file, and the exception. */
  datatype SaveStep = SaveStep(file: string, raised: Option<Error>)

  function Init(model: string, inputKeys: seq<string>, outputKeys: seq<string>): (a: Adapter)
    ensures a.Valid() && |a.input| == |inputKeys|
    ensures forall i :: 0 <= i < |a.input| ==> a.input[i] == 0.0
    ensures forall i :: 0 <= i < |a.output| ==> a.output[i] == Unset
    ensures a.history == [] && a.status == Uninitialized
  {
    Adapter(model, inputKeys, outputKeys,
            seq(|inputKeys|, _ => 0.0), seq(|outputKeys|, _ => Unset), [], Uninitialized)
  }

  // ---------------------------------------------------------------------------
  // write

  /** The loop of `write` from index `i` on: each value, then a comma unless
      the index is the last index of the INPUT array (not of the keys). */
  function RowFrom(c: FloatCodec, v: seq<real>, i: nat, k: nat): string
    requires i <= k <= |v|
    decreases k - i
  {
    if i == k then ""
    else c.show(v[i]) + (if i != |v| - 1 then "," else "") + RowFrom(c, v, i + 1, k)
  }

  /** The line `write` appends, or IndexError when the input array is
      shorter than the key list (nothing is written then). */
  function RequestLine(a: Adapter, c: FloatCodec): (r: Result<string>)
    ensures r.Ok? <==> |a.input| >= |a.inputKeys|
    ensures r.Err? ==> r.error == IndexError
    ensures r.Ok? ==> |r.value| > 0 && r.value[|r.value| - 1] == '\n'
  {
    if |a.input| < |a.inputKeys| then Err(IndexError)
    else Ok(RowFrom(c, a.input, 0, |a.inputKeys|) + "\n")
  }

  lemma {:induction false} RowFromJoin(c: FloatCodec, v: seq<real>, i: nat, k: nat)
    requires i < k <= |v|
    ensures RowFrom(c, v, i, k) == Join(ShowAll(c, v[i..k]), ',') + (if k < |v| then "," else "")
    decreases k - i
  {
    var shown := ShowAll(c, v[i..k]);
    if i == k - 1 {
      assert shown == [c.show(v[i])];
    } else {
      RowFromJoin(c, v, i + 1, k);
      assert shown[1..] == ShowAll(c, v[i + 1..k]);
    }
  }

  /** `write` appends exactly one line of `len(input_keys)` comma-separated
      values; it has no trailing comma exactly when the input array is as long
      as the key list, and one when the input array is longer. */
  lemma WriteFormat(a: Adapter, c: FloatCodec)
    requires |a.input| >= |a.inputKeys| >= 1
    ensures RequestLine(a, c).Ok?
    ensures |a.input| == |a.inputKeys| ==>
      RequestLine(a, c).value == Join(ShowAll(c, a.input), ',') + "\n"
    ensures |a.input| > |a.inputKeys| ==>
      RequestLine(a, c).value == Join(ShowAll(c, a.input[..|a.inputKeys|]), ',') + ",\n"
  {
    RowFromJoin(c, a.input, 0, |a.inputKeys|);
    assert a.input[0..|a.input|] == a.input;
  }

  /** Only the NUMBER of input keys matters to `write`: their labels are never read. */
  lemma WriteIgnoresKeyNames(a: Adapter, c: FloatCodec, keys: seq<string>)
    requires |keys| == |a.inputKeys|
    ensures RequestLine(a.(inputKeys := keys), c) == RequestLine(a, c)
  {
  }

  // ---------------------------------------------------------------------------
  // run

  /** `run`: "success" once the process has been waited for, whatever it did;
      "failed: ..." when launching or communicating raised. */
  function Run(a: Adapter, outcome: RunOutcome): (r: Adapter)
    ensures r.status == Succeeded <==> outcome.Exited?
    ensures outcome.LaunchFailed? ==> r.status == Failed("failed: " + outcome.message)
    ensures r == a.(status := r.status)
  {
    match outcome
    case Exited(_) => a.(status := Succeeded)
    case LaunchFailed(msg) => a.(status := Failed("failed: " + msg))
  }

  // ---------------------------------------------------------------------------
  // read

  /** The lines of a file as `[line.rstrip() for line in file]` yields them. */
  function ReadLines(content: string): (lines: seq<string>)
    ensures |lines| == |SplitLines(content)|
    ensures forall i :: 0 <= i < |lines| ==> lines[i] == RStrip(SplitLines(content)[i])
    ensures forall i :: 0 <= i < |lines| ==> '\n' !in lines[i]
  {
    var raw := SplitLines(content);
    seq(|raw|, i requires 0 <= i < |raw| => RStrip(raw[i]))
  }

  /** `float(line)`, falling back to the raw text. */
  function ParseOut(c: FloatCodec, line: string): (o: OutVal)
    ensures c.parse(line).Some? ==> o == Num(c.parse(line).value)
    ensures c.parse(line).None? ==> o == Raw(line)
  {
    match c.parse(line)
    case Some(x) => Num(x)
    case None => Raw(line)
  }

  /** `read`. With status "success": slot i becomes `float(lines[i])` (or the
      raw line) for each declared key in order, and a file with fewer lines
      than keys raises IndexError after the slots it did reach were filled.
      With any other status: RuntimeError and nothing changes. */
  function Read(a: Adapter, c: FloatCodec, outputFile: Option<string>): (r: ReadStep)
    requires a.Valid()
    ensures r.adapter.Valid()
    ensures r.adapter == a.(output := r.adapter.output)
    ensures a.status != Succeeded ==> r.adapter == a && r.raised.Some? && r.raised.value.RuntimeError?
    ensures a.status == Succeeded && outputFile.None? ==> r.adapter == a && r.raised.Some? && r.raised.value.OSError?
    ensures a.status == Succeeded && outputFile.Some? ==>
      var lines := ReadLines(outputFile.value);
      && (r.raised.None? <==> |lines| >= |a.outputKeys|)
      && (r.raised.Some? ==> r.raised.value == IndexError)
      && (forall i :: 0 <= i < |a.outputKeys| && i < |lines| ==> r.adapter.output[i] == ParseOut(c, lines[i]))
      && (forall i :: |lines| <= i < |a.outputKeys| ==> r.adapter.output[i] == a.output[i])
  {
    if a.status != Succeeded then
      ReadStep(a, Some(RuntimeError("Cannot read output: Model execution failed.")))
    else if outputFile.None? then
      ReadStep(a, Some(MissingFile))
    else
      var lines := ReadLines(outputFile.value);
      var k := |a.outputKeys|;
      var out := seq(k, i requires 0 <= i < k => if i < |lines| then ParseOut(c, lines[i]) else a.output[i]);
      ReadStep(a.(output := out), if |lines| < k then Some(IndexError) else None)
  }

  // ---------------------------------------------------------------------------
  // backup, return_history, evaluate

  function Backup(a: Adapter): (r: Adapter)
    ensures r == a.(history := r.history)
    ensures r.history == a.history + [Snapshot(a.input, a.output)]
  {
    a.(history := a.history + [Snapshot(a.input, a.output)])
  }

  /** `history[-n:][0]`: the n-th entry from the end, the first entry when
      n is 0 or reaches past the start, IndexError on an empty history. */
  function ReturnHistory(a: Adapter, n: nat): (r: Result<Snapshot>)
    ensures r.Ok? <==> |a.history| > 0
    ensures r.Ok? && 1 <= n <= |a.history| ==> r.value == a.history[|a.history| - n]
    ensures r.Ok? && (n == 0 || n > |a.history|) ==> r.value == a.history[0]
  {
    if |a.history| == 0 then Err(IndexError)
    else if n == 0 || n >= |a.history| then Ok(a.history[0])
    else Ok(a.history[|a.history| - n])
  }

  /** `evaluate(*args)`: optionally replace the input, write, run, read,
      back up, return the newest history entry. */
  function Evaluate(a: Adapter, c: FloatCodec, inputFile: string, args: Option<seq<real>>, outcome: RunOutcome): (r: EvalStep)
    requires a.Valid()
    ensures r.adapter.Valid()
    ensures r.adapter.inputKeys == a.inputKeys && r.adapter.outputKeys == a.outputKeys
    // history is append-only, and grows by one exactly when a value is returned
    ensures |r.adapter.history| == |a.history| + (if r.result.Ok? then 1 else 0)
    ensures r.adapter.history[..|a.history|] == a.history
    ensures r.result.Ok? ==> r.result.value == r.adapter.history[|a.history|]
    ensures r.result.Ok? ==> r.result.value.input == (if args.Some? then args.value else a.input)
    ensures r.result.Ok? ==> r.result.value.output == r.adapter.output
    // the request row is appended before the solver runs, even when reading fails;
    // only an input array shorter than the keys leaves the file alone
    ensures var a1 := if args.Some? then a.(input := args.value) else a;
      && (RequestLine(a1, c).Ok? ==> r.inputFile == inputFile + RequestLine(a1, c).value)
      && (RequestLine(a1, c).Err? ==> r.inputFile == inputFile && r.result == Err(IndexError))
  {
    var a1 := if args.Some? then a.(input := args.value) else a;
    match RequestLine(a1, c)
    case Err(e) => EvalStep(a1, inputFile, Err(e))
    case Ok(line) =>
      var file := inputFile + line;
      var a2 := Run(a1, outcome);
      var rd := Read(a2, c, if outcome.Exited? then outcome.outputFile else None);
      if rd.raised.Some? then EvalStep(rd.adapter, file, Err(rd.raised.value))
      else
        var a3 := Backup(rd.adapter);
        EvalStep(a3, file, ReturnHistory(a3, 1))
  }

  /** The outputs `evaluate` reads from a solver output file of `content`. */
  function ParsedOutputs(c: FloatCodec, keys: nat, content: string): seq<OutVal>
    requires |ReadLines(content)| >= keys
  {
    var lines := ReadLines(content);
    seq(keys, i requires 0 <= i < keys => ParseOut(c, lines[i]))
  }

  /** When `evaluate` returns, and what it returns: it succeeds exactly when
      the input array covers the keys, the solver ran, and its output file
      has a line per output key; the new entry pairs the input written with
      the outputs parsed, and the input file gained exactly the request line. */
  lemma EvaluateSucceeds(a: Adapter, c: FloatCodec, inputFile: string, args: Option<seq<real>>, outcome: RunOutcome)
    requires a.Valid()
    ensures
      var input := if args.Some? then args.value else a.input;
      var r := Evaluate(a, c, inputFile, args, outcome);
      && (r.result.Ok? <==>
            |input| >= |a.inputKeys| && outcome.Exited? && outcome.outputFile.Some?
            && |ReadLines(outcome.outputFile.value)| >= |a.outputKeys|)
      && (r.result.Ok? ==>
            && r.result.value == Snapshot(input, ParsedOutputs(c, |a.outputKeys|, outcome.outputFile.value))
            && r.inputFile == inputFile + RequestLine(a.(input := input), c).value
            && r.adapter.status == Succeeded)
  {
  }

  /** A failed launch: RuntimeError from `read`, status "failed: ...", no
      history entry — but the request row was already appended. */
  lemma EvaluateLaunchFailure(a: Adapter, c: FloatCodec, inputFile: string, v: seq<real>, msg: string)
    requires a.Valid() && |v| >= |a.inputKeys|
    ensures
      var r := Evaluate(a, c, inputFile, Some(v), LaunchFailed(msg));
      && r.result.Err? && r.result.error.RuntimeError?
      && r.adapter.history == a.history
      && r.adapter.status == Failed("failed: " + msg)
      && r.inputFile == inputFile + RequestLine(a.(input := v), c).value
  {
  }

  /** Entries already in the history never change, whatever later calls pass
      in: `backup` stores copies, so re-using the input array is harmless. */
  lemma {:induction false} HistoryIsStable(a: Adapter, c: FloatCodec, f: string, v1: seq<real>, o1: RunOutcome, v2: seq<real>, o2: RunOutcome)
    requires a.Valid()
    requires Evaluate(a, c, f, Some(v1), o1).result.Ok?
    ensures
      var r1 := Evaluate(a, c, f, Some(v1), o1);
      var r2 := Evaluate(r1.adapter, c, r1.inputFile, Some(v2), o2);
      && r2.adapter.history[|a.history|] == r1.result.value
      && r2.adapter.history[|a.history|].input == v1
  {
    var r1 := Evaluate(a, c, f, Some(v1), o1);
    EvaluateSucceeds(a, c, f, Some(v1), o1);
    var r2 := Evaluate(r1.adapter, c, r1.inputFile, Some(v2), o2);
    assert r2.adapter.history[..|r1.adapter.history|] == r1.adapter.history;
    assert r2.adapter.history[|a.history|] == r2.adapter.history[..|r1.adapter.history|][|a.history|];
  }

  // ---------------------------------------------------------------------------
  // save

  /** `str()` of an output slot. */
  function ShowOut(c: FloatCodec, o: OutVal): string
  {
    match o
    case Unset => "None"
    case Num(x) => c.show(x)
    case Raw(t) => t
  }

  /** `str()` of a slot read from a file stays on one line. */
  lemma ShowOutOneLine(c: FloatCodec, o: OutVal)
    requires PlainShow(c) && NoBreak(o)
    ensures '\n' !in ShowOut(c, o)
  {
    if o.Num? {
      assert Plain(c.show(o.value));
    }
  }

  /** Every item followed by a comma. */
  function CommaTerminated(items: seq<string>): (s: string)
    ensures |items| == 0 ==> s == ""
    ensures |items| >= 1 ==> s == Join(items, ',') + ","
  {
    if |items| == 0 then "" else
      var rest := CommaTerminated(items[1..]);
      assert |items| >= 2 ==> Join(items, ',') == items[0] + [','] + Join(items[1..], ',');
      items[0] + "," + rest
  }

  function ShowOuts(c: FloatCodec, os: seq<OutVal>): (r: seq<string>)
    ensures |r| == |os| && forall i :: 0 <= i < |os| ==> r[i] == ShowOut(c, os[i])
  {
    seq(|os|, i requires 0 <= i < |os| => ShowOut(c, os[i]))
  }

  /** `save(path, *args)`: each output followed by ",", then — only when an
      extra argument is passed — `len(input_keys)` inputs each followed by
      ",", then "\n". An input array shorter than the keys raises IndexError
      after the outputs and the inputs it had were written. */
  function Save(a: Adapter, c: FloatCodec, file: string, withInputs: bool): (r: SaveStep)
    ensures !withInputs ==> r == SaveStep(file + CommaTerminated(ShowOuts(c, a.output)) + "\n", None)
    ensures withInputs && |a.input| >= |a.inputKeys| ==>
      r == SaveStep(file + CommaTerminated(ShowOuts(c, a.output)) + CommaTerminated(ShowAll(c, a.input[..|a.inputKeys|])) + "\n", None)
    ensures withInputs && |a.input| < |a.inputKeys| ==>
      r == SaveStep(file + CommaTerminated(ShowOuts(c, a.output)) + CommaTerminated(ShowAll(c, a.input)), Some(IndexError))
  {
    var outs := CommaTerminated(ShowOuts(c, a.output));
    if !withInputs then SaveStep(file + outs + "\n", None)
    else if |a.input| >= |a.inputKeys| then
      SaveStep(file + outs + CommaTerminated(ShowAll(c, a.input[..|a.inputKeys|])) + "\n", None)
    else
      SaveStep(file + outs + CommaTerminated(ShowAll(c, a.input)), Some(IndexError))
  }

  // ---------------------------------------------------------------------------
  // load_extern

  /** `[float(x) for x in fields]`: ValueError at the first field that does not parse. */
  function ParseAll(c: FloatCodec, fields: seq<string>): (r: Result<seq<real>>)
    ensures r.Ok? <==> forall i :: 0 <= i < |fields| ==> c.parse(fields[i]).Some?
    ensures r.Ok? ==> |r.value| == |fields| && forall i :: 0 <= i < |fields| ==> r.value[i] == c.parse(fields[i]).value
    ensures r.Err? ==> r.error == ValueError
  {
    if |fields| == 0 then Ok([])
    else match c.parse(fields[0])
      case None => Err(ValueError)
      case Some(x) =>
        match ParseAll(c, fields[1..])
        case Err(e) => Err(e)
        case Ok(xs) => Ok([x] + xs)
  }

  /** `load_extern`: the values of the LAST line of the file; `None` is a
      file that is not there, which `open()` rejects. */
  function LoadExtern(c: FloatCodec, file: Option<string>): (r: Result<seq<real>>)
    ensures file.None? ==> r == Err(MissingFile)
    ensures file.Some? && |SplitLines(file.value)| == 0 ==> r == Err(IndexError)
    ensures file.Some? && |SplitLines(file.value)| > 0 ==>
      r == ParseAll(c, Split(SplitLines(file.value)[|SplitLines(file.value)| - 1], ','))
  {
    if file.None? then Err(MissingFile)
    else
      var lines := SplitLines(file.value);
      if |lines| == 0 then Err(IndexError)
      else ParseAll(c, Split(lines[|lines| - 1], ','))
  }

  lemma ParseAllShown(c: FloatCodec, xs: seq<real>)
    requires AllExact(c, xs)
    ensures ParseAll(c, ShowAll(c, xs)) == Ok(xs)
  {
    var r := ParseAll(c, ShowAll(c, xs));
    assert r.Ok?;
    assert r.value == xs;
  }

  /** `load_extern` on a file whose last line came from `write` returns that
      line's values, in order, whatever the earlier lines hold. */
  lemma LoadExternAfterWrite(a: Adapter, c: FloatCodec, file: string)
    requires |a.input| == |a.inputKeys| >= 1
    requires AllExact(c, a.input)
    requires Terminated(file)
    ensures RequestLine(a, c).Ok?
    ensures LoadExtern(c, Some(file + RequestLine(a, c).value)) == Ok(a.input)
  {
    WriteFormat(a, c);
    var fields := ShowAll(c, a.input);
    var row := Join(fields, ',');
    ShowAllNoSep(c, a.input, ',');
    ShowAllNoSep(c, a.input, '\n');
    JoinHasNoSep(fields, ',', '\n');
    AppendLine(file, row);
    assert file + RequestLine(a, c).value == file + row + "\n";
    SplitJoin(fields, ',');
    ParseAllShown(c, a.input);
  }

  lemma {:induction false} JoinHasNoSep(fields: seq<string>, sep: char, other: char)
    requires NoSep(fields, other) && sep != other
    ensures other !in Join(fields, sep)
    decreases |fields|
  {
    if |fields| >= 2 {
      JoinHasNoSep(fields[1..], sep, other);
    }
  }

  /** The quirk of `write`'s separator test: an input array longer than the
      key list leaves a trailing comma, and `load_extern` then fails on the
      empty last field. */
  lemma LoadExternRejectsLongInput(a: Adapter, c: FloatCodec, file: string)
    requires |a.input| > |a.inputKeys| >= 1
    requires AllExact(c, a.input)
    requires PythonFloat(c)
    requires Terminated(file)
    ensures RequestLine(a, c).Ok?
    ensures LoadExtern(c, Some(file + RequestLine(a, c).value)) == Err(ValueError)
  {
    WriteFormat(a, c);
    var k := |a.inputKeys|;
    var fields := ShowAll(c, a.input[..k]);
    assert AllExact(c, a.input[..k]);
    var row := Join(fields, ',') + ",";
    ShowAllNoSep(c, a.input[..k], ',');
    ShowAllNoSep(c, a.input[..k], '\n');
    JoinHasNoSep(fields, ',', '\n');
    AppendLine(file, row);
    assert file + RequestLine(a, c).value == file + row + "\n";
    assert row == Join(fields, ',') + [','] + "";
    SplitAround(Join(fields, ','), "", ',');
    SplitJoin(fields, ',');
    var parts := Split(row, ',');
    assert parts == fields + [""];
    assert c.parse(parts[|parts| - 1]) == None;
  }
}
