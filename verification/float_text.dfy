/** Python's `str(x)` / `float(s)` pair for floating-point values, kept
    abstract: the model is parametric in a codec and states, per value, the
    one property it relies on — that the text written for the value reads
    back as the same value and can sit inside a comma-separated line. */
module FloatText {
  import opened Results
  import opened Text

  /** `show` plays `str` on a float, `parse` plays `float()` on text
      (`None` where Python raises ValueError). */
  datatype FloatCodec = FloatCodec(show: real -> string, parse: string -> Option<real>)

  /** `x` is written exactly: `float(str(x)) == x`, and `str(x)` contains
      neither a comma nor whitespace. */
  predicate Exact(c: FloatCodec, x: real) {
    c.parse(c.show(x)) == Some(x) && Plain(c.show(x))
  }

  predicate AllExact(c: FloatCodec, xs: seq<real>) {
    forall i :: 0 <= i < |xs| ==> Exact(c, xs[i])
  }

  /** The two facts about Python's `float()` the scripts meet: it rejects
      the empty string, and it reads a decimal integer as that integer. */
  ghost predicate PythonFloat(c: FloatCodec) {
    c.parse("") == None && forall n: int :: ReadsInt(c, n)
  }

  /** `float(str(n)) == n` for one integer. */
  predicate ReadsInt(c: FloatCodec, n: int) {
    c.parse(IntToString(n)) == Some(n as real)
  }

  /** `str(x)` of a float never contains a comma or whitespace. */
  ghost predicate PlainShow(c: FloatCodec) {
    forall x: real :: Plain(c.show(x))
  }

  /** `str(x)` for every element. */
  function ShowAll(c: FloatCodec, xs: seq<real>): (r: seq<string>)
    ensures |r| == |xs|
    ensures forall i :: 0 <= i < |xs| ==> r[i] == c.show(xs[i])
  {
    seq(|xs|, i requires 0 <= i < |xs| => c.show(xs[i]))
  }

  lemma ShowAllNoSep(c: FloatCodec, xs: seq<real>, sep: char)
    requires AllExact(c, xs)
    requires sep == ',' || IsSpace(sep)
    ensures NoSep(ShowAll(c, xs), sep)
  {
    forall i | 0 <= i < |xs|
      ensures sep !in ShowAll(c, xs)[i]
    {
      assert Plain(c.show(xs[i]));
    }
  }

  /** `int(x)` on a float: truncation toward zero. */
  function Trunc(x: real): (r: int)
    ensures x >= 0.0 ==> r as real <= x < r as real + 1.0
    ensures x < 0.0 ==> r as real - 1.0 < x <= r as real
  {
    if x >= 0.0 then x.Floor else -((-x).Floor)
  }

  lemma TruncIntegral(n: int)
    ensures Trunc(n as real) == n
  {
  }
}
