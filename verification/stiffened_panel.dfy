/** The arithmetic and bookkeeping of the parametric panel script
    (StiffenedPanel.py; archive/test-rev06.py holds the same layout and index
    code): reading the request row, the list of shell thicknesses, where the
    stiffeners and flanges go, the boxes and index lists that tie the parts
    together, and the peak stress and mass it writes back. The CAD and solver
    calls between these steps are not modelled. */
module StiffenedPanel {
  import opened Results
  import opened Text
  import opened FloatText
  import opened RealArith

  // ---------------------------------------------------------------------------
  // The request

  /** The panel the script builds, with the request's values in reader order. */
  datatype Panel = Panel(
    transverseCount: int,
    longitudinalCount: int,
    plateThickness: real,
    transverseHeight: real,
    transverseThickness: real,
    transverseFlangeThickness: real,
    transverseFlangeWidth: real,
    longitudinalHeight: real,
    longitudinalThickness: real,
    longitudinalFlangeThickness: real,
    longitudinalFlangeWidth: real,
    pressure: real,
    meshes: seq<real>,
    width: real,
    length: real)

  /** The number of fields the reader takes from the row. */
  const FieldCount: nat := 19

  /** `float(fields[i])` for i = 0 .. n-1 in order: IndexError at the first
      missing field, ValueError at the first one that does not parse. */
  function ReadFields(c: FloatCodec, fields: seq<string>, n: nat): (r: Result<seq<real>>)
    ensures r.Ok? <==> n <= |fields| && forall i :: 0 <= i < n ==> c.parse(fields[i]).Some?
    ensures r.Ok? ==> |r.value| == n && forall i :: 0 <= i < n ==> r.value[i] == c.parse(fields[i]).value
    ensures r.Err? ==> r.error == IndexError || r.error == ValueError
    ensures r.Err? ==>
      (r.error == IndexError <==> forall i :: 0 <= i < |fields| && i < n ==> c.parse(fields[i]).Some?)
  {
    if n == 0 then Ok([])
    else match ReadFields(c, fields, n - 1)
      case Err(e) => Err(e)
      case Ok(vs) =>
        if n - 1 >= |fields| then Err(IndexError)
        else match c.parse(fields[n - 1])
          case None => Err(ValueError)
          case Some(x) => Ok(vs + [x])
  }

  /** Fields 0 and 1 go through `int(float(.))`, the rest stay floats. */
  function PanelOf(v: seq<real>): (p: Panel)
    requires |v| == FieldCount
    ensures p.transverseCount == Trunc(v[0]) && p.longitudinalCount == Trunc(v[1])
    ensures p.transverseFlangeThickness == v[5] && p.transverseFlangeWidth == v[6]
    ensures |p.meshes| == 5
  {
    Panel(Trunc(v[0]), Trunc(v[1]), v[2], v[3], v[4], v[5], v[6], v[7], v[8], v[9], v[10],
          v[11], v[12..17], v[17], v[18])
  }

  /** The script's parse of input.csv: the last line only, split on commas,
      the first 19 fields read positionally. */
  function ParseRequest(c: FloatCodec, content: string): (r: Result<Panel>)
    ensures |SplitLines(content)| == 0 ==> r == Err(IndexError)
    ensures |SplitLines(content)| > 0 ==>
      var fields := Split(SplitLines(content)[|SplitLines(content)| - 1], ',');
      && (r.Ok? <==> ReadFields(c, fields, FieldCount).Ok?)
      && (r.Ok? ==> r.value == PanelOf(ReadFields(c, fields, FieldCount).value))
      && (r.Err? ==> r.error == ReadFields(c, fields, FieldCount).error)
  {
    var lines := SplitLines(content);
    if |lines| == 0 then Err(IndexError)
    else
      var values :- ReadFields(c, Split(lines[|lines| - 1], ','), FieldCount);
      Ok(PanelOf(values))
  }

  /** Counts already rounded by the optimiser survive the truncation, and
      the other values are taken as they are, positionally. */
  lemma PanelOfRoundedCounts(v: seq<real>, nT: int, nL: int)
    requires |v| == FieldCount && v[0] == nT as real && v[1] == nL as real
    ensures PanelOf(v).transverseCount == nT && PanelOf(v).longitudinalCount == nL
    ensures PanelOf(v).plateThickness == v[2] && PanelOf(v).transverseHeight == v[3]
    ensures PanelOf(v).longitudinalHeight == v[7] && PanelOf(v).longitudinalFlangeWidth == v[10]
    ensures PanelOf(v).width == v[17] && PanelOf(v).length == v[18]
  {
    TruncIntegral(nT);
    TruncIntegral(nL);
  }

  // ---------------------------------------------------------------------------
  // Shell sections

  /** The five thicknesses in the order the script considers them. */
  function Thicknesses(p: Panel): seq<real>
  {
    [p.plateThickness, p.transverseThickness, p.transverseFlangeThickness,
     p.longitudinalThickness, p.longitudinalFlangeThickness]
  }

  /** Append `t` unless the list already holds it. */
  function AppendNew(list: seq<real>, t: real): seq<real>
  {
    if t in list then list else list + [t]
  }

  /** `ThicknessList`: the values of `xs`, each kept at its first occurrence. */
  function Dedupe(xs: seq<real>): (r: seq<real>)
    ensures |r| <= |xs|
    // the first value is never dropped
    ensures |xs| > 0 ==> |r| >= 1 && r[0] == xs[0]
    decreases |xs|
  {
    if |xs| == 0 then []
    else
      var init := xs[..|xs| - 1];
      assert |init| > 0 ==> init[0] == xs[0];
      AppendNew(Dedupe(init), xs[|xs| - 1])
  }

  /** `ThicknessList`: it starts with the plate thickness and holds each of
      the five thicknesses exactly once, in first-occurrence order. */
  function ThicknessList(p: Panel): (l: seq<real>)
    ensures |l| >= 1 && l[0] == p.plateThickness
    ensures NoDuplicates(l)
    ensures forall t :: t in l <==> t in Thicknesses(p)
    ensures forall i, j :: 0 <= i < j < |l| ==> FirstIndex(Thicknesses(p), l[i]) < FirstIndex(Thicknesses(p), l[j])
  {
    DedupeSpec(Thicknesses(p));
    Dedupe(Thicknesses(p))
  }

  predicate NoDuplicates(xs: seq<real>) {
    forall i, j :: 0 <= i < j < |xs| ==> xs[i] != xs[j]
  }

  /** The index of the first occurrence of `x`. */
  function FirstIndex(xs: seq<real>, x: real): (k: nat)
    requires x in xs
    ensures k < |xs| && xs[k] == x && forall j :: 0 <= j < k ==> xs[j] != x
  {
    if xs[0] == x then 0 else 1 + FirstIndex(xs[1..], x)
  }

  lemma FirstIndexPrefix(xs: seq<real>, n: nat, x: real)
    requires n <= |xs| && x in xs[..n]
    ensures FirstIndex(xs[..n], x) == FirstIndex(xs, x)
  {
    var k := FirstIndex(xs[..n], x);
    var m := FirstIndex(xs, x);
    assert xs[k] == xs[..n][k];
    assert m <= k;
    assert xs[..n][m] == xs[m];
  }

  /** The de-duplicated list holds every value exactly once, and in the order
      of first occurrence. */
  lemma {:induction false} DedupeSpec(xs: seq<real>)
    ensures var d := Dedupe(xs);
      && NoDuplicates(d)
      && (forall x :: x in d <==> x in xs)
      && (forall i, j :: 0 <= i < j < |d| ==> FirstIndex(xs, d[i]) < FirstIndex(xs, d[j]))
    decreases |xs|
  {
    if |xs| > 0 {
      var init := xs[..|xs| - 1];
      var t := xs[|xs| - 1];
      DedupeSpec(init);
      var d0 := Dedupe(init);
      var d := Dedupe(xs);
      assert xs == init + [t];
      forall x | x in xs
        ensures x in d
      {
        if x != t {
          assert x in init;
        }
      }
      forall i | 0 <= i < |d0|
        ensures FirstIndex(xs, d0[i]) == FirstIndex(init, d0[i])
      {
        FirstIndexPrefix(xs, |xs| - 1, d0[i]);
      }
      if t !in d0 {
        assert t !in init;
        assert FirstIndex(xs, t) == |xs| - 1;
      }
    }
  }

  /** The section defined for a thickness. */
  function SectionName(c: FloatCodec, t: real): string
  {
    "t-" + c.show(t)
  }

  function DefinedSections(c: FloatCodec, p: Panel): seq<string>
  {
    var l := ThicknessList(p);
    seq(|l|, i requires 0 <= i < |l| => SectionName(c, l[i]))
  }

  /** The sections assigned to plate, transverse stiffener and flange,
      longitudinal stiffener and flange, in that order. */
  function AssignedSections(c: FloatCodec, p: Panel): seq<string>
  {
    var ts := Thicknesses(p);
    seq(|ts|, i requires 0 <= i < |ts| => SectionName(c, ts[i]))
  }

  /** Every section the parts are assigned was defined; and when the values
      are written exactly, the definitions carry distinct names. */
  lemma SectionsDefined(c: FloatCodec, p: Panel)
    ensures forall s :: s in AssignedSections(c, p) ==> s in DefinedSections(c, p)
    ensures AllExact(c, Thicknesses(p)) ==>
      forall i, j :: 0 <= i < j < |DefinedSections(c, p)| ==> DefinedSections(c, p)[i] != DefinedSections(c, p)[j]
  {
    var l := ThicknessList(p);
    var ts := Thicknesses(p);
    forall s | s in AssignedSections(c, p)
      ensures s in DefinedSections(c, p)
    {
      var i :| 0 <= i < |ts| && s == SectionName(c, ts[i]);
      assert ts[i] in l;
      var k :| 0 <= k < |l| && l[k] == ts[i];
      assert DefinedSections(c, p)[k] == s;
    }
    if AllExact(c, ts) {
      forall i, j | 0 <= i < j < |l|
        ensures SectionName(c, l[i]) != SectionName(c, l[j])
      {
        assert l[i] in ts && l[j] in ts;
        var a :| 0 <= a < |ts| && ts[a] == l[i];
        var b :| 0 <= b < |ts| && ts[b] == l[j];
        assert Exact(c, ts[a]) && Exact(c, ts[b]);
        assert c.show(l[i]) != c.show(l[j]);
        assert SectionName(c, l[i])[2..] == c.show(l[i]);
        assert SectionName(c, l[j])[2..] == c.show(l[j]);
      }
    }
  }

  // ---------------------------------------------------------------------------
  // Stiffener and flange layout

  /** Where transverse stiffener i stands along the length: half a spacing
      in from the end, then one spacing apart. */
  function TransverseStation(length: real, n: nat, i: int): real
    requires n > 0
  {
    -(length / 2.0) + length / (2 * n) as real + i as real * (length / n as real)
  }

  /** Where longitudinal stiffener i stands across the width: n+1 equal gaps. */
  function LongitudinalStation(width: real, n: nat, i: int): real
  {
    -(width / 2.0) + (i + 1) as real * (width / (n + 1) as real)
  }

  /** The number of passes of `range(n)`. */
  function Passes(n: int): nat {
    if n > 0 then n else 0
  }

  /** The transverse station loop: the first step is half a spacing, every
      later one a full spacing. */
  method TransverseStations(length: real, n: int) returns (xs: seq<real>)
    ensures |xs| == Passes(n)
    ensures forall i :: 0 <= i < |xs| ==> xs[i] == TransverseStation(length, n, i)
  {
    xs := [];
    var point := -(length / 2.0);
    var index := 0;
    while index < n
      invariant 0 <= index <= Passes(n) && |xs| == index
      invariant index == 0 ==> point == -(length / 2.0)
      invariant index > 0 ==> point == TransverseStation(length, n, index - 1)
      invariant forall i :: 0 <= i < index ==> xs[i] == TransverseStation(length, n, i)
    {
      var step := if index == 0 then length / (2 * n) as real else length / n as real;
      StationStep(length, n, index);
      point := point + step;
      xs := xs + [point];
      index := index + 1;
    }
  }

  /** The longitudinal station loop: n steps of W/(n+1) from the edge. */
  method LongitudinalStations(width: real, n: int) returns (xs: seq<real>)
    ensures |xs| == Passes(n)
    ensures forall i :: 0 <= i < |xs| ==> xs[i] == LongitudinalStation(width, n, i)
  {
    xs := [];
    var point := -(width / 2.0);
    var index := 0;
    while index < n
      invariant 0 <= index <= Passes(n) && |xs| == index
      invariant point == LongitudinalStation(width, Passes(n), index - 1)
      invariant forall i :: 0 <= i < index ==> xs[i] == LongitudinalStation(width, n, i)
    {
      point := point + width / (n + 1) as real;
      xs := xs + [point];
      index := index + 1;
    }
  }

  /** One pass of the transverse loop moves from station index-1 to station index. */
  lemma StationStep(length: real, n: nat, index: nat)
    requires 0 <= index < n
    ensures index == 0 ==> -(length / 2.0) + length / (2 * n) as real == TransverseStation(length, n, 0)
    ensures index > 0 ==>
      TransverseStation(length, n, index - 1) + length / n as real == TransverseStation(length, n, index)
  {
    var s := length / n as real;
    assert (index as real) * s == ((index - 1) as real) * s + s;
  }

  lemma HalfSpacing(length: real, n: nat)
    requires n > 0
    ensures length / (2 * n) as real == (length / n as real) / 2.0
    ensures (length / n as real) * n as real == length
  {
  }

  /** The transverse stiffeners stand strictly inside the panel length, one
      spacing L/n apart, symmetric about the middle. */
  lemma TransverseLayout(length: real, n: nat, i: int)
    requires n > 0 && length > 0.0 && 0 <= i < n
    ensures -(length / 2.0) < TransverseStation(length, n, i) < length / 2.0
    ensures TransverseStation(length, n, i) + TransverseStation(length, n, n - 1 - i) == 0.0
    ensures TransverseStation(length, n, i + 1) - TransverseStation(length, n, i) == length / n as real
  {
    var s := length / n as real;
    HalfSpacing(length, n);
    QuotientPositive(length, n as real);
    ProductNonnegative(i as real, s);
    ScaleMonotone(i as real, (n - 1) as real, s);
    assert ((n - 1) as real) * s == n as real * s - s;
    assert (i as real) * s + ((n - 1 - i) as real) * s == ((n - 1) as real) * s;
  }

  /** The longitudinal stiffeners stand strictly inside the width, equally
      spaced, with the same gap to each edge as between neighbours. */
  lemma LongitudinalLayout(width: real, n: nat, i: int)
    requires width > 0.0 && 0 <= i < n
    ensures -(width / 2.0) < LongitudinalStation(width, n, i) < width / 2.0
    ensures LongitudinalStation(width, n, i + 1) - LongitudinalStation(width, n, i) == width / (n + 1) as real
    ensures LongitudinalStation(width, n, 0) - -(width / 2.0) == width / (n + 1) as real
    ensures width / 2.0 - LongitudinalStation(width, n, n - 1) == width / (n + 1) as real
  {
    var s := width / (n + 1) as real;
    assert s * (n + 1) as real == width;
    QuotientPositive(width, (n + 1) as real);
    ProductNonnegative((i + 1) as real, s);
    ScaleMonotone((i + 1) as real, n as real, s);
    assert (n as real) * s == width - s;
    assert ((i + 2) as real) * s == ((i + 1) as real) * s + s;
  }

  /** A horizontal flange in its part's sketch plane. */
  datatype Segment = Segment(start: real, end: real, height: real)

  /** The transverse flange loop: one segment of the flange width, at the
      stiffener height, around each station the loop re-derives. */
  method TransverseFlanges(length: real, n: int, height: real, flangeWidth: real) returns (segs: seq<Segment>)
    ensures |segs| == Passes(n)
    ensures forall i :: 0 <= i < |segs| ==>
      && (segs[i].start + segs[i].end) / 2.0 == TransverseStation(length, n, i)
      && segs[i].end - segs[i].start == flangeWidth
      && segs[i].height == height
  {
    var halfWidth := flangeWidth / 2.0;
    segs := [];
    var point := -(length / 2.0);
    var index := 0;
    while index < n
      invariant 0 <= index <= Passes(n) && |segs| == index
      invariant index == 0 ==> point == -(length / 2.0)
      invariant index > 0 ==> point == TransverseStation(length, n, index - 1)
      invariant forall i :: 0 <= i < index ==>
        && (segs[i].start + segs[i].end) / 2.0 == TransverseStation(length, n, i)
        && segs[i].end - segs[i].start == flangeWidth
        && segs[i].height == height
    {
      var step := if index == 0 then length / (2 * n) as real else length / n as real;
      StationStep(length, n, index);
      point := point + step;
      segs := segs + [Segment(point - halfWidth, point + halfWidth, height)];
      index := index + 1;
    }
  }

  /** The longitudinal flange loop, likewise around the longitudinal stations. */
  method LongitudinalFlanges(width: real, n: int, height: real, flangeWidth: real) returns (segs: seq<Segment>)
    ensures |segs| == Passes(n)
    ensures forall i :: 0 <= i < |segs| ==>
      && (segs[i].start + segs[i].end) / 2.0 == LongitudinalStation(width, n, i)
      && segs[i].end - segs[i].start == flangeWidth
      && segs[i].height == height
  {
    var halfWidth := flangeWidth / 2.0;
    segs := [];
    var point := -(width / 2.0);
    var index := 0;
    while index < n
      invariant 0 <= index <= Passes(n) && |segs| == index
      invariant point == LongitudinalStation(width, Passes(n), index - 1)
      invariant forall i :: 0 <= i < index ==>
        && (segs[i].start + segs[i].end) / 2.0 == LongitudinalStation(width, n, i)
        && segs[i].end - segs[i].start == flangeWidth
        && segs[i].height == height
    {
      point := point + width / (n + 1) as real;
      segs := segs + [Segment(point - halfWidth, point + halfWidth, height)];
      index := index + 1;
    }
  }

  // ---------------------------------------------------------------------------
  // Boxes and index lists for the tie constraints

  /** The half-thickness of every search box. */
  const TieOffset: real := 0.01

  /** A search box, as `getByBoundingBox` takes it. */
  datatype Box = Box(xMin: real, xMax: real, yMin: real, yMax: real, zMin: real, zMax: real)
  {
    predicate Holds(x: real, y: real, z: real) {
      xMin <= x <= xMax && yMin <= y <= yMax && zMin <= z <= zMax
    }
  }

  /** `bounds`: the plate level, the longitudinal and transverse stiffener
      tops, then a slab around each transverse station. */
  method ConstraintBoxes(p: Panel) returns (boxes: seq<Box>)
    ensures |boxes| == 3 + Passes(p.transverseCount)
    ensures boxes[0] == Box(-(p.width / 2.0), p.width / 2.0, -TieOffset, TieOffset, -(p.length / 2.0), p.length / 2.0)
    ensures boxes[1] == Box(-(p.width / 2.0), p.width / 2.0, p.longitudinalHeight - TieOffset, p.longitudinalHeight + TieOffset,
                            -(p.length / 2.0), p.length / 2.0)
    ensures boxes[2] == Box(-(p.width / 2.0), p.width / 2.0, p.transverseHeight - TieOffset, p.transverseHeight + TieOffset,
                            -(p.length / 2.0), p.length / 2.0)
    ensures forall i :: 0 <= i < Passes(p.transverseCount) ==>
      var z := TransverseStation(p.length, p.transverseCount, i);
      boxes[3 + i] == Box(-(p.width / 2.0), p.width / 2.0, -TieOffset, p.transverseHeight + TieOffset, z - TieOffset, z + TieOffset)
  {
    var w2 := p.width / 2.0;
    var l2 := p.length / 2.0;
    boxes := [Box(-w2, w2, -TieOffset, TieOffset, -l2, l2),
              Box(-w2, w2, p.longitudinalHeight - TieOffset, p.longitudinalHeight + TieOffset, -l2, l2),
              Box(-w2, w2, p.transverseHeight - TieOffset, p.transverseHeight + TieOffset, -l2, l2)];
    var n := p.transverseCount;
    var point := -l2;
    var index := 0;
    while index < n
      invariant 0 <= index <= Passes(n) && |boxes| == 3 + index
      invariant index == 0 ==> point == -l2
      invariant index > 0 ==> point == TransverseStation(p.length, n, index - 1)
      invariant boxes[0] == Box(-w2, w2, -TieOffset, TieOffset, -l2, l2)
      invariant boxes[1] == Box(-w2, w2, p.longitudinalHeight - TieOffset, p.longitudinalHeight + TieOffset, -l2, l2)
      invariant boxes[2] == Box(-w2, w2, p.transverseHeight - TieOffset, p.transverseHeight + TieOffset, -l2, l2)
      invariant forall i :: 0 <= i < index ==>
        var z := TransverseStation(p.length, n, i);
        boxes[3 + i] == Box(-w2, w2, -TieOffset, p.transverseHeight + TieOffset, z - TieOffset, z + TieOffset)
    {
      var step := if index == 0 then p.length / (2 * n) as real else p.length / n as real;
      StationStep(p.length, n, index);
      point := point + step;
      boxes := boxes + [Box(-w2, w2, -TieOffset, p.transverseHeight + TieOffset, point - TieOffset, point + TieOffset)];
      index := index + 1;
    }
  }

  /** Each transverse slab holds the whole web of its own stiffener (across
      the width, from the plate to the stiffener top) and, when stiffeners are
      more than two offsets apart, no point of any other station. */
  lemma SlabsSeparateStiffeners(p: Panel, i: int, j: int, x: real, y: real)
    requires p.transverseCount > 0 && p.length > 0.0
    requires 0 <= i < p.transverseCount && 0 <= j < p.transverseCount && i != j
    requires -(p.width / 2.0) <= x <= p.width / 2.0 && 0.0 <= y <= p.transverseHeight
    requires p.length / p.transverseCount as real > 2.0 * TieOffset
    ensures var zi := TransverseStation(p.length, p.transverseCount, i);
      Box(-(p.width / 2.0), p.width / 2.0, -TieOffset, p.transverseHeight + TieOffset, zi - TieOffset, zi + TieOffset).Holds(x, y, zi)
    ensures var zi := TransverseStation(p.length, p.transverseCount, i);
      var zj := TransverseStation(p.length, p.transverseCount, j);
      !Box(-(p.width / 2.0), p.width / 2.0, -TieOffset, p.transverseHeight + TieOffset, zi - TieOffset, zi + TieOffset).Holds(x, y, zj)
  {
    var n := p.transverseCount;
    var s := p.length / n as real;
    var zi := TransverseStation(p.length, n, i);
    var zj := TransverseStation(p.length, n, j);
    assert zj - zi == (j - i) as real * s;
    if j > i {
      ScaleMonotone(1.0, (j - i) as real, s);
    } else {
      ScaleMonotone(1.0, (i - j) as real, s);
      assert zi - zj == (i - j) as real * s;
    }
  }

  /** The parts whose faces are searched, per surface. */
  function SurfaceList(n: int): (l: seq<string>)
    ensures |l| == 3 + Passes(n)
  {
    ["plate-1", "longFlange-2", "transFlange-1"] + seq(Passes(n), _ => "transStiff-1")
  }

  /** The parts whose edges are searched, per edge set: the longitudinal
      stiffener at the plate, at its flange, and at every transverse
      stiffener; the longitudinal flange at every transverse stiffener; the
      transverse stiffener at the plate and at its flange. */
  function EdgeList(n: int): (l: seq<string>)
    ensures |l| == 2 * Passes(n) + 4
  {
    ["longStiff-2", "longStiff-2"] + seq(Passes(n), _ => "longStiff-2") + seq(Passes(n), _ => "longFlange-2")
      + ["transStiff-1", "transStiff-1"]
  }

  /** `surfaceIndex`: surface k is searched in box k. */
  method SurfaceIndex(n: int) returns (idx: seq<int>)
    ensures |idx| == 3 + Passes(n)
    ensures forall k :: 0 <= k < |idx| ==> idx[k] == k
  {
    idx := [0, 1, 2];
    var index := 0;
    while index < n
      invariant 0 <= index <= Passes(n) && |idx| == 3 + index
      invariant forall k :: 0 <= k < |idx| ==> idx[k] == k
    {
      idx := idx + [3 + index];
      index := index + 1;
    }
  }

  /** The boxes of the stations, in order: 3, 4, ..., 2 + k. */
  function Ramp(k: nat): (r: seq<int>)
    ensures |r| == k && forall j :: 0 <= j < k ==> r[j] == 3 + j
  {
    seq(k, j => 3 + j)
  }

  /** The edge-set boxes written out: plate, longitudinal top, the stations
      twice, plate, transverse top. */
  function EdgeBoxes(n: int): (e: seq<int>)
    ensures |e| == 2 * Passes(n) + 4
  {
    [0, 1] + Ramp(Passes(n)) + Ramp(Passes(n)) + [0, 2]
  }

  /** `edgeIndex`, built by its two nested loops. */
  method EdgeIndex(n: int) returns (idx: seq<int>)
    ensures idx == EdgeBoxes(n)
    ensures forall i :: 0 <= i < |idx| ==> 0 <= idx[i] < 3 + Passes(n)
  {
    var m := Passes(n);
    idx := [0, 1];
    var round := 0;
    while round < 2
      invariant 0 <= round <= 2
      invariant idx == [0, 1] + (if round == 0 then [] else Ramp(m)) + (if round == 2 then Ramp(m) else [])
    {
      var edges := 0;
      ghost var start := idx;
      while edges < n
        invariant 0 <= edges <= m
        invariant idx == start + Ramp(edges)
      {
        assert Ramp(edges + 1) == Ramp(edges) + [3 + edges];
        idx := idx + [3 + edges];
        edges := edges + 1;
      }
      assert edges == m;
      round := round + 1;
    }
    idx := idx + [0, 2];
  }

  /** Two transverse stiffeners give the index list of the fixed-geometry
      revision, [0, 1, 3, 4, 3, 4, 0, 2]. */
  lemma EdgeBoxesForTwo()
    ensures EdgeBoxes(2) == [0, 1, 3, 4, 3, 4, 0, 2]
  {
    assert Ramp(2) == [3, 4];
  }

  /** One `model.Tie`: its main surface set, its secondary edge set, its name. */
  datatype Tie = Tie(main: string, secondary: string, name: string)

  function SurfaceNames(n: int): seq<string>
  {
    seq(3 + Passes(n), i => "surf-" + IntToString(i))
  }

  function EdgeNames(n: int): seq<string>
  {
    seq(2 * Passes(n) + 4, i => "edge-" + IntToString(i))
  }

  /** The tie loop: tie i joins edge set i to surface `constraintIndex[i]`. */
  function Ties(constraintIndex: seq<int>): (t: seq<Tie>)
    ensures |t| == |constraintIndex|
  {
    seq(|constraintIndex|, i requires 0 <= i < |constraintIndex| =>
      Tie("surf-" + IntToString(constraintIndex[i]), "edge-" + IntToString(i), "Constraint" + IntToString(i)))
  }

  /** Every tie names a surface and an edge set created before it, and no
      part is tied to itself. */
  lemma TiesWellFormed(n: int, constraintIndex: seq<int>)
    requires constraintIndex == EdgeBoxes(n)
    ensures forall i :: 0 <= i < |Ties(constraintIndex)| ==>
      && Ties(constraintIndex)[i].main in SurfaceNames(n)
      && Ties(constraintIndex)[i].secondary in EdgeNames(n)
    ensures forall i :: 0 <= i < |constraintIndex| ==>
      0 <= constraintIndex[i] < |SurfaceList(n)| && EdgeList(n)[i] != SurfaceList(n)[constraintIndex[i]]
  {
    var m := Passes(n);
    var t := Ties(constraintIndex);
    forall i | 0 <= i < |t|
      ensures t[i].main in SurfaceNames(n) && t[i].secondary in EdgeNames(n)
    {
      assert SurfaceNames(n)[constraintIndex[i]] == t[i].main;
      assert EdgeNames(n)[i] == t[i].secondary;
    }
    forall i | 0 <= i < |constraintIndex|
      ensures EdgeList(n)[i] != SurfaceList(n)[constraintIndex[i]]
    {
      if 2 <= i < 2 + m {
        assert EdgeList(n)[i] == "longStiff-2";
      } else if 2 + m <= i < 2 + 2 * m {
        assert EdgeList(n)[i] == "longFlange-2";
      }
    }
  }

  // ---------------------------------------------------------------------------
  // Peak stress and the output file

  /** `np.max` of one block of stress values. */
  function BlockMax(b: seq<real>): (m: real)
    requires |b| > 0
    ensures forall i :: 0 <= i < |b| ==> b[i] <= m
    ensures exists i :: 0 <= i < |b| && b[i] == m
  {
    if |b| == 1 then b[0]
    else
      var rest := BlockMax(b[1..]);
      assert forall i :: 1 <= i < |b| ==> b[i] == b[1..][i - 1];
      if b[0] >= rest then b[0] else rest
  }

  /** The running maximum: the integer 0 it starts from, or a stress value
      that replaced it. */
  datatype Peak = StartValue | Stress(value: real)
  {
    function Value(): real {
      if StartValue? then 0.0 else value
    }
  }

  predicate InBlocks(blocks: seq<seq<real>>, v: real) {
    exists k, i :: 0 <= k < |blocks| && 0 <= i < |blocks[k]| && blocks[k][i] == v
  }

  /** The max-stress loop: a block replaces the running value only when its
      maximum is strictly greater; an empty block makes `np.max` raise. */
  method MaxStress(blocks: seq<seq<real>>) returns (r: Result<Peak>)
    ensures r.Ok? <==> forall k :: 0 <= k < |blocks| ==> |blocks[k]| > 0
    ensures r.Err? ==> r.error == ValueError
    ensures r.Ok? ==> r.value.Value() >= 0.0
    ensures r.Ok? ==> forall k, i :: 0 <= k < |blocks| && 0 <= i < |blocks[k]| ==> blocks[k][i] <= r.value.Value()
    ensures r.Ok? ==> (r.value.StartValue? <==> forall k, i :: 0 <= k < |blocks| && 0 <= i < |blocks[k]| ==> blocks[k][i] <= 0.0)
    ensures r.Ok? && r.value.Stress? ==> r.value.value > 0.0 && InBlocks(blocks, r.value.value)
  {
    var peak := StartValue;
    var index := 0;
    while index < |blocks|
      invariant 0 <= index <= |blocks|
      invariant forall k :: 0 <= k < index ==> |blocks[k]| > 0
      invariant peak.Value() >= 0.0
      invariant forall k, i :: 0 <= k < index && 0 <= i < |blocks[k]| ==> blocks[k][i] <= peak.Value()
      invariant peak.StartValue? <==> forall k, i :: 0 <= k < index && 0 <= i < |blocks[k]| ==> blocks[k][i] <= 0.0
      invariant peak.Stress? ==> peak.value > 0.0 && InBlocks(blocks, peak.value)
    {
      if |blocks[index]| == 0 {
        return Err(ValueError);
      }
      var temp := BlockMax(blocks[index]);
      if temp > peak.Value() {
        var j :| 0 <= j < |blocks[index]| && blocks[index][j] == temp;
        assert InBlocks(blocks, temp);
        peak := Stress(temp);
      }
      index := index + 1;
    }
    return Ok(peak);
  }

  /** `str()` of the running maximum: the untouched start value is the
      integer 0. */
  function ShowPeak(c: FloatCodec, p: Peak): string
  {
    if p.StartValue? then IntToString(0) else c.show(p.value)
  }

  /** output.csv: the peak stress, a line break, the mass; no final line break. */
  function OutputText(c: FloatCodec, p: Peak, mass: real): (t: string)
    ensures Plain(ShowPeak(c, p)) && Plain(c.show(mass)) && |c.show(mass)| > 0 ==>
      SplitLines(t) == [ShowPeak(c, p), c.show(mass)]
  {
    var a := ShowPeak(c, p);
    var b := c.show(mass);
    TwoLines(a, b);
    a + "\n" + b
  }

  /** Two plain texts joined by one line break read back as two lines. */
  lemma TwoLines(a: string, b: string)
    ensures Plain(a) && Plain(b) && |b| > 0 ==> SplitLines(a + "\n" + b) == [a, b]
  {
    if Plain(a) && Plain(b) && |b| > 0 {
      assert '\n' !in a by {
        forall i | 0 <= i < |a| ensures a[i] != '\n' { assert !IsSpace(a[i]); }
      }
      assert '\n' !in b by {
        forall i | 0 <= i < |b| ensures b[i] != '\n' { assert !IsSpace(b[i]); }
      }
      SplitWithoutSep(a, '\n');
      SplitWithoutSep(b, '\n');
      assert a + "\n" + b == a + ['\n'] + b;
      SplitAround(a, b, '\n');
      assert (a + "\n" + b)[|a + "\n" + b| - 1] == b[|b| - 1];
    }
  }

  /** Line by line, output.csv holds exactly the peak stress and the mass,
      and each reads back as its value. */
  lemma OutputLines(c: FloatCodec, p: Peak, mass: real)
    requires Exact(c, mass) && (p.Stress? ==> Exact(c, p.value)) && PythonFloat(c)
    ensures SplitLines(OutputText(c, p, mass)) == [ShowPeak(c, p), c.show(mass)]
    ensures c.parse(ShowPeak(c, p)) == Some(p.Value())
    ensures c.parse(c.show(mass)) == Some(mass)
  {
    assert ReadsInt(c, 0);
    assert Plain(ShowPeak(c, p));
    assert Plain(c.show(mass));
  }

}
