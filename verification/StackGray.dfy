/**
 The display stretch of a stacked image (src/data/StackImage.cpp:31-69): the
 99.5th percentile of a strided sample is mapped to the white point, then a
 monotone 4096-entry table gives the gray level.
 */
module StackGray {
  import opened Arithmetic
  import opened Bytes
  import opened Reassembly
  import opened StackImage
  import Sorting

  // ---- The percentile ----

  function Clean(v: Num): real {
    if v.Fin? then v.v else 0.0
  }

  predicate Less(x: real, y: real) {
    x < y
  }

  /** The ascending order std::nth_element looks into. */
  function Ordered(s: seq<real>): (r: seq<real>)
    ensures |r| == |s|
  {
    Sorting.SameElements(s, Sorting.Sorted(s, Less));
    Sorting.Sorted(s, Less)
  }

  function Rank(m: nat): (k: nat)
    requires m > 0
    ensures k < m
  {
    var k := (0.995 * (m - 1) as real).Floor;
    assert 0.0 <= 0.995 * (m - 1) as real <= (m - 1) as real;
    if k < m - 1 then k else m - 1
  }

  function Percentile(s: seq<real>): real
    requires s != []
  {
    Ordered(s)[Rank(|s|)]
  }

  function Below(s: seq<real>, v: real): (n: nat)
    ensures n <= |s|
  {
    if s == [] then 0 else (if s[0] < v then 1 else 0) + Below(s[1..], v)
  }

  function AtMost(s: seq<real>, v: real): (n: nat)
    ensures n <= |s|
  {
    if s == [] then 0 else (if s[0] <= v then 1 else 0) + AtMost(s[1..], v)
  }

  lemma {:induction false} InsertCounts(x: real, s: seq<real>, v: real)
    ensures Below(Sorting.Insert(x, s, Less), v) == Below([x] + s, v)
    ensures AtMost(Sorting.Insert(x, s, Less), v) == AtMost([x] + s, v)
  {
    assert ([x] + s)[1..] == s;
    if s != [] && !Less(x, s[0]) {
      InsertCounts(x, s[1..], v);
      var r := Sorting.Insert(x, s[1..], Less);
      assert ([s[0]] + r)[1..] == r && ([x] + s[1..])[1..] == s[1..];
    }
  }

  lemma {:induction false} OrderedCounts(s: seq<real>, v: real)
    ensures Below(Ordered(s), v) == Below(s, v) && AtMost(Ordered(s), v) == AtMost(s, v)
  {
    if s != [] {
      OrderedCounts(s[1..], v);
      InsertCounts(s[0], Ordered(s[1..]), v);
      var r := Ordered(s[1..]);
      assert ([s[0]] + r)[1..] == r;
    }
  }

  lemma {:induction false} CountsInOrder(s: seq<real>, k: nat)
    requires Sorting.Ascending(s, Less) && k < |s|
    ensures Below(s, s[k]) <= k < AtMost(s, s[k])
    decreases |s|
  {
    var tail := s[1..];
    if k > 0 {
      CountsInOrder(tail, k - 1);
      assert tail[k - 1] == s[k] && s[k] in tail;
    } else {
      NoneBelow(tail, s[0]);
    }
  }

  lemma {:induction false} NoneBelow(s: seq<real>, v: real)
    requires Sorting.Leads(v, s, Less)
    ensures Below(s, v) == 0
  {
    if s != [] {
      assert s[0] in s && forall y | y in s[1..] :: y in s;
      NoneBelow(s[1..], v);
    }
  }

  /** The white level comes from an order statistic: at most rank-many samples
      are below it, and more than that are not above it. */
  lemma PercentileIsOrderStatistic(s: seq<real>)
    requires s != []
    ensures Below(s, Percentile(s)) <= Rank(|s|) < AtMost(s, Percentile(s))
    ensures Rank(|s|) as real <= 0.995 * (|s| - 1) as real < Rank(|s|) as real + 1.0
  {
    Sorting.SortedIs(s, Less);
    OrderedCounts(s, Percentile(s));
    CountsInOrder(Ordered(s), Rank(|s|));
    RankIs(|s|);
  }

  lemma RankIs(m: nat)
    requires m > 0
    ensures Rank(m) as real <= 0.995 * (m - 1) as real < Rank(m) as real + 1.0
  {
    var x := 0.995 * (m - 1) as real;
    if x.Floor >= m - 1 {
      assert m == 1;
    }
  }

  // ---- Samples to gray ----

  function White(p995: real): (w: real)
    ensures w > 0.0
  {
    if p995 > 0.0 then p995 / WHITE_POINT else 1.0
  }

  ghost predicate IsTable(lut: seq<Byte>) {
    |lut| == LUT_SIZE && forall i, j | 0 <= i <= j < LUT_SIZE :: lut[i] <= lut[j]
  }

  function Times(c: real, x: real): real {
    c * x
  }

  lemma TimesOrder(c: real, x: real, y: real)
    requires c > 0.0
    ensures x <= y <==> Times(c, x) <= Times(c, y)
    ensures x > 0.0 <==> Times(c, x) > 0.0
  {
    if x < y {
      assert c * (y - x) > 0.0;
    } else if x > y {
      assert c * (x - y) > 0.0;
    }
    if x > 0.0 {
      assert c * x > 0.0;
    } else {
      assert c * -x >= 0.0;
    }
  }

  /** Table entries for each unit of level. */
  function PerLevel(white: real): (c: real)
    requires white > 0.0
    ensures c > 0.0 && Times(c, white) == 4095.0
  {
    (LUT_SIZE - 1) as real / white
  }

  /** Table index of a sample, or -1 for one shown black outright. */
  function IndexOf(v: Num, white: real): (i: int)
    requires white > 0.0
    ensures -1 <= i < LUT_SIZE
  {
    match v
    case NaN => -1
    case Infinite(negative) => if negative then -1 else LUT_SIZE - 1
    case Fin(x) => Entry(Times(PerLevel(white), x))
  }

  function Entry(i: real): (e: int)
    ensures -1 <= e < LUT_SIZE
  {
    if i > 0.0 then (if i < (LUT_SIZE - 1) as real then i.Floor else LUT_SIZE - 1) else -1
  }

  function Pixel(v: Num, white: real, lut: seq<Byte>): Byte
    requires white > 0.0 && |lut| == LUT_SIZE
  {
    var i := IndexOf(v, white);
    if i >= 0 then lut[i] else 0
  }

  /** The order of samples, as floats compare; NaN has no place in it. */
  predicate AtOrBelow(u: Num, v: Num) {
    match (u, v)
    case (Fin(x), Fin(y)) => x <= y
    case (Infinite(negative), _) => !v.NaN? && (negative || v == Infinite(false))
    case (Fin(_), Infinite(negative)) => !negative
    case _ => false
  }

  lemma IndexMonotone(u: Num, v: Num, white: real)
    requires white > 0.0 && AtOrBelow(u, v)
    ensures IndexOf(u, white) <= IndexOf(v, white)
  {
    if u.Fin? && v.Fin? {
      TimesOrder(PerLevel(white), u.v, v.v);
      hide PerLevel, Times;
    }
  }

  /** Gray never gets darker as a sample gets brighter. */
  lemma PixelMonotone(u: Num, v: Num, white: real, lut: seq<Byte>)
    requires white > 0.0 && IsTable(lut) && AtOrBelow(u, v)
    ensures Pixel(u, white, lut) <= Pixel(v, white, lut)
  {
    IndexMonotone(u, v, white);
    hide IndexOf;
  }

  /** NaN, zero and whatever lies below black are black; nothing else is kept
      from the table. */
  lemma BlackExactly(v: Num, white: real)
    requires white > 0.0
    ensures IndexOf(v, white) < 0 <==> v.NaN? || v == Infinite(true) || (v.Fin? && v.v <= 0.0)
  {
    if v.Fin? {
      TimesOrder(PerLevel(white), v.v, v.v);
      hide PerLevel, Times;
    }
  }

  lemma TimesParts(c: real, a: real, b: real)
    ensures Times(c, Times(a, b)) == Times(a, Times(c, b))
  {
  }

  lemma WhiteIs(p995: real)
    requires p995 > 0.0
    ensures p995 == Times(WHITE_POINT, White(p995))
  {
  }

  /** The percentile itself lands at nine tenths of the table, and what is at
      or above the white level at its end. With no percentile above black, the
      white level is 1. */
  lemma WhiteLands(p995: real, v: real)
    ensures p995 > 0.0 ==> IndexOf(Fin(p995), White(p995)) == 3685
    ensures v >= White(p995) ==> IndexOf(Fin(v), White(p995)) == LUT_SIZE - 1
    ensures p995 <= 0.0 ==> White(p995) == 1.0
  {
    var white := White(p995);
    var c := PerLevel(white);
    if p995 > 0.0 {
      WhiteIs(p995);
    }
    TimesParts(c, WHITE_POINT, white);
    TimesOrder(c, white, v);
    assert Times(WHITE_POINT, 4095.0) == 3685.5;
    hide White, PerLevel, Times;
  }

  /** What a sample is shown as: table entry `e` when it is `e` whole steps of a
      4095th of the white level; the last entry from there on; and 0 when it is
      NaN or not above black. */
  lemma PixelExactly(v: real, white: real, lut: seq<Byte>, e: nat)
    requires white > 0.0 && |lut| == LUT_SIZE && e < 4095
    ensures v > 0.0 && Times(e as real, white) <= Times(4095.0, v) < Times((e + 1) as real, white) ==>
              Pixel(Fin(v), white, lut) == lut[e]
    ensures v >= white ==> Pixel(Fin(v), white, lut) == lut[4095]
    ensures v <= 0.0 ==> Pixel(Fin(v), white, lut) == 0
    ensures Pixel(NaN, white, lut) == 0 && Pixel(Infinite(true), white, lut) == 0
    ensures Pixel(Infinite(false), white, lut) == lut[4095]
  {
    BlackExactly(Fin(v), white);
    var c := PerLevel(white);
    TimesOrder(c, white, v);
    StepIs(v, white, c, e);
    hide PerLevel, Times;
  }

  lemma StepIs(v: real, white: real, c: real, e: nat)
    requires white > 0.0 && c > 0.0 && Times(c, white) == 4095.0
    ensures Times(e as real, white) <= Times(4095.0, v) < Times((e + 1) as real, white) ==>
              e as real <= Times(c, v) < (e + 1) as real
  {
    TimesParts(c, 4095.0, v);
    TimesParts(c, e as real, white);
    TimesParts(c, (e + 1) as real, white);
    TimesOrder(c, Times(e as real, white), Times(4095.0, v));
    TimesOrder(c, Times((e + 1) as real, white), Times(4095.0, v));
    TimesOrder(4095.0, e as real, Times(c, v));
    TimesOrder(4095.0, (e + 1) as real, Times(c, v));
    TimesSwap(e as real, 4095.0);
    TimesSwap((e + 1) as real, 4095.0);
    hide Times;
  }

  lemma TimesSwap(a: real, b: real)
    ensures Times(a, b) == Times(b, a)
  {
  }

  // ---- The whole image ----

  function Column(i: nat, w: nat): (x: nat)
    requires w > 0
    ensures x < w
  {
    i % w
  }

  function Row(i: nat, w: nat): (y: nat)
    requires w > 0
    ensures i == y * w + Column(i, w)
  {
    i / w
  }

  /** The samples in row order. */
  function Values(f: Frame): (vs: seq<Num>)
    requires HasSf32(f) && Readable(f)
    ensures |vs| == f.meta.width * f.meta.height
  {
    seq(f.meta.width * f.meta.height, i requires 0 <= i < f.meta.width * f.meta.height => ValueAt(f, i))
  }

  function ValueAt(f: Frame, i: nat): Num
    requires HasSf32(f) && Readable(f) && i < f.meta.width * f.meta.height
  {
    PixelPlace(f, i);
    Decoded(RawSample(f, Column(i, f.meta.width), Row(i, f.meta.width)))
  }

  lemma PixelPlace(f: Frame, i: nat)
    requires HasSf32(f) && Readable(f) && i < f.meta.width * f.meta.height
    ensures Row(i, f.meta.width) < f.meta.height
    ensures InBounds(f, Column(i, f.meta.width), Row(i, f.meta.width))
  {
    var x, y := Column(i, f.meta.width), Row(i, f.meta.width);
    RowBelow(i, f.meta.width, f.meta.height);
    SampleInBounds(f, x, y);
  }

  lemma RowBelow(i: nat, w: nat, h: nat)
    requires w > 0 && i < w * h
    ensures Row(i, w) < h
  {
    Order(Row(i, w), h, w);
  }

  function Sampled(vs: seq<Num>): (s: seq<real>)
    requires vs != []
    ensures |s| == SampleCount(|vs|) > 0
  {
    SampleBound(|vs|);
    seq(SampleCount(|vs|), j requires 0 <= j < SampleCount(|vs|) => Clean(Strided(vs, j)))
  }

  function Strided(vs: seq<Num>, j: nat): Num
    requires vs != [] && j < SampleCount(|vs|)
  {
    SamplePlace(|vs|, j);
    vs[j * Stride(|vs|)]
  }

  lemma SamplePlace(n: nat, j: nat)
    requires n > 0 && j < SampleCount(n)
    ensures j * Stride(n) < n
  {
    var d := Stride(n);
    var c := (n + d - 1) / d;
    assert c * d <= n + d - 1;
    Order(j, c - 1, d);
    assert (c - 1) * d == c * d - d;
  }

  /** Which samples are taken: every `q`-th, from the first to the last there is,
      where `q` is the image's size in units of 2^18 samples, and at least 1. */
  lemma SampledIsEvery(vs: seq<Num>, q: nat, j: nat)
    requires vs != [] && q >= 1
    requires if |vs| < 0x4_0000 then q == 1 else q * 0x4_0000 <= |vs| < (q + 1) * 0x4_0000
    ensures j < |Sampled(vs)| <==> j * q < |vs|
    ensures j * q < |vs| && vs[j * q].Fin? ==> Sampled(vs)[j] == vs[j * q].v
    ensures j * q < |vs| && !vs[j * q].Fin? ==> Sampled(vs)[j] == 0.0
  {
    StrideIs(|vs|, q);
    CountBy(j, |vs|, j * q);
    if j < SampleCount(|vs|) {
      SamplePlace(|vs|, j);
    }
    hide Stride, SampleCount;
  }

  lemma StrideIs(n: nat, q: nat)
    requires q >= 1
    requires if n < 0x4_0000 then q == 1 else q * 0x4_0000 <= n < (q + 1) * 0x4_0000
    ensures Stride(n) == q
  {
    QuotientIs(n, 0x4_0000, if n < 0x4_0000 then 0 else q);
  }

  function WhiteOf(vs: seq<Num>): (w: real)
    requires vs != []
    ensures w > 0.0
  {
    White(Percentile(Sampled(vs)))
  }

  function Gray(vs: seq<Num>, lut: seq<Byte>): (g: seq<Byte>)
    requires vs != [] && |lut| == LUT_SIZE
    ensures |g| == |vs|
  {
    seq(|vs|, i requires 0 <= i < |vs| => Pixel(vs[i], WhiteOf(vs), lut))
  }

  // ---- Exposure ----

  /** A sample, `c` times as bright. */
  function Scaled(v: Num, c: real): Num {
    if v.Fin? then Fin(Times(c, v.v)) else v
  }

  function ScaledAll(s: seq<real>, c: real): (r: seq<real>)
    ensures |r| == |s|
    ensures forall i | 0 <= i < |s| :: r[i] == Times(c, s[i])
  {
    if s == [] then [] else [Times(c, s[0])] + ScaledAll(s[1..], c)
  }

  lemma ScaledCons(x: real, s: seq<real>, c: real)
    ensures ScaledAll([x] + s, c) == [Times(c, x)] + ScaledAll(s, c)
  {
    assert ([x] + s)[1..] == s;
  }

  lemma {:induction false} InsertScales(x: real, s: seq<real>, c: real)
    requires c > 0.0
    ensures Sorting.Insert(Times(c, x), ScaledAll(s, c), Less) == ScaledAll(Sorting.Insert(x, s, Less), c)
  {
    ScaledCons(x, s, c);
    if s != [] {
      var head, tail := s[0], s[1..];
      TimesOrder(c, head, x);
      hide Times;
      ScaledCons(head, tail, c);
      assert [head] + tail == s;
      InsertScales(x, tail, c);
      ScaledCons(head, Sorting.Insert(x, tail, Less), c);
      assert ScaledAll(s, c)[1..] == ScaledAll(tail, c);
    }
  }

  lemma {:induction false} OrderedScales(s: seq<real>, c: real)
    requires c > 0.0
    ensures Ordered(ScaledAll(s, c)) == ScaledAll(Ordered(s), c)
  {
    if s != [] {
      var head, tail := s[0], s[1..];
      assert s == [head] + tail;
      OrderedScales(tail, c);
      OrderedCons(head, tail);
      ScaledCons(head, tail, c);
      OrderedCons(Times(c, head), ScaledAll(tail, c));
      hide Times, Ordered, ScaledAll;
      InsertScales(head, Ordered(tail), c);
    }
  }

  lemma OrderedCons(x: real, s: seq<real>)
    ensures Ordered([x] + s) == Sorting.Insert(x, Ordered(s), Less)
  {
    assert ([x] + s)[1..] == s;
  }

  lemma CleanScales(v: Num, c: real)
    ensures Clean(Scaled(v, c)) == Times(c, Clean(v))
  {
  }

  ghost predicate Brighter(us: seq<Num>, vs: seq<Num>, c: real) {
    |us| == |vs| && forall i | 0 <= i < |vs| :: us[i] == Scaled(vs[i], c)
  }

  lemma SampledScales(vs: seq<Num>, us: seq<Num>, c: real)
    requires vs != [] && Brighter(us, vs, c)
    ensures Sampled(us) == ScaledAll(Sampled(vs), c)
  {
    var s, t, r := Sampled(vs), Sampled(us), ScaledAll(Sampled(vs), c);
    forall j | 0 <= j < |s| ensures t[j] == r[j] {
      StridedScales(vs, us, c, j);
    }
    hide Sampled, ScaledAll, Brighter;
  }

  lemma StridedScales(vs: seq<Num>, us: seq<Num>, c: real, j: nat)
    requires vs != [] && Brighter(us, vs, c) && j < |Sampled(vs)|
    ensures Sampled(us)[j] == Times(c, Sampled(vs)[j])
  {
    hide Times, Scaled, Clean, Stride, SampleCount;
    SamplePlace(|vs|, j);
    assert Strided(us, j) == Scaled(Strided(vs, j), c);
    CleanScales(Strided(vs, j), c);
  }

  lemma PercentileScales(vs: seq<Num>, us: seq<Num>, c: real)
    requires c > 0.0 && vs != [] && Brighter(us, vs, c)
    ensures Percentile(Sampled(us)) == Times(c, Percentile(Sampled(vs)))
  {
    SampledScales(vs, us, c);
    hide Sampled, Brighter, Times, Rank, Ordered;
    OrderedScales(Sampled(vs), c);
  }

  lemma IndexScales(v: Num, white: real, c: real)
    requires c > 0.0 && white > 0.0 && Times(c, white) > 0.0
    ensures IndexOf(Scaled(v, c), Times(c, white)) == IndexOf(v, white)
  {
    if v.Fin? {
      Cancel(v.v, white, c);
      hide PerLevel, Times;
    }
  }

  lemma Cancel(x: real, white: real, c: real)
    requires c > 0.0 && white > 0.0 && Times(c, white) > 0.0
    ensures Times(PerLevel(Times(c, white)), Times(c, x)) == Times(PerLevel(white), x)
  {
    var a, b := PerLevel(Times(c, white)), PerLevel(white);
    assert Times(a, Times(c, white)) == Times(b, white);
    hide PerLevel;
    Flatten3(a, c, white);
    Flatten3(a, c, x);
    SameFactor(a * c, b, white);
  }

  lemma Flatten3(a: real, b: real, x: real)
    ensures Times(a, Times(b, x)) == Times(a * b, x)
  {
  }

  lemma SameFactor(a: real, b: real, x: real)
    requires x > 0.0 && Times(a, x) == Times(b, x)
    ensures a == b
  {
    assert Times(x, a) == Times(x, b);
    TimesOrder(x, a, b);
    TimesOrder(x, b, a);
    hide Times;
  }

  lemma WhiteScales(p: real, c: real)
    requires p > 0.0 && Times(c, p) > 0.0
    ensures White(Times(c, p)) == Times(c, White(p))
  {
  }

  /** The picture does not depend on the exposure: the same scene, every sample
      `c` times as bright, gives the same gray image, whenever the percentile
      is above black. */
  lemma ExposureInvariant(vs: seq<Num>, us: seq<Num>, c: real, lut: seq<Byte>)
    requires c > 0.0 && vs != [] && Brighter(us, vs, c) && |lut| == LUT_SIZE
    requires Percentile(Sampled(vs)) > 0.0
    ensures Gray(us, lut) == Gray(vs, lut)
  {
    PercentileScales(vs, us, c);
    var p, white := Percentile(Sampled(vs)), WhiteOf(vs);
    TimesOrder(c, p, p);
    WhiteScales(p, c);
    assert WhiteOf(us) == Times(c, white);
    hide Percentile, Sampled, WhiteOf, IndexOf, Times, Scaled;
    forall i | 0 <= i < |vs| ensures Gray(us, lut)[i] == Gray(vs, lut)[i] {
      IndexScales(vs[i], white, c);
    }
  }

  // ---- The method ----

  /** Renders a frame. `white` is the level mapped to full white; a frame
      without a complete payload renders nothing. */
  method RenderStackGray(f: Frame, lut: seq<Byte>) returns (white: real, gray: seq<Byte>)
    requires IsTable(lut) && (HasSf32(f) ==> Readable(f))
    ensures !HasSf32(f) ==> white == 0.0 && gray == []
    ensures HasSf32(f) ==> |gray| == f.meta.width * f.meta.height > 0
    ensures HasSf32(f) ==> white == WhiteOf(Values(f)) && gray == Gray(Values(f), lut)
  {
    if !HasSf32(f) {
      return 0.0, [];
    }
    assert |lut| == LUT_SIZE;
    hide HasSf32, Readable, Decoded, IsTable, Pixel, Percentile, Sampled, Values, GrayFrom, Gray, Ordered, Rank;
    var w: nat, h: nat := f.meta.width, f.meta.height;
    ghost var vs := Values(f);
    SomeValues(f);
    assert |vs| == h * w;
    var s := TakeSample(f);
    var p995 := Ordered(s)[Rank(|s|)];
    PercentileIs(s);
    white := if p995 > 0.0 then p995 / WHITE_POINT else 1.0;
    gray := [];
    GrayNone(vs, 0, white, lut);
    for y := 0 to h
      invariant |gray| == y * w && GrayFrom(gray, vs, 0, white, lut)
    {
      var row := RenderRow(f, y, white, lut);
      GrayRows(gray, row, vs, white, lut);
      NextRow(y, w);
      gray := gray + row;
    }
    AllGray(gray, vs, white, lut);
  }

  lemma GrayRows(gray: seq<Byte>, row: seq<Byte>, vs: seq<Num>, white: real, lut: seq<Byte>)
    requires white > 0.0 && |lut| == LUT_SIZE
    requires GrayFrom(gray, vs, 0, white, lut) && GrayFrom(row, vs, |gray|, white, lut)
    ensures GrayFrom(gray + row, vs, 0, white, lut)
  {
    hide Pixel;
  }

  lemma AllGray(gray: seq<Byte>, vs: seq<Num>, white: real, lut: seq<Byte>)
    requires white > 0.0 && |lut| == LUT_SIZE && vs != [] && white == WhiteOf(vs)
    requires GrayFrom(gray, vs, 0, white, lut) && |gray| == |vs|
    ensures gray == Gray(vs, lut)
  {
  }

  lemma PercentileIs(s: seq<real>)
    requires s != []
    ensures Percentile(s) == Ordered(s)[Rank(|s|)]
  {
  }

  lemma SomeValues(f: Frame)
    requires HasSf32(f) && Readable(f)
    ensures |Values(f)| > 0 && f.meta.width > 0
  {
    Order(0, f.meta.height, f.meta.width);
  }

  lemma ValueIs(f: Frame, x: nat, y: nat)
    requires HasSf32(f) && Readable(f) && y < f.meta.height && x < f.meta.width
    requires InBounds(f, x, y)
    ensures y * f.meta.width + x < |Values(f)| && Values(f)[y * f.meta.width + x] == Decoded(RawSample(f, x, y))
  {
    hide Decoded;
    RowWithin(f, y);
    hide HasSf32;
    PlaceIs(y * f.meta.width + x, f.meta.width, x, y);
  }

  /** `row` is the gray of the samples from `start` on. */
  ghost predicate GrayFrom(row: seq<Byte>, vs: seq<Num>, start: nat, white: real, lut: seq<Byte>)
    requires white > 0.0 && |lut| == LUT_SIZE
  {
    start + |row| <= |vs| && forall x | 0 <= x < |row| :: row[x] == Pixel(vs[start + x], white, lut)
  }

  lemma GrayNext(row: seq<Byte>, vs: seq<Num>, start: nat, white: real, lut: seq<Byte>)
    requires white > 0.0 && |lut| == LUT_SIZE && GrayFrom(row, vs, start, white, lut) && start + |row| < |vs|
    ensures GrayFrom(row + [Pixel(vs[start + |row|], white, lut)], vs, start, white, lut)
  {
  }

  method RenderRow(f: Frame, y: nat, white: real, lut: seq<Byte>) returns (row: seq<Byte>)
    requires HasSf32(f) && Readable(f) && y < f.meta.height
    requires white > 0.0 && |lut| == LUT_SIZE
    ensures |row| == f.meta.width && GrayFrom(row, Values(f), y * f.meta.width, white, lut)
  {
    var w: nat := f.meta.width;
    ghost var vs, start := Values(f), y * w;
    RowWithin(f, y);
    hide Decoded, Pixel, HasSf32, Readable, Values, InBounds, GrayFrom;
    row := [];
    GrayNone(vs, start, white, lut);
    for x := 0 to w
      invariant |row| == x
      invariant GrayFrom(row, vs, start, white, lut)
    {
      SampleInBounds(f, x, y);
      ValueIs(f, x, y);
      GrayNext(row, vs, start, white, lut);
      row := row + [Pixel(Decoded(RawSample(f, x, y)), white, lut)];
    }
  }

  lemma GrayNone(vs: seq<Num>, start: nat, white: real, lut: seq<Byte>)
    requires white > 0.0 && |lut| == LUT_SIZE && start <= |vs|
    ensures GrayFrom([], vs, start, white, lut)
  {
  }

  lemma RowWithin(f: Frame, y: nat)
    requires HasSf32(f) && Readable(f) && y < f.meta.height
    ensures 0 <= y * f.meta.width && y * f.meta.width + f.meta.width <= |Values(f)|
  {
    Order(y + 1, f.meta.height, f.meta.width);
    assert (y + 1) * f.meta.width == y * f.meta.width + f.meta.width;
  }

  lemma PlaceIs(i: nat, w: nat, x: nat, y: nat)
    requires x < w && i == y * w + x
    ensures Column(i, w) == x && Row(i, w) == y
  {
    assert (y + 1) * w == y * w + w;
    QuotientIs(i, w, y);
  }

  lemma CountBy(m: nat, n: nat, i: nat)
    requires n > 0 && i == m * Stride(n)
    ensures i < n ==> m < SampleCount(n)
    ensures n <= i < n + Stride(n) ==> m == SampleCount(n)
  {
    var d := Stride(n);
    var c := (n + d - 1) / d;
    assert n + d - 1 < c * d + d;
    assert (m - 1) * d == m * d - d;
    Order(m, c, d);
    if n <= i < n + d {
      CountIs(m, n, d);
    }
  }

  /** Every stride-th sample, with NaN and infinities read as zero. */
  method TakeSample(f: Frame) returns (s: seq<real>)
    requires HasSf32(f) && Readable(f) && Values(f) != []
    ensures s == Sampled(Values(f))
  {
    hide HasSf32, Readable, Decoded, Stride, SampleCount, Sampled;
    ghost var vs := Values(f);
    var w: nat := f.meta.width;
    var n: nat := w * f.meta.height;
    var step := Stride(n);
    s := [];
    var i := 0;
    while i < n
      invariant i == |s| * step && i < n + step
      invariant |s| <= SampleCount(n)
      invariant forall j | 0 <= j < |s| :: s[j] == Clean(Strided(vs, j))
      decreases n + step - i
    {
      CountBy(|s|, n, i);
      PixelPlace(f, i);
      var v := Decoded(RawSample(f, Column(i, w), Row(i, w)));
      assert v == Strided(vs, |s|);
      assert (|s| + 1) * step == i + step;
      s := s + [Clean(v)];
      i := i + step;
    }
    CountBy(|s|, n, i);
    SampledIs(s, vs);
  }

  lemma SampledIs(s: seq<real>, vs: seq<Num>)
    requires vs != [] && |s| == SampleCount(|vs|)
    requires forall j | 0 <= j < |s| :: s[j] == Clean(Strided(vs, j))
    ensures s == Sampled(vs)
  {
  }

  // ---- From the payload's bytes to the picture ----

  /** The bytes of the sample in column `x` of row `y`. */
  lemma ValueOfBytes(f: Frame, x: nat, y: nat)
    requires HasSf32(f) && Readable(f) && x < f.meta.width && y < f.meta.height
    ensures var at, i := y * f.meta.bytesPerLine + x * 4, y * f.meta.width + x;
            && 0 <= at && at + 4 <= |f.data| && 0 <= i < |Values(f)|
            && Values(f)[i] == Decoded(f.data[at..at + 4])
  {
    SampleInBounds(f, x, y);
    ValueIs(f, x, y);
    RowWithin(f, y);
    RawIs(f, x, y);
    hide Decoded, Values, HasSf32, Readable, RawSample, InBounds;
  }

  lemma RawIs(f: Frame, x: nat, y: nat)
    requires InBounds(f, x, y)
    ensures var at := y * f.meta.bytesPerLine + x * 4;
            0 <= at && at + 4 <= |f.data| && RawSample(f, x, y) == f.data[at..at + 4]
  {
  }

  ghost predicate IsPlace(i: nat, f: Frame, x: nat, y: nat) {
    x < f.meta.width && y < f.meta.height && i == y * f.meta.width + x
  }

  /** A pixel whose four bytes, read as a number, are not below another's is not
      darker, for samples that are finite and not negative. */
  lemma BytesKeepOrder(f: Frame, lut: seq<Byte>, i: nat, x: nat, y: nat, j: nat, u: nat, v: nat)
    requires HasSf32(f) && Readable(f) && Values(f) != [] && IsTable(lut) && |lut| == LUT_SIZE
    requires IsPlace(i, f, x, y) && IsPlace(j, f, u, v)
    requires InBounds(f, x, y) && InBounds(f, u, v)
    requires Get32(RawSample(f, x, y), 0) <= Get32(RawSample(f, u, v), 0) < 0x7F80_0000
    ensures i < |Values(f)| && j < |Values(f)| && Gray(Values(f), lut)[i] <= Gray(Values(f), lut)[j]
  {
    assert i == y * f.meta.width + x && j == v * f.meta.width + u;
    ValueIs(f, x, y);
    ValueIs(f, u, v);
    hide *;
    GrayKeepsOrder(Values(f), i, j, RawSample(f, x, y), RawSample(f, u, v), lut);
  }

  lemma GrayKeepsOrder(vs: seq<Num>, i: nat, j: nat, a: Float32, b: Float32, lut: seq<Byte>)
    requires i < |vs| && j < |vs| && vs[i] == Decoded(a) && vs[j] == Decoded(b) && IsTable(lut)
    requires Get32(a, 0) <= Get32(b, 0) < 0x7F80_0000
    ensures Gray(vs, lut)[i] <= Gray(vs, lut)[j]
  {
    OrderOfBits(a, b);
    PixelMonotone(Decoded(a), Decoded(b), WhiteOf(vs), lut);
    hide Decoded, Get32, AtOrBelow, WhiteOf, Pixel;
  }

  lemma OrderOfBits(a: Float32, b: Float32)
    requires Get32(a, 0) <= Get32(b, 0) < 0x7F80_0000
    ensures AtOrBelow(Decoded(a), Decoded(b))
  {
    if Get32(a, 0) < Get32(b, 0) {
      BitsKeepOrder(a, b);
    } else {
      SameBits(a, b);
      FiniteBits(a);
    }
    hide Decoded, Get32;
  }

  lemma SameBits(a: Float32, b: Float32)
    requires Get32(a, 0) == Get32(b, 0)
    ensures a == b
  {
    Le32Get32(a, 0);
    Le32Get32(b, 0);
    assert a[0..4] == a && b[0..4] == b;
  }

  lemma FiniteBits(a: Float32)
    requires Get32(a, 0) < 0x7F80_0000
    ensures Decoded(a).Fin?
  {
    hide Get32;
    DecodedIs(a, false, Get32(a, 0) / 0x80_0000, Get32(a, 0) % 0x80_0000);
  }

  /** An image of one value above black is shown at the white point throughout. */
  lemma UniformIsWhitePoint(vs: seq<Num>, v: real, lut: seq<Byte>, i: nat)
    requires i < |vs| && v > 0.0 && |lut| == LUT_SIZE && forall k | 0 <= k < |vs| :: vs[k] == Fin(v)
    ensures Gray(vs, lut)[i] == lut[3685]
  {
    UniformPercentile(vs, v);
    WhiteLands(v, v);
    hide Sampled, Percentile, IndexOf, White;
  }

  lemma UniformPercentile(vs: seq<Num>, v: real)
    requires vs != [] && forall k | 0 <= k < |vs| :: vs[k] == Fin(v)
    ensures Percentile(Sampled(vs)) == v
  {
    var s := Sampled(vs);
    forall j | 0 <= j < |s| ensures s[j] == v {
      OneOfThem(vs, v, j);
    }
    PercentileIsASample(s);
    hide Sampled, Percentile;
  }

  lemma OneOfThem(vs: seq<Num>, v: real, j: nat)
    requires vs != [] && j < |Sampled(vs)| && forall k | 0 <= k < |vs| :: vs[k] == Fin(v)
    ensures Sampled(vs)[j] == v
  {
    SamplePlace(|vs|, j);
    hide Stride, SampleCount;
    assert Strided(vs, j) == Fin(v);
  }

  lemma PercentileIsASample(s: seq<real>)
    requires s != []
    ensures Percentile(s) in s
  {
    Sorting.SameElements(s, Ordered(s));
    hide Sorting.Sorted, Rank;
    assert Ordered(s)[Rank(|s|)] in Ordered(s);
  }
}
