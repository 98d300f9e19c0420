/**
 Display of a stacked raw image (src/data/StackImage.cpp:13-69): a strided
 sample's 99.5th percentile sets the white level, and a monotone table turns
 samples into gray. Arithmetic is over the reals; the gamma table is any
 monotone table of 4096 entries.
 */
module StackImage {
  import opened Arithmetic
  import opened Bytes
  import opened Reassembly

  const LUT_SIZE := 4096
  const MAX_SAMPLES := 0x4_0000
  const WHITE_POINT := 0.9

  // ---- Samples ----

  /** What an IEEE single stands for. */
  datatype Num = NaN | Infinite(negative: bool) | Fin(v: real)

  function Pow2(e: nat): (p: real)
    ensures p > 0.0
  {
    if e == 0 then 1.0 else 2.0 * Pow2(e - 1)
  }

  function Decoded(f: Float32): Num {
    var u := Get32(f, 0);
    var negative, exponent, mantissa := u >= 0x8000_0000, u / 0x80_0000 % 0x100, u % 0x80_0000;
    if exponent == 0xFF then (if mantissa == 0 then Infinite(negative) else NaN)
    else
      var v := Magnitude(exponent, mantissa) / Pow2(149);
      Fin(if negative then -v else v)
  }

  /** A finite float's distance from zero, in units of 2^-149. */
  function Magnitude(exponent: nat, mantissa: nat): (m: real)
    ensures m >= 0.0
  {
    if exponent == 0 then mantissa as real else (mantissa + 0x80_0000) as real * Pow2(exponent - 1)
  }

  // ---- What the bytes of a sample mean ----

  /** Powers of two are what their name says: they turn sums into products. */
  lemma {:induction false} Pow2IsPower(a: nat, b: nat)
    ensures Pow2(0) == 1.0 && Pow2(1) == 2.0 && Pow2(a + b) == Pow2(a) * Pow2(b)
  {
    assert Pow2(1) == 2.0 * Pow2(0);
    if a > 0 {
      Pow2IsPower(a - 1, b);
      assert Pow2(a + b) == 2.0 * Pow2(a - 1 + b);
    }
  }

  /** A float's bits: sign, biased exponent, mantissa. */
  ghost predicate HasBits(f: Float32, negative: bool, exponent: nat, mantissa: nat) {
    && exponent < 0x100 && mantissa < 0x80_0000
    && Get32(f, 0) == (if negative then 0x8000_0000 else 0) + exponent * 0x80_0000 + mantissa
  }

  lemma BitsAreFields(f: Float32, negative: bool, exponent: nat, mantissa: nat)
    requires HasBits(f, negative, exponent, mantissa)
    ensures var u := Get32(f, 0);
            (u >= 0x8000_0000 <==> negative) && u / 0x80_0000 % 0x100 == exponent && u % 0x80_0000 == mantissa
  {
    hide Get32;
    SplitBits(Get32(f, 0), if negative then exponent + 0x100 else exponent, mantissa);
  }

  lemma SplitBits(u: nat, high: nat, low: nat)
    requires u == high * 0x80_0000 + low && low < 0x80_0000
    ensures u / 0x80_0000 == high && u % 0x80_0000 == low
  {
  }

  /** `v * 2^k` is `m * 2^e`. */
  ghost predicate Scales(v: real, k: nat, m: nat, e: nat) {
    v * Pow2(k) == m as real * Pow2(e)
  }

  /** IEEE 754 singles: a normal number is (2^23 + mantissa) * 2^(exponent - 150),
      a subnormal one mantissa * 2^-149, and an exponent of all ones an infinity
      or NaN. Powers are on the side where they are not negative. */
  lemma DecodedExactly(f: Float32, negative: bool, exponent: nat, mantissa: nat)
    requires HasBits(f, negative, exponent, mantissa)
    ensures 1 <= exponent <= 254 ==>
              Decoded(f).Fin? && Scales(Signed(Decoded(f).v, negative), 150, 0x80_0000 + mantissa, exponent)
    ensures exponent == 0 ==> Decoded(f).Fin? && Scales(Signed(Decoded(f).v, negative), 149, mantissa, 0)
    ensures exponent == 255 && mantissa == 0 ==> Decoded(f) == Infinite(negative)
    ensures exponent == 255 && mantissa > 0 ==> Decoded(f) == NaN
  {
    BitsAreFields(f, negative, exponent, mantissa);
    DecodedIs(f, negative, exponent, mantissa);
    MagnitudeScales(exponent, mantissa);
    hide Get32, Pow2, Magnitude, Scales;
  }

  /** The value, or its negation. */
  function Signed(v: real, negative: bool): real {
    if negative then -v else v
  }

  lemma DecodedIs(f: Float32, negative: bool, exponent: nat, mantissa: nat)
    requires HasBits(f, negative, exponent, mantissa)
    ensures exponent < 255 ==>
              Decoded(f).Fin? && Signed(Decoded(f).v, negative) == Magnitude(exponent, mantissa) / Pow2(149)
  {
    BitsAreFields(f, negative, exponent, mantissa);
    hide Get32, Pow2, Magnitude;
  }

  lemma MagnitudeScales(exponent: nat, mantissa: nat)
    ensures exponent > 0 ==> Scales(Magnitude(exponent, mantissa) / Pow2(149), 150, 0x80_0000 + mantissa, exponent)
    ensures exponent == 0 ==> Scales(Magnitude(exponent, mantissa) / Pow2(149), 149, mantissa, 0)
  {
    var m := Magnitude(exponent, mantissa);
    Unscaled(m, Pow2(149));
    if exponent > 0 {
      OneMore(m / Pow2(149), 0x80_0000 + mantissa, exponent);
    } else {
      assert Pow2(0) == 1.0;
    }
    hide Pow2;
  }

  lemma Unscaled(m: real, c: real)
    requires c > 0.0
    ensures m / c * c == m
  {
  }

  lemma OneMore(v: real, m: nat, exponent: nat)
    requires exponent > 0 && v * Pow2(149) == m as real * Pow2(exponent - 1)
    ensures Scales(v, 150, m, exponent)
  {
    var a, b := Pow2(149), Pow2(exponent - 1);
    assert Pow2(150) == 2.0 * a && Pow2(exponent) == 2.0 * b;
    hide Pow2;
    Doubled(v, a);
    Doubled(m as real, b);
  }

  lemma Doubled(x: real, a: real)
    ensures x * (2.0 * a) == 2.0 * (x * a)
  {
  }

  lemma {:induction false} Pow2Grows(a: nat, b: nat)
    requires a <= b
    ensures Pow2(a) <= Pow2(b)
    decreases b
  {
    if a < b {
      Pow2Grows(a, b - 1);
    }
  }

  lemma Products(a: real, b: real, c: real, d: real)
    requires 0.0 <= a <= b && 0.0 <= c <= d
    ensures a * c <= b * d
  {
    assert a * c <= b * c;
    assert b * c <= b * d;
  }

  lemma MagnitudeGrows(e: nat, m: nat, f: nat, n: nat)
    requires m < 0x80_0000 && n < 0x80_0000
    requires e < f || (e == f && m < n)
    ensures Magnitude(e, m) < Magnitude(f, n)
  {
    if e < f {
      MagnitudeBelow(e, m);
      MagnitudeAbove(e, f, n);
      hide *;
    } else if e > 0 {
      LessTimes(Pow2(e - 1), (m + 0x80_0000) as real, (n + 0x80_0000) as real);
    }
  }

  lemma MagnitudeAbove(e: nat, f: nat, n: nat)
    requires e < f
    ensures 0x80_0000 as real * Pow2(e) <= Magnitude(f, n)
  {
    Pow2Grows(e, f - 1);
    assert Magnitude(f, n) == (n + 0x80_0000) as real * Pow2(f - 1);
    hide Magnitude, Pow2;
    Products(0x80_0000 as real, (n + 0x80_0000) as real, Pow2(e), Pow2(f - 1));
  }

  lemma LessTimes(c: real, x: real, y: real)
    requires c > 0.0 && x < y
    ensures x * c < y * c
  {
  }

  lemma MagnitudeBelow(e: nat, m: nat)
    requires m < 0x80_0000
    ensures Magnitude(e, m) < 0x80_0000 as real * Pow2(e)
  {
    if e > 0 {
      LessTimes(Pow2(e - 1), (m + 0x80_0000) as real, 0x100_0000 as real);
      assert Pow2(e) == 2.0 * Pow2(e - 1);
    }
  }

  /** Non-negative finite floats are ordered as their bits are. */
  lemma BitsKeepOrder(f: Float32, g: Float32)
    requires Get32(f, 0) < Get32(g, 0) < 0x7F80_0000
    ensures Decoded(f).Fin? && Decoded(g).Fin? && 0.0 <= Decoded(f).v < Decoded(g).v
  {
    var u, w := Get32(f, 0) as int, Get32(g, 0) as int;
    var e, m := u / 0x80_0000, u % 0x80_0000;
    var d, n := w / 0x80_0000, w % 0x80_0000;
    DecodedIs(f, false, e, m);
    DecodedIs(g, false, d, n);
    MagnitudeGrows(e, m, d, n);
    hide Decoded, Get32, Magnitude, Pow2;
    Divided(Magnitude(e, m), Magnitude(d, n), Pow2(149));
  }

  lemma Divided(x: real, y: real, c: real)
    requires 0.0 <= x < y && c > 0.0
    ensures 0.0 <= x / c < y / c
  {
  }

  /** In particular the bytes 00 00 80 3F are 1. */
  lemma OneIsOne()
    ensures Decoded([0, 0, 0x80, 0x3F]) == Fin(1.0)
  {
    var one: Float32 := [0, 0, 0x80, 0x3F];
    assert Get32(one, 0) == 127 * 0x80_0000;
    DecodedExactly(one, false, 127, 0);
    Pow2Of23();
    hide Decoded, Get32, Pow2, Scales;
    ScaledToOne(Decoded(one).v, 23, 0x80_0000, 127);
  }

  lemma ScaledToOne(v: real, n: nat, m: nat, e: nat)
    requires Scales(v, n + e, m, e) && Pow2(n) == m as real
    ensures v == 1.0
  {
    PowerProduct(n, e, m as real);
    hide Pow2;
    OnlyOne(v, Pow2(n + e), m as real * Pow2(e));
  }

  lemma PowerProduct(n: nat, e: nat, p: real)
    requires Pow2(n) == p
    ensures Pow2(n + e) == p * Pow2(e)
  {
    Pow2IsPower(n, e);
  }

  lemma Pow2Of23()
    ensures Pow2(23) == 0x80_0000 as real
  {
    assert Pow2(5) == 32.0;
    assert Pow2(10) == 1024.0;
    assert Pow2(15) == 32768.0;
    assert Pow2(20) == 1048576.0;
  }

  lemma OnlyOne(v: real, c: real, d: real)
    requires c > 0.0 && c == d && v * c == d
    ensures v == 1.0
  {
  }

  // ---- The payload ----

  /** Whether a frame holds a full image of its geometry. The width in bytes
      is a 32-bit product. */
  predicate HasSf32(f: Frame) {
    && f.meta.width > 0 && f.meta.height > 0
    && f.meta.bytesPerLine >= f.meta.width * 4 % 0x1_0000_0000
    && |f.data| >= f.meta.bytesPerLine * f.meta.height
  }

  predicate InBounds(f: Frame, x: nat, y: nat) {
    y * f.meta.bytesPerLine + x * 4 + 4 <= |f.data|
  }

  function RawSample(f: Frame, x: nat, y: nat): Float32
    requires InBounds(f, x, y)
  {
    var at: nat := y * f.meta.bytesPerLine + x * 4;
    f.data[at..at + 4]
  }

  /** For widths whose row is a 32-bit number of bytes, the check is whether the
      geometry is there and its rows, padded or not, are all in the payload. */
  lemma HasSf32Exactly(f: Frame)
    requires f.meta.width < 0x4000_0000
    ensures HasSf32(f) <==>
            && f.meta.width > 0 && f.meta.height > 0
            && 4 * f.meta.width <= f.meta.bytesPerLine
            && f.meta.height * f.meta.bytesPerLine <= |f.data|
  {
  }

  lemma NextRow(y: nat, n: nat)
    ensures (y + 1) * n == y * n + n
  {
  }

  /** No read of a sample leaves the payload. */
  ghost predicate AllInBounds(f: Frame) {
    forall x: nat, y: nat | x < f.meta.width && y < f.meta.height :: InBounds(f, x, y)
  }

  /** Nor, then, does any part of a row: what a caller can check is whether the
      last row, without what pads it, ends inside the payload. */
  predicate Readable(f: Frame) {
    f.meta.width > 0 && f.meta.height > 0 ==>
      (f.meta.height - 1) * f.meta.bytesPerLine + f.meta.width * 4 <= |f.data|
  }

  lemma RowsFit(f: Frame, y: nat)
    requires Readable(f) && f.meta.width > 0 && y < f.meta.height
    ensures 0 <= y * f.meta.bytesPerLine && y * f.meta.bytesPerLine + f.meta.width * 4 <= |f.data|
  {
    assert y * f.meta.bytesPerLine <= (f.meta.height - 1) * f.meta.bytesPerLine;
  }

  lemma SampleInBounds(f: Frame, x: nat, y: nat)
    requires Readable(f) && x < f.meta.width && y < f.meta.height
    ensures InBounds(f, x, y)
  {
    RowsFit(f, y);
  }

  lemma ReadableExactly(f: Frame)
    ensures Readable(f) <==> AllInBounds(f)
  {
    if Readable(f) {
      forall x: nat, y: nat | x < f.meta.width && y < f.meta.height ensures InBounds(f, x, y) {
        SampleInBounds(f, x, y);
      }
    } else {
      assert !InBounds(f, f.meta.width - 1, f.meta.height - 1);
    }
  }

  const WIDTH_LIMIT := 0x4000_0000

  /** A frame narrower than the limit that passes the check is readable. */
  lemma NarrowIsReadable(f: Frame)
    requires HasSf32(f) && f.meta.width < WIDTH_LIMIT
    ensures Readable(f)
  {
    NextRow(f.meta.height - 1, f.meta.bytesPerLine);
  }

  /** Below 2^30 the check keeps every read inside the payload; from there on
      the product wraps, and for every such width there is a frame that passes
      the check and is read beyond its end. */
  lemma WidthWrapExactly(meta: FrameMeta)
    requires meta.width > 0
    ensures meta.width < WIDTH_LIMIT <==>
            forall f: Frame | f.meta.width == meta.width && HasSf32(f) :: AllInBounds(f)
  {
    if meta.width < WIDTH_LIMIT {
      forall f: Frame | f.meta.width == meta.width && HasSf32(f) ensures AllInBounds(f) {
        NarrowIsReadable(f);
        ReadableExactly(f);
      }
    } else {
      var stride: U32 := meta.width * 4 % 0x1_0000_0000;
      var f := Frame(meta.(height := 1, bytesPerLine := stride), seq(stride, _ => 0));
      assert HasSf32(f) && !InBounds(f, meta.width - 1, 0);
      assert !AllInBounds(f);
    }
  }

  // ---- The strided sample ----

  function Stride(n: nat): (s: nat)
    ensures s >= 1
  {
    if n / MAX_SAMPLES > 1 then n / MAX_SAMPLES else 1
  }

  /** How many samples a stride takes of `n`. */
  function SampleCount(n: nat): nat {
    (n + Stride(n) - 1) / Stride(n)
  }

  lemma CountIs(m: nat, n: nat, step: nat)
    requires step >= 1 && (m - 1) * step < n <= m * step
    ensures m == (n + step - 1) / step
  {
    assert (m - 1) * step == m * step - step;
    QuotientIs(n + step - 1, step, m);
  }

  /** The sample fits what was reserved for it, and is below twice the intended
      maximum. It is within that maximum, as the source has it, exactly for
      images smaller than it or a multiple of it. */
  lemma SampleBound(n: nat)
    requires n > 0
    ensures 0 < SampleCount(n) <= n / Stride(n) + 1
    ensures SampleCount(n) < 2 * MAX_SAMPLES
    ensures SampleCount(n) <= MAX_SAMPLES <==> n < MAX_SAMPLES || n % MAX_SAMPLES == 0
  {
    if n >= MAX_SAMPLES {
      var q, r := n / MAX_SAMPLES, n % MAX_SAMPLES;
      assert n == q * MAX_SAMPLES + r && q >= 1 && Stride(n) == q;
      var extra := (r + q - 1) / q;
      Reminder(q, MAX_SAMPLES, r);
      assert SampleCount(n) == MAX_SAMPLES + extra;
      Ceiling(r, q);
    }
  }

  lemma Reminder(q: nat, k: nat, r: nat)
    requires q >= 1
    ensures (q * k + r + q - 1) / q == k + (r + q - 1) / q
    ensures (q * k + r) / q == k + r / q
  {
    WholeParts(q, k, r + q - 1);
    WholeParts(q, k, r);
  }

  lemma WholeParts(q: nat, k: nat, r: nat)
    requires q >= 1
    ensures (q * k + r) / q == k + r / q
  {
    var x, rest := r / q, r % q;
    assert r == x * q + rest;
    assert (k + x) * q == q * k + x * q && (k + x + 1) * q == (k + x) * q + q;
    QuotientIs(q * k + r, q, k + x);
  }

  lemma Ceiling(r: nat, q: nat)
    requires q >= 1
    ensures r / q <= (r + q - 1) / q <= r / q + 1
    ensures (r + q - 1) / q <= r
    ensures (r + q - 1) / q == 0 <==> r == 0
  {
    var f, rest := r / q, r % q;
    assert r == q * f + rest;
    WholeParts(q, f, rest + q - 1);
    QuotientIs(rest + q - 1, q, if rest == 0 then 0 else 1);
    AtLeast(f, q);
  }

  lemma AtLeast(f: nat, q: nat)
    requires q >= 1
    ensures f <= f * q
  {
  }
}
