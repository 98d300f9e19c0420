/**
 The .npy writer (src/data/StackImage.cpp:71-99), format version 1.0 of NumPy
 NEP 1 (section "Format Specification: Version 1.0"), against a reader of that
 format.
 */
module Npy {
  import opened Bytes
  import opened Options
  import opened Reassembly
  import opened StackImage
  import Decimal
  import opened Seqs

  const DICT_START := "{'descr': '<f4', 'fortran_order': False, 'shape': ("
  const DICT_MIDDLE := ", "
  const DICT_END := "), }"
  const MAGIC: seq<Byte> := [0x93, 0x4E, 0x55, 0x4D, 0x50, 0x59]
  const PREAMBLE := 10

  function Spaces(n: nat): (s: string)
    ensures |s| == n && forall i | 0 <= i < n :: s[i] == ' '
  {
    seq(n, _ => ' ')
  }

  function Dict(rows: nat, cols: nat): string {
    DICT_START + (Decimal.ToString(rows) + (DICT_MIDDLE + (Decimal.ToString(cols) + DICT_END)))
  }

  /** ASCII text as bytes. */
  function Ascii(s: string): (b: seq<Byte>)
    ensures |b| == |s|
  {
    seq(|s|, i requires 0 <= i < |s| => s[i] as int % 0x100)
  }

  function Text(b: seq<Byte>): (s: string)
    ensures |s| == |b|
  {
    seq(|b|, i requires 0 <= i < |b| => b[i] as char)
  }

  /** The header length the writer rounds up to. */
  function Total(dict: nat): nat {
    (PREAMBLE + dict + 1 + 63) / 64 * 64
  }

  function HeaderText(rows: nat, cols: nat): string {
    var dict := Dict(rows, cols);
    dict + Spaces(Total(|dict|) - PREAMBLE - 1 - |dict|) + "\n"
  }

  function Header(rows: nat, cols: nat): seq<Byte> {
    var text := Ascii(HeaderText(rows, cols));
    MAGIC + [1, 0] + Le16(|text| % 0x1_0000) + text
  }

  // ---- The reader ----

  predicate IsPadding(s: string) {
    s != [] && s[|s| - 1] == '\n' && forall i | 0 <= i < |s| - 1 :: s[i] == ' '
  }

  /** What follows a prefix. */
  function After(s: string, prefix: string): (r: Option<string>)
    ensures r.Some? ==> s == prefix + r.value
  {
    if |prefix| <= |s| && s[..|prefix|] == prefix then Some(s[|prefix|..]) else None
  }

  /** A decimal number and what follows it. */
  function Number(s: string): Option<(nat, string)> {
    var n := Decimal.DigitRun(s);
    if n == 0 then None else DigitsFit(s); Some((Decimal.Value(s[..n]), s[n..]))
  }

  lemma {:induction false} DigitsFit(s: string)
    ensures Decimal.DigitRun(s) <= |s| && Decimal.AllDigits(s[..Decimal.DigitRun(s)])
  {
    if s != [] && '0' <= s[0] <= '9' {
      DigitsFit(s[1..]);
      var n := Decimal.DigitRun(s);
      assert s[..n][1..] == s[1..][..n - 1];
      assert forall i | 0 < i < n :: s[..n][i] == s[1..][..n - 1][i - 1];
    }
  }

  /** The shape in a header text: the dictionary, then spaces and a newline. */
  function ReadDict(s: string): Option<(nat, nat)> {
    var a := After(s, DICT_START);
    if a.None? then None else
    var rows := Number(a.value);
    if rows.None? then None else
    var b := After(rows.value.1, DICT_MIDDLE);
    if b.None? then None else
    var cols := Number(b.value);
    if cols.None? then None else
    var c := After(cols.value.1, DICT_END);
    if c.None? || !IsPadding(c.value) then None else Some((rows.value.0, cols.value.0))
  }

  /** Shape and offset of the data of a version 1.0 file: magic, version, the
      little-endian length of the header text, and the text. */
  function ReadHeader(b: seq<Byte>): Option<(nat, nat, nat)> {
    if |b| < PREAMBLE || b[..6] != MAGIC || b[6..8] != [1, 0] then None
    else
      var end: nat := PREAMBLE + Get16(b, 8) as int;
      if end % 64 != 0 || |b| < end then None
      else
        var shape := ReadDict(Text(b[PREAMBLE..end]));
        if shape.None? then None else Some((shape.value.0, shape.value.1, end))
  }

  // ---- The header ----

  lemma DictLength(rows: nat, cols: nat)
    ensures |Dict(rows, cols)| == 57 + |Decimal.ToString(rows)| + |Decimal.ToString(cols)|
  {
    assert |DICT_START| == 51 && |DICT_MIDDLE| == 2 && |DICT_END| == 4;
  }

  lemma TwentyDigits(n: U64)
    ensures 1 <= |Decimal.ToString(n)| <= 20
  {
    assert Decimal.Pow10(5) == 100_000;
    assert Decimal.Pow10(10) == 10_000_000_000;
    assert Decimal.Pow10(15) == 1_000_000_000_000_000;
    assert Decimal.Pow10(20) == 100_000_000_000_000_000_000;
    Decimal.ToStringLength(n, 20);
  }

  /** For all 64-bit sizes the header is two 64-byte blocks long, so its length
      fits the 16-bit field and the data is aligned. */
  lemma HeaderIs128(rows: U64, cols: U64)
    ensures |HeaderText(rows, cols)| == 118 && |Header(rows, cols)| == 128
    ensures Get16(Header(rows, cols), 8) == 118
  {
    DictLength(rows, cols);
    TwentyDigits(rows);
    TwentyDigits(cols);
    Get16Le16(118);
  }

  ghost predicate IsAscii(s: string) {
    forall i | 0 <= i < |s| :: s[i] as int < 128
  }

  lemma TextOfAscii(s: string)
    requires IsAscii(s)
    ensures Text(Ascii(s)) == s
  {
  }

  const START_PARTS := ["{'descr': '<f", "4', 'fortran_", "order': False", ", 'shape': ("]

  lemma StartParts()
    ensures DICT_START == START_PARTS[0] + START_PARTS[1] + START_PARTS[2] + START_PARTS[3]
  {
  }

  lemma PartsAreAscii(i: nat)
    requires i < 4
    ensures IsAscii(START_PARTS[i])
  {
  }

  lemma DictWordsAreAscii()
    ensures IsAscii(DICT_START) && IsAscii(DICT_MIDDLE) && IsAscii(DICT_END)
  {
    assert IsAscii(DICT_MIDDLE) && IsAscii(DICT_END);
    StartParts();
    hide IsAscii;
    PartsAreAscii(0);
    PartsAreAscii(1);
    PartsAreAscii(2);
    PartsAreAscii(3);
    BothAscii(START_PARTS[0], START_PARTS[1]);
    BothAscii(START_PARTS[0] + START_PARTS[1], START_PARTS[2]);
    BothAscii(START_PARTS[0] + START_PARTS[1] + START_PARTS[2], START_PARTS[3]);
  }

  lemma BothAscii(a: string, b: string)
    requires IsAscii(a) && IsAscii(b)
    ensures IsAscii(a + b)
  {
  }

  lemma HeaderIsAscii(rows: nat, cols: nat)
    ensures IsAscii(HeaderText(rows, cols))
  {
    var r, c := Decimal.ToString(rows), Decimal.ToString(cols);
    var pad := Spaces(Total(|Dict(rows, cols)|) - PREAMBLE - 1 - |Dict(rows, cols)|);
    DictWordsAreAscii();
    assert IsAscii(r) && IsAscii(c) && IsAscii(pad) && IsAscii("\n");
    hide Decimal.ToString, IsAscii;
    BothAscii(c, DICT_END);
    BothAscii(DICT_MIDDLE, c + DICT_END);
    BothAscii(r, DICT_MIDDLE + (c + DICT_END));
    BothAscii(DICT_START, r + (DICT_MIDDLE + (c + DICT_END)));
    BothAscii(Dict(rows, cols), pad);
    BothAscii(Dict(rows, cols) + pad, "\n");
  }

  lemma AfterOwnPrefix(prefix: string, x: string)
    ensures After(prefix + x, prefix) == Some(x)
  {
    assert (prefix + x)[..|prefix|] == prefix && (prefix + x)[|prefix|..] == x;
  }

  lemma NumberOf(n: nat, x: string)
    requires x == [] || !Decimal.IsDigit(x[0])
    ensures Number(Decimal.ToString(n) + x) == Some((n, x))
  {
    var d := Decimal.ToString(n);
    Decimal.DigitRunOf(d, x);
    Decimal.ValueOfToString(n);
    assert (d + x)[..|d|] == d && (d + x)[|d|..] == x;
  }

  lemma DictReadsBack(rows: nat, cols: nat, pad: string)
    requires IsPadding(pad)
    ensures ReadDict(Dict(rows, cols) + pad) == Some((rows, cols))
  {
    var r, c := Decimal.ToString(rows), Decimal.ToString(cols);
    var w := DICT_END + pad;
    var x := DICT_MIDDLE + (c + w);
    Regroup(DICT_START, r + (DICT_MIDDLE + (c + DICT_END)), pad);
    Regroup(r, DICT_MIDDLE + (c + DICT_END), pad);
    Regroup(DICT_MIDDLE, c + DICT_END, pad);
    Regroup(c, DICT_END, pad);
    assert Dict(rows, cols) + pad == DICT_START + (r + x);
    AfterOwnPrefix(DICT_START, r + x);
    assert x[0] == ',' && w[0] == ')';
    NumberOf(rows, x);
    AfterOwnPrefix(DICT_MIDDLE, c + w);
    NumberOf(cols, w);
    AfterOwnPrefix(DICT_END, pad);
    hide After, Number, Dict;
  }

  /** A reader gets back the shape, and finds the data behind the header. */
  lemma HeaderReadsBack(rows: U64, cols: U64, data: seq<Byte>)
    ensures ReadHeader(Header(rows, cols) + data) == Some((rows, cols, 128))
  {
    HeaderIs128(rows, cols);
    var text, dict := HeaderText(rows, cols), Dict(rows, cols);
    var pad := Spaces(Total(|dict|) - PREAMBLE - 1 - |dict|) + "\n";
    Regroup(dict, Spaces(Total(|dict|) - PREAMBLE - 1 - |dict|), "\n");
    DictReadsBack(rows, cols, pad);
    HeaderIsAscii(rows, cols);
    TextOfAscii(text);
    HeaderParts(rows, cols, data);
    hide ReadDict, Dict, HeaderText, Text, Ascii, Header;
  }

  lemma HeaderParts(rows: U64, cols: U64, data: seq<Byte>)
    ensures var b := Header(rows, cols) + data;
            && |b| >= 128 && b[..6] == MAGIC && b[6..8] == [1, 0] && Get16(b, 8) == 118
            && b[PREAMBLE..128] == Ascii(HeaderText(rows, cols))
  {
    HeaderIs128(rows, cols);
    var h, b, text := Header(rows, cols), Header(rows, cols) + data, Ascii(HeaderText(rows, cols));
    assert h == MAGIC + [1, 0] + Le16(118) + text;
    hide Header, HeaderText, Ascii, Le16;
    assert b[8] == h[8] && b[9] == h[9];
    assert b[..6] == h[..6] == MAGIC;
    assert b[6..8] == h[6..8] == [1, 0];
    assert b[PREAMBLE..128] == h[PREAMBLE..128] == text;
  }

  /** The header byte by byte: magic, version 1.0, the length 118, then a Python
      dictionary that gives the shape as (rows, cols), spaces, and a newline. */
  lemma HeaderBytes(rows: U64, cols: U64)
    ensures var h, r, c := Header(rows, cols), Decimal.ToString(rows), Decimal.ToString(cols);
            && |h| == 128 && 57 + |r| + |c| <= 117
            && h[..10] == [0x93, 0x4E, 0x55, 0x4D, 0x50, 0x59, 1, 0, 118, 0]
            && Text(h[10..]) == "{'descr': '<f4', 'fortran_order': False, 'shape': ("
                                + (r + (", " + (c + "), }"))) + Spaces(60 - |r| - |c|) + "\n"
  {
    HeaderIs128(rows, cols);
    DictLength(rows, cols);
    HeaderIsAscii(rows, cols);
    TextOfAscii(HeaderText(rows, cols));
    HeaderParts(rows, cols, []);
    var h := Header(rows, cols);
    assert h + [] == h;
    hide Text, Ascii, Header, Decimal.ToString, IsAscii;
    assert h[10..128] == h[10..];
    HeaderFront(rows, cols);
  }

  lemma HeaderFront(rows: U64, cols: U64)
    ensures |Header(rows, cols)| == 128
    ensures Header(rows, cols)[..10] == [0x93, 0x4E, 0x55, 0x4D, 0x50, 0x59, 1, 0, 118, 0]
  {
    HeaderIs128(rows, cols);
    var text := Ascii(HeaderText(rows, cols));
    var front := MAGIC + [1, 0] + Le16(118);
    assert Header(rows, cols) == front + text;
    hide Header, HeaderText, Ascii;
    assert (front + text)[..10] == front;
  }

  // ---- The file ----

  lemma SliceOfRow(out: seq<Byte>, data: seq<Byte>, at: nat, n: nat, i: nat)
    requires at + n <= |data| && i + 4 <= n
    ensures (out + data[at..at + n])[|out| + i..|out| + i + 4] == data[at + i..at + i + 4]
  {
    var row := data[at..at + n];
    var x, y := (out + row)[|out| + i..|out| + i + 4], data[at + i..at + i + 4];
    assert forall k | 0 <= k < 4 :: x[k] == row[i + k] == y[k];
  }

  lemma SliceKept(out: seq<Byte>, row: seq<Byte>, i: nat)
    requires i + 4 <= |out|
    ensures (out + row)[i..i + 4] == out[i..i + 4]
  {
  }

  lemma SampleKept(out: seq<Byte>, row: seq<Byte>, f: Frame, x: nat, y: nat)
    requires SampleIn(out, f, x, y)
    ensures SampleIn(out + row, f, x, y)
  {
    SliceKept(out, row, 128 + (y * f.meta.width + x) * 4);
  }

  /** The samples of a row, without what pads it. */
  function RowBytes(f: Frame, y: nat): (row: seq<Byte>)
    requires HasSf32(f) && Readable(f) && y < f.meta.height
    ensures |row| == f.meta.width * 4
  {
    RowsFit(f, y);
    var at: nat := y * f.meta.bytesPerLine;
    f.data[at..at + f.meta.width as nat * 4]
  }

  lemma RowCopied(out: seq<Byte>, f: Frame, x: nat, y: nat)
    requires HasSf32(f) && Readable(f) && x < f.meta.width && y < f.meta.height
    requires |out| == 128 + y * (f.meta.width * 4)
    ensures SampleIn(out + RowBytes(f, y), f, x, y)
  {
    SampleInBounds(f, x, y);
    RowsFit(f, y);
    SliceOfRow(out, f.data, y * f.meta.bytesPerLine, f.meta.width * 4, x * 4);
    Place(y, f.meta.width, x);
  }

  lemma Place(y: nat, w: nat, x: nat)
    ensures (y * w + x) * 4 == y * (w * 4) + x * 4
  {
  }

  /** The file up to row `y`. */
  ghost predicate RowsIn(out: seq<Byte>, f: Frame, y: nat) {
    && |out| == 128 + y * (f.meta.width * 4)
    && out[..128] == Header(f.meta.height, f.meta.width)
    && forall v: nat, x: nat | v < y && x < f.meta.width :: SampleIn(out, f, x, v)
  }

  lemma SamplesUpTo(out: seq<Byte>, row: seq<Byte>, f: Frame, x: nat, y: nat, v: nat)
    requires HasSf32(f) && Readable(f) && y < f.meta.height && v <= y && x < f.meta.width
    requires RowsIn(out, f, y) && row == RowBytes(f, y)
    ensures SampleIn(out + row, f, x, v)
  {
    hide SampleIn, HasSf32, Readable, Header, RowBytes;
    if v < y {
      SampleKept(out, row, f, x, v);
    } else {
      RowCopied(out, f, x, y);
    }
  }

  lemma StillHeader(out: seq<Byte>, row: seq<Byte>)
    requires |out| >= 128
    ensures (out + row)[..128] == out[..128]
  {
  }

  lemma RowAppended(out: seq<Byte>, f: Frame, y: nat)
    requires HasSf32(f) && Readable(f) && y < f.meta.height
    requires RowsIn(out, f, y)
    ensures RowsIn(out + RowBytes(f, y), f, y + 1)
  {
    var row := RowBytes(f, y);
    forall v: nat, x: nat | v <= y && x < f.meta.width ensures SampleIn(out + row, f, x, v) {
      SamplesUpTo(out, row, f, x, y, v);
    }
    NextRow(y, f.meta.width * 4);
    StillHeader(out, row);
    hide SampleIn, HasSf32, Readable, Header, RowBytes;
  }

  lemma FileShape(out: seq<Byte>, f: Frame)
    requires RowsIn(out, f, f.meta.height)
    ensures 128 <= |out| && |out| == 128 + f.meta.width * f.meta.height * 4
    ensures out == Header(f.meta.height, f.meta.width) + out[128..]
  {
    hide SampleIn, Header;
    Area(f.meta.width, f.meta.height);
    assert out == out[..128] + out[128..];
  }

  lemma Area(w: nat, h: nat)
    ensures h * (w * 4) == w * h * 4 >= 0
  {
  }

  lemma FileDone(out: seq<Byte>, f: Frame)
    requires RowsIn(out, f, f.meta.height)
    ensures IsNpyOf(out, f)
  {
    FileShape(out, f);
    hide SampleIn, ReadHeader, Header;
    HeaderReadsBack(f.meta.height as int, f.meta.width as int, out[128..]);
  }

  /** Copies row by row, dropping what pads a row in the frame. */
  method StackImageNpy(f: Frame) returns (out: seq<Byte>)
    requires HasSf32(f) ==> Readable(f)
    ensures !HasSf32(f) ==> out == []
    ensures HasSf32(f) ==> IsNpyOf(out, f)
  {
    if !HasSf32(f) {
      return [];
    }
    out := Header(f.meta.height, f.meta.width);
    HeaderIs128(f.meta.height as int, f.meta.width as int);
    hide HasSf32, Readable, Header, RowsIn, IsNpyOf;
    NoRowsYet(f);
    for y := 0 to f.meta.height
      invariant RowsIn(out, f, y)
    {
      RowAppended(out, f, y);
      out := out + RowBytes(f, y);
    }
    FileDone(out, f);
  }

  lemma NoRowsYet(f: Frame)
    ensures RowsIn(Header(f.meta.height, f.meta.width), f, 0)
  {
    HeaderIs128(f.meta.height as int, f.meta.width as int);
  }

  /** The sample at column `x` of row `y`, as a reader of a row-major array of
      this width finds it, is the one in the frame. */
  ghost predicate SampleIn(out: seq<Byte>, f: Frame, x: nat, y: nat) {
    var to, from := 128 + (y * f.meta.width + x) * 4, y * f.meta.bytesPerLine + x * 4;
    && 0 <= to && to + 4 <= |out|
    && 0 <= from && from + 4 <= |f.data|
    && out[to..to + 4] == f.data[from..from + 4]
  }

  /** A file of the frame's shape that holds its samples and nothing else. */
  ghost predicate IsNpyOf(out: seq<Byte>, f: Frame) {
    && ReadHeader(out) == Some((f.meta.height as nat, f.meta.width as nat, 128))
    && |out| == 128 + f.meta.width * f.meta.height * 4
    && forall x: nat, y: nat | x < f.meta.width && y < f.meta.height :: SampleIn(out, f, x, y)
  }
}
