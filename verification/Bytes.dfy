/** Fixed-width integers and their little-endian wire form. */
module Bytes {
  type Byte = b: int | 0 <= b < 0x100
  type U16 = x: int | 0 <= x < 0x1_0000
  type U32 = x: int | 0 <= x < 0x1_0000_0000
  type U64 = x: int | 0 <= x < 0x1_0000_0000_0000_0000
  /** An IEEE single, opaque: nothing here computes with one. */
  type Float32 = f: seq<Byte> | |f| == 4 witness [0, 0, 0, 0]

  type I32 = x: int | -0x8000_0000 <= x < 0x8000_0000

  function Le16(v: U16): (b: seq<Byte>)
    ensures |b| == 2
  {
    [v % 0x100, v / 0x100]
  }

  function Le32(v: U32): (b: seq<Byte>)
    ensures |b| == 4
  {
    Le16(v % 0x1_0000) + Le16(v / 0x1_0000)
  }

  function Get16(b: seq<Byte>, off: nat): U16
    requires off + 2 <= |b|
  {
    b[off] as int + 0x100 * b[off + 1] as int
  }

  function Get32(b: seq<Byte>, off: nat): U32
    requires off + 4 <= |b|
  {
    Get16(b, off) as int + 0x1_0000 * Get16(b, off + 2) as int
  }

  function Get64(b: seq<Byte>, off: nat): U64
    requires off + 8 <= |b|
  {
    Get32(b, off) as int + 0x1_0000_0000 * Get32(b, off + 4) as int
  }

  /** The value of a 32-bit word read as two's complement, and back. */
  function AsSigned(u: U32): I32 {
    if u < 0x8000_0000 then u else u - 0x1_0000_0000
  }

  function AsUnsigned(i: I32): U32 {
    if i >= 0 then i else i + 0x1_0000_0000
  }

  /** Numbers are little-endian: the least significant byte comes first. */
  lemma LittleEndian(b: seq<Byte>, off: nat)
    ensures off + 2 <= |b| ==> Get16(b, off) == b[off] as int + 0x100 * b[off + 1] as int
    ensures off + 4 <= |b| ==>
              Get32(b, off) == b[off] as int + 0x100 * b[off + 1] as int + 0x1_0000 * b[off + 2] as int
                               + 0x100_0000 * b[off + 3] as int
    ensures off + 8 <= |b| ==> Get64(b, off) == Get32(b, off) as int + 0x1_0000_0000 * Get32(b, off + 4) as int
  {
  }

  lemma Get16Le16(v: U16)
    ensures Get16(Le16(v), 0) == v
  {
  }

  lemma Get32Le32(v: U32)
    ensures Get32(Le32(v), 0) == v
  {
    Get16Le16(v % 0x1_0000);
    Get16Le16(v / 0x1_0000);
  }

  lemma Le16Get16(b: seq<Byte>, off: nat)
    requires off + 2 <= |b|
    ensures Le16(Get16(b, off)) == b[off..off + 2]
  {
  }

  lemma Le32Get32(b: seq<Byte>, off: nat)
    requires off + 4 <= |b|
    ensures Le32(Get32(b, off)) == b[off..off + 4]
  {
    Le16Get16(b, off);
    Le16Get16(b, off + 2);
    var v := Get32(b, off);
    assert v % 0x1_0000 == Get16(b, off) && v / 0x1_0000 == Get16(b, off + 2);
    assert b[off..off + 4] == b[off..off + 2] + b[off + 2..off + 4];
  }

  /** A packed run of 32-bit words. */
  function LeWords(ws: seq<U32>): (b: seq<Byte>)
    ensures |b| == 4 * |ws|
  {
    if ws == [] then [] else Le32(ws[0]) + LeWords(ws[1..])
  }

  /** `e` stands in `b` at offset `off`. */
  ghost predicate Stands(e: seq<Byte>, b: seq<Byte>, off: nat) {
    off + |e| <= |b| && b[off..off + |e|] == e
  }

  lemma StandsSplit(e: seq<Byte>, f: seq<Byte>, b: seq<Byte>, off: nat)
    ensures Stands(e + f, b, off) <==> Stands(e, b, off) && Stands(f, b, off + |e|)
  {
    if Stands(e + f, b, off) {
      var g := b[off..off + |e + f|];
      assert b[off..off + |e|] == g[..|e|];
      assert b[off + |e|..off + |e| + |f|] == g[|e|..];
    }
    if Stands(e, b, off) && Stands(f, b, off + |e|) {
      assert b[off..off + |e + f|] == b[off..off + |e|] + b[off + |e|..off + |e| + |f|];
    }
  }

  lemma Stands16(v: U16, b: seq<Byte>, off: nat)
    requires off + 2 <= |b|
    ensures Stands(Le16(v), b, off) <==> Get16(b, off) == v
  {
    Le16Get16(b, off);
    Get16Le16(v);
  }

  lemma Stands32(v: U32, b: seq<Byte>, off: nat)
    requires off + 4 <= |b|
    ensures Stands(Le32(v), b, off) <==> Get32(b, off) == v
  {
    Le32Get32(b, off);
    Get32Le32(v);
    if Stands(Le32(v), b, off) {
      assert Get32(b, off) == Get32(b[off..off + 4], 0);
    }
  }

  lemma {:induction false} WordAt(ws: seq<U32>, b: seq<Byte>, off: nat, i: nat)
    requires i < |ws| && Stands(LeWords(ws), b, off)
    ensures Get32(b, off + 4 * i) == ws[i]
    decreases i
  {
    StandsSplit(Le32(ws[0]), LeWords(ws[1..]), b, off);
    if i == 0 {
      Stands32(ws[0], b, off);
    } else {
      WordAt(ws[1..], b, off + 4, i - 1);
    }
  }

  lemma {:induction false} WordsStand(ws: seq<U32>, b: seq<Byte>, off: nat)
    requires off + 4 * |ws| <= |b| && forall i | 0 <= i < |ws| :: Get32(b, off + 4 * i) == ws[i]
    ensures Stands(LeWords(ws), b, off)
  {
    if ws != [] {
      var tail := ws[1..];
      forall i | 0 <= i < |tail| ensures Get32(b, off + 4 + 4 * i) == tail[i] {
        assert tail[i] == ws[i + 1] && off + 4 * (i + 1) == off + 4 + 4 * i;
      }
      assert Get32(b, off + 4 * 0) == ws[0];
      WordsStand(tail, b, off + 4);
      Stands32(ws[0], b, off);
      StandsSplit(Le32(ws[0]), LeWords(tail), b, off);
    }
  }
}
