/**
 The detection block that may follow a chunk header: a run of records, each a
 small fixed head, a 16-bit corner count and that many pairs of floats. The
 checkerboard and marker layouts differ only in the head, so the grammar and
 its two-way inverse are stated once for a head of `h` bytes. Floats are carried
 as their four bytes.
 */
module DetectionBlock {
  import opened Bytes
  import opened Seqs

  datatype Corner = Corner(x: Float32, y: Float32)
  datatype CornerSet = CornerSet(setId: Byte, flags: Byte, corners: seq<Corner>)
  datatype ArucoMarker = ArucoMarker(markerId: I32, quadrant: Byte, flags: Byte, corners: seq<Corner>)

  // CornerSetHeader is 4 bytes and MarkerSetHeader 8, the last two the count.
  const CORNER_HEAD := 2
  const MARKER_HEAD := 6

  datatype Record = Record(head: seq<Byte>, corners: seq<Corner>)

  ghost predicate WellFormed(h: nat, r: Record) {
    |r.head| == h && |r.corners| < 0x1_0000
  }

  ghost predicate AllWellFormed(h: nat, rs: seq<Record>) {
    forall i | 0 <= i < |rs| :: WellFormed(h, rs[i])
  }

  // ---- The encoder ----

  function EncodeCorners(cs: seq<Corner>): (b: seq<Byte>)
    ensures |b| == 8 * |cs|
  {
    if cs == [] then [] else EncodeCorners(cs[..|cs| - 1]) + cs[|cs| - 1].x + cs[|cs| - 1].y
  }

  function EncodeRecord(r: Record): (b: seq<Byte>)
    requires |r.corners| < 0x1_0000
    ensures |b| == |r.head| + 2 + 8 * |r.corners|
  {
    r.head + Le16(|r.corners|) + EncodeCorners(r.corners)
  }

  ghost function EncodeRecords(h: nat, rs: seq<Record>): seq<Byte>
    requires AllWellFormed(h, rs)
  {
    if rs == [] then [] else EncodeRecord(rs[0]) + EncodeRecords(h, rs[1..])
  }

  // ---- The grammar the parser loops follow ----

  function CornersAt(b: seq<Byte>, off: nat, n: nat): (cs: seq<Corner>)
    requires off + 8 * n <= |b|
    ensures |cs| == n
    decreases n
  {
    if n == 0 then []
    else
      var p := off + 8 * (n - 1);
      CornersAt(b, off, n - 1) + [Corner(b[p..p + 4], b[p + 4..p + 8])]
  }

  /** Whether a whole record starts at `off`: the guards of the parser's loop. */
  predicate RecordFits(h: nat, b: seq<Byte>, off: nat) {
    off + h + 2 <= |b| && off + h + 2 + 8 * Get16(b, off + h) as int <= |b|
  }

  function RecordAt(h: nat, b: seq<Byte>, off: nat): (r: Record)
    requires RecordFits(h, b, off)
  {
    Record(b[off..off + h], CornersAt(b, off + h + 2, Get16(b, off + h)))
  }

  /** The offset just behind the record at `off`. */
  function After(h: nat, b: seq<Byte>, off: nat): (next: nat)
    requires RecordFits(h, b, off)
    ensures off < next <= |b|
  {
    off + h + 2 + 8 * Get16(b, off + h) as int
  }

  function ParseRecords(h: nat, b: seq<Byte>, off: nat, limit: nat): (rs: seq<Record>)
    ensures |rs| <= limit
    ensures forall i | 0 <= i < |rs| :: |rs[i].head| == h && |rs[i].corners| < 0x1_0000
    decreases limit
  {
    if limit == 0 || !RecordFits(h, b, off) then []
    else
      var r := RecordAt(h, b, off);
      [r] + ParseRecords(h, b, After(h, b, off), limit - 1)
  }

  // ---- Two-way inverse ----

  lemma {:induction false} CornersOfEncode(b: seq<Byte>, off: nat, cs: seq<Corner>)
    requires Stands(EncodeCorners(cs), b, off)
    ensures CornersAt(b, off, |cs|) == cs
    decreases |cs|
  {
    if cs != [] {
      var n := |cs| - 1;
      StandsSplit(EncodeCorners(cs[..n]) + cs[n].x, cs[n].y, b, off);
      StandsSplit(EncodeCorners(cs[..n]), cs[n].x, b, off);
      CornersOfEncode(b, off, cs[..n]);
    }
  }

  lemma {:induction false} EncodeOfCorners(b: seq<Byte>, off: nat, n: nat)
    requires off + 8 * n <= |b|
    ensures Stands(EncodeCorners(CornersAt(b, off, n)), b, off)
    decreases n
  {
    if n > 0 {
      var p := off + 8 * (n - 1);
      EncodeOfCorners(b, off, n - 1);
      var cs := CornersAt(b, off, n);
      assert cs[..n - 1] == CornersAt(b, off, n - 1);
      StandsSplit(EncodeCorners(cs[..n - 1]), cs[n - 1].x, b, off);
      StandsSplit(EncodeCorners(cs[..n - 1]) + cs[n - 1].x, cs[n - 1].y, b, off);
    }
  }

  /** A record and the bytes at `off` determine each other. */
  lemma RecordBytes(h: nat, b: seq<Byte>, off: nat, r: Record)
    requires WellFormed(h, r)
    ensures Stands(EncodeRecord(r), b, off) <==> RecordFits(h, b, off) && RecordAt(h, b, off) == r
    ensures Stands(EncodeRecord(r), b, off) ==> After(h, b, off) == off + |EncodeRecord(r)|
  {
    var n := |r.corners|;
    StandsSplit(r.head + Le16(n), EncodeCorners(r.corners), b, off);
    StandsSplit(r.head, Le16(n), b, off);
    if off + h + 2 <= |b| {
      Stands16(n, b, off + h);
    }
    if Stands(EncodeRecord(r), b, off) {
      CornersOfEncode(b, off + h + 2, r.corners);
    }
    if RecordFits(h, b, off) && RecordAt(h, b, off) == r {
      EncodeOfCorners(b, off + h + 2, n);
    }
  }

  /** What the parser returns on arbitrary bytes, without mentioning how: the
      records stand in the block one after the other from `off`, and it stopped
      only because it had `limit` of them or because none stands next. */
  ghost predicate IsLongestReading(h: nat, b: seq<Byte>, off: nat, limit: nat, rs: seq<Record>) {
    && AllWellFormed(h, rs)
    && |rs| <= limit
    && Stands(EncodeRecords(h, rs), b, off)
    && (|rs| == limit || NoRecordAt(h, b, off + |EncodeRecords(h, rs)|))
  }

  ghost predicate NoRecordAt(h: nat, b: seq<Byte>, off: nat) {
    forall r: Record | WellFormed(h, r) :: !Stands(EncodeRecord(r), b, off)
  }

  lemma FitsIffStands(h: nat, b: seq<Byte>, off: nat)
    ensures RecordFits(h, b, off) <==> !NoRecordAt(h, b, off)
  {
    if RecordFits(h, b, off) {
      RecordBytes(h, b, off, RecordAt(h, b, off));
    }
    forall r: Record | WellFormed(h, r) && Stands(EncodeRecord(r), b, off)
      ensures RecordFits(h, b, off)
    {
      RecordBytes(h, b, off, r);
    }
  }

  lemma ReadingTail(h: nat, b: seq<Byte>, off: nat, limit: nat, r: Record, rs: seq<Record>)
    requires WellFormed(h, r) && limit > 0
    ensures IsLongestReading(h, b, off, limit, [r] + rs) <==>
            Stands(EncodeRecord(r), b, off) && IsLongestReading(h, b, off + |EncodeRecord(r)|, limit - 1, rs)
  {
    hide EncodeRecord, Stands;
    var all := [r] + rs;
    assert all[1..] == rs;
    assert AllWellFormed(h, all) <==> AllWellFormed(h, rs) by {
      assert forall i | 0 <= i < |rs| :: all[i + 1] == rs[i];
    }
    if AllWellFormed(h, rs) {
      StandsSplit(EncodeRecord(r), EncodeRecords(h, rs), b, off);
    }
  }

  /** The parser returns the longest reading of the block, and nothing else is
      one: on arbitrary bytes re-encoding its result gives bytes of the block,
      it holds at most `limit` records, and no record was left behind. */
  lemma {:induction false} ParseCharacterised(h: nat, b: seq<Byte>, off: nat, limit: nat, rs: seq<Record>)
    requires off <= |b|
    ensures rs == ParseRecords(h, b, off, limit) <==> IsLongestReading(h, b, off, limit, rs)
    decreases limit
  {
    hide RecordAt, EncodeRecord, After;
    FitsIffStands(h, b, off);
    if rs != [] {
      assert rs == [rs[0]] + rs[1..];
      if limit > 0 && WellFormed(h, rs[0]) {
        ReadingTail(h, b, off, limit, rs[0], rs[1..]);
        RecordBytes(h, b, off, rs[0]);
        if RecordFits(h, b, off) {
          var next := After(h, b, off);
          ParseCharacterised(h, b, next, limit - 1, rs[1..]);
        }
      }
    }
  }

  /** Decoding what was encoded gives it back, whatever bytes follow. */
  lemma ParseOfEncode(h: nat, rs: seq<Record>, rest: seq<Byte>)
    requires AllWellFormed(h, rs)
    ensures ParseRecords(h, EncodeRecords(h, rs) + rest, 0, |rs|) == rs
  {
    var e := EncodeRecords(h, rs);
    assert (e + rest)[0..|e|] == e;
    ParseCharacterised(h, e + rest, 0, |rs|, rs);
  }

  lemma EncodeOfParse(h: nat, b: seq<Byte>, limit: nat)
    ensures var rs := ParseRecords(h, b, 0, limit);
            AllWellFormed(h, rs) && EncodeRecords(h, rs) <= b
  {
    var rs := ParseRecords(h, b, 0, limit);
    ParseCharacterised(h, b, 0, limit, rs);
    assert b[0..|EncodeRecords(h, rs)|] == b[..|EncodeRecords(h, rs)|];
  }

  // ---- The two record kinds ----

  function ToCornerSet(r: Record): CornerSet
    requires |r.head| == CORNER_HEAD
  {
    CornerSet(r.head[0], r.head[1], r.corners)
  }

  function FromCornerSet(s: CornerSet): Record {
    Record([s.setId, s.flags], s.corners)
  }

  function ToMarker(r: Record): ArucoMarker
    requires |r.head| == MARKER_HEAD
  {
    ArucoMarker(AsSigned(Get32(r.head, 0)), r.head[4], r.head[5], r.corners)
  }

  function FromMarker(m: ArucoMarker): Record {
    Record(Le32(AsUnsigned(m.markerId)) + [m.quadrant, m.flags], m.corners)
  }

  function CornerSetsAt(b: seq<Byte>, off: nat, limit: nat): (sets: seq<CornerSet>)
    ensures |sets| <= limit
    decreases limit
  {
    if limit == 0 || !RecordFits(CORNER_HEAD, b, off) then []
    else
      var r := RecordAt(CORNER_HEAD, b, off);
      [ToCornerSet(r)] + CornerSetsAt(b, After(CORNER_HEAD, b, off), limit - 1)
  }

  function MarkersAt(b: seq<Byte>, off: nat, limit: nat): (ms: seq<ArucoMarker>)
    ensures |ms| <= limit
    decreases limit
  {
    if limit == 0 || !RecordFits(MARKER_HEAD, b, off) then []
    else
      var r := RecordAt(MARKER_HEAD, b, off);
      [ToMarker(r)] + MarkersAt(b, After(MARKER_HEAD, b, off), limit - 1)
  }

  function CornerSetsIn(b: seq<Byte>, limit: nat): seq<CornerSet> {
    CornerSetsAt(b, 0, limit)
  }

  function MarkersIn(b: seq<Byte>, limit: nat): seq<ArucoMarker> {
    MarkersAt(b, 0, limit)
  }

  function CornerRecords(sets: seq<CornerSet>): seq<Record> {
    seq(|sets|, i requires 0 <= i < |sets| => FromCornerSet(sets[i]))
  }

  function MarkerRecords(ms: seq<ArucoMarker>): seq<Record> {
    seq(|ms|, i requires 0 <= i < |ms| => FromMarker(ms[i]))
  }

  lemma MarkerRecordInverse(m: ArucoMarker)
    ensures |FromMarker(m).head| == MARKER_HEAD && ToMarker(FromMarker(m)) == m
  {
    var h := FromMarker(m).head;
    Get32Le32(AsUnsigned(m.markerId));
    assert h[..4] == Le32(AsUnsigned(m.markerId));
    assert Get32(h, 0) == Get32(h[..4], 0);
  }

  lemma MarkerHeadInverse(r: Record)
    requires |r.head| == MARKER_HEAD
    ensures FromMarker(ToMarker(r)) == r
  {
    Le32Get32(r.head, 0);
    assert r.head == r.head[0..4] + [r.head[4], r.head[5]];
  }

  /** The typed sets are the generic records, one for one. */
  lemma {:induction false} CornerSetsMatch(b: seq<Byte>, off: nat, limit: nat)
    ensures CornerRecords(CornerSetsAt(b, off, limit)) == ParseRecords(CORNER_HEAD, b, off, limit)
    decreases limit
  {
    if limit != 0 && RecordFits(CORNER_HEAD, b, off) {
      var r := RecordAt(CORNER_HEAD, b, off);
      CornerSetsMatch(b, After(CORNER_HEAD, b, off), limit - 1);
      assert r.head == [r.head[0], r.head[1]];
      CornerRecordsCons(ToCornerSet(r), CornerSetsAt(b, After(CORNER_HEAD, b, off), limit - 1));
    }
  }

  lemma CornerRecordsCons(s: CornerSet, sets: seq<CornerSet>)
    ensures CornerRecords([s] + sets) == [FromCornerSet(s)] + CornerRecords(sets)
  {
  }

  lemma {:induction false} MarkersMatch(b: seq<Byte>, off: nat, limit: nat)
    ensures MarkerRecords(MarkersAt(b, off, limit)) == ParseRecords(MARKER_HEAD, b, off, limit)
    decreases limit
  {
    if limit != 0 && RecordFits(MARKER_HEAD, b, off) {
      var r := RecordAt(MARKER_HEAD, b, off);
      MarkersMatch(b, After(MARKER_HEAD, b, off), limit - 1);
      MarkerHeadInverse(r);
      MarkerRecordsCons(ToMarker(r), MarkersAt(b, After(MARKER_HEAD, b, off), limit - 1));
    }
  }

  lemma MarkerRecordsCons(m: ArucoMarker, ms: seq<ArucoMarker>)
    ensures MarkerRecords([m] + ms) == [FromMarker(m)] + MarkerRecords(ms)
  {
  }

  lemma CornerRecordsInjective(a: seq<CornerSet>, b: seq<CornerSet>)
    requires CornerRecords(a) == CornerRecords(b)
    ensures a == b
  {
    assert |a| == |CornerRecords(a)| == |b|;
    forall i | 0 <= i < |a| ensures a[i] == b[i] {
      assert CornerRecords(a)[i] == CornerRecords(b)[i];
      assert FromCornerSet(a[i]).head[0] == FromCornerSet(b[i]).head[0];
      assert FromCornerSet(a[i]).head[1] == FromCornerSet(b[i]).head[1];
    }
  }

  lemma MarkerRecordsInjective(a: seq<ArucoMarker>, b: seq<ArucoMarker>)
    requires MarkerRecords(a) == MarkerRecords(b)
    ensures a == b
  {
    assert |a| == |MarkerRecords(a)| == |b|;
    forall i | 0 <= i < |a| ensures a[i] == b[i] {
      assert MarkerRecords(a)[i] == MarkerRecords(b)[i];
      MarkerRecordInverse(a[i]);
      MarkerRecordInverse(b[i]);
    }
  }

  lemma CornerSetsRoundTrip(sets: seq<CornerSet>, rest: seq<Byte>)
    requires forall i | 0 <= i < |sets| :: |sets[i].corners| < 0x1_0000
    ensures AllWellFormed(CORNER_HEAD, CornerRecords(sets))
    ensures CornerSetsIn(EncodeRecords(CORNER_HEAD, CornerRecords(sets)) + rest, |sets|) == sets
  {
    var b := EncodeRecords(CORNER_HEAD, CornerRecords(sets)) + rest;
    ParseOfEncode(CORNER_HEAD, CornerRecords(sets), rest);
    CornerSetsMatch(b, 0, |sets|);
    CornerRecordsInjective(CornerSetsIn(b, |sets|), sets);
  }

  lemma MarkersRoundTrip(ms: seq<ArucoMarker>, rest: seq<Byte>)
    requires forall i | 0 <= i < |ms| :: |ms[i].corners| < 0x1_0000
    ensures AllWellFormed(MARKER_HEAD, MarkerRecords(ms))
    ensures MarkersIn(EncodeRecords(MARKER_HEAD, MarkerRecords(ms)) + rest, |ms|) == ms
  {
    var b := EncodeRecords(MARKER_HEAD, MarkerRecords(ms)) + rest;
    ParseOfEncode(MARKER_HEAD, MarkerRecords(ms), rest);
    MarkersMatch(b, 0, |ms|);
    MarkerRecordsInjective(MarkersIn(b, |ms|), ms);
  }

  /** On arbitrary bytes, both kinds re-encode to a prefix of the block. */
  lemma CornerSetsReencode(b: seq<Byte>, limit: nat)
    ensures |CornerSetsIn(b, limit)| <= limit
    ensures AllWellFormed(CORNER_HEAD, CornerRecords(CornerSetsIn(b, limit)))
    ensures EncodeRecords(CORNER_HEAD, CornerRecords(CornerSetsIn(b, limit))) <= b
  {
    EncodeOfParse(CORNER_HEAD, b, limit);
    CornerSetsMatch(b, 0, limit);
  }

  lemma MarkersReencode(b: seq<Byte>, limit: nat)
    ensures |MarkersIn(b, limit)| <= limit
    ensures AllWellFormed(MARKER_HEAD, MarkerRecords(MarkersIn(b, limit)))
    ensures EncodeRecords(MARKER_HEAD, MarkerRecords(MarkersIn(b, limit))) <= b
  {
    EncodeOfParse(MARKER_HEAD, b, limit);
    MarkersMatch(b, 0, limit);
  }

  // ---- Byte by byte ----

  /** Corner `i` is the two floats at byte 8 * i from `off`. */
  ghost predicate CornersLie(cs: seq<Corner>, b: seq<Byte>, off: nat) {
    forall i | 0 <= i < |cs| :: CornerLies(cs[i], b, off + 8 * i)
  }

  ghost predicate CornerLies(c: Corner, b: seq<Byte>, off: nat) {
    off + 8 <= |b| && c.x == b[off..off + 4] && c.y == b[off + 4..off + 8]
  }

  lemma {:induction false} CornersLieThere(b: seq<Byte>, off: nat, n: nat)
    requires off + 8 * n <= |b|
    ensures CornersLie(CornersAt(b, off, n), b, off)
    decreases n
  {
    if n > 0 {
      CornersLieThere(b, off, n - 1);
    }
  }

  /** Where the bytes of a parsed corner set come from, and where the next one
      starts. */
  lemma CornerSetBytes(b: seq<Byte>, off: nat, limit: nat)
    ensures var sets := CornerSetsAt(b, off, limit);
            if limit == 0 || off + 4 > |b| || off + 4 + 8 * Get16(b, off + 2) as int > |b| then sets == []
            else
              && sets != [] && sets[0].setId == b[off] && sets[0].flags == b[off + 1]
              && |sets[0].corners| == Get16(b, off + 2) && CornersLie(sets[0].corners, b, off + 4)
              && sets[1..] == CornerSetsAt(b, off + 4 + 8 * |sets[0].corners|, limit - 1)
  {
    hide CornersLie, Get16, CornersAt;
    if limit > 0 && RecordFits(CORNER_HEAD, b, off) {
      CornersLieThere(b, off + 4, Get16(b, off + 2));
    }
  }

  /** The same for a marker. */
  lemma MarkerBytes(b: seq<Byte>, off: nat, limit: nat)
    ensures var ms := MarkersAt(b, off, limit);
            if limit == 0 || off + 8 > |b| || off + 8 + 8 * Get16(b, off + 6) as int > |b| then ms == []
            else
              && ms != [] && ms[0].markerId == AsSigned(Get32(b, off))
              && ms[0].quadrant == b[off + 4] && ms[0].flags == b[off + 5]
              && |ms[0].corners| == Get16(b, off + 6) && CornersLie(ms[0].corners, b, off + 8)
              && ms[1..] == MarkersAt(b, off + 8 + 8 * |ms[0].corners|, limit - 1)
  {
    hide CornersLie, Get16, CornersAt, Get32, AsSigned;
    if limit > 0 && RecordFits(MARKER_HEAD, b, off) {
      MarkerThere(b, off);
      hide ToMarker, RecordAt;
    }
  }

  lemma MarkerThere(b: seq<Byte>, off: nat)
    requires RecordFits(MARKER_HEAD, b, off)
    ensures var m := ToMarker(RecordAt(MARKER_HEAD, b, off));
            && m.markerId == AsSigned(Get32(b, off)) && m.quadrant == b[off + 4] && m.flags == b[off + 5]
            && |m.corners| == Get16(b, off + 6) && CornersLie(m.corners, b, off + 8)
  {
    WordOfSlice(b, off);
    CornersLieThere(b, off + 8, Get16(b, off + 6));
    hide CornersLie, Get16, CornersAt, Get32, AsSigned;
  }

  lemma WordOfSlice(b: seq<Byte>, off: nat)
    requires off + 6 <= |b|
    ensures Get32(b[off..off + 6], 0) == Get32(b, off)
  {
  }

  // ---- The parser loops ----

  method ReadCorners(block: seq<Byte>, start: nat, n: nat) returns (corners: seq<Corner>)
    requires start + 8 * n <= |block|
    ensures corners == CornersAt(block, start, n)
  {
    corners := [];
    var off := start;
    for i := 0 to n
      invariant off == start + 8 * i
      invariant corners == CornersAt(block, start, i)
    {
      corners := corners + [Corner(block[off..off + 4], block[off + 4..off + 8])];
      off := off + 8;
    }
  }

  method ReadCornerSet(block: seq<Byte>, off: nat) returns (cornerSet: CornerSet, next: nat)
    requires RecordFits(CORNER_HEAD, block, off)
    ensures cornerSet == ToCornerSet(RecordAt(CORNER_HEAD, block, off)) && next == After(CORNER_HEAD, block, off)
  {
    var n := Get16(block, off + 2);
    var corners := ReadCorners(block, off + 4, n);
    cornerSet, next := CornerSet(block[off], block[off + 1], corners), off + 4 + |corners| * 8;
  }

  method ReadMarker(block: seq<Byte>, off: nat) returns (marker: ArucoMarker, next: nat)
    requires RecordFits(MARKER_HEAD, block, off)
    ensures marker == ToMarker(RecordAt(MARKER_HEAD, block, off)) && next == After(MARKER_HEAD, block, off)
  {
    var n := Get16(block, off + 6);
    var corners := ReadCorners(block, off + 8, n);
    ghost var head := block[off..off + 6];
    assert Get32(head, 0) == Get32(block, off);
    marker := ArucoMarker(AsSigned(Get32(block, off)), block[off + 4], block[off + 5], corners);
    next := off + 8 + |corners| * 8;
  }

  method ParseCornerBlock(block: seq<Byte>, expectedSets: U16) returns (out: seq<CornerSet>)
    ensures out == CornerSetsIn(block, expectedSets)
  {
    hide RecordAt;
    out := [];
    if |block| == 0 || expectedSets == 0 {
      return;
    }
    var off := 0;
    ghost var room, todo := expectedSets as nat, CornerSetsIn(block, expectedSets);
    while off + 4 <= |block| && |out| < expectedSets
      invariant off <= |block| && |out| <= expectedSets
      invariant room == expectedSets - |out| && todo == CornerSetsAt(block, off, room)
      invariant out + todo == CornerSetsIn(block, expectedSets)
      decreases |block| - off
    {
      if off + 4 + Get16(block, off + 2) as int * 8 > |block| {
        return;
      }
      var cornerSet;
      cornerSet, off := ReadCornerSet(block, off);
      ghost var left := CornerSetsAt(block, off, room - 1);
      assert todo == [cornerSet] + left;
      Shift(out, cornerSet, left);
      out, room, todo := out + [cornerSet], room - 1, left;
    }
  }

  method ParseMarkerBlock(block: seq<Byte>, expectedSets: U16) returns (out: seq<ArucoMarker>)
    ensures out == MarkersIn(block, expectedSets)
  {
    hide RecordAt;
    out := [];
    if |block| == 0 || expectedSets == 0 {
      return;
    }
    var off := 0;
    ghost var room, todo := expectedSets as nat, MarkersIn(block, expectedSets);
    while off + 8 <= |block| && |out| < expectedSets
      invariant off <= |block| && |out| <= expectedSets
      invariant room == expectedSets - |out| && todo == MarkersAt(block, off, room)
      invariant out + todo == MarkersIn(block, expectedSets)
      decreases |block| - off
    {
      if off + 8 + Get16(block, off + 6) as int * 8 > |block| {
        return;
      }
      var marker;
      marker, off := ReadMarker(block, off);
      ghost var left := MarkersAt(block, off, room - 1);
      assert todo == [marker] + left;
      Shift(out, marker, left);
      out, room, todo := out + [marker], room - 1, left;
    }
  }
}
