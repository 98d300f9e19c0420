/**
 The binary messages of protocol v8 (src/net/Protocol.hpp): a CHUN start
 message is an 8-byte marker, the packed 72-byte ChunkHeader and an optional
 detection block; a CHNK message is a 16-byte header and its payload.
 */
module Protocol {
  import opened Bytes

  const CHUNK_START_MAGIC: U32 := 0x4348554E
  const CHUNK_DATA_MAGIC: U32 := 0x43484E4B
  const CHUNK_VERSION: U32 := 8
  const CHUNK_START_MIN_SIZE := 80
  const CHUNK_DATA_HEADER_SIZE := 16

  const DETECTION_CHECKERBOARD: Byte := 1
  const DETECTION_ARUCO: Byte := 2

  const FRAME_STACK: Byte := 1
  const FRAME_TRIGGER: Byte := 2

  predicate IsCaptureFrameKind(kind: Byte) {
    kind == FRAME_STACK || kind == FRAME_TRIGGER
  }

  datatype ChunkHeader = ChunkHeader(
    frameUuid: U32, frameId: U32, cameraId: U32, totalChunks: U32, totalSize: U32,
    bytesPerLine: U32, width: U32, height: U32, pixelFormat: U32, framesSaved: U32,
    timestampUs: U64, frameDurationUs: U32, cornerBlockSize: U32,
    numCornerSets: U16, captureId: U16, lensPosition: Float32,
    afState: Byte, detectionKind: Byte, frameKind: Byte, reserved2: Byte, focusFom: I32)

  /** The header at `off`, field by field at its packed offset. */
  function HeaderAt(b: seq<Byte>, off: nat): ChunkHeader
    requires off + 72 <= |b|
  {
    ChunkHeader(
      Get32(b, off), Get32(b, off + 4), Get32(b, off + 8), Get32(b, off + 12), Get32(b, off + 16),
      Get32(b, off + 20), Get32(b, off + 24), Get32(b, off + 28), Get32(b, off + 32), Get32(b, off + 36),
      Get64(b, off + 40), Get32(b, off + 48), Get32(b, off + 52),
      Get16(b, off + 56), Get16(b, off + 58), b[off + 60..off + 64],
      b[off + 64], b[off + 65], b[off + 66], b[off + 67], AsSigned(Get32(b, off + 68)))
  }

  /** How a binary message reads. `Short` is fewer than 8 bytes; `Bad` is any
      other message that is rejected before it reaches a frame. */
  datatype Incoming =
    | Short
    | Bad
    | Start(hdr: ChunkHeader, block: seq<Byte>)
    | Chunk(uuid: U32, index: U32, bytes: seq<Byte>)

  function Classify(msg: seq<Byte>): (m: Incoming)
    ensures m.Start? ==> |m.block| == m.hdr.cornerBlockSize
  {
    if |msg| < 8 then Short
    else if Get32(msg, 0) == CHUNK_START_MAGIC then ClassifyStart(msg)
    else if Get32(msg, 0) == CHUNK_DATA_MAGIC then ClassifyChunk(msg)
    else Bad
  }

  function ClassifyStart(msg: seq<Byte>): (m: Incoming)
    requires |msg| >= 8
    ensures m.Start? ==> |m.block| == m.hdr.cornerBlockSize
    ensures m.Start? || m.Bad?
  {
    if |msg| < CHUNK_START_MIN_SIZE || Get32(msg, 4) != CHUNK_VERSION then Bad
    else
      var hdr := HeaderAt(msg, 8);
      if |msg| != CHUNK_START_MIN_SIZE + hdr.cornerBlockSize then Bad
      else Start(hdr, msg[CHUNK_START_MIN_SIZE..])
  }

  function ClassifyChunk(msg: seq<Byte>): (m: Incoming)
    requires |msg| >= 8
    ensures m.Chunk? || m.Bad?
  {
    if |msg| < CHUNK_DATA_HEADER_SIZE || |msg| != CHUNK_DATA_HEADER_SIZE + Get32(msg, 12) then Bad
    else Chunk(Get32(msg, 4), Get32(msg, 8), msg[CHUNK_DATA_HEADER_SIZE..])
  }

  // ---- The sender's side ----

  /** The header's first 56 bytes, as 32-bit words. */
  function LeadingWords(h: ChunkHeader): (ws: seq<U32>)
    ensures |ws| == 14
  {
    [h.frameUuid, h.frameId, h.cameraId, h.totalChunks, h.totalSize,
     h.bytesPerLine, h.width, h.height, h.pixelFormat, h.framesSaved,
     h.timestampUs % 0x1_0000_0000, h.timestampUs / 0x1_0000_0000,
     h.frameDurationUs, h.cornerBlockSize]
  }

  /** Its last 16 bytes, as halves, bytes and words. */
  function TrailingBytes(h: ChunkHeader): (b: seq<Byte>)
    ensures |b| == 16
  {
    Le16(h.numCornerSets) + Le16(h.captureId) + h.lensPosition
    + [h.afState, h.detectionKind, h.frameKind, h.reserved2] + Le32(AsUnsigned(h.focusFom))
  }

  function EncodeHeader(h: ChunkHeader): (b: seq<Byte>)
    ensures |b| == 72
  {
    LeWords(LeadingWords(h)) + TrailingBytes(h)
  }

  function EncodeStart(h: ChunkHeader, block: seq<Byte>): seq<Byte> {
    LeWords([CHUNK_START_MAGIC, CHUNK_VERSION]) + EncodeHeader(h) + block
  }

  function EncodeChunk(uuid: U32, index: U32, bytes: seq<Byte>): seq<Byte>
    requires |bytes| < 0x1_0000_0000
  {
    LeWords([CHUNK_DATA_MAGIC, uuid, index, |bytes|]) + bytes
  }

  lemma HeaderOfEncode(h: ChunkHeader, b: seq<Byte>, off: nat)
    requires Stands(EncodeHeader(h), b, off)
    ensures HeaderAt(b, off) == h
  {
    StandsSplit(LeWords(LeadingWords(h)), TrailingBytes(h), b, off);
    LeadingFields(h, b, off);
    TrailingFields(h, b, off + 56);
  }

  lemma LeadingFields(h: ChunkHeader, b: seq<Byte>, off: nat)
    requires Stands(LeWords(LeadingWords(h)), b, off)
    ensures Get32(b, off) == h.frameUuid && Get32(b, off + 4) == h.frameId && Get32(b, off + 8) == h.cameraId
    ensures Get32(b, off + 12) == h.totalChunks && Get32(b, off + 16) == h.totalSize
    ensures Get32(b, off + 20) == h.bytesPerLine && Get32(b, off + 24) == h.width && Get32(b, off + 28) == h.height
    ensures Get32(b, off + 32) == h.pixelFormat && Get32(b, off + 36) == h.framesSaved
    ensures Get64(b, off + 40) == h.timestampUs
    ensures Get32(b, off + 48) == h.frameDurationUs && Get32(b, off + 52) == h.cornerBlockSize
  {
    var ws := LeadingWords(h);
    WordAt(ws, b, off, 0);
    WordAt(ws, b, off, 1);
    WordAt(ws, b, off, 2);
    WordAt(ws, b, off, 3);
    WordAt(ws, b, off, 4);
    WordAt(ws, b, off, 5);
    WordAt(ws, b, off, 6);
    WordAt(ws, b, off, 7);
    WordAt(ws, b, off, 8);
    WordAt(ws, b, off, 9);
    WordAt(ws, b, off, 10);
    WordAt(ws, b, off, 11);
    WordAt(ws, b, off, 12);
    WordAt(ws, b, off, 13);
  }

  lemma TrailingFields(h: ChunkHeader, b: seq<Byte>, p: nat)
    requires Stands(TrailingBytes(h), b, p)
    ensures Get16(b, p) == h.numCornerSets && Get16(b, p + 2) == h.captureId && b[p + 4..p + 8] == h.lensPosition
    ensures [b[p + 8], b[p + 9], b[p + 10], b[p + 11]] == [h.afState, h.detectionKind, h.frameKind, h.reserved2]
    ensures AsSigned(Get32(b, p + 12)) == h.focusFom
  {
    var t1 := Le16(h.numCornerSets);
    var t2 := t1 + Le16(h.captureId);
    var t3 := t2 + h.lensPosition;
    var four := [h.afState, h.detectionKind, h.frameKind, h.reserved2];
    StandsSplit(t3 + four, Le32(AsUnsigned(h.focusFom)), b, p);
    StandsSplit(t3, four, b, p);
    StandsSplit(t2, h.lensPosition, b, p);
    StandsSplit(t1, Le16(h.captureId), b, p);
    Stands16(h.numCornerSets, b, p);
    Stands16(h.captureId, b, p + 2);
    Stands32(AsUnsigned(h.focusFom), b, p + 12);
    var at := b[p + 8..p + 12];
    assert at == four;
    assert at[0] == b[p + 8] && at[1] == b[p + 9] && at[2] == b[p + 10] && at[3] == b[p + 11];
  }

  /** A start message reads back as the header and block it was built from. */
  lemma StartRoundTrip(h: ChunkHeader, block: seq<Byte>)
    requires h.cornerBlockSize == |block|
    ensures Classify(EncodeStart(h, block)) == Start(h, block)
  {
    var msg := EncodeStart(h, block);
    var ws := [CHUNK_START_MAGIC, CHUNK_VERSION];
    var start := LeWords(ws) + EncodeHeader(h);
    assert Stands(msg, msg, 0);
    StandsSplit(start, block, msg, 0);
    StandsSplit(LeWords(ws), EncodeHeader(h), msg, 0);
    WordAt(ws, msg, 0, 0);
    WordAt(ws, msg, 0, 1);
    HeaderOfEncode(h, msg, 8);
    assert msg[80..] == block;
  }

  lemma ChunkRoundTrip(uuid: U32, index: U32, bytes: seq<Byte>)
    requires |bytes| < 0x1_0000_0000
    ensures Classify(EncodeChunk(uuid, index, bytes)) == Chunk(uuid, index, bytes)
  {
    var msg := EncodeChunk(uuid, index, bytes);
    var ws := [CHUNK_DATA_MAGIC, uuid, index, |bytes|];
    assert Stands(msg, msg, 0);
    StandsSplit(LeWords(ws), bytes, msg, 0);
    WordAt(ws, msg, 0, 0);
    WordAt(ws, msg, 0, 1);
    WordAt(ws, msg, 0, 2);
    WordAt(ws, msg, 0, 3);
    assert msg[16..] == bytes;
  }

  /** Where each field of a start message lies, counted from its first byte. */
  lemma StartLayout(h: ChunkHeader, block: seq<Byte>)
    ensures var m := EncodeStart(h, block);
            && |m| == 80 + |block| && m[80..] == block
            && Get32(m, 0) == 0x4348554E && Get32(m, 4) == 8
            && Get32(m, 8) == h.frameUuid && Get32(m, 12) == h.frameId && Get32(m, 16) == h.cameraId
            && Get32(m, 20) == h.totalChunks && Get32(m, 24) == h.totalSize && Get32(m, 28) == h.bytesPerLine
            && Get32(m, 32) == h.width && Get32(m, 36) == h.height && Get32(m, 40) == h.pixelFormat
            && Get32(m, 44) == h.framesSaved && Get64(m, 48) == h.timestampUs && Get32(m, 56) == h.frameDurationUs
            && Get32(m, 60) == h.cornerBlockSize && Get16(m, 64) == h.numCornerSets && Get16(m, 66) == h.captureId
            && m[68..72] == h.lensPosition && m[72] == h.afState && m[73] == h.detectionKind && m[74] == h.frameKind
            && m[75] == h.reserved2 && AsSigned(Get32(m, 76)) == h.focusFom
  {
    var m := EncodeStart(h, block);
    var ws := [CHUNK_START_MAGIC, CHUNK_VERSION];
    assert Stands(m, m, 0);
    StandsSplit(LeWords(ws) + EncodeHeader(h), block, m, 0);
    StandsSplit(LeWords(ws), EncodeHeader(h), m, 0);
    StandsSplit(LeWords(LeadingWords(h)), TrailingBytes(h), m, 8);
    WordAt(ws, m, 0, 0);
    WordAt(ws, m, 0, 1);
    LeadingFields(h, m, 8);
    TrailingFields(h, m, 64);
    var four := [m[72], m[73], m[74], m[75]];
    assert four[0] == h.afState && four[1] == h.detectionKind && four[2] == h.frameKind && four[3] == h.reserved2;
    hide Get32, Get16, Get64, AsSigned, LeWords, EncodeHeader;
  }

  lemma ChunkLayout(uuid: U32, index: U32, bytes: seq<Byte>)
    requires |bytes| < 0x1_0000_0000
    ensures var m := EncodeChunk(uuid, index, bytes);
            && |m| == 16 + |bytes| && m[16..] == bytes && Get32(m, 0) == 0x43484E4B
            && Get32(m, 4) == uuid && Get32(m, 8) == index && Get32(m, 12) == |bytes|
  {
    var m := EncodeChunk(uuid, index, bytes);
    var ws := [CHUNK_DATA_MAGIC, uuid, index, |bytes|];
    assert Stands(m, m, 0);
    StandsSplit(LeWords(ws), bytes, m, 0);
    WordAt(ws, m, 0, 0);
    WordAt(ws, m, 0, 1);
    WordAt(ws, m, 0, 2);
    WordAt(ws, m, 0, 3);
  }

  // ---- Nothing else is accepted ----

  lemma LeadingStand(b: seq<Byte>, off: nat)
    requires off + 72 <= |b|
    ensures Stands(LeWords(LeadingWords(HeaderAt(b, off))), b, off)
  {
    var ws := LeadingWords(HeaderAt(b, off));
    hide Get32;
    WordsStand(ws, b, off);
  }

  lemma SignedBack(u: U32)
    ensures AsUnsigned(AsSigned(u)) == u
  {
  }

  lemma TrailingStand(b: seq<Byte>, off: nat)
    requires off + 72 <= |b|
    ensures Stands(TrailingBytes(HeaderAt(b, off)), b, off + 56)
  {
    var h, p := HeaderAt(b, off), off + 56;
    var t1 := Le16(h.numCornerSets);
    var t2 := t1 + Le16(h.captureId);
    var t3 := t2 + h.lensPosition;
    var four := [h.afState, h.detectionKind, h.frameKind, h.reserved2];
    Stands16(h.numCornerSets, b, p);
    Stands16(h.captureId, b, p + 2);
    SignedBack(Get32(b, p + 12));
    Stands32(AsUnsigned(h.focusFom), b, p + 12);
    assert b[p + 8..p + 12] == four;
    hide Get32, Get16, Get64, Le16, Le32, AsSigned, AsUnsigned;
    StandsSplit(t1, Le16(h.captureId), b, p);
    StandsSplit(t2, h.lensPosition, b, p);
    StandsSplit(t3, four, b, p);
    StandsSplit(t3 + four, Le32(AsUnsigned(h.focusFom)), b, p);
  }

  /** An accepted start is the encoding of the header and block it is read as:
      wrong versions, lengths and magics are not accepted. */
  lemma EncodeOfStart(msg: seq<Byte>)
    ensures var m := Classify(msg); m.Start? ==> msg == EncodeStart(m.hdr, m.block)
  {
    var m := Classify(msg);
    if m.Start? {
      var ws := [CHUNK_START_MAGIC, CHUNK_VERSION];
      assert forall i | 0 <= i < 2 :: Get32(msg, 0 + 4 * i) == ws[i];
      WordsStand(ws, msg, 0);
      LeadingStand(msg, 8);
      TrailingStand(msg, 8);
      assert m.hdr == HeaderAt(msg, 8) && msg[80..] == m.block && |msg| == 80 + |m.block|;
      hide Classify, HeaderAt, Get32, LeWords, LeadingWords, TrailingBytes;
      StandsSplit(LeWords(LeadingWords(m.hdr)), TrailingBytes(m.hdr), msg, 8);
      StandsSplit(LeWords(ws), EncodeHeader(m.hdr), msg, 0);
      assert msg == msg[..80] + msg[80..];
    }
  }

  lemma EncodeOfChunk(msg: seq<Byte>)
    ensures var m := Classify(msg);
            m.Chunk? ==> |m.bytes| < 0x1_0000_0000 && msg == EncodeChunk(m.uuid, m.index, m.bytes)
  {
    var m := Classify(msg);
    if m.Chunk? {
      var ws := [CHUNK_DATA_MAGIC, m.uuid, m.index, |m.bytes|];
      assert forall i | 0 <= i < 4 :: Get32(msg, 0 + 4 * i) == ws[i];
      WordsStand(ws, msg, 0);
      hide Classify, Get32, LeWords;
      assert msg == msg[..16] + msg[16..];
    }
  }
}
