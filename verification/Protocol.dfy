/** The packed 34-byte packet header and its (de)serialisation. */
module Protocol {
  import opened Wrappers
  import opened Bytes

  const MAGIC: uint32 := 0x56455952
  const VERSION: byte := 1
  const MAX_PACKET_SIZE: nat := 1200
  const HEADER_SIZE: nat := 34
  const MAX_PAYLOAD_SIZE: nat := MAX_PACKET_SIZE - HEADER_SIZE

  // Packet flags, as bit positions' weights.
  const FLAG_NONE: byte := 0
  const FLAG_KEYFRAME: byte := 1
  const FLAG_AUDIO: byte := 2
  const FLAG_ENCRYPTED: byte := 4

  const VIDEO_STREAM: uint16 := 0
  const AUDIO_STREAM: uint16 := 1

  datatype PacketHeader = PacketHeader(
    magic: uint32,
    version: byte,
    flags: byte,
    streamId: uint16,
    sessionId: uint32,
    frameId: uint32,
    sequence: uint32,
    fragmentIndex: uint16,
    fragmentCount: uint16,
    timestampUs: uint64,
    payloadLength: uint16)
  {
    predicate IsKeyframe() { flags % 2 == 1 }
    predicate IsEncrypted() { flags / 4 % 2 == 1 }
  }

  /** The memory image of the packed struct on the little-endian targets of both peers. */
  function HeaderBytes(h: PacketHeader): (b: seq<byte>)
    ensures |b| == HEADER_SIZE
  {
    LittleEndian(h.magic, 4) + [h.version] + [h.flags] + LittleEndian(h.streamId, 2)
    + LittleEndian(h.sessionId, 4) + LittleEndian(h.frameId, 4) + LittleEndian(h.sequence, 4)
    + LittleEndian(h.fragmentIndex, 2) + LittleEndian(h.fragmentCount, 2)
    + LittleEndian(h.timestampUs, 8) + LittleEndian(h.payloadLength, 2)
  }

  function Field(b: seq<byte>, from: nat, width: nat): (v: nat)
    requires from + width <= |b|
    ensures v < Pow256(width)
  {
    LittleEndianOfValue(b[from..from + width]);
    LittleEndianValue(b[from..from + width])
  }

  /** The struct that a 34-byte memory image denotes. */
  function HeaderAt(b: seq<byte>): PacketHeader
    requires |b| >= HEADER_SIZE
  {
    Widths();
    PacketHeader(Field(b, 0, 4), b[4], b[5], Field(b, 6, 2), Field(b, 8, 4), Field(b, 12, 4),
                 Field(b, 16, 4), Field(b, 20, 2), Field(b, 22, 2), Field(b, 24, 8), Field(b, 32, 2))
  }

  /** What the receiver's parser accepts. */
  function ParseHeader(b: seq<byte>): (r: Option<PacketHeader>)
  {
    if |b| < HEADER_SIZE then None
    else
      var h := HeaderAt(b);
      if h.magic != MAGIC || h.version != VERSION then None else Some(h)
  }

  lemma FieldOfSlice(b: seq<byte>, from: nat, n: nat, width: nat)
    requires from + width <= |b| && n < Pow256(width)
    requires b[from..from + width] == LittleEndian(n, width)
    ensures Field(b, from, width) == n
  {
    LittleEndianRoundTrip(n, width);
  }

  lemma HeaderBytesSlices(h: PacketHeader, tail: seq<byte>)
    ensures var b := HeaderBytes(h) + tail;
      && b[0..4] == LittleEndian(h.magic, 4) && b[4] == h.version && b[5] == h.flags
      && b[6..8] == LittleEndian(h.streamId, 2) && b[8..12] == LittleEndian(h.sessionId, 4)
      && b[12..16] == LittleEndian(h.frameId, 4) && b[16..20] == LittleEndian(h.sequence, 4)
      && b[20..22] == LittleEndian(h.fragmentIndex, 2) && b[22..24] == LittleEndian(h.fragmentCount, 2)
      && b[24..32] == LittleEndian(h.timestampUs, 8) && b[32..34] == LittleEndian(h.payloadLength, 2)
  {
  }

  /** Byte i of a field that begins at `from`, on the wire. */
  lemma FieldByte(b: seq<byte>, from: nat, n: nat, width: nat, i: nat)
    requires i < width && from + width <= |b| && b[from..from + width] == LittleEndian(n, width)
    ensures b[from + i] == n / Pow256(i) % 256
  {
    LittleEndianAt(n, width, i);
    assert b[from..from + width][i] == b[from + i];
  }

  /** The layout on the wire: every field at its offset, low byte first. */
  lemma HeaderLayout(h: PacketHeader, i: nat)
    ensures var b := HeaderBytes(h);
      && (i < 4 ==> b[i] == h.magic / Pow256(i) % 256)
      && b[4] == h.version && b[5] == h.flags
      && (i < 2 ==> b[6 + i] == h.streamId / Pow256(i) % 256)
      && (i < 4 ==> b[8 + i] == h.sessionId / Pow256(i) % 256)
      && (i < 4 ==> b[12 + i] == h.frameId / Pow256(i) % 256)
      && (i < 4 ==> b[16 + i] == h.sequence / Pow256(i) % 256)
      && (i < 2 ==> b[20 + i] == h.fragmentIndex / Pow256(i) % 256)
      && (i < 2 ==> b[22 + i] == h.fragmentCount / Pow256(i) % 256)
      && (i < 8 ==> b[24 + i] == h.timestampUs / Pow256(i) % 256)
      && (i < 2 ==> b[32 + i] == h.payloadLength / Pow256(i) % 256)
  {
    HeaderBytesSlices(h, []);
    var b := HeaderBytes(h);
    assert b + [] == b;
    hide HeaderBytes, LittleEndian, Pow256;
    if i < 4 {
      FieldByte(b, 0, h.magic, 4, i);
      FieldByte(b, 8, h.sessionId, 4, i);
      FieldByte(b, 12, h.frameId, 4, i);
      FieldByte(b, 16, h.sequence, 4, i);
    }
    if i < 2 {
      FieldByte(b, 6, h.streamId, 2, i);
      FieldByte(b, 20, h.fragmentIndex, 2, i);
      FieldByte(b, 22, h.fragmentCount, 2, i);
      FieldByte(b, 32, h.payloadLength, 2, i);
    }
    if i < 8 { FieldByte(b, 24, h.timestampUs, 8, i); }
  }

  /** Every packet starts with "RYEV" and the version. */
  lemma PacketPrefix(h: PacketHeader)
    requires h.magic == MAGIC && h.version == VERSION
    ensures HeaderBytes(h)[..5] == [0x52, 0x59, 0x45, 0x56, 0x01]
  {
    MagicBytes();
    HeaderBytesSlices(h, []);
    hide HeaderBytes, LittleEndian;
    var b := HeaderBytes(h);
    assert b + [] == b;
    assert b[..5] == b[0..4] + [b[4]];
  }

  lemma MagicBytes()
    ensures LittleEndian(MAGIC, 4) == [0x52, 0x59, 0x45, 0x56]
  {
    assert LittleEndian(0x56, 1) == [0x56] + LittleEndian(0, 0);
    assert LittleEndian(0x5645, 2) == [0x45] + LittleEndian(0x56, 1);
    assert LittleEndian(0x564559, 3) == [0x59] + LittleEndian(0x5645, 2);
  }

  /** Encoding then parsing gives the header back, whatever follows it in the datagram. */
  lemma HeaderRoundTrip(h: PacketHeader, tail: seq<byte>)
    ensures HeaderAt(HeaderBytes(h) + tail) == h
    ensures ParseHeader(HeaderBytes(h) + tail) ==
            if h.magic == MAGIC && h.version == VERSION then Some(h) else None
  {
    var b := HeaderBytes(h) + tail;
    HeaderBytesSlices(h, tail);
    Widths();
    FieldOfSlice(b, 0, h.magic, 4);
    FieldOfSlice(b, 6, h.streamId, 2);
    FieldOfSlice(b, 8, h.sessionId, 4);
    FieldOfSlice(b, 12, h.frameId, 4);
    FieldOfSlice(b, 16, h.sequence, 4);
    FieldOfSlice(b, 20, h.fragmentIndex, 2);
    FieldOfSlice(b, 22, h.fragmentCount, 2);
    FieldOfSlice(b, 24, h.timestampUs, 8);
    FieldOfSlice(b, 32, h.payloadLength, 2);
  }

  lemma PrefixGrows(b: seq<byte>, i: nat, j: nat)
    requires i <= j <= |b|
    ensures b[..i] + b[i..j] == b[..j]
  {
  }

  lemma FieldReencodes(b: seq<byte>, from: nat, width: nat)
    requires from + width <= |b|
    ensures LittleEndian(Field(b, from, width), width) == b[from..from + width]
  {
    LittleEndianOfValue(b[from..from + width]);
  }

  /** Parsing loses nothing: an accepted datagram starts with the encoding of the parsed header. */
  lemma ParsedHeaderReencodes(b: seq<byte>)
    requires ParseHeader(b).Some?
    ensures HeaderBytes(ParseHeader(b).value) == b[..HEADER_SIZE]
  {
    hide LittleEndian, Field;
    FieldReencodes(b, 0, 4);
    PrefixGrows(b, 0, 4);
    PrefixGrows(b, 4, 5);
    PrefixGrows(b, 5, 6);
    FieldReencodes(b, 6, 2);
    PrefixGrows(b, 6, 8);
    FieldReencodes(b, 8, 4);
    PrefixGrows(b, 8, 12);
    FieldReencodes(b, 12, 4);
    PrefixGrows(b, 12, 16);
    FieldReencodes(b, 16, 4);
    PrefixGrows(b, 16, 20);
    FieldReencodes(b, 20, 2);
    PrefixGrows(b, 20, 22);
    FieldReencodes(b, 22, 2);
    PrefixGrows(b, 22, 24);
    FieldReencodes(b, 24, 8);
    PrefixGrows(b, 24, 32);
    FieldReencodes(b, 32, 2);
    PrefixGrows(b, 32, 34);
    assert [b[4]] == b[4..5] && [b[5]] == b[5..6];
  }

  method SerializeHeader(header: PacketHeader, outBuffer: array?<byte>) returns (ok: bool)
    modifies outBuffer
    ensures ok <==> outBuffer != null && outBuffer.Length >= HEADER_SIZE
    ensures ok ==> outBuffer[..] == HeaderBytes(header) + old(outBuffer[..])[HEADER_SIZE..]
    ensures !ok && outBuffer != null ==> outBuffer[..] == old(outBuffer[..])
  {
    if outBuffer == null || outBuffer.Length < HEADER_SIZE {
      return false;
    }
    var image := HeaderBytes(header);
    forall i | 0 <= i < HEADER_SIZE {
      outBuffer[i] := image[i];
    }
    ok := true;
  }

  method DeserializeHeader(inBuffer: array?<byte>) returns (ok: bool, outHeader: Option<PacketHeader>)
    ensures ok <==> inBuffer != null && ParseHeader(inBuffer[..]).Some?
    ensures ok ==> outHeader == ParseHeader(inBuffer[..])
  {
    if inBuffer == null || inBuffer.Length < HEADER_SIZE {
      return false, None;
    }
    // The struct is copied out before it is checked, so a refused header is still visible.
    outHeader := Some(HeaderAt(inBuffer[..]));
    ok := outHeader.value.magic == MAGIC && outHeader.value.version == VERSION;
  }
}
