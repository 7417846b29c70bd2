/** The binary records of the streaming protocol: the 32-byte handshake, the
    frame envelope, and the 4-byte codec-state sub-header of compressed
    payloads. Each builder has a parser beside it, and the lemmas show that
    the two are inverse to each other. */
module Protocol {
  import opened LittleEndian

  datatype Option<T> = None | Some(value: T)

  const HandshakeMagic: nat := 0x41445043   // "ADPC"
  const AdpcmFrameMagic: nat := 0x41445046  // "ADPF"
  const PcmFrameMagic: nat := 0x464D4350    // "PCMF"
  const HandshakeLen: nat := 32
  const ProtocolVersion: nat := 1
  /** Bytes in front of a frame's payload: magic, length and sequence number. */
  const FrameHeaderLen: nat := 12

  // ---------------------------------------------------------------- handshake

  /** The ten fields of the handshake, in wire order
      (`<IHHIIHHHHQ`: u32, u16, u16, u32, u32, u16, u16, u16, u16, u64). */
  datatype HandshakeRecord = HandshakeRecord(
    magic: nat, version: nat, headerLen: nat, streamId: nat, sampleRate: nat,
    channels: nat, codec: nat, frameSamples: nat, reserved: nat, timestampMs: nat)

  /** `struct.pack` format `<IHHIIHHHHQ`. */
  const HandshakeLayout: Layout := [4, 2, 2, 4, 4, 2, 2, 2, 2, 8]

  /** The caller-supplied values fit their fields; otherwise `struct.pack` raises. */
  predicate HandshakeFits(streamId: int, sampleRate: int, channels: int, codec: int,
                          frameSamples: int, timestampMs: int)
  {
    0 <= streamId < U32Limit && 0 <= sampleRate < U32Limit &&
    0 <= channels < U16Limit && 0 <= codec < U16Limit &&
    0 <= frameSamples < U16Limit && 0 <= timestampMs < U64Limit
  }

  /** The ten values the handshake packs, in wire order. */
  function HandshakeValues(streamId: int, sampleRate: int, channels: int, codec: int,
                           frameSamples: int, timestampMs: int): seq<int>
  {
    [HandshakeMagic, ProtocolVersion, HandshakeLen, streamId, sampleRate,
     channels, codec, frameSamples, 0, timestampMs]
  }

  lemma HandshakeLayoutFacts()
    ensures Size(HandshakeLayout) == HandshakeLen
  {
    assert HandshakeLayout[1..] == [2, 2, 4, 4, 2, 2, 2, 2, 8];
  }

  /** `HandshakeFits` is exactly the condition under which the values fit
      the layout. */
  lemma HandshakeFitsLayout(streamId: int, sampleRate: int, channels: int, codec: int,
                            frameSamples: int, timestampMs: int)
    ensures HandshakeFits(streamId, sampleRate, channels, codec, frameSamples, timestampMs)
        <==> Fits(HandshakeLayout, HandshakeValues(streamId, sampleRate, channels, codec, frameSamples, timestampMs))
  {
    PowLimits();
    var v := HandshakeValues(streamId, sampleRate, channels, codec, frameSamples, timestampMs);
    if Fits(HandshakeLayout, v) {
      assert 0 <= v[3] < Pow256(HandshakeLayout[3]) && 0 <= v[4] < Pow256(HandshakeLayout[4]);
      assert 0 <= v[5] < Pow256(HandshakeLayout[5]) && 0 <= v[6] < Pow256(HandshakeLayout[6]);
      assert 0 <= v[7] < Pow256(HandshakeLayout[7]) && 0 <= v[9] < Pow256(HandshakeLayout[9]);
    }
  }

  function BuildHandshake(streamId: int, sampleRate: int, channels: int, codec: int,
                          frameSamples: int, timestampMs: int): (r: Bytes)
    requires HandshakeFits(streamId, sampleRate, channels, codec, frameSamples, timestampMs)
    ensures |r| == HandshakeLen
  {
    HandshakeFitsLayout(streamId, sampleRate, channels, codec, frameSamples, timestampMs);
    HandshakeLayoutFacts();
    Pack(HandshakeLayout, HandshakeValues(streamId, sampleRate, channels, codec, frameSamples, timestampMs))
  }

  /** Where each field of the handshake starts. */
  const HandshakeOffsets: seq<nat> := [0, 4, 6, 8, 12, 16, 18, 20, 22, 24]

  lemma {:induction false} HandshakeOffsetsAt(i: nat)
    requires i <= 10
    ensures i < 10 ==> Size(HandshakeLayout[..i]) == HandshakeOffsets[i]
    ensures i == 10 ==> Size(HandshakeLayout[..i]) == HandshakeLen
  {
    if i == 0 {
      assert HandshakeLayout[..0] == [];
    } else {
      HandshakeOffsetsAt(i - 1);
      SizeSnoc(HandshakeLayout, i - 1);
      assert i == 1 || i == 2 || i == 3 || i == 4 || i == 5 || i == 6 || i == 7 || i == 8 || i == 9 || i == 10;
    }
  }

  /** Field `i` of the handshake is the `HandshakeLayout[i]` bytes from
      `HandshakeOffsets[i]`, and they read, least significant first, as the
      field's value. */
  lemma HandshakeBytes(streamId: int, sampleRate: int, channels: int, codec: int,
                       frameSamples: int, timestampMs: int, i: nat)
    requires HandshakeFits(streamId, sampleRate, channels, codec, frameSamples, timestampMs)
    requires i < 10
    ensures HandshakeOffsets[i] + HandshakeLayout[i] <= HandshakeLen
    ensures FromLE(BuildHandshake(streamId, sampleRate, channels, codec, frameSamples, timestampMs)
                     [HandshakeOffsets[i]..HandshakeOffsets[i] + HandshakeLayout[i]])
         == HandshakeValues(streamId, sampleRate, channels, codec, frameSamples, timestampMs)[i]
  {
    HandshakeFitsLayout(streamId, sampleRate, channels, codec, frameSamples, timestampMs);
    HandshakeLayoutFacts();
    HandshakeOffsetsAt(i);
    var v := HandshakeValues(streamId, sampleRate, channels, codec, frameSamples, timestampMs);
    PackField(HandshakeLayout, v, i);
    FromLEOfLE(v[i], HandshakeLayout[i]);
  }

  /** Reads the ten fields of a handshake; anything but 32 bytes is rejected. */
  function ParseHandshake(b: Bytes): (r: Option<HandshakeRecord>)
    ensures r.Some? <==> |b| == HandshakeLen
  {
    HandshakeLayoutFacts();
    if |b| != HandshakeLen then None
    else
      var v := Unpack(HandshakeLayout, b);
      Some(HandshakeRecord(v[0], v[1], v[2], v[3], v[4], v[5], v[6], v[7], v[8], v[9]))
  }

  /** Decoding a handshake recovers every caller-supplied field, and the fixed
      fields read as the protocol magic, version 1, header length 32 and a
      zero reserved field. */
  lemma HandshakeRoundTrip(streamId: int, sampleRate: int, channels: int, codec: int,
                           frameSamples: int, timestampMs: int)
    requires HandshakeFits(streamId, sampleRate, channels, codec, frameSamples, timestampMs)
    ensures ParseHandshake(BuildHandshake(streamId, sampleRate, channels, codec, frameSamples, timestampMs))
         == Some(HandshakeRecord(HandshakeMagic, ProtocolVersion, HandshakeLen, streamId, sampleRate,
                                 channels, codec, frameSamples, 0, timestampMs))
  {
    HandshakeFitsLayout(streamId, sampleRate, channels, codec, frameSamples, timestampMs);
    UnpackPack(HandshakeLayout, HandshakeValues(streamId, sampleRate, channels, codec, frameSamples, timestampMs));
  }

  /** Conversely, a 32-byte record whose fixed fields hold the protocol's
      constants is exactly the handshake built from its other fields. */
  lemma HandshakeFromRecord(b: Bytes)
    requires ParseHandshake(b).Some?
    requires var h := ParseHandshake(b).value;
      h.magic == HandshakeMagic && h.version == ProtocolVersion &&
      h.headerLen == HandshakeLen && h.reserved == 0
    ensures var h := ParseHandshake(b).value;
      HandshakeFits(h.streamId, h.sampleRate, h.channels, h.codec, h.frameSamples, h.timestampMs) &&
      BuildHandshake(h.streamId, h.sampleRate, h.channels, h.codec, h.frameSamples, h.timestampMs) == b
  {
    HandshakeLayoutFacts();
    var h := ParseHandshake(b).value;
    var v := Unpack(HandshakeLayout, b);
    assert v == HandshakeValues(h.streamId, h.sampleRate, h.channels, h.codec, h.frameSamples, h.timestampMs);
    HandshakeFitsLayout(h.streamId, h.sampleRate, h.channels, h.codec, h.frameSamples, h.timestampMs);
    PackUnpack(HandshakeLayout, b);
  }

  // -------------------------------------------------------------------- frame

  /** `struct.pack` format `<III`: magic, payload length, sequence number. */
  const FrameHeaderLayout: Layout := [4, 4, 4]

  lemma FrameLayoutFacts()
    ensures Size(FrameHeaderLayout) == FrameHeaderLen
  {
    assert FrameHeaderLayout[1..] == [4, 4];
    assert FrameHeaderLayout[1..][1..] == [4];
  }

  /** The three header fields of a frame and its payload. */
  datatype FrameRecord = FrameRecord(magic: nat, seqNo: nat, payload: Bytes)

  /** Magic, sequence number and payload length fit their u32 fields. */
  predicate FrameFits(seqNo: int, payload: Bytes, magic: int)
  {
    0 <= magic < U32Limit && 0 <= seqNo < U32Limit && |payload| < U32Limit
  }

  /** `magic ‖ len(payload) ‖ seq ‖ payload`. */
  function BuildFrame(seqNo: int, payload: Bytes, magic: int): (r: Bytes)
    requires FrameFits(seqNo, payload, magic)
    ensures |r| == FrameHeaderLen + |payload|
    ensures r[FrameHeaderLen..] == payload
  {
    PowLimits();
    FrameLayoutFacts();
    Pack(FrameHeaderLayout, [magic, |payload|, seqNo]) + payload
  }

  /** Byte by byte: the magic in bytes 0..4, the payload length in bytes
      4..8 and the sequence number in bytes 8..12, each as a little-endian
      u32. */
  lemma FrameHeaderBytes(seqNo: int, payload: Bytes, magic: int)
    requires FrameFits(seqNo, payload, magic)
    ensures var r := BuildFrame(seqNo, payload, magic);
      r[..4] == LE(magic, 4) && r[4..8] == LE(|payload|, 4) && r[8..12] == LE(seqNo, 4)
  {
    PowLimits();
    var v := [magic, |payload|, seqNo];
    assert Pack(FrameHeaderLayout[1..][1..], v[1..][1..]) == LE(seqNo, 4) + [];
    assert Pack(FrameHeaderLayout, v) == LE(magic, 4) + (LE(|payload|, 4) + (LE(seqNo, 4) + []));
  }

  /** Reads a frame; rejects records shorter than the header and records whose
      length field disagrees with the number of bytes that follow it. */
  function ParseFrame(b: Bytes): (r: Option<FrameRecord>)
    ensures r.Some? ==> |b| == FrameHeaderLen + |r.value.payload|
  {
    FrameLayoutFacts();
    if |b| < FrameHeaderLen then None
    else
      var h := Unpack(FrameHeaderLayout, b[..FrameHeaderLen]);
      if h[1] != |b| - FrameHeaderLen then None
      else Some(FrameRecord(h[0], h[2], b[FrameHeaderLen..]))
  }

  /** Parsing a built frame yields its magic, sequence number and payload. */
  lemma FrameRoundTrip(seqNo: int, payload: Bytes, magic: int)
    requires FrameFits(seqNo, payload, magic)
    ensures ParseFrame(BuildFrame(seqNo, payload, magic)) == Some(FrameRecord(magic, seqNo, payload))
  {
    PowLimits();
    FrameLayoutFacts();
    var b := BuildFrame(seqNo, payload, magic);
    assert b[..FrameHeaderLen] == Pack(FrameHeaderLayout, [magic, |payload|, seqNo]);
    UnpackPack(FrameHeaderLayout, [magic, |payload|, seqNo]);
  }

  /** Every well-formed frame is the frame built from what it parses to. */
  lemma FrameFromRecord(b: Bytes)
    requires ParseFrame(b).Some?
    ensures var f := ParseFrame(b).value;
      FrameFits(f.seqNo, f.payload, f.magic) && BuildFrame(f.seqNo, f.payload, f.magic) == b
  {
    PowLimits();
    FrameLayoutFacts();
    var f := ParseFrame(b).value;
    var h := Unpack(FrameHeaderLayout, b[..FrameHeaderLen]);
    assert h == [f.magic, |f.payload|, f.seqNo];
    PackUnpack(FrameHeaderLayout, b[..FrameHeaderLen]);
    assert b == b[..FrameHeaderLen] + b[FrameHeaderLen..];
  }

  // --------------------------------------------------- compressed sub-header

  /** The ADPCM codec state: a signed 16-bit predictor and a step index. The
      index is typed as a byte, the range the sub-header can carry. */
  datatype CodecState = CodecState(predictor: Int16, index: Byte)

  /** The state a session starts from and returns to on every rewind. */
  const InitialState := CodecState(0, 0)

  const SubHeaderLen: nat := 4

  /** `struct.pack("<hBB", predictor, index, 0)`. */
  function SubHeader(s: CodecState): (r: Bytes)
    ensures |r| == SubHeaderLen
  {
    I16LE(s.predictor) + [s.index, 0]
  }

  /** Reads the codec state from the front of a compressed payload; the
      reserved fourth byte is not interpreted. */
  function ParseSubHeader(b: Bytes): (r: Option<CodecState>)
    ensures r.Some? <==> |b| >= SubHeaderLen
  {
    if |b| < SubHeaderLen then None
    else Some(CodecState(FromI16LE(b[0..2]), b[2]))
  }

  /** A compressed payload's sub-header gives back the state it was built from,
      whatever encoded bytes follow it. */
  lemma SubHeaderRoundTrip(s: CodecState, encoded: Bytes)
    ensures ParseSubHeader(SubHeader(s) + encoded) == Some(s)
  {
    var b := SubHeader(s) + encoded;
    assert b[0..2] == I16LE(s.predictor);
    I16RoundTrip(s.predictor);
  }

  /** A payload whose reserved byte is zero starts with the sub-header of the
      state it parses to. */
  lemma SubHeaderFromBytes(b: Bytes)
    requires |b| >= SubHeaderLen && b[3] == 0
    ensures SubHeader(ParseSubHeader(b).value) == b[..SubHeaderLen]
  {
    I16RoundTripBytes(b[0..2]);
  }
}
