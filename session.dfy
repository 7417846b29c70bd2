/** One streaming session (`stream_once`): validate the audio format, send one
    handshake, then read the PCM data block by block and send one frame per
    block, numbering frames from 0 and threading the ADPCM codec state from
    frame to frame; at the end of the data either rewind (loop mode: codec
    state reset, numbering continued) or finish.

    The transport is the output sequence `sent`; the WAV reader is a cursor
    over the PCM bytes of the data chunk; `audioop.lin2adpcm` is the
    `Encoder` parameter; the clock is the `timestampMs` parameter. */
module Session {
  import opened LittleEndian
  import opened Protocol

  /** `audioop.lin2adpcm(pcm, 2, state)`: a deterministic function from a PCM
      block and a codec state to the packed 4-bit codes and the next state. */
  type Encoder = (Bytes, CodecState) -> (Bytes, CodecState)

  /** What the WAV reader reports: the header values and the PCM bytes. */
  datatype WavSource = WavSource(channels: nat, sampleRate: nat, sampwidth: nat, data: Bytes)

  datatype SessionError =
    | BadFormat(channels: nat, sampwidth: nat)  // not mono 16-bit PCM
    | FrameTooShort                             // frame_ms yields no sample
    | HandshakeOverflow                         // a handshake field does not fit
    | FrameOverflow                             // sequence number or payload length does not fit

  datatype Result<T> = Ok(value: T) | Err(error: SessionError)

  /** How a session ends: `Done` when the data is exhausted without looping,
      `Failed` on an error, `Streaming` when the model's iteration budget ran
      out while the session was still in its loop. */
  datatype Outcome = Done | Streaming | Failed(error: SessionError)

  datatype SessionResult = SessionResult(sent: seq<Bytes>, outcome: Outcome)

  // ------------------------------------------------------------ configuration

  /** `int(sample_rate * frame_ms / 1000)`, with the division done exactly and
      the result truncated toward zero as Python's `int` does. */
  function FrameSamples(sampleRate: int, frameMs: int): (n: int)
    ensures sampleRate * frameMs >= 0 ==> n * 1000 <= sampleRate * frameMs < (n + 1) * 1000
    ensures sampleRate * frameMs <= 0 ==> n <= 0 && sampleRate * frameMs <= n * 1000
  {
    var p := sampleRate * frameMs;
    if p >= 0 then p / 1000 else -((-p) / 1000)
  }

  /** Handshake codec field: 1 for "adpcm", 0 for anything else. */
  function CodecId(codec: string): nat
  {
    if codec == "adpcm" then 1 else 0
  }

  /** Frames carry raw PCM only for "pcm"; every other name selects ADPCM. */
  predicate IsPcm(codec: string)
  {
    codec == "pcm"
  }

  function FrameMagic(codec: string): nat
  {
    if IsPcm(codec) then PcmFrameMagic else AdpcmFrameMagic
  }

  /** For the two codec names the command line admits, the handshake's codec
      field and the frames' magic agree. */
  lemma CodecAgreement(codec: string)
    requires codec == "adpcm" || codec == "pcm"
    ensures CodecId(codec) == 1 <==> FrameMagic(codec) == AdpcmFrameMagic
    ensures CodecId(codec) == 0 <==> FrameMagic(codec) == PcmFrameMagic
  {
  }

  /** The checks done before anything is sent, in the order the session does
      them; on success, the number of samples per frame. */
  function Configure(wav: WavSource, streamId: int, frameMs: int, codec: string,
                     timestampMs: int): (r: Result<nat>)
    ensures r.Ok? ==> (wav.channels == 1 && wav.sampwidth == 2 && r.value > 0 &&
      r.value == FrameSamples(wav.sampleRate, frameMs) &&
      HandshakeFits(streamId, wav.sampleRate, wav.channels, CodecId(codec), r.value, timestampMs))
    ensures wav.channels != 1 || wav.sampwidth != 2 ==> r == Err(BadFormat(wav.channels, wav.sampwidth))
    ensures wav.channels == 1 && wav.sampwidth == 2 && FrameSamples(wav.sampleRate, frameMs) <= 0
      ==> r == Err(FrameTooShort)
    ensures wav.channels == 1 && wav.sampwidth == 2 && FrameSamples(wav.sampleRate, frameMs) > 0 &&
      !HandshakeFits(streamId, wav.sampleRate, wav.channels, CodecId(codec),
                     FrameSamples(wav.sampleRate, frameMs), timestampMs)
      ==> r == Err(HandshakeOverflow)
    ensures r.Ok? <==> (wav.channels == 1 && wav.sampwidth == 2 && FrameSamples(wav.sampleRate, frameMs) > 0 &&
      HandshakeFits(streamId, wav.sampleRate, wav.channels, CodecId(codec),
                    FrameSamples(wav.sampleRate, frameMs), timestampMs))
  {
    if wav.channels != 1 || wav.sampwidth != 2 then Err(BadFormat(wav.channels, wav.sampwidth))
    else
      var frameSamples := FrameSamples(wav.sampleRate, frameMs);
      if frameSamples <= 0 then Err(FrameTooShort)
      else if !HandshakeFits(streamId, wav.sampleRate, wav.channels, CodecId(codec), frameSamples, timestampMs)
      then Err(HandshakeOverflow)
      else Ok(frameSamples)
  }

  // ------------------------------------------------------------ the frame loop

  /** What the frame loop works on: the PCM bytes, the most bytes one
      `readframes(frame_samples)` call returns, and the options. */
  datatype Stream = Stream(data: Bytes, blockBytes: nat, loop: bool, codec: string, enc: Encoder)

  /** The loop's variables: reader position, codec state (`None` before the
      first ADPCM frame and after every rewind) and the next sequence number. */
  datatype Cursor = Cursor(pos: nat, state: Option<CodecState>, seqNo: nat)

  predicate Valid(s: Stream, c: Cursor)
  {
    c.pos <= |s.data|
  }

  /** `state or (0, 0)`. */
  function StateIn(state: Option<CodecState>): CodecState
  {
    if state.None? then InitialState else state.value
  }

  function Min(a: int, b: int): int
  {
    if a <= b then a else b
  }

  /** `readframes`: the next `count` bytes from `pos`, fewer at the end. */
  function ReadFrames(data: Bytes, pos: nat, count: nat): (r: Bytes)
    requires pos <= |data|
    ensures |r| == Min(count, |data| - pos) && pos + |r| <= |data| && r == data[pos..pos + |r|]
  {
    data[pos..Min(pos + count, |data|)]
  }

  /** The payload for one PCM block and the codec state the loop keeps next:
      in "pcm" mode the block itself and the state untouched; otherwise the
      sub-header of the state before encoding, then the encoder's output. */
  function EncodeBlock(codec: string, enc: Encoder, pcm: Bytes, state: Option<CodecState>)
    : (Bytes, Option<CodecState>)
  {
    var stateIn := StateIn(state);
    if IsPcm(codec) then (pcm, state)
    else
      var (code, next) := enc(pcm, stateIn);
      (SubHeader(stateIn) + code, Some(next))
  }

  /** What one iteration of the loop does. */
  datatype Step =
    | Rewind    // data exhausted in loop mode: rewind the reader, forget the codec state
    | Finish    // data exhausted otherwise: leave the loop
    | Overflow  // the frame header does not fit its fields: `struct.pack` raises
    | Emit(frame: Bytes, payload: Bytes, next: Cursor)  // send one frame

  function NextStep(s: Stream, c: Cursor): (r: Step)
    requires Valid(s, c)
    ensures r.Emit? ==> Valid(s, r.next)
    ensures (r.Rewind? || r.Finish?) <==> (c.pos == |s.data| || s.blockBytes == 0)
    ensures r.Rewind? ==> s.loop
    ensures r.Finish? ==> !s.loop
  {
    var pcm := ReadFrames(s.data, c.pos, s.blockBytes);
    if pcm == [] then (if s.loop then Rewind else Finish)
    else
      var (payload, state) := EncodeBlock(s.codec, s.enc, pcm, c.state);
      var magic := FrameMagic(s.codec);
      if !FrameFits(c.seqNo, payload, magic) then Overflow
      else Emit(BuildFrame(c.seqNo, payload, magic), payload, Cursor(c.pos + |pcm|, state, c.seqNo + 1))
  }

  /** A step that sends a frame advances the reader, numbers the frame with
      the cursor's sequence number, and the frame parses back to its magic,
      number and payload. */
  lemma EmitParses(s: Stream, c: Cursor)
    requires Valid(s, c) && NextStep(s, c).Emit?
    ensures var r := NextStep(s, c);
      c.pos < r.next.pos && r.next.seqNo == c.seqNo + 1 &&
      ParseFrame(r.frame) == Some(FrameRecord(FrameMagic(s.codec), c.seqNo, r.payload))
  {
    var r := NextStep(s, c);
    FrameRoundTrip(c.seqNo, r.payload, FrameMagic(s.codec));
  }

  /** The payload of a frame and the state kept after it: in "pcm" mode the
      block read, with the codec state untouched; otherwise the sub-header of
      the state before encoding (`(0, 0)` when there is none) followed by the
      encoder's output, and the encoder's new state is kept for the next
      frame. */
  lemma EmitPayload(s: Stream, c: Cursor)
    requires Valid(s, c) && NextStep(s, c).Emit?
    ensures var r := NextStep(s, c);
      var pcm := ReadFrames(s.data, c.pos, s.blockBytes);
      var stateIn := StateIn(c.state);
      pcm != [] && r.next.pos == c.pos + |pcm| &&
      (IsPcm(s.codec) ==> r.payload == pcm && r.next.state == c.state) &&
      (!IsPcm(s.codec) ==>
        r.payload == SubHeader(stateIn) + s.enc(pcm, stateIn).0 &&
        ParseSubHeader(r.payload) == Some(stateIn) &&
        r.next.state == Some(s.enc(pcm, stateIn).1))
  {
    EmitParses(s, c);
    if !IsPcm(s.codec) {
      var stateIn := StateIn(c.state);
      SubHeaderRoundTrip(stateIn, s.enc(ReadFrames(s.data, c.pos, s.blockBytes), stateIn).0);
    }
  }

  /** A rewind keeps the sequence number and forgets the codec state: the
      loop goes on from the start of the data, and the frame it sends next
      carries the sequence number the rewind found and, in ADPCM mode, was
      encoded from `(0, 0)`. */
  lemma RewindRestarts(s: Stream, c: Cursor, fuel: nat)
    requires Valid(s, c) && NextStep(s, c).Rewind? && fuel > 0
    ensures Run(s, c, fuel) == Run(s, Cursor(0, None, c.seqNo), fuel - 1)
    ensures var r := NextStep(s, Cursor(0, None, c.seqNo));
      r.Emit? ==>
        ParseFrame(r.frame) == Some(FrameRecord(FrameMagic(s.codec), c.seqNo, r.payload)) &&
        (!IsPcm(s.codec) ==> ParseSubHeader(r.payload) == Some(InitialState))
  {
    var restart := Cursor(0, None, c.seqNo);
    if NextStep(s, restart).Emit? {
      EmitParses(s, restart);
      EmitPayload(s, restart);
    }
  }

  datatype Trace = Trace(frames: seq<Bytes>, outcome: Outcome)

  /** `t` with `frames` sent before it. */
  function Prepend(frames: seq<Bytes>, t: Trace): Trace
  {
    Trace(frames + t.frames, t.outcome)
  }

  /** The frames the loop sends from cursor `c` within `fuel` iterations, and
      how it ends. */
  function Run(s: Stream, c: Cursor, fuel: nat): Trace
    requires Valid(s, c)
    decreases fuel
  {
    if fuel == 0 then Trace([], Streaming)
    else
      match NextStep(s, c)
      case Rewind => Run(s, Cursor(0, None, c.seqNo), fuel - 1)
      case Finish => Trace([], Done)
      case Overflow => Trace([], Failed(FrameOverflow))
      case Emit(frame, _, next) =>
        var rest := Run(s, next, fuel - 1);
        Trace([frame] + rest.frames, rest.outcome)
  }

  /** The loop of a session that passed `Configure`. */
  function StreamOf(wav: WavSource, frameSamples: nat, loop: bool, codec: string, enc: Encoder): Stream
  {
    Stream(wav.data, frameSamples * (wav.channels * wav.sampwidth), loop, codec, enc)
  }

  const Start := Cursor(0, None, 0)

  /** Everything a session sends and how it ends, within `fuel` iterations. */
  function Transcript(wav: WavSource, streamId: int, frameMs: int, loop: bool, codec: string,
                   timestampMs: int, enc: Encoder, fuel: nat): SessionResult
  {
    match Configure(wav, streamId, frameMs, codec, timestampMs)
    case Err(e) => SessionResult([], Failed(e))
    case Ok(frameSamples) =>
      var handshake := BuildHandshake(streamId, wav.sampleRate, wav.channels, CodecId(codec),
                                      frameSamples, timestampMs);
      var trace := Run(StreamOf(wav, frameSamples, loop, codec, enc), Start, fuel);
      SessionResult([handshake] + trace.frames, trace.outcome)
  }

  /** One iteration that sends a frame: after `before`, the run from `c` is
      the same as that frame and then the run from the advanced cursor. */
  lemma RunEmits(s: Stream, c: Cursor, fuel: nat, before: seq<Bytes>)
    requires Valid(s, c) && fuel > 0 && NextStep(s, c).Emit?
    ensures var step := NextStep(s, c);
      Prepend(before + [step.frame], Run(s, step.next, fuel - 1)) == Prepend(before, Run(s, c, fuel))
  {
    var step := NextStep(s, c);
    var rest := Run(s, step.next, fuel - 1);
    assert before + [step.frame] + rest.frames == before + ([step.frame] + rest.frames);
  }

  /** The payload of one frame, its magic, and the codec state to keep: raw
      PCM under "pcm"; otherwise the sub-header of the state before encoding
      (`state or (0, 0)`) followed by the encoder's output. */
  method Encode(codec: string, enc: Encoder, pcm: Bytes, state: Option<CodecState>)
    returns (payload: Bytes, magic: nat, next: Option<CodecState>)
    ensures (payload, next) == EncodeBlock(codec, enc, pcm, state) && magic == FrameMagic(codec)
    ensures IsPcm(codec) ==> payload == pcm && next == state
    ensures !IsPcm(codec) ==> next.Some? && ParseSubHeader(payload) == Some(StateIn(state))
  {
    var stateIn := StateIn(state);
    if IsPcm(codec) {
      return pcm, PcmFrameMagic, state;
    }
    var (code, after) := enc(pcm, stateIn);
    SubHeaderRoundTrip(stateIn, code);
    return SubHeader(stateIn) + code, AdpcmFrameMagic, Some(after);
  }

  /** One iteration of the `while True` loop: read the next block, and either
      rewind, leave the loop, fail to pack the frame, or produce the frame and
      the loop variables of the next iteration. */
  method Iterate(data: Bytes, blockBytes: nat, loop: bool, codec: string, enc: Encoder,
                 pos: nat, state: Option<CodecState>, seqNo: nat)
    returns (step: Step)
    requires pos <= |data|
    ensures step == NextStep(Stream(data, blockBytes, loop, codec, enc), Cursor(pos, state, seqNo))
  {
    var pcm := ReadFrames(data, pos, blockBytes);
    if pcm == [] {
      return if loop then Rewind else Finish;
    }
    var payload, magic, next := Encode(codec, enc, pcm, state);
    if !FrameFits(seqNo, payload, magic) {
      return Overflow;
    }
    var frame := BuildFrame(seqNo, payload, magic);
    return Emit(frame, payload, Cursor(pos + |pcm|, next, seqNo + 1));
  }

  /** The `while True` loop of `stream_once`, at most `fuel` iterations: what
      it sends after the handshake and how it ends. */
  method SendFrames(data: Bytes, blockBytes: nat, loop: bool, codec: string, enc: Encoder, fuel: nat)
    returns (frames: seq<Bytes>, outcome: Outcome)
    ensures Trace(frames, outcome) == Run(Stream(data, blockBytes, loop, codec, enc), Start, fuel)
  {
    ghost var s := Stream(data, blockBytes, loop, codec, enc);
    ghost var total := Run(s, Start, fuel);
    frames := [];
    var state: Option<CodecState> := None;
    var seqNo: nat := 0;
    var pos: nat := 0;
    var steps := fuel;
    assert frames + total.frames == total.frames;
    while steps > 0
      invariant pos <= |data|
      invariant Prepend(frames, Run(s, Cursor(pos, state, seqNo), steps)) == total
      decreases steps
    {
      ghost var cur := Cursor(pos, state, seqNo);
      var step := Iterate(data, blockBytes, loop, codec, enc, pos, state, seqNo);
      match step {
        case Rewind =>
          pos, state := 0, None;
        case Finish =>
          assert frames + [] == frames;
          return frames, Done;
        case Overflow =>
          assert frames + [] == frames;
          return frames, Failed(FrameOverflow);
        case Emit(frame, _, next) =>
          RunEmits(s, cur, steps, frames);
          frames := frames + [frame];
          pos, state, seqNo := next.pos, next.state, next.seqNo;
      }
      steps := steps - 1;
    }
    assert frames + [] == frames;
    outcome := Streaming;
  }

  /** `stream_once` with its I/O replaced by values; it performs at most
      `fuel` iterations of its `while True` loop. */
  method StreamOnce(wav: WavSource, streamId: int, frameMs: int, loop: bool, codec: string,
                    timestampMs: int, enc: Encoder, fuel: nat)
    returns (sent: seq<Bytes>, outcome: Outcome)
    ensures SessionResult(sent, outcome) == Transcript(wav, streamId, frameMs, loop, codec, timestampMs, enc, fuel)
    ensures (wav.channels != 1 || wav.sampwidth != 2 || FrameSamples(wav.sampleRate, frameMs) <= 0)
      ==> sent == [] && outcome.Failed?
    ensures sent != [] ==> ParseHandshake(sent[0]) == Some(HandshakeRecord(
      HandshakeMagic, ProtocolVersion, HandshakeLen, streamId, wav.sampleRate, 1, CodecId(codec),
      FrameSamples(wav.sampleRate, frameMs), 0, timestampMs))
    ensures sent != [] ==> Numbered(sent[1..], FrameMagic(codec), 0)
  {
    var channels, sampleRate, sampwidth := wav.channels, wav.sampleRate, wav.sampwidth;
    if channels != 1 || sampwidth != 2 {
      return [], Failed(BadFormat(channels, sampwidth));
    }
    var frameSamples := FrameSamples(sampleRate, frameMs);
    if frameSamples <= 0 {
      return [], Failed(FrameTooShort);
    }
    var codecId := CodecId(codec);
    if !HandshakeFits(streamId, sampleRate, channels, codecId, frameSamples, timestampMs) {
      return [], Failed(HandshakeOverflow);
    }
    var handshake := BuildHandshake(streamId, sampleRate, channels, codecId, frameSamples, timestampMs);
    sent := [handshake];

    var blockBytes := frameSamples * (channels * sampwidth);
    var frames;
    frames, outcome := SendFrames(wav.data, blockBytes, loop, codec, enc, fuel);
    FramesNumbered(StreamOf(wav, frameSamples, loop, codec, enc), Start, fuel);
    sent := sent + frames;
    SessionHandshake(wav, streamId, frameMs, loop, codec, timestampMs, enc, fuel);
    SessionFramesNumbered(wav, streamId, frameMs, loop, codec, timestampMs, enc, fuel);
  }

  // ------------------------------------------------------ numbering of frames

  /** Every frame parses, carries `magic`, and the k-th is numbered `first + k`. */
  predicate Numbered(frames: seq<Bytes>, magic: nat, first: nat)
  {
    forall k :: 0 <= k < |frames| ==>
      (ParseFrame(frames[k]).Some? && ParseFrame(frames[k]).value.magic == magic &&
       ParseFrame(frames[k]).value.seqNo == first + k)
  }

  lemma NumberedCons(frame: Bytes, payload: Bytes, rest: seq<Bytes>, magic: nat, first: nat)
    requires ParseFrame(frame) == Some(FrameRecord(magic, first, payload))
    requires Numbered(rest, magic, first + 1)
    ensures Numbered([frame] + rest, magic, first)
  {
    var frames := [frame] + rest;
    forall k | 1 <= k < |frames|
      ensures ParseFrame(frames[k]).Some? && ParseFrame(frames[k]).value.magic == magic &&
              ParseFrame(frames[k]).value.seqNo == first + k
    {
      assert frames[k] == rest[k - 1];
    }
  }

  /** The frames the loop sends are numbered on from the cursor's sequence
      number with no gap and no repeat, and a rewind does not restart the
      numbering. */
  lemma {:induction false} FramesNumbered(s: Stream, c: Cursor, fuel: nat)
    requires Valid(s, c)
    ensures Numbered(Run(s, c, fuel).frames, FrameMagic(s.codec), c.seqNo)
    decreases fuel
  {
    if fuel > 0 {
      match NextStep(s, c)
      case Rewind =>
        FramesNumbered(s, Cursor(0, None, c.seqNo), fuel - 1);
      case Finish =>
      case Overflow =>
      case Emit(frame, payload, next) =>
        EmitParses(s, c);
        FramesNumbered(s, next, fuel - 1);
        NumberedCons(frame, payload, Run(s, next, fuel - 1).frames, FrameMagic(s.codec), c.seqNo);
    }
  }

  /** A session that fails its checks (not mono 16-bit, a frame of no
      samples, a handshake field out of range) sends nothing. */
  lemma NothingSentOnConfigError(wav: WavSource, streamId: int, frameMs: int, loop: bool,
                                 codec: string, timestampMs: int, enc: Encoder, fuel: nat)
    requires Configure(wav, streamId, frameMs, codec, timestampMs).Err?
    ensures Transcript(wav, streamId, frameMs, loop, codec, timestampMs, enc, fuel)
         == SessionResult([], Failed(Configure(wav, streamId, frameMs, codec, timestampMs).error))
  {
  }

  /** A session that sends anything sends the handshake first, and it decodes
      to the session's own parameters. */
  lemma SessionHandshake(wav: WavSource, streamId: int, frameMs: int, loop: bool,
                         codec: string, timestampMs: int, enc: Encoder, fuel: nat)
    ensures var r := Transcript(wav, streamId, frameMs, loop, codec, timestampMs, enc, fuel);
      r.sent != [] ==> ParseHandshake(r.sent[0]) == Some(HandshakeRecord(
        HandshakeMagic, ProtocolVersion, HandshakeLen, streamId, wav.sampleRate, 1, CodecId(codec),
        FrameSamples(wav.sampleRate, frameMs), 0, timestampMs))
  {
    var cfg := Configure(wav, streamId, frameMs, codec, timestampMs);
    if cfg.Ok? {
      HandshakeRoundTrip(streamId, wav.sampleRate, wav.channels, CodecId(codec), cfg.value, timestampMs);
    }
  }

  /** The stream id a session announces in its handshake, if it sent one. */
  function AnnouncedId(r: SessionResult): Option<nat>
  {
    if r.sent != [] && ParseHandshake(r.sent[0]).Some?
    then Some(ParseHandshake(r.sent[0]).value.streamId) else None
  }

  /** A session that sends anything announces the stream id it was given. */
  lemma SessionAnnounces(wav: WavSource, streamId: int, frameMs: int, loop: bool,
                         codec: string, timestampMs: int, enc: Encoder, fuel: nat)
    ensures var r := Transcript(wav, streamId, frameMs, loop, codec, timestampMs, enc, fuel);
      r.sent != [] ==> AnnouncedId(r) == Some(streamId)
  {
    SessionHandshake(wav, streamId, frameMs, loop, codec, timestampMs, enc, fuel);
  }

  /** The k-th message after the handshake is a frame numbered k. */
  lemma SessionFramesNumbered(wav: WavSource, streamId: int, frameMs: int, loop: bool,
                              codec: string, timestampMs: int, enc: Encoder, fuel: nat)
    ensures var sent := Transcript(wav, streamId, frameMs, loop, codec, timestampMs, enc, fuel).sent;
      sent != [] ==> Numbered(sent[1..], FrameMagic(codec), 0)
  {
    var cfg := Configure(wav, streamId, frameMs, codec, timestampMs);
    if cfg.Ok? {
      var s := StreamOf(wav, cfg.value, loop, codec, enc);
      FramesNumbered(s, Start, fuel);
      var sent := Transcript(wav, streamId, frameMs, loop, codec, timestampMs, enc, fuel).sent;
      assert sent[1..] == Run(s, Start, fuel).frames;
    }
  }
}
