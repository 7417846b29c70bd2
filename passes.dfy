/** What one pass over the audio data sends, defined independently of the
    loop: the data cut into blocks of `readframes` size, the payload of each
    block, and the numbered frames around them. The lemmas show that the
    session's loop sends exactly these frames, pass after pass. */
module Passes {
  import opened LittleEndian
  import opened Protocol
  import opened Session

  // ------------------------------------------------------------------ blocks

  /** `data` cut into consecutive blocks of `width` bytes; the last block
      holds what is left and may be shorter. */
  function Blocks(data: Bytes, width: nat): (r: seq<Bytes>)
    requires width > 0
    ensures forall j :: 0 <= j < |r| ==> 0 < |r[j]| <= width
    ensures |r| <= |data|
    decreases |data|
  {
    if data == [] then []
    else
      var n := Min(width, |data|);
      [data[..n]] + Blocks(data[n..], width)
  }

  function Concat(blocks: seq<Bytes>): Bytes
  {
    if blocks == [] then [] else blocks[0] + Concat(blocks[1..])
  }

  /** The blocks put back together are the data: nothing is lost, repeated
      or reordered. */
  lemma {:induction false} BlocksConcat(data: Bytes, width: nat)
    requires width > 0
    ensures Concat(Blocks(data, width)) == data
    decreases |data|
  {
    if data != [] {
      var n := Min(width, |data|);
      BlocksConcat(data[n..], width);
      assert data == data[..n] + data[n..];
    }
  }

  /** Every block but the last is exactly `width` bytes, so there are
      `ceil(|data| / width)` blocks. */
  lemma {:induction false} BlocksFull(data: Bytes, width: nat)
    requires width > 0
    ensures var r := Blocks(data, width);
      (forall j :: 0 <= j < |r| - 1 ==> |r[j]| == width) &&
      (|r| - 1) * width < |data| <= |r| * width
    decreases |data|
  {
    if data != [] {
      var n := Min(width, |data|);
      BlocksFull(data[n..], width);
      var r := Blocks(data, width);
      var tail := Blocks(data[n..], width);
      assert r[1..] == tail;
      assert forall j :: 1 <= j < |r| ==> r[j] == tail[j - 1];
      var t := |tail|;
      MulSucc(t, width);
      if t > 0 {
        MulSucc(t - 1, width);
      }
    }
  }

  lemma MulSucc(a: int, w: int)
    ensures (a + 1) * w == a * w + w
  {
  }

  // ---------------------------------------------------------------- payloads

  /** The compressed payloads of `blocks`, encoding from `state`: each is the
      sub-header of the state before its block, then the block's codes, and
      the state after one block is the state before the next. */
  function AdpcmPayloads(enc: Encoder, blocks: seq<Bytes>, state: CodecState): (r: seq<Bytes>)
    ensures |r| == |blocks|
  {
    if blocks == [] then []
    else
      var (code, next) := enc(blocks[0], state);
      [SubHeader(state) + code] + AdpcmPayloads(enc, blocks[1..], next)
  }

  /** The payloads the loop sends from cursor `c` to the end of the data. */
  function Payloads(s: Stream, c: Cursor): (r: seq<Bytes>)
    requires Valid(s, c) && s.blockBytes > 0
    ensures |r| == |Blocks(s.data[c.pos..], s.blockBytes)|
  {
    var blocks := Blocks(s.data[c.pos..], s.blockBytes);
    if IsPcm(s.codec) then blocks else AdpcmPayloads(s.enc, blocks, StateIn(c.state))
  }

  /** Each compressed payload starts with the state the decoder needs for it,
      the rest is the block encoded from that state, and the state in the
      next payload's sub-header is the encoder's state after this block. */
  lemma {:induction false} AdpcmChain(enc: Encoder, blocks: seq<Bytes>, state: CodecState, k: nat)
    requires k < |blocks|
    ensures var p := AdpcmPayloads(enc, blocks, state);
      ParseSubHeader(p[k]).Some? &&
      p[k] == SubHeader(ParseSubHeader(p[k]).value) + enc(blocks[k], ParseSubHeader(p[k]).value).0 &&
      (k + 1 < |blocks| ==> ParseSubHeader(p[k + 1]) == Some(enc(blocks[k], ParseSubHeader(p[k]).value).1))
    decreases k
  {
    var p := AdpcmPayloads(enc, blocks, state);
    var (code, next) := enc(blocks[0], state);
    var tail := AdpcmPayloads(enc, blocks[1..], next);
    assert p == [SubHeader(state) + code] + tail;
    if k == 0 {
      SubHeaderRoundTrip(state, code);
      if 1 < |blocks| {
        assert p[1] == SubHeader(next) + enc(blocks[1], next).0;
        SubHeaderRoundTrip(next, enc(blocks[1], next).0);
      }
    } else {
      AdpcmChain(enc, blocks[1..], next, k - 1);
      assert p[k] == tail[k - 1] && blocks[k] == blocks[1..][k - 1];
      if k + 1 < |blocks| {
        assert p[k + 1] == tail[k];
      }
    }
  }

  /** The first compressed payload of a pass starting without a codec state
      carries the initial state (0, 0). */
  lemma PassStartsFresh(enc: Encoder, blocks: seq<Bytes>)
    requires blocks != []
    ensures ParseSubHeader(AdpcmPayloads(enc, blocks, InitialState)[0]) == Some(InitialState)
  {
    SubHeaderRoundTrip(InitialState, enc(blocks[0], InitialState).0);
  }

  // ------------------------------------------------------------------ frames

  /** Every payload fits a frame numbered from `first`. */
  predicate FitAll(payloads: seq<Bytes>, magic: nat, first: nat)
  {
    magic < U32Limit && first + |payloads| <= U32Limit &&
    forall k :: 0 <= k < |payloads| ==> |payloads[k]| < U32Limit
  }

  /** The frames around `payloads`, numbered from `first`. */
  function Frames(payloads: seq<Bytes>, magic: nat, first: nat): (r: seq<Bytes>)
    requires FitAll(payloads, magic, first)
    ensures |r| == |payloads|
  {
    if payloads == [] then []
    else [BuildFrame(first, payloads[0], magic)] + Frames(payloads[1..], magic, first + 1)
  }

  /** The k-th of these frames parses back to the magic, the number
      `first + k` and the k-th payload. */
  lemma {:induction false} FramesParse(payloads: seq<Bytes>, magic: nat, first: nat)
    requires FitAll(payloads, magic, first)
    ensures var r := Frames(payloads, magic, first);
      forall k :: 0 <= k < |r| ==> ParseFrame(r[k]) == Some(FrameRecord(magic, first + k, payloads[k]))
    decreases |payloads|
  {
    if payloads != [] {
      FramesCons(payloads, magic, first);
      FramesParse(payloads[1..], magic, first + 1);
      FrameRoundTrip(first, payloads[0], magic);
      var r := Frames(payloads, magic, first);
      var rest := Frames(payloads[1..], magic, first + 1);
      assert forall k :: 1 <= k < |r| ==> r[k] == rest[k - 1] && payloads[k] == payloads[1..][k - 1];
    }
  }

  /** Peeling the first frame off. */
  lemma FramesCons(payloads: seq<Bytes>, magic: nat, first: nat)
    requires FitAll(payloads, magic, first) && payloads != []
    ensures FitAll(payloads[1..], magic, first + 1)
    ensures Frames(payloads, magic, first)
         == [BuildFrame(first, payloads[0], magic)] + Frames(payloads[1..], magic, first + 1)
  {
    assert forall k :: 0 <= k < |payloads| - 1 ==> payloads[1..][k] == payloads[k + 1];
  }

  // ------------------------------------------------------- the loop, pass by pass

  /** While data remains, an iteration sends the frame of the next block and
      leaves the payloads of the blocks after it. */
  lemma PassStep(s: Stream, c: Cursor)
    requires Valid(s, c) && s.blockBytes > 0 && c.pos < |s.data|
    requires FitAll(Payloads(s, c), FrameMagic(s.codec), c.seqNo)
    ensures var p := Payloads(s, c);
      var step := NextStep(s, c);
      step.Emit? && step.next.seqNo == c.seqNo + 1 && Payloads(s, step.next) == p[1..] &&
      step.frame == BuildFrame(c.seqNo, p[0], FrameMagic(s.codec))
  {
    var pcm := ReadFrames(s.data, c.pos, s.blockBytes);
    var (payload, state) := EncodeBlock(s.codec, s.enc, pcm, c.state);
    PayloadsStep(s, c, pcm, payload, state);
    var p := Payloads(s, c);
    assert p[0] == payload;
    assert FrameFits(c.seqNo, payload, FrameMagic(s.codec));
    assert NextStep(s, c) ==
      Emit(BuildFrame(c.seqNo, payload, FrameMagic(s.codec)), payload, Cursor(c.pos + |pcm|, state, c.seqNo + 1));
  }

  /** The payloads from `c` are the payload of the block read there, then the
      payloads from where the reader and the codec state stand after it. */
  lemma PayloadsStep(s: Stream, c: Cursor, pcm: Bytes, payload: Bytes, state: Option<CodecState>)
    requires Valid(s, c) && s.blockBytes > 0 && c.pos < |s.data|
    requires pcm == ReadFrames(s.data, c.pos, s.blockBytes)
    requires (payload, state) == EncodeBlock(s.codec, s.enc, pcm, c.state)
    ensures c.pos + |pcm| <= |s.data|
    ensures Payloads(s, c) == [payload] + Payloads(s, Cursor(c.pos + |pcm|, state, c.seqNo + 1))
  {
    BlocksStep(s.data, c.pos, s.blockBytes);
    var b := Blocks(s.data[c.pos..], s.blockBytes);
    assert b == [b[0]] + b[1..];
  }

  /** The first block from `pos` is what `readframes` returns there, and the
      blocks after it are the blocks from where the reader stops. */
  lemma BlocksStep(data: Bytes, pos: nat, width: nat)
    requires pos < |data| && width > 0
    ensures var b := Blocks(data[pos..], width);
      var pcm := ReadFrames(data, pos, width);
      b != [] && b[0] == pcm && Blocks(data[pos + |pcm|..], width) == b[1..]
  {
    var rest := data[pos..];
    var m := Min(width, |rest|);
    assert ReadFrames(data, pos, width) == rest[..m];
    assert data[pos + m..] == rest[m..];
  }

  /** From cursor `c`, the loop sends the frames of the rest of the data,
      numbered on from the cursor; then it finishes, or in loop mode rewinds
      and goes on from the start of the data with no codec state and the
      numbering continued at `next`, with `rest` iterations left. */
  lemma {:induction false} RunPass(s: Stream, c: Cursor, fuel: nat, next: nat, rest: nat)
    requires Valid(s, c) && s.blockBytes > 0
    requires FitAll(Payloads(s, c), FrameMagic(s.codec), c.seqNo)
    requires next == c.seqNo + |Payloads(s, c)| && rest + 1 + |Payloads(s, c)| == fuel
    ensures Run(s, c, fuel) == Prepend(Frames(Payloads(s, c), FrameMagic(s.codec), c.seqNo),
      if s.loop then Run(s, Cursor(0, None, next), rest) else Trace([], Done))
    decreases fuel, 1
  {
    if c.pos == |s.data| {
      RunPassAtEnd(s, c, fuel);
    } else {
      RunPassEmits(s, c, fuel, next, rest);
    }
  }

  /** The inductive step of `RunPass`: one frame, then the rest of the pass. */
  lemma {:induction false} RunPassEmits(s: Stream, c: Cursor, fuel: nat, next: nat, rest: nat)
    requires Valid(s, c) && s.blockBytes > 0 && c.pos < |s.data|
    requires FitAll(Payloads(s, c), FrameMagic(s.codec), c.seqNo)
    requires next == c.seqNo + |Payloads(s, c)| && rest + 1 + |Payloads(s, c)| == fuel
    ensures Run(s, c, fuel) == Prepend(Frames(Payloads(s, c), FrameMagic(s.codec), c.seqNo),
      if s.loop then Run(s, Cursor(0, None, next), rest) else Trace([], Done))
    decreases fuel, 0
  {
    var magic := FrameMagic(s.codec);
    var p := Payloads(s, c);
    PassStep(s, c);
    FramesCons(p, magic, c.seqNo);
    RunPass(s, NextStep(s, c).next, fuel - 1, next, rest);
    RunCons(s, c, fuel, Frames(p[1..], magic, c.seqNo + 1),
            if s.loop then Run(s, Cursor(0, None, next), rest) else Trace([], Done));
  }

  /** A run whose first iteration sends a frame is that frame followed by the
      run from the advanced cursor. */
  lemma RunCons(s: Stream, c: Cursor, fuel: nat, after: seq<Bytes>, t: Trace)
    requires Valid(s, c) && fuel > 0 && NextStep(s, c).Emit?
    requires Run(s, NextStep(s, c).next, fuel - 1) == Prepend(after, t)
    ensures Run(s, c, fuel) == Prepend([NextStep(s, c).frame] + after, t)
  {
    var frame := NextStep(s, c).frame;
    assert [frame] + (after + t.frames) == ([frame] + after) + t.frames;
  }

  /** At the end of the data a pass sends nothing more. */
  lemma RunPassAtEnd(s: Stream, c: Cursor, fuel: nat)
    requires Valid(s, c) && s.blockBytes > 0 && c.pos == |s.data| && fuel > 0
    ensures Payloads(s, c) == []
    ensures Run(s, c, fuel) == Prepend([],
        if s.loop then Run(s, Cursor(0, None, c.seqNo), fuel - 1) else Trace([], Done))
  {
    assert s.data[c.pos..] == [];
    var t := if s.loop then Run(s, Cursor(0, None, c.seqNo), fuel - 1) else Trace([], Done);
    assert [] + t.frames == t.frames;
  }

  /** Without loop mode and with iterations to spare, the loop sends the
      frames of one pass over the data, numbered from 0, and finishes. */
  lemma SinglePass(s: Stream, fuel: nat)
    requires !s.loop && s.blockBytes > 0
    requires fuel > |Payloads(s, Start)|
    requires FitAll(Payloads(s, Start), FrameMagic(s.codec), 0)
    ensures Run(s, Start, fuel) == Trace(Frames(Payloads(s, Start), FrameMagic(s.codec), 0), Done)
  {
    assert s.data[0..] == s.data;
    RunPass(s, Start, fuel, |Payloads(s, Start)|, fuel - 1 - |Payloads(s, Start)|);
    assert Frames(Payloads(s, Start), FrameMagic(s.codec), 0) + [] ==
           Frames(Payloads(s, Start), FrameMagic(s.codec), 0);
  }

  /** In loop mode every pass sends the same payloads as the first, because
      the reader rewinds and the codec state is forgotten; only the sequence
      numbers go on from where the previous pass stopped. */
  lemma LoopRepeats(s: Stream, seqNo: nat, fuel: nat)
    requires s.loop && s.blockBytes > 0
    requires fuel > |Payloads(s, Start)|
    requires FitAll(Payloads(s, Start), FrameMagic(s.codec), seqNo)
    ensures var n := |Payloads(s, Start)|;
      Run(s, Cursor(0, None, seqNo), fuel) ==
        Prepend(Frames(Payloads(s, Start), FrameMagic(s.codec), seqNo),
                Run(s, Cursor(0, None, seqNo + n), fuel - 1 - n))
  {
    assert s.data[0..] == s.data;
    assert Payloads(s, Cursor(0, None, seqNo)) == Payloads(s, Start);
    RunPass(s, Cursor(0, None, seqNo), fuel, seqNo + |Payloads(s, Start)|, fuel - 1 - |Payloads(s, Start)|);
  }

  /** In loop mode with no audio data the loop rewinds forever and sends
      nothing. */
  lemma {:induction false} EmptyLoopSendsNothing(s: Stream, c: Cursor, fuel: nat)
    requires Valid(s, c) && s.loop && s.data == []
    ensures Run(s, c, fuel) == Trace([], Streaming)
    decreases fuel
  {
    if fuel > 0 {
      EmptyLoopSendsNothing(s, Cursor(0, None, c.seqNo), fuel - 1);
    }
  }

  // ---------------------------------------------------------------- sessions

  /** A mono 16-bit file streamed once: the handshake, then one frame per
      block of `frame_samples` samples (`2 * frame_samples` bytes), numbered
      from 0; the session ends normally. */
  lemma SessionSinglePass(wav: WavSource, streamId: int, frameMs: int, codec: string,
                          timestampMs: int, enc: Encoder, fuel: nat)
    requires Configure(wav, streamId, frameMs, codec, timestampMs).Ok?
    requires var n := Configure(wav, streamId, frameMs, codec, timestampMs).value;
      fuel > |Blocks(wav.data, 2 * n)| &&
      FitAll(Payloads(StreamOf(wav, n, false, codec, enc), Start), FrameMagic(codec), 0)
    ensures var n := Configure(wav, streamId, frameMs, codec, timestampMs).value;
      var s := StreamOf(wav, n, false, codec, enc);
      Transcript(wav, streamId, frameMs, false, codec, timestampMs, enc, fuel) ==
        SessionResult([BuildHandshake(streamId, wav.sampleRate, 1, CodecId(codec), n, timestampMs)] +
                      Frames(Payloads(s, Start), FrameMagic(codec), 0), Done)
  {
    var n := Configure(wav, streamId, frameMs, codec, timestampMs).value;
    SinglePass(StreamOf(wav, n, false, codec, enc), fuel);
  }

  /** At 8000 Hz with 20 ms frames a session reads 160 samples, 320 bytes,
      per frame, and announces 160 in the handshake. */
  lemma EightKilohertzTwentyMs(data: Bytes, streamId: int, loop: bool, codec: string,
                               timestampMs: int, enc: Encoder)
    requires 0 <= streamId < U32Limit && 0 <= timestampMs < U64Limit
    ensures Configure(WavSource(1, 8000, 2, data), streamId, 20, codec, timestampMs) == Ok(160)
    ensures StreamOf(WavSource(1, 8000, 2, data), 160, loop, codec, enc).blockBytes == 320
  {
  }
}
