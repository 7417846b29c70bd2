# Streaming client: wire records and session loop

This project models the core of `client/stream_client.py`, a client that
streams a mono 16-bit WAV file to a server over a WebSocket, together with
proofs about the model. Each session does four things:

- It checks the audio format.
- It sends one 32-byte **handshake** (magic `ADPC`, version 1, header length
  32, stream id, sample rate, channels, codec id, samples per frame, a zero
  reserved field, timestamp).
- It reads the PCM data block by block and sends one **frame** per block.
  A frame is a 12-byte header (magic, payload length, sequence number)
  followed by the payload.
- At the end of the data it either stops or, in loop mode, rewinds.

In `pcm` mode the payload is the PCM block itself (magic `PCMF`). Otherwise
it is a 4-byte **sub-header** followed by the ADPCM codes (magic `ADPF`).
The sub-header holds the codec state before the block was encoded: a
signed 16-bit predictor, a step-index byte and a zero byte. The codec state
threads from frame to frame. A rewind resets it, but the frame numbering
carries on. `main` starts one session per stream, with stream ids
`stream_id_base + i`.

The model has four modules.

- `LittleEndian` (`little_endian.dfy`): bytes, the little-endian integer
  encodings of `struct.pack`, and `Pack`/`Unpack` for a layout of unsigned
  fields. Round trips are proved in both directions, and `PackField` locates
  each field inside the packed bytes.
- `Protocol` (`protocol.dfy`): the handshake, the frame and the codec-state
  sub-header. Each builder has a parser beside it, and lemmas show the two
  are mutual inverses.
- `Session` (`session.dfy`): `stream_once`.
  - The imperative methods `StreamOnce`, `SendFrames` (the `while True`
    loop), `Iterate` (one iteration) and `Encode` (the payload of one
    block) are each proved equal to a functional specification.
  - The specification is `NextStep` (what one iteration does), `Run` (the
    frames the loop sends within a bounded number of iterations) and
    `Transcript` (everything a session sends, and how it ends).
  - The lemmas state what the protocol promises about these: the format
    checks, the handshake first, frames numbered 0, 1, 2, … with no gap,
    the sub-header state, and the state reset on rewind.
- `Passes` (`passes.dfy`): a second, independent definition of what one
  pass over the data sends.
  - The data is cut into `readframes`-sized `Blocks`, mapped to `Payloads`
    and wrapped in numbered `Frames`.
  - The proofs show that the loop sends exactly these frames: once without
    loop mode, and the same payloads pass after pass in loop mode.
- `Launcher` (`launcher.dfy`): stream-id assignment and the task loop of
  `main`, with the sessions run one after the other.

The I/O is modelled as follows:

- The WebSocket is the output sequence `sent`.
- The WAV reader is a cursor over the bytes of the data chunk.
- `audioop.lin2adpcm` is the `Encoder` parameter, an arbitrary deterministic
  function.
- `time.time()` is the `timestampMs` parameter, or `clock(i)` for task `i`.
- The unbounded `while True` loop runs at most `fuel` iterations. A session
  still looping when the fuel runs out ends as `Streaming`.

## Model

| member | source | states |
|---|---|---|
| LittleEndian.FromLEOfLE | client/stream_client.py:27-28 | reading back the n little-endian bytes of a value below 256^n gives the value |
| LittleEndian.LEOfFromLE | client/stream_client.py:27-28 | every n-byte string is the encoding of the value it reads as, so the encoding is a bijection |
| LittleEndian.LEInjective | client/stream_client.py:27-28 | two equally wide encodings are equal exactly when the values are |
| LittleEndian.UnpackPack | client/stream_client.py:27-39 | unpacking a packed record of unsigned fields gives back every field value |
| LittleEndian.PackUnpack | client/stream_client.py:27-39 | every byte string of the layout's size is the packing of the values it unpacks to |
| LittleEndian.PackField | client/stream_client.py:27-39 | field i of a packed record is the encoding of value i, at the offset given by the widths of the fields before it |
| LittleEndian.I16RoundTrip | client/stream_client.py:99 | the two-byte two's-complement encoding of a signed 16-bit predictor reads back as the same predictor |
| LittleEndian.I16RoundTripBytes | client/stream_client.py:99 | every two bytes are the encoding of the signed value they read as |
| LittleEndian.LE | client/stream_client.py:27-43 | the n-byte little-endian encoding `struct.pack` writes for an unsigned field; it is n bytes long, and FromLEOfLE/LEOfFromLE state that it is inverted by `FromLE` |
| LittleEndian.Pack | client/stream_client.py:27-43 | `struct.pack` for a little-endian format of unsigned fields (`<IHHIIHHHHQ`, `<III`); it is `Size(layout)` bytes long, and UnpackPack/PackUnpack/PackField state its round trip and field positions |
| LittleEndian.I16LE | client/stream_client.py:99 | `struct.pack("<h")`, two bytes; I16RoundTrip/I16RoundTripBytes state that it is inverted by `FromI16LE` |
| Protocol.HandshakeFitsLayout | client/stream_client.py:19-39 | the caller's six values fit their u32/u16/u64 fields exactly when the ten handshake values fit the layout `<IHHIIHHHHQ`, i.e. exactly when `struct.pack` does not raise |
| Protocol.BuildHandshake | client/stream_client.py:16-39 | the handshake is always HANDSHAKE_LEN = 32 bytes |
| Protocol.HandshakeOffsetsAt | client/stream_client.py:28 | the fields of `<IHHIIHHHHQ` start at bytes 0, 4, 6, 8, 12, 16, 18, 20, 22, 24 and fill all 32 bytes |
| Protocol.HandshakeBytes | client/stream_client.py:27-39 | field i of the handshake is the bytes from its offset, and they read little-endian as the i-th packed value (magic, 1, 32, stream id, sample rate, channels, codec, frame samples, 0, timestamp) |
| Protocol.ParseHandshake | client/stream_client.py:27-39 | the parser accepts exactly the 32-byte records |
| Protocol.HandshakeRoundTrip | client/stream_client.py:13-39 | parsing a built handshake recovers stream id, sample rate, channels, codec, frame samples and timestamp, with magic 0x41445043, version 1, header length 32 and reserved 0 |
| Protocol.HandshakeFromRecord | client/stream_client.py:27-39 | conversely, every 32-byte record whose fixed fields hold those constants is the handshake built from its other fields |
| Protocol.BuildFrame | client/stream_client.py:42-43 | a frame is 12 + len(payload) bytes and its suffix from byte 12 is the payload verbatim |
| Protocol.FrameHeaderBytes | client/stream_client.py:43 | bytes 0..4 encode the magic, bytes 4..8 the payload length and bytes 8..12 the sequence number, each as a little-endian u32 |
| Protocol.ParseFrame | client/stream_client.py:42-43 | a parsed frame is exactly 12 bytes longer than its payload |
| Protocol.FrameRoundTrip | client/stream_client.py:42-43 | parsing a built frame yields (magic, seq, payload) |
| Protocol.FrameFromRecord | client/stream_client.py:42-43 | every well-formed frame is the frame built from what it parses to |
| Protocol.SubHeader | client/stream_client.py:98-99 | the codec-state sub-header is 4 bytes |
| Protocol.ParseSubHeader | client/stream_client.py:98-99 | a sub-header can be read from a payload exactly when the payload has at least 4 bytes |
| Protocol.SubHeaderRoundTrip | client/stream_client.py:98-100 | the sub-header at the front of a compressed payload reads back as the state it was built from, whatever codes follow |
| Protocol.SubHeaderFromBytes | client/stream_client.py:99 | a payload whose fourth byte is 0 starts with the sub-header of the state it reads as |
| Session.FrameSamples | client/stream_client.py:66 | samples per frame is sample_rate * frame_ms / 1000 truncated toward zero: n * 1000 <= sample_rate * frame_ms < (n + 1) * 1000 when the product is non-negative, and n <= 0 otherwise |
| Session.CodecAgreement | client/stream_client.py:71-100 | for the two codec names the command line admits (lines 125-130), handshake codec 1 goes with ADPCM frames and codec 0 with PCM frames |
| Session.CodecId | client/stream_client.py:71 | the handshake codec field, 1 for "adpcm" and 0 otherwise; CodecAgreement relates it to the frame magic and SessionHandshake shows it in the handshake |
| Session.FrameMagic | client/stream_client.py:94-100 | `PCM_FRAME_MAGIC` for "pcm", `ADPCM_FRAME_MAGIC` for every other name; FramesNumbered and EmitParses show it on every frame sent |
| Session.StateIn | client/stream_client.py:93 | `state or (0, 0)`; EmitPayload, RewindRestarts and PassStartsFresh show that it is the state in each compressed payload's sub-header |
| Session.ReadFrames | client/stream_client.py:85 | `readframes`: the next min(count, remaining) bytes of the data from the reader's position |
| Session.EncodeBlock | client/stream_client.py:93-100 | the payload and kept state of one block; EmitPayload states both for each codec, and AdpcmChain the chaining across blocks |
| Session.Configure | client/stream_client.py:61-79 | a session starts (`Ok` with the frame-sample count) exactly when the audio is mono 16-bit, the frame-sample count is positive and the handshake fields fit; otherwise the first failing check decides the error, in the source's order: BadFormat, then FrameTooShort, then HandshakeOverflow |
| Session.NextStep | client/stream_client.py:84-102 | an iteration rewinds or finishes exactly when `readframes` returns nothing; it rewinds only in loop mode and finishes only outside it |
| Session.EmitParses | client/stream_client.py:85-102 | an iteration that sends a frame advances the reader, numbers the frame with the current seq, increments seq, and the frame parses back to the codec's magic, that seq and the payload |
| Session.EmitPayload | client/stream_client.py:93-100 | in pcm mode the payload is the block read and the codec state is untouched; otherwise it is the sub-header of the state before encoding (`state or (0, 0)`) followed by the encoder's codes, the sub-header parses back to that state, and the encoder's output state is the next frame's input state |
| Session.RewindRestarts | client/stream_client.py:86-93 | after a rewind the loop continues from the start of the data with the same seq; the next frame carries that seq and, in ADPCM mode, was encoded from state (0, 0) |
| Session.RunEmits | client/stream_client.py:95-102 | one iteration that sends a frame appends exactly that frame to what was sent before, followed by the run from the advanced cursor |
| Session.Run | client/stream_client.py:84-102 | the frames the `while True` loop sends within `fuel` iterations and how it ends; FramesNumbered states their numbering and magic, RunPass/SinglePass/LoopRepeats that they are the frames of one pass after another, and EmptyLoopSendsNothing the empty-data loop |
| Session.Transcript | client/stream_client.py:46-102 | everything `stream_once` sends and how it ends; NothingSentOnConfigError, SessionHandshake, SessionFramesNumbered and SessionSinglePass state its properties |
| Session.Encode | client/stream_client.py:93-100 | computes the payload and next state of `EncodeBlock` and the codec's frame magic; pcm payloads are the block itself, and compressed payloads carry the state before encoding in their sub-header |
| Session.Iterate | client/stream_client.py:85-100 | one loop iteration computes exactly `NextStep` of its loop variables |
| Session.SendFrames | client/stream_client.py:82-102 | the `while True` loop sends exactly the frames of `Run` from reader position 0, no codec state and seq 0, and ends as `Run` does |
| Session.StreamOnce | client/stream_client.py:46-102 | a session sends exactly its `Transcript`; a bad format or a non-positive frame-sample count sends no message; if anything is sent, the first message is the handshake decoding to the session's parameters, and the rest are frames numbered 0, 1, 2, … |
| Session.NumberedCons | client/stream_client.py:101-102 | a frame numbered `first` followed by frames numbered from `first + 1` are frames numbered from `first` |
| Session.FramesNumbered | client/stream_client.py:83-102 | the frames the loop sends are numbered on from the cursor's seq with no gap and no repeat, across rewinds, and all carry the codec's magic |
| Session.NothingSentOnConfigError | client/stream_client.py:61-80 | a session that fails its checks sends no message and fails with that check's error |
| Session.SessionHandshake | client/stream_client.py:70-80 | the first message of a session is a handshake that decodes to the session's stream id, sample rate, channels 1, codec id, frame samples and timestamp |
| Session.SessionAnnounces | client/stream_client.py:72-80 | a session that sends anything announces the stream id it was given |
| Session.SessionFramesNumbered | client/stream_client.py:80-102 | after the handshake, the k-th message is a frame numbered k |
| Passes.Blocks | client/stream_client.py:85 | every block read is non-empty and at most one `readframes` worth of bytes, and there are no more blocks than bytes |
| Passes.BlocksConcat | client/stream_client.py:85 | the blocks put back together are the data: nothing lost, repeated or reordered |
| Passes.BlocksFull | client/stream_client.py:85 | all blocks but the last are full, so there are ceil(len / width) blocks |
| Passes.AdpcmPayloads | client/stream_client.py:93-100 | one compressed payload per block |
| Passes.Payloads | client/stream_client.py:85-100 | one payload per remaining block |
| Passes.AdpcmChain | client/stream_client.py:93-100 | each compressed payload is the sub-header of its input state followed by the block encoded from that state, and the next payload's sub-header holds the encoder's output state |
| Passes.PassStartsFresh | client/stream_client.py:82-93 | the first compressed payload of a pass carries state (0, 0) |
| Passes.Frames | client/stream_client.py:95-102 | one frame per payload |
| Passes.FramesParse | client/stream_client.py:95-102 | the k-th frame of a pass parses back to the magic, seq `first + k` and the k-th payload |
| Passes.FramesCons | client/stream_client.py:101-102 | peeling off the first frame leaves the frames numbered from the next seq |
| Passes.BlocksStep | client/stream_client.py:85 | the first block from the reader's position is what `readframes` returns, and the rest are the blocks from where it stops |
| Passes.PayloadsStep | client/stream_client.py:85-100 | the payloads from a position are the next block's payload followed by the payloads from the advanced reader and codec state |
| Passes.PassStep | client/stream_client.py:85-102 | while data remains and the frames fit, an iteration sends the frame of the next payload and leaves the remaining payloads |
| Passes.RunPass | client/stream_client.py:84-102 | from any position the loop sends the frames of the rest of the data, numbered on; then it finishes or, in loop mode, restarts at position 0 with no codec state and the numbering continued |
| Passes.RunPassEmits | client/stream_client.py:85-102 | the inductive step of `RunPass`: one frame, then the rest of the pass |
| Passes.RunCons | client/stream_client.py:101-102 | a run whose first iteration sends a frame is that frame followed by the rest of the run |
| Passes.RunPassAtEnd | client/stream_client.py:86-91 | at the end of the data nothing more is sent, and the loop finishes or rewinds |
| Passes.SinglePass | client/stream_client.py:84-91 | with looping off, the loop sends exactly one frame per non-empty block, in order, numbered from 0, and stops at the first empty read |
| Passes.LoopRepeats | client/stream_client.py:86-90 | in loop mode every pass sends the same payloads as the first, and only the seq carries on |
| Passes.EmptyLoopSendsNothing | client/stream_client.py:84-90 | in loop mode with no audio data the loop rewinds forever and never sends a frame |
| Passes.SessionSinglePass | client/stream_client.py:46-102 | a non-looping session sends its handshake, then one frame per block of `2 * frame_samples` bytes numbered from 0, then ends normally |
| Passes.EightKilohertzTwentyMs | client/stream_client.py:66-85 | at 8000 Hz with 20 ms frames a session announces 160 samples per frame and reads 320 bytes per block |
| Launcher.StreamIds | client/stream_client.py:134-140 | the stream ids are base, base+1, …, base+streams-1 (none when streams <= 0): strictly increasing, so pairwise distinct, and exactly the integers in that range |
| Launcher.Sessions | client/stream_client.py:133-147 | one session per task |
| Launcher.SessionsAt | client/stream_client.py:134-145 | task k runs with stream id base + k and the clock reading taken when it starts |
| Launcher.SessionsSnoc | client/stream_client.py:134-147 | adding one task appends its session to the launch |
| Launcher.Launch | client/stream_client.py:133-149 | the task loop of `main` runs exactly the sessions of `Sessions`, task k with stream id base + k, each task's result being what it sends when run alone |
| Launcher.SessionOfAnnounces | client/stream_client.py:137-145 | each task's session announces the stream id it was handed |
| Launcher.LaunchAnnouncesDistinctIds | client/stream_client.py:134-149 | in a launch, task k announces base + k, so no two tasks that send anything announce the same stream id |

## Left out

- WebSocket transport: only `ws.send` is modelled, as appending to `sent`. The connection is opened (line 55) before the format checks (lines 61-68), so a session that fails those checks still connects to the server; the connection is not represented, and "sends nothing" in the contracts means no message. Connection failures, send errors and `max_size` are not modelled.
- WAV container I/O: `wave.open`, the header getters, `readframes` and `rewind` are modelled as a header record and a cursor over the PCM bytes. Malformed files and read errors are not modelled; in particular, a data chunk of odd length makes the last block an odd number of bytes, on which `audioop.lin2adpcm` (line 97) raises "not a whole number of frames", whereas the model's total `Encoder` still yields a frame for it.
- `audioop.lin2adpcm` internals: the encoder is an arbitrary deterministic function of (block, state), and no output length or step table is assumed. The codec state is typed as a signed 16-bit predictor and a step index of one byte, the ranges the library produces and the sub-header can carry.
- `time.time()`: the timestamp is a parameter of a session, or `clock(i)` for task i in `Launcher`.
- Real-time pacing (`asyncio.sleep`, lines 104-105) is not modelled: it affects only timing, not what is sent.
- Launcher.Launch: gives each task's result as if the task ran alone. In the program the tasks run concurrently on one event loop, and the model does not capture how they affect each other: a session that raises (for example a negative stream id failing `build_handshake`) makes `gather` (line 149) re-raise, and `asyncio.run` then cancels the sibling tasks part-way, while the model gives every sibling its full transcript; a loop-mode session over empty audio data cycles through lines 84-90 without ever awaiting, blocking the event loop so that no sibling makes progress, while the model lets the siblings run to completion. The interleaving of the sessions' sends on the network is not modelled either.
- Command-line parsing (`argparse`, lines 109-131): its values are parameters. Since it admits only "adpcm" and "pcm", `CodecAgreement` is stated for those two names. For any other name the model follows the code: handshake codec 0, with ADPCM frames.
- Session.FrameSamples: computed with exact integer arithmetic, truncated toward zero as `int()` does. The program computes `sample_rate * frame_ms / 1000` in floating point first, and the model does not capture the floating-point rounding that can differ for very large products.
- Session.SendFrames: the unbounded `while True` loop is modelled with at most `fuel` iterations (one per `readframes` call). A session still looping when the fuel runs out ends as `Streaming`.
- Exceptions are modelled as the error outcomes `BadFormat`, `FrameTooShort`, `HandshakeOverflow` and `FrameOverflow`. A `FrameOverflow` comes from `struct.pack` raising on a seq or payload length of 2^32 or more. Python's exception types and messages are not modelled.
