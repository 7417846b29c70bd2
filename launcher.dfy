/** `main`: one session per stream, with stream ids `stream_id_base + i`.
    The sessions run concurrently in the program; here each task's result is
    its transcript as if it ran alone (a failing task cancelling its siblings
    and a session that never yields to the event loop are not captured). */
module Launcher {
  import opened Protocol
  import opened Session

  /** The stream ids `main` hands out: `range(streams)` offset by the base,
      so a non-positive count starts no session. */
  method StreamIds(streams: int, base: int) returns (ids: seq<int>)
    ensures |ids| == if streams > 0 then streams else 0
    ensures forall i :: 0 <= i < |ids| ==> ids[i] == base + i
    ensures forall i, j :: 0 <= i < j < |ids| ==> ids[i] < ids[j]
    ensures forall x :: x in ids <==> base <= x < base + |ids|
  {
    ids := [];
    var i := 0;
    while i < streams
      invariant 0 <= i && (i <= streams || i == 0)
      invariant |ids| == i
      invariant forall k :: 0 <= k < i ==> ids[k] == base + k
    {
      ids := ids + [base + i];
      i := i + 1;
    }
    forall x | base <= x < base + |ids|
      ensures x in ids
    {
      assert ids[x - base] == x;
    }
  }

  /** The session `main` runs for one stream id and clock reading, every
      other argument being shared by all the sessions of a launch. */
  function SessionOf(wav: WavSource, frameMs: int, loop: bool, codec: string, enc: Encoder,
                     fuel: nat): (int, int) -> SessionResult
  {
    (streamId, timestampMs) => Transcript(wav, streamId, frameMs, loop, codec, timestampMs, enc, fuel)
  }

  /** What the `n` sessions of a launch send and how they end, in task
      order: task `k` is `session` run with stream id `base + k` and the
      clock reading `clock(k)` taken when it starts. */
  function Sessions(session: (int, int) -> SessionResult, base: int, clock: nat -> int, n: nat)
    : (r: seq<SessionResult>)
    ensures |r| == n
  {
    if n == 0 then []
    else Sessions(session, base, clock, n - 1) + [session(base + (n - 1), clock(n - 1))]
  }

  /** Task `k` of a launch streams with stream id `base + k`. */
  lemma {:induction false} SessionsAt(session: (int, int) -> SessionResult, base: int,
                                      clock: nat -> int, n: nat, k: nat)
    requires k < n
    ensures Sessions(session, base, clock, n)[k] == session(base + k, clock(k))
  {
    if k < n - 1 {
      SessionsAt(session, base, clock, n - 1, k);
    }
  }

  /** One more task appends its session to the launch. */
  lemma SessionsSnoc(session: (int, int) -> SessionResult, base: int, clock: nat -> int, n: nat,
                     id: int, last: SessionResult)
    requires id == base + n && last == session(id, clock(n))
    ensures Sessions(session, base, clock, n + 1) == Sessions(session, base, clock, n) + [last]
  {
  }

  /** The `for` loop of `main`, with each task run to completion in turn. */
  method Launch(wav: WavSource, streams: int, base: int, frameMs: int, loop: bool,
                codec: string, clock: nat -> int, enc: Encoder, fuel: nat)
    returns (results: seq<SessionResult>)
    ensures results == Sessions(SessionOf(wav, frameMs, loop, codec, enc, fuel), base, clock,
                                if streams > 0 then streams else 0)
  {
    var ids := StreamIds(streams, base);
    ghost var session := SessionOf(wav, frameMs, loop, codec, enc, fuel);
    results := [];
    for i := 0 to |ids|
      invariant results == Sessions(session, base, clock, i)
    {
      var sent, outcome := StreamOnce(wav, ids[i], frameMs, loop, codec, clock(i), enc, fuel);
      SessionsSnoc(session, base, clock, i, ids[i], SessionResult(sent, outcome));
      results := results + [SessionResult(sent, outcome)];
    }
  }

  /** A session function announces, whenever it sends anything, the stream
      id it is run with. */
  ghost predicate AnnouncesItsId(session: (int, int) -> SessionResult)
  {
    forall streamId: int, timestampMs: int :: session(streamId, timestampMs).sent != [] ==>
      AnnouncedId(session(streamId, timestampMs)) == Some(streamId)
  }

  /** The sessions of `stream_once` do. */
  lemma SessionOfAnnounces(wav: WavSource, frameMs: int, loop: bool, codec: string, enc: Encoder,
                           fuel: nat)
    ensures AnnouncesItsId(SessionOf(wav, frameMs, loop, codec, enc, fuel))
  {
    var session := SessionOf(wav, frameMs, loop, codec, enc, fuel);
    forall streamId, timestampMs
      ensures session(streamId, timestampMs).sent != [] ==>
        AnnouncedId(session(streamId, timestampMs)) == Some(streamId)
    {
      SessionAnnounces(wav, streamId, frameMs, loop, codec, timestampMs, enc, fuel);
    }
  }

  /** In a launch of such sessions, task `k` announces `base + k`, so no two
      tasks that send anything announce the same stream. */
  lemma {:induction false} LaunchAnnouncesDistinctIds(session: (int, int) -> SessionResult,
                                                      base: int, clock: nat -> int, n: nat, k: nat)
    requires AnnouncesItsId(session) && k < n
    ensures var r := Sessions(session, base, clock, n);
      r[k].sent != [] ==> AnnouncedId(r[k]) == Some(base + k)
    ensures var r := Sessions(session, base, clock, n);
      forall j :: 0 <= j < n && j != k && r[k].sent != [] && r[j].sent != [] ==>
        AnnouncedId(r[j]) != AnnouncedId(r[k])
  {
    var r := Sessions(session, base, clock, n);
    forall j | 0 <= j < n && r[j].sent != []
      ensures AnnouncedId(r[j]) == Some(base + j)
    {
      SessionsAt(session, base, clock, n, j);
      var x := session(base + j, clock(j));
      assert forall a: int, b: int :: session(a, b).sent != [] ==> AnnouncedId(session(a, b)) == Some(a);
      assert x.sent != [] ==> AnnouncedId(x) == Some(base + j);
      assert r[j] == x;
    }
  }
}
