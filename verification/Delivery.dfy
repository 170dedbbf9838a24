/** Any number of target threads call send_packet while the host reads: the system of all their
    interleavings, one write(), lock or read at a time. */
module Delivery {
  import opened Bytes
  import opened Wire
  import opened HostReceiver

  /** Where a thread stands in send_packet; `pieces` counts the write() calls made under the lock. */
  datatype Phase = Outside | Waiting(packet: Packet) | Writing(packet: Packet, pieces: nat)

  datatype System = System(
    threads: seq<Phase>,
    mutex: Option<nat>,       // the thread that holds socket_mutex
    stream: seq<byte>,        // everything written to the socket so far
    order: seq<Packet>,       // the packets in the order their senders got the mutex
    consumed: nat,            // how much of the stream the host has read
    host: Decoded)            // the host's receiver

  datatype Action =
    | Call(thread: nat, packet: Packet)
    | Lock(thread: nat)
    | Write(thread: nat)
    | Unlock(thread: nat)
    | HostRead(count: nat)

  function Start(n: nat): System {
    System(seq(n, _ => Outside), None, [], [], 0, Fresh)
  }

  /** The argument of the k-th write() of send_packet. */
  function Piece(p: Packet, k: nat): seq<byte> {
    if k == 0 then MAGIC else if k == 1 then p.receiver else if k == 2 then WriteInt16(|p.data|) else p.data
  }

  /** What the first k write() calls put on the wire. */
  function Pieces(p: Packet, k: nat): (b: seq<byte>) {
    if k == 0 then [] else Pieces(p, k - 1) + Piece(p, k - 1)
  }

  predicate Enabled(s: System, a: Action) {
    match a
    case Call(t, p) => t < |s.threads| && s.threads[t].Outside? && Sendable(p)
    case Lock(t) => t < |s.threads| && s.threads[t].Waiting? && s.mutex.None?
    case Write(t) => t < |s.threads| && s.threads[t].Writing? && s.threads[t].pieces < 4
    case Unlock(t) => t < |s.threads| && s.threads[t].Writing? && s.threads[t].pieces == 4
    case HostRead(n) => 0 < n <= 1000 && s.consumed + n <= |s.stream|
  }

  function Step(s: System, a: Action): System
    requires Enabled(s, a)
  {
    match a
    case Call(t, p) => s.(threads := s.threads[t := Waiting(p)])
    case Lock(t) =>
      var p := s.threads[t].packet;
      s.(threads := s.threads[t := Writing(p, 0)], mutex := Some(t), order := s.order + [p])
    case Write(t) =>
      var Writing(p, k) := s.threads[t];
      s.(threads := s.threads[t := Writing(p, k + 1)], stream := s.stream + Piece(p, k))
    case Unlock(t) => s.(threads := s.threads[t := Outside], mutex := None)
    case HostRead(n) =>
      s.(consumed := s.consumed + n,
         host := Feed(s.host, s.stream[s.consumed..s.consumed + n], HOST_LOOK))
  }

  predicate IsRun(s: System, run: seq<Action>)
    decreases |run|
  {
    run == [] || (Enabled(s, run[0]) && IsRun(Step(s, run[0]), run[1..]))
  }

  function After(s: System, run: seq<Action>): System
    requires IsRun(s, run)
    decreases |run|
  {
    if run == [] then s else After(Step(s, run[0]), run[1..])
  }

  // ---- What every step keeps ----

  /** Only the mutex holder is between lock and unlock. */
  predicate Exclusive(s: System) {
    && (s.mutex.Some? ==> s.mutex.value < |s.threads| && s.threads[s.mutex.value].Writing?)
    && forall t :: 0 <= t < |s.threads| && s.threads[t].Writing? ==> s.mutex == Some(t)
  }

  /** Whole packets, then at most one partial packet, owned by the mutex holder. */
  predicate StreamShape(s: System)
    requires Exclusive(s)
  {
    if s.mutex.None? then s.stream == EncodeAll(s.order)
    else
      var Writing(p, k) := s.threads[s.mutex.value];
      && s.order != [] && s.order[|s.order| - 1] == p && k <= 4
      && s.stream == EncodeAll(s.order[..|s.order| - 1]) + Pieces(p, k)
  }

  predicate Waiters(s: System) {
    forall t :: 0 <= t < |s.threads| && !s.threads[t].Outside? ==> Sendable(s.threads[t].packet)
  }

  predicate HostInStep(s: System) {
    s.consumed <= |s.stream| && Agree(s.host, Decode(s.stream[..s.consumed], HOST_LOOK))
  }

  predicate Inv(s: System) {
    Exclusive(s) && StreamShape(s) && Waiters(s) && AllSendable(s.order) && HostInStep(s)
  }

  lemma {:induction false} PiecesMakePacket(p: Packet)
    ensures Pieces(p, 4) == Encode(p) && Pieces(p, 0) == []
  {
    assert Pieces(p, 1) == [] + MAGIC;
    assert Pieces(p, 2) == Pieces(p, 1) + p.receiver;
    assert Pieces(p, 3) == Pieces(p, 2) + WriteInt16(|p.data|);
    assert Pieces(p, 4) == Pieces(p, 3) + p.data;
  }

  lemma {:induction false} EncodeLast(ps: seq<Packet>, p: Packet)
    ensures EncodeAll(ps + [p]) == EncodeAll(ps) + Encode(p)
  {
    EncodeAllAppend(ps, [p]);
    assert EncodeAll([p]) == Encode(p) + EncodeAll([]);
  }

  lemma {:induction false} LockKeeps(s: System, t: nat)
    requires Inv(s) && Enabled(s, Lock(t))
    ensures Inv(Step(s, Lock(t)))
  {
    hide Decode;
    var s' := Step(s, Lock(t));
    assert s'.order[..|s'.order| - 1] == s.order;
    assert s'.stream == EncodeAll(s.order) + [];
  }

  lemma {:induction false} WriteKeeps(s: System, t: nat)
    requires Inv(s) && Enabled(s, Write(t))
    ensures Inv(Step(s, Write(t)))
  {
    hide Decode, Agree, EncodeAll, Pieces, Piece, Sendable;
    var s' := Step(s, Write(t));
    var Writing(p, k) := s.threads[t];
    var sent := EncodeAll(s.order[..|s.order| - 1]);
    PiecesNext(p, k);
    assert sent + Pieces(p, k) + Piece(p, k) == sent + (Pieces(p, k) + Piece(p, k));
    assert s'.stream[..s.consumed] == s.stream[..s.consumed];
  }

  lemma {:induction false} PiecesNext(p: Packet, k: nat)
    ensures Pieces(p, k + 1) == Pieces(p, k) + Piece(p, k)
  {
  }

  lemma {:induction false} UnlockKeeps(s: System, t: nat)
    requires Inv(s) && Enabled(s, Unlock(t))
    ensures Inv(Step(s, Unlock(t)))
  {
    hide Decode;
    var p := s.threads[t].packet;
    PiecesMakePacket(p);
    EncodeLast(s.order[..|s.order| - 1], p);
    assert s.order == s.order[..|s.order| - 1] + [p];
  }

  lemma {:induction false} HostReadKeeps(s: System, n: nat)
    requires Inv(s) && Enabled(s, HostRead(n))
    ensures Inv(Step(s, HostRead(n)))
  {
    hide Decode;
    var seen, chunk := s.stream[..s.consumed], s.stream[s.consumed..s.consumed + n];
    assert seen + chunk == s.stream[..s.consumed + n];
    FeedIsDecode(s.host, seen, chunk, HOST_LOOK);
  }

  lemma {:induction false} StepKeeps(s: System, a: Action)
    requires Inv(s) && Enabled(s, a)
    ensures Inv(Step(s, a))
  {
    hide Decode;
    match a
    case Call(t, p) =>
    case Lock(t) => LockKeeps(s, t);
    case Write(t) => WriteKeeps(s, t);
    case Unlock(t) => UnlockKeeps(s, t);
    case HostRead(n) => HostReadKeeps(s, n);
  }

  lemma {:induction false} RunKeeps(s: System, run: seq<Action>)
    requires Inv(s) && IsRun(s, run)
    ensures Inv(After(s, run))
    decreases |run|
  {
    if run != [] {
      StepKeeps(s, run[0]);
      RunKeeps(Step(s, run[0]), run[1..]);
    }
  }

  // ---- The guarantees ----

  lemma {:induction false} PiecesArePrefix(p: Packet, k: nat)
    requires k <= 4
    ensures |Pieces(p, k)| <= |Encode(p)| && Pieces(p, k) == Encode(p)[..|Pieces(p, k)|]
    decreases 4 - k
  {
    PiecesMakePacket(p);
    if k < 4 {
      PiecesArePrefix(p, k + 1);
      assert Pieces(p, k) == Pieces(p, k + 1)[..|Pieces(p, k)|];
    }
  }

  /** The bytes on the wire are always a prefix of the packets in lock order. */
  lemma {:induction false} StreamIsPrefix(s: System)
    requires Inv(s)
    ensures |s.stream| <= |EncodeAll(s.order)| && s.stream == EncodeAll(s.order)[..|s.stream|]
    ensures s.mutex.None? ==> s.stream == EncodeAll(s.order)
  {
    hide Decode, Agree, EncodeAll, Encode, Pieces, Sendable;
    if s.mutex.Some? {
      var Writing(p, k) := s.threads[s.mutex.value];
      var done := s.order[..|s.order| - 1];
      assert s.order == done + [p];
      EncodeLast(done, p);
      PiecesArePrefix(p, k);
      assert s.stream == (EncodeAll(done) + Encode(p))[..|s.stream|];
    }
  }

  /** End to end, for every number of threads, every interleaving and every way of cutting the stream
      into reads: the host has handled exactly the packets whose last byte it has read, in the order
      in which the senders got the mutex, and buffers only the front of the next one. */
  lemma {:induction false} EndToEnd(n: nat, run: seq<Action>)
    requires IsRun(Start(n), run)
    ensures var s := After(Start(n), run); var k := Complete(s.order, s.consumed);
            && s.consumed <= |s.stream|
            && s.host.packets == s.order[..k] && !s.host.bad
            && s.stream[..s.consumed] == EncodeAll(s.order[..k]) + s.host.rest
            && (k < |s.order| ==> |s.host.rest| < |Encode(s.order[k])|)
            && (s.mutex.None? ==> s.stream == EncodeAll(s.order))
            && (s.mutex.None? && s.consumed == |s.stream| ==> s.host.packets == s.order && s.host.rest == [])
  {
    assert Decode([], HOST_LOOK) == Fresh;
    assert Inv(Start(n));
    RunKeeps(Start(n), run);
    var s := After(Start(n), run);
    StreamIsPrefix(s);
    var got := s.stream[..s.consumed];
    assert got == EncodeAll(s.order)[..s.consumed];
    PrefixDelivers(s.order, s.consumed, HOST_LOOK, got);
    CompleteIsLargest(s.order, s.consumed);
    assert s.order[..|s.order|] == s.order;
  }
}
