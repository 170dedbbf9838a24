/** Pipe registration: the host matches the names it asked for to the ids the target assigns purely
    by order. Host callers, the target's receive thread, its pipe threads and the host's reader are
    interleaved over two FIFO channels. */
module PipeRegistry {
  import opened Bytes
  import opened Wire

  type Name = seq<byte>

  /** "<not available>" */
  const NOT_AVAILABLE: Name := [60, 110, 111, 116, 32, 97, 118, 97, 105, 108, 97, 98, 108, 101, 62]

  /** RPIR, RPIP and RPIC packets. `k` numbers the request served; only its low 16 bits travel. */
  datatype Msg =
    | Registered(k: nat)
    | PipeData(k: nat, bytes: seq<byte>)
    | Closed(k: nat)
  {
    function Id(): int { Wrap16(k) }
  }

  /** PipeOpened, PipeData and PipeClosed as the host raises them. */
  datatype Event = Event(cause: Msg, name: Name)

  // ---- The host's tables ----

  datatype Host = Host(requested: seq<Name>, registered: map<int, Name>, raised: seq<Event>, dead: bool)

  function PipeName(registered: map<int, Name>, id: int): Name {
    if id in registered then registered[id] else NOT_AVAILABLE
  }

  /** HandlerRegisteredPipe, HandlerPipeData and HandlerPipeClosed. A second registration of a live
      id makes Dictionary.Add throw after the name was dequeued; the reader does not survive that. */
  function Handle(h: Host, m: Msg): Host {
    match m
    case Registered(_) =>
      if m.Id() !in h.registered && h.requested != [] then
        var registered := h.registered[m.Id() := h.requested[0]];
        h.(requested := h.requested[1..], registered := registered,
           raised := h.raised + [Event(m, PipeName(registered, m.Id()))])
      else if h.requested != [] then h.(requested := h.requested[1..], dead := true)
      else h.(raised := h.raised + [Event(m, PipeName(h.registered, m.Id()))])
    case PipeData(_, _) => h.(raised := h.raised + [Event(m, PipeName(h.registered, m.Id()))])
    case Closed(_) =>
      h.(raised := h.raised + [Event(m, PipeName(h.registered, m.Id()))], registered := h.registered - {m.Id()})
  }

  /** The packet that carries a message. */
  function MsgPacket(m: Msg): Packet {
    match m
    case Registered(_) => Packet([82, 80, 73, 82], WriteInt16(m.Id()))
    case PipeData(_, bytes) => Packet([82, 80, 73, 80], WriteInt16(m.Id()) + bytes)
    case Closed(_) => Packet([82, 80, 73, 67], WriteInt16(m.Id()))
  }

  /** The receivers read RPIR, RPIP and RPIC; the data is the id, low byte first, and what was read. */
  lemma {:induction false} MsgPacketMeans(m: Msg)
    ensures var p := MsgPacket(m);
            && |p.receiver| == 4 && |p.data| >= 2 && ReadInt16(p.data[0], p.data[1]) == m.Id()
            && (forall i :: 0 <= i < 4 ==> p.receiver[i] == (if m.Registered? then "RPIR" else if m.PipeData? then "RPIP" else "RPIC")[i] as int)
            && p.data[2..] == if m.PipeData? then m.bytes else []
  {
    Int16RoundTrip(m.Id());
  }

  /** The arguments of PipeOpened, PipeData and PipeClosed. */
  datatype Call =
    | PipeOpened(id: int, name: Name)
    | PipeReceived(id: int, name: Name, data: seq<byte>)
    | PipeClosed(id: int, name: Name)

  /** The subscribers are told what the message says. */
  predicate Tells(c: Call, m: Msg) {
    match m
    case Registered(k) => c.PipeOpened? && c.id == Wrap16(k)
    case PipeData(k, bytes) => c.PipeReceived? && c.id == Wrap16(k) && c.data == bytes
    case Closed(k) => c.PipeClosed? && c.id == Wrap16(k)
  }

  function Events(causes: seq<Msg>, calls: seq<Call>): (es: seq<Event>)
    requires |causes| == |calls|
    ensures |es| == |causes|
  {
    seq(|causes|, i requires 0 <= i < |causes| => Event(causes[i], calls[i].name))
  }

  class HostPipes {
    var requestedPipes: seq<Name>
    var registeredPipes: map<int, Name>
    var dead: bool
    /** The calls of the subscribers, and the messages they were made for. */
    var calls: seq<Call>
    ghost var causes: seq<Msg>

    ghost predicate Valid()
      reads this
    {
      |causes| == |calls| && forall i :: 0 <= i < |calls| ==> Tells(calls[i], causes[i])
    }

    ghost function View(): Host
      requires Valid()
      reads this
    {
      Host(requestedPipes, registeredPipes, Events(causes, calls), dead)
    }

    method GetPipeName(pipeId: int) returns (name: Name)
      ensures name == PipeName(registeredPipes, pipeId)
    {
      if pipeId in registeredPipes { name := registeredPipes[pipeId]; } else { name := NOT_AVAILABLE; }
    }

    method Raise(call: Call, ghost cause: Msg)
      requires Valid() && Tells(call, cause)
      modifies this`calls, this`causes
      ensures Valid() && calls == old(calls) + [call]
      ensures View() == old(View()).(raised := old(View()).raised + [Event(cause, call.name)])
    {
      calls, causes := calls + [call], causes + [cause];
      assert View().raised == old(View()).raised + [Event(cause, call.name)];
    }

    /** Dispatches one packet of the pipe protocol to its handler, which reads the id off the data. */
    method HandlePacket(p: Packet, ghost m: Msg)
      requires Valid() && !dead && p == MsgPacket(m)
      modifies this
      ensures Valid() && View() == Handle(old(View()), m)
      ensures old(calls) <= calls && |calls| == |old(calls)| + if dead then 0 else 1
      ensures !dead ==> Tells(calls[|old(calls)|], m)
    {
      Int16RoundTrip(m.Id());
      var pipeId := ReadInt16(p.data[0], p.data[1]);
      if p.receiver == [82, 80, 73, 82] {
        if pipeId !in registeredPipes && |requestedPipes| > 0 {
          registeredPipes := registeredPipes[pipeId := requestedPipes[0]];
          requestedPipes := requestedPipes[1..];
        } else if |requestedPipes| > 0 {
          requestedPipes, dead := requestedPipes[1..], true;
          return;
        }
        var name := GetPipeName(pipeId);
        Raise(PipeOpened(pipeId, name), m);
      } else if p.receiver == [82, 80, 73, 80] {
        var name := GetPipeName(pipeId);
        Raise(PipeReceived(pipeId, name, p.data[2..]), m);
      } else {
        var name := GetPipeName(pipeId);
        Raise(PipeClosed(pipeId, name), m);
        registeredPipes := registeredPipes - {pipeId};
      }
    }
  }

  // ---- The whole system ----

  /** Where the target's receive thread stands in handler_request_pipe. */
  datatype Handler = Ready | Assigned(k: nat, name: Name) | Replied(k: nat, name: Name)

  datatype System = System(
    enqueued: seq<Name>,          // every name ever put into the pending queue
    unsent: seq<Name>,            // callers of RemoteRequestPipe between Enqueue and SendCommand
    sent: seq<Name>,              // every PIPE request ever sent
    up: seq<Name>,                // PIPE requests in flight
    nextId: int,                  // next_pipe_id
    taken: seq<Name>,             // the name the target took for each request it accepted
    handler: Handler,
    threads: map<nat, Name>,      // running pipe threads
    down: seq<Msg>,               // packets in flight to the host
    host: Host,
    answered: nat,                // RPIR packets the host has handled
    live: set<nat>)               // requests whose RPIR, but not RPIC, the host has handled

  datatype Action =
    | Enqueue(name: Name)
    | Send(i: nat)
    | Accept
    | Reply
    | Spawn
    | ReadPipe(k: nat, bytes: seq<byte>)
    | ClosePipe(k: nat)
    | FailPipe(k: nat)
    | HostHandle

  const Start := System([], [], [], [], 0, [], Ready, map[], [], Host([], map[], [], false), 0, {})

  predicate Enabled(s: System, a: Action) {
    match a
    case Enqueue(_) => true
    case Send(i) => i < |s.unsent|
    case Accept => s.handler.Ready? && s.up != []
    case Reply => s.handler.Assigned?
    case Spawn => s.handler.Replied?
    case ReadPipe(k, bytes) => k in s.threads && 0 < |bytes| <= 1000
    case ClosePipe(k) => k in s.threads
    case FailPipe(k) => k in s.threads
    case HostHandle => s.down != [] && !s.host.dead
  }

  function HandleNext(s: System): System
    requires s.down != []
  {
    var m := s.down[0];
    var t := s.(down := s.down[1..], host := Handle(s.host, m));
    match m
    case Registered(k) => t.(answered := s.answered + 1, live := s.live + {k})
    case PipeData(_, _) => t
    case Closed(k) => t.(live := s.live - {k})
  }

  function Step(s: System, a: Action): System
    requires Enabled(s, a)
  {
    match a
    case Enqueue(name) =>
      s.(enqueued := s.enqueued + [name], unsent := s.unsent + [name],
         host := s.host.(requested := s.host.requested + [name]))
    case Send(i) =>
      s.(unsent := s.unsent[..i] + s.unsent[i + 1..], sent := s.sent + [s.unsent[i]], up := s.up + [s.unsent[i]])
    case Accept =>
      var name := CString(s.up[0]);
      s.(up := s.up[1..], nextId := Wrap16(s.nextId + 1), taken := s.taken + [name],
         handler := Assigned(|s.taken|, name))
    case Reply =>
      s.(handler := Replied(s.handler.k, s.handler.name), down := s.down + [Registered(s.handler.k)])
    case Spawn => s.(handler := Ready, threads := s.threads[s.handler.k := s.handler.name])
    case ReadPipe(k, bytes) => s.(down := s.down + [PipeData(k, bytes)])
    case ClosePipe(k) => s.(down := s.down + [Closed(k)], threads := s.threads - {k})
    case FailPipe(k) => s.(threads := s.threads - {k})
    case HostHandle => HandleNext(s)
  }

  predicate IsRun(s: System, run: seq<Action>)
    decreases |run|
  {
    run == [] || (Enabled(s, run[0]) && IsRun(Step(s, run[0]), run[1..]))
  }

  function After(s: System, run: seq<Action>): System
    requires IsRun(s, run)
    decreases |run|
  {
    if run == [] then s else After(Step(s, run[0]), run[1..])
  }

  // ---- What every step keeps ----

  /** Where the channel leads: the number of RPIRs handled and the live requests once it is drained,
      provided every message finds its request live. */
  datatype Future = Broken | Future(answered: nat, live: set<nat>)

  function Advance(f: Future, m: Msg): Future {
    if f.Broken? then Broken else
    match m
    case Registered(k) => if k == f.answered then Future(k + 1, f.live + {k}) else Broken
    case PipeData(k, _) => if k in f.live then f else Broken
    case Closed(k) => if k in f.live then Future(f.answered, f.live - {k}) else Broken
  }

  function Drain(f: Future, down: seq<Msg>): Future {
    if down == [] then f else Advance(Drain(f, down[..|down| - 1]), down[|down| - 1])
  }

  lemma {:induction false} DrainFront(f: Future, down: seq<Msg>)
    requires down != []
    ensures Drain(f, down) == Drain(Advance(f, down[0]), down[1..])
  {
    if |down| == 1 {
      assert down[..0] == [] && down[1..] == [];
    } else {
      DrainFront(f, down[..|down| - 1]);
      assert down[..|down| - 1][1..] == down[1..][..|down| - 2];
    }
  }

  lemma {:induction false} BrokenStays(down: seq<Msg>)
    ensures Drain(Broken, down).Broken?
  {
    if down != [] { BrokenStays(down[..|down| - 1]); }
  }

  lemma {:induction false} DrainGrows(f: Future, down: seq<Msg>)
    requires Drain(f, down).Future? && f.Future?
    ensures f.answered <= Drain(f, down).answered
  {
    if down != [] { DrainGrows(f, down[..|down| - 1]); }
  }

  lemma {:induction false} DrainBack(f: Future, down: seq<Msg>, m: Msg)
    ensures Drain(f, down + [m]) == Advance(Drain(f, down), m)
  {
    assert (down + [m])[..|down|] == down;
  }

  predicate Counting(s: System) {
    && |s.enqueued| == |s.sent| + |s.unsent|
    && |s.taken| <= |s.sent| && s.up == s.sent[|s.taken|..]
    && s.nextId == Wrap16(|s.taken|)
    && (forall k :: 0 <= k < |s.taken| ==> s.taken[k] == CString(s.sent[k]))
    && (!s.handler.Ready? ==> s.handler.k + 1 == |s.taken| && s.handler.name == s.taken[s.handler.k])
    && (forall k :: k in s.threads ==> k < |s.taken| && s.threads[k] == s.taken[k]
                                       && (!s.handler.Ready? ==> k != s.handler.k))
  }

  /** The requests the target still works on. */
  function Active(s: System): set<nat> {
    s.threads.Keys + if s.handler.Replied? then {s.handler.k} else {}
  }

  predicate Channel(s: System) {
    var f := Drain(Future(s.answered, s.live), s.down);
    && f.Future?
    && f.answered + (if s.handler.Assigned? then 1 else 0) == |s.taken|
    && Active(s) <= f.live
  }

  predicate Tables(s: System) {
    && s.answered <= |s.taken| <= |s.enqueued|
    && s.host.requested == s.enqueued[s.answered..]
    && (forall k :: k in s.live ==> k < s.answered && Wrap16(k) in s.host.registered
                                    && s.host.registered[Wrap16(k)] == s.enqueued[k])
    && (forall id :: id in s.host.registered ==> exists k :: k in s.live && Wrap16(k) == id)
    && (forall j, k :: j in s.live && k in s.live && Wrap16(j) == Wrap16(k) ==> j == k)
  }

  predicate Right(s: System, e: Event) {
    e.cause.k < |s.taken| && e.cause.k < |s.enqueued| && e.name == s.enqueued[e.cause.k]
  }

  predicate Inv(s: System) {
    && Counting(s)
    && (!s.host.dead ==> Channel(s) && Tables(s))
    && (s.host.dead ==> |s.taken| > 0x1_0000)
    && (forall i :: 0 <= i < |s.host.raised| ==> Right(s, s.host.raised[i]))
  }

  lemma {:induction false} Wrap16Distinct(j: nat, k: nat)
    requires j < k && Wrap16(j) == Wrap16(k)
    ensures k >= j + 0x1_0000
  {
  }

  lemma {:induction false} EnqueueKeeps(s: System, name: Name)
    requires Inv(s)
    ensures Inv(Step(s, Enqueue(name)))
  {
    var t := Step(s, Enqueue(name));
    if !s.host.dead {
      assert t.enqueued[s.answered..] == s.enqueued[s.answered..] + [name];
    }
  }

  lemma {:induction false} SendKeeps(s: System, i: nat)
    requires Inv(s) && Enabled(s, Send(i))
    ensures Inv(Step(s, Send(i)))
  {
    var t := Step(s, Send(i));
    assert t.sent[|s.taken|..] == s.sent[|s.taken|..] + [s.unsent[i]];
  }

  lemma {:induction false} AcceptKeeps(s: System)
    requires Inv(s) && Enabled(s, Accept)
    ensures Inv(Step(s, Accept))
  {
    assert s.sent[|s.taken|..][1..] == s.sent[|s.taken| + 1..];
  }

  lemma {:induction false} ReplyKeeps(s: System)
    requires Inv(s) && Enabled(s, Reply)
    ensures Inv(Step(s, Reply))
  {
    DrainBack(Future(s.answered, s.live), s.down, Registered(s.handler.k));
  }

  lemma {:induction false} SpawnKeeps(s: System)
    requires Inv(s) && Enabled(s, Spawn)
    ensures Inv(Step(s, Spawn))
  {
    hide Drain;
    assert Step(s, Spawn).threads.Keys == s.threads.Keys + {s.handler.k};
  }

  lemma {:induction false} ReadPipeKeeps(s: System, k: nat, bytes: seq<byte>)
    requires Inv(s) && Enabled(s, ReadPipe(k, bytes))
    ensures Inv(Step(s, ReadPipe(k, bytes)))
  {
    DrainBack(Future(s.answered, s.live), s.down, PipeData(k, bytes));
    hide Drain;
  }

  lemma {:induction false} ClosePipeKeeps(s: System, k: nat)
    requires Inv(s) && Enabled(s, ClosePipe(k))
    ensures Inv(Step(s, ClosePipe(k)))
  {
    DrainBack(Future(s.answered, s.live), s.down, Closed(k));
    hide Drain;
  }

  lemma {:induction false} FailPipeKeeps(s: System, k: nat)
    requires Inv(s) && Enabled(s, FailPipe(k))
    ensures Inv(Step(s, FailPipe(k)))
  {
    hide Drain;
  }

  /** An RPIR at the head of the channel is the answer to the oldest unanswered request. */
  lemma {:induction false} NextRegistered(s: System, k: nat)
    requires Channel(s) && s.down != [] && s.down[0] == Registered(k)
    ensures k == s.answered < |s.taken|
    ensures Channel(HandleNext(s))
  {
    var f := Future(s.answered, s.live);
    DrainFront(f, s.down);
    BrokenStays(s.down[1..]);
    DrainGrows(Advance(f, s.down[0]), s.down[1..]);
  }

  lemma {:induction false} RegisteredTables(s: System, k: nat)
    requires Tables(s) && s.down != [] && s.down[0] == Registered(k) && k == s.answered < |s.taken|
    requires Wrap16(k) !in s.host.registered
    ensures var t := HandleNext(s);
            && t.host.dead == s.host.dead && Tables(t)
            && t.host.raised == s.host.raised + [Event(Registered(k), s.enqueued[k])]
  {
    hide Handle, HandleNext, Wrap16;
    var t := HandleNext(s);
    var name := s.enqueued[k];
    assert s.enqueued[k..][0] == name && s.enqueued[k..][1..] == s.enqueued[k + 1..];
    HandledRegistered(s, k);
    forall id | id in t.host.registered
      ensures exists j :: j in t.live && Wrap16(j) == id
    {
      if id == Wrap16(k) {
        assert k in t.live;
      } else {
        var j :| j in s.live && Wrap16(j) == id;
        assert j in t.live;
      }
    }
  }

  /** An RPIR with a new id takes the first name off the queue. */
  lemma {:induction false} HandledRegistered(s: System, k: nat)
    requires s.down != [] && s.down[0] == Registered(k) && s.host.requested != [] && Wrap16(k) !in s.host.registered
    ensures var name := s.host.requested[0];
            HandleNext(s) == s.(down := s.down[1..], answered := s.answered + 1, live := s.live + {k},
                                host := s.host.(requested := s.host.requested[1..],
                                                registered := s.host.registered[Wrap16(k) := name],
                                                raised := s.host.raised + [Event(Registered(k), name)]))
  {
  }

  lemma {:induction false} HandleRegisteredKeeps(s: System, k: nat)
    requires Inv(s) && Enabled(s, HostHandle) && s.down[0] == Registered(k)
    ensures Inv(Step(s, HostHandle))
  {
    NextRegistered(s, k);
    if Wrap16(k) in s.host.registered {
      var j :| j in s.live && Wrap16(j) == Wrap16(k);
      Wrap16Distinct(j, k);
    } else {
      RegisteredTables(s, k);
    }
  }

  lemma {:induction false} OtherChannel(s: System)
    requires Channel(s) && s.down != [] && !s.down[0].Registered?
    ensures s.down[0].k in s.live && Channel(HandleNext(s))
  {
    DrainFront(Future(s.answered, s.live), s.down);
    BrokenStays(s.down[1..]);
  }

  lemma {:induction false} OtherTables(s: System)
    requires Tables(s) && s.down != [] && !s.down[0].Registered? && s.down[0].k in s.live
    ensures var t := HandleNext(s);
            && t.host.dead == s.host.dead && Tables(t)
            && t.host.raised == s.host.raised + [Event(s.down[0], s.enqueued[s.down[0].k])]
  {
    var t := HandleNext(s);
    forall id | id in t.host.registered
      ensures exists j :: j in t.live && Wrap16(j) == id
    {
      var j :| j in s.live && Wrap16(j) == id;
      assert j in t.live;
    }
  }

  lemma {:induction false} HandleOtherKeeps(s: System)
    requires Inv(s) && Enabled(s, HostHandle) && !s.down[0].Registered?
    ensures Inv(Step(s, HostHandle))
  {
    hide Channel, Tables, Drain, HandleNext;
    OtherChannel(s);
    LiveInTables(s);
    OtherTables(s);
    HandledRest(s);
  }

  lemma {:induction false} LiveInTables(s: System)
    requires Tables(s)
    ensures forall k :: k in s.live ==> k < |s.taken| <= |s.enqueued|
  {
  }

  /** What handling a message leaves alone. */
  lemma {:induction false} HandledRest(s: System)
    requires s.down != []
    ensures var t := HandleNext(s);
            && t.enqueued == s.enqueued && t.unsent == s.unsent && t.sent == s.sent && t.up == s.up
            && t.nextId == s.nextId && t.taken == s.taken && t.handler == s.handler && t.threads == s.threads
  {
  }

  lemma {:induction false} StepKeeps(s: System, a: Action)
    requires Inv(s) && Enabled(s, a)
    ensures Inv(Step(s, a))
  {
    match a
    case Enqueue(name) => EnqueueKeeps(s, name);
    case Send(i) => SendKeeps(s, i);
    case Accept => AcceptKeeps(s);
    case Reply => ReplyKeeps(s);
    case HostHandle =>
      if s.down[0].Registered? { HandleRegisteredKeeps(s, s.down[0].k); } else { HandleOtherKeeps(s); }
    case Spawn => SpawnKeeps(s);
    case ReadPipe(k, bytes) => ReadPipeKeeps(s, k, bytes);
    case ClosePipe(k) => ClosePipeKeeps(s, k);
    case FailPipe(k) => FailPipeKeeps(s, k);
  }

  lemma {:induction false} RunKeeps(s: System, run: seq<Action>)
    requires Inv(s) && IsRun(s, run)
    ensures Inv(After(s, run))
    decreases |run|
  {
    if run != [] {
      StepKeeps(s, run[0]);
      RunKeeps(Step(s, run[0]), run[1..]);
    }
  }

  // ---- The guarantees ----

  /** In every run, every event the host raises carries the name it enqueued with the same number as
      the target's request, and the target opened that request under the name sent with that number.
      The host dies on a clash of ids only after more than 65536 requests. */
  lemma {:induction false} EveryEventByNumber(run: seq<Action>)
    requires IsRun(Start, run)
    ensures var s := After(Start, run);
            && (forall i :: 0 <= i < |s.host.raised| ==> Right(s, s.host.raised[i]))
            && |s.taken| <= |s.sent| <= |s.enqueued|
            && (forall k :: 0 <= k < |s.taken| ==> s.taken[k] == CString(s.sent[k]))
            && (s.host.dead ==> |s.taken| > 0x1_0000)
  {
    assert Inv(Start);
    RunKeeps(Start, run);
  }

  /** Requests are sent in the order in which they were enqueued. */
  predicate InOrder(run: seq<Action>) {
    forall i :: 0 <= i < |run| && run[i].Send? ==> run[i].i == 0
  }

  lemma {:induction false} InOrderKeeps(s: System, run: seq<Action>)
    requires IsRun(s, run) && InOrder(run) && s.enqueued == s.sent + s.unsent
    ensures var t := After(s, run); t.enqueued == t.sent + t.unsent
    decreases |run|
  {
    if run != [] {
      var t := Step(s, run[0]);
      if run[0].Send? {
        assert s.sent + s.unsent == (s.sent + [s.unsent[0]]) + s.unsent[1..];
        assert t.unsent == s.unsent[1..];
      } else if run[0].Enqueue? {
        assert (s.sent + s.unsent) + [run[0].name] == s.sent + (s.unsent + [run[0].name]);
      }
      assert InOrder(run[1..]);
      InOrderKeeps(t, run[1..]);
    }
  }

  /** Agreement: as long as callers send in the order in which they enqueue, every RPIR, RPIP and
      RPIC resolves to the very name the target opened, and until the host dies its pending queue is
      the names of the requests not yet answered, then those in flight, then those about to be sent. */
  lemma {:induction false} RegistryAgreement(run: seq<Action>)
    requires IsRun(Start, run) && InOrder(run)
    ensures var s := After(Start, run);
            && (forall i :: 0 <= i < |s.host.raised| ==>
                  var e := s.host.raised[i];
                  e.cause.k < |s.taken| && CString(e.name) == s.taken[e.cause.k])
            && (!s.host.dead ==> s.answered <= |s.taken| <= |s.sent|
                                 && s.host.requested == s.sent[s.answered..|s.taken|] + s.up + s.unsent)
  {
    hide IsRun, After, Inv;
    StartInv();
    RunKeeps(Start, run);
    InOrderKeeps(Start, run);
    EveryEventByNumber(run);
    var s := After(Start, run);
    forall i | 0 <= i < |s.host.raised|
      ensures var e := s.host.raised[i]; e.cause.k < |s.taken| && CString(e.name) == s.taken[e.cause.k]
    {
      assert Right(s, s.host.raised[i]) && s.enqueued[s.host.raised[i].cause.k] == s.sent[s.host.raised[i].cause.k];
    }
    if !s.host.dead { PendingNames(s); }
  }

  lemma {:induction false} PendingNames(s: System)
    requires Inv(s) && !s.host.dead && s.enqueued == s.sent + s.unsent
    ensures s.answered <= |s.taken| <= |s.sent|
    ensures s.host.requested == s.sent[s.answered..|s.taken|] + s.up + s.unsent
  {
    assert s.sent[s.answered..] == s.sent[s.answered..|s.taken|] + s.up;
    assert (s.sent + s.unsent)[s.answered..] == s.sent[s.answered..] + s.unsent;
  }

  // ---- Exactly when the names are right ----

  /** How many RPIRs the host has got through; the one that killed it is not among them. */
  function Handled(s: System): int { s.answered - if s.host.dead then 1 else 0 }

  /** Every request whose RPIR has been got through has raised its event, and only those have raised any. */
  predicate Raised(s: System) {
    && 0 <= Handled(s) <= |s.taken| <= |s.sent| <= |s.enqueued|
    && (forall k :: 0 <= k < Handled(s) ==> Event(Registered(k), s.enqueued[k]) in s.host.raised)
    && (forall e | e in s.host.raised :: e.cause.k < Handled(s))
  }

  lemma {:induction false} RaisedStep(s: System, a: Action)
    requires Inv(s) && Raised(s) && Enabled(s, a)
    ensures Raised(Step(s, a))
  {
    hide Inv;
    if a.HostHandle? {
      RaisedHandle(s);
    } else {
      StepKeeps(s, a);
      Bounds(Step(s, a));
    }
  }

  lemma {:induction false} Bounds(s: System)
    requires Inv(s)
    ensures |s.taken| <= |s.sent| <= |s.enqueued| && (!s.host.dead ==> s.answered <= |s.taken|)
  {
  }

  lemma {:induction false} RaisedHandle(s: System)
    requires Inv(s) && Raised(s) && Enabled(s, HostHandle)
    ensures Raised(HandleNext(s))
  {
    hide Channel, Tables, Counting, Drain, HandleNext;
    var m := s.down[0];
    HandledRest(s);
    if m.Registered? {
      NextRegistered(s, m.k);
      if Wrap16(m.k) in s.host.registered {
        HandledClash(s, m.k);
      } else {
        RegisteredTables(s, m.k);
        NextAnswered(s);
      }
    } else {
      OtherChannel(s);
      LiveAnswered(s);
      OtherTables(s);
      NextAnswered(s);
    }
  }

  lemma {:induction false} LiveAnswered(s: System)
    requires Tables(s)
    ensures forall k :: k in s.live ==> k < s.answered
  {
  }

  lemma {:induction false} NextAnswered(s: System)
    requires s.down != []
    ensures HandleNext(s).answered == s.answered + if s.down[0].Registered? then 1 else 0
  {
  }

  /** An RPIR for an id that is still registered raises nothing and kills the reader. */
  lemma {:induction false} HandledClash(s: System, k: nat)
    requires Tables(s) && s.down != [] && s.down[0] == Registered(k) && k == s.answered < |s.taken|
    requires Wrap16(k) in s.host.registered
    ensures var t := HandleNext(s);
            t.host.dead && t.host.raised == s.host.raised && t.answered == s.answered + 1
  {
    assert s.enqueued[k..] != [];
  }

  lemma {:induction false} RaisedRun(s: System, run: seq<Action>)
    requires Inv(s) && Raised(s) && IsRun(s, run)
    ensures Raised(After(s, run))
    decreases |run|
  {
    hide Inv, Raised;
    if run != [] {
      StepKeeps(s, run[0]);
      RaisedStep(s, run[0]);
      RaisedRun(Step(s, run[0]), run[1..]);
    }
  }

  /** All events so far carry the name under which the target opened the pipe. */
  predicate NamesRight(s: System)
    requires Raised(s)
  {
    forall e | e in s.host.raised :: CString(e.name) == s.taken[e.cause.k]
  }

  /** The first `n` requests were each sent with the name enqueued with their number. */
  predicate SentAsEnqueued(s: System, n: int)
    requires n <= |s.sent| <= |s.enqueued|
  {
    forall k :: 0 <= k < n ==> CString(s.enqueued[k]) == CString(s.sent[k])
  }

  /** In every run, whatever the order of sending, all names are right iff the requests answered so far
      were sent as they were enqueued. */
  lemma {:induction false} NamesRightIff(run: seq<Action>)
    requires IsRun(Start, run)
    ensures var s := After(Start, run); Raised(s) && (NamesRight(s) <==> SentAsEnqueued(s, Handled(s)))
  {
    hide IsRun, After, Inv;
    var s := After(Start, run);
    assert Inv(Start) by { StartInv(); }
    RaisedRun(Start, run);
    EveryEventByNumber(run);
    forall e | e in s.host.raised
      ensures e.name == s.enqueued[e.cause.k] && s.taken[e.cause.k] == CString(s.sent[e.cause.k])
    {
      assert Right(s, e);
    }
    if NamesRight(s) {
      forall k | 0 <= k < Handled(s)
        ensures CString(s.enqueued[k]) == CString(s.sent[k])
      {
        assert Event(Registered(k), s.enqueued[k]) in s.host.raised;
      }
    }
  }

  lemma {:induction false} StartInv()
    ensures Inv(Start)
  {
  }

  /** No caller of RemoteRequestPipe does anything. */
  predicate NoCalls(run: seq<Action>) { forall a | a in run :: !a.Enqueue? && !a.Send? }

  lemma {:induction false} CallsFixed(s: System, run: seq<Action>)
    requires IsRun(s, run) && NoCalls(run)
    ensures After(s, run).enqueued == s.enqueued && After(s, run).sent == s.sent
    decreases |run|
  {
    if run != [] {
      assert run[0] in run;
      assert NoCalls(run[1..]);
      CallsFixed(Step(s, run[0]), run[1..]);
    }
  }

  /** What is left to do until every request sent has been answered. */
  function Work(s: System): nat {
    4 * |s.up| + |s.down| + match s.handler case Ready => 0 case Replied(_, _) => 1 case Assigned(_, _) => 3
  }

  lemma {:induction false} NextWork(s: System) returns (a: Action)
    requires !s.host.dead && Work(s) > 0
    ensures Enabled(s, a) && !a.Enqueue? && !a.Send? && Work(Step(s, a)) < Work(s)
  {
    a := if s.down != [] then HostHandle else if s.handler.Assigned? then Reply else if s.handler.Replied? then Spawn else Accept;
  }

  lemma {:induction false} NoWork(s: System)
    requires Inv(s) && !s.host.dead && Work(s) == 0
    ensures s.answered == |s.sent|
  {
    assert s.up == [] && s.down == [];
  }

  /** The target and the host's reader can always go on until every request sent has been answered. */
  lemma {:induction false} Flush(s: System) returns (more: seq<Action>)
    requires Inv(s) && |s.sent| <= 0x1_0000
    ensures IsRun(s, more) && NoCalls(more)
    ensures After(s, more).answered == |s.sent| && !After(s, more).host.dead
    decreases Work(s)
  {
    NotDead(s);
    if Work(s) == 0 {
      NoWork(s);
      more := [];
    } else {
      hide Inv, Work;
      var a := NextWork(s);
      StepKeeps(s, a);
      CallsFixed(s, [a]);
      assert [a][1..] == [] && Step(s, a) == After(s, [a]);
      var rest := Flush(Step(s, a));
      more := [a] + rest;
      assert more[1..] == rest;
    }
  }

  lemma {:induction false} NotDead(s: System)
    requires Inv(s) && |s.sent| <= 0x1_0000
    ensures !s.host.dead
  {
  }

  /** What callers must see to: with at most 65536 requests sent, all names are right however the run goes
      on without further calls, iff the requests were sent, position by position, under the names they were
      enqueued with. */
  lemma {:induction false} AlwaysRightIffSentAsEnqueued(run: seq<Action>)
    requires IsRun(Start, run) && |After(Start, run).sent| <= 0x1_0000
    ensures var s := After(Start, run);
            && |s.sent| <= |s.enqueued|
            && (SentAsEnqueued(s, |s.sent|) <==>
                forall more | IsRun(s, more) && NoCalls(more) :: Raised(After(s, more)) && NamesRight(After(s, more)))
  {
    hide IsRun, After, Inv, NoCalls, SentAsEnqueued, Raised, NamesRight;
    var s := After(Start, run);
    StartInv();
    RunKeeps(Start, run);
    EveryEventByNumber(run);
    if SentAsEnqueued(s, |s.sent|) {
      forall more | IsRun(s, more) && NoCalls(more)
        ensures Raised(After(s, more)) && NamesRight(After(s, more))
      {
        RightLater(run, more);
      }
    }
    if forall more | IsRun(s, more) && NoCalls(more) :: Raised(After(s, more)) && NamesRight(After(s, more)) {
      var more := Flush(s);
      SentRight(run, more);
    }
  }

  lemma {:induction false} RightLater(run: seq<Action>, more: seq<Action>)
    requires IsRun(Start, run) && IsRun(After(Start, run), more) && NoCalls(more)
    requires |After(Start, run).sent| <= |After(Start, run).enqueued|
    requires SentAsEnqueued(After(Start, run), |After(Start, run).sent|)
    ensures Raised(After(After(Start, run), more)) && NamesRight(After(After(Start, run), more))
  {
    hide IsRun, After, NoCalls, NamesRight;
    CallsFixed(After(Start, run), more);
    Concat(Start, run, more);
    NamesRightIff(run + more);
  }

  lemma {:induction false} SentRight(run: seq<Action>, more: seq<Action>)
    requires IsRun(Start, run) && IsRun(After(Start, run), more) && NoCalls(more)
    requires var t := After(After(Start, run), more);
             Raised(t) && NamesRight(t) && !t.host.dead && t.answered == |After(Start, run).sent|
    ensures |After(Start, run).sent| <= |After(Start, run).enqueued|
    ensures SentAsEnqueued(After(Start, run), |After(Start, run).sent|)
  {
    hide IsRun, After, NoCalls, NamesRight;
    CallsFixed(After(Start, run), more);
    Concat(Start, run, more);
    NamesRightIff(run + more);
  }

  // ---- The events of one request ----

  /** The messages about request `k`. */
  function Of(ms: seq<Msg>, k: nat): seq<Msg> {
    if ms == [] then [] else
    var last := ms[|ms| - 1];
    Of(ms[..|ms| - 1], k) + if last.k == k then [last] else []
  }

  lemma {:induction false} OfAppend(a: seq<Msg>, b: seq<Msg>, k: nat)
    ensures Of(a + b, k) == Of(a, k) + Of(b, k)
    decreases |b|
  {
    if b == [] {
      assert a + b == a;
    } else {
      OfAppend(a, b[..|b| - 1], k);
      assert (a + b)[..|a + b| - 1] == a + b[..|b| - 1];
    }
  }

  lemma {:induction false} OfOne(m: Msg, k: nat)
    ensures Of([m], k) == if m.k == k then [m] else []
  {
    assert [m][..0] == [];
  }

  function Causes(raised: seq<Event>): seq<Msg> { seq(|raised|, i requires 0 <= i < |raised| => raised[i].cause) }

  /** What the pipe thread of request `k` read, in order. */
  function DataOf(run: seq<Action>, k: nat): seq<Msg> {
    if run == [] then [] else
    var last := run[|run| - 1];
    DataOf(run[..|run| - 1], k) + if last.ReadPipe? && last.k == k then [PipeData(k, last.bytes)] else []
  }

  predicate Announced(s: System, k: nat) { k < |s.taken| && !(s.handler.Assigned? && s.handler.k == k) }

  /** All that is ever to be heard of a request: its RPIR, what was read from the pipe, its RPIC. */
  function Life(s: System, run: seq<Action>, k: nat): seq<Msg> {
    if !Announced(s, k) then [] else
    [Registered(k)] + DataOf(run, k) + if ClosePipe(k) in run then [Closed(k)] else []
  }

  /** What has been handled, what killed the host, and what is in flight tell the life of request `k`. */
  predicate Story(s: System, run: seq<Action>, k: nat, lost: seq<Msg>) {
    && Of(Causes(s.host.raised), k) + Of(lost, k) + Of(s.down, k) == Life(s, run, k)
    && (!s.host.dead ==> lost == [])
    && (!Announced(s, k) ==> DataOf(run, k) == [] && ClosePipe(k) !in run)
    && (ClosePipe(k) in run ==> k !in s.threads && (s.handler.Ready? || s.handler.k != k))
  }

  /** The target says `m`. */
  lemma {:induction false} StorySays(s: System, t: System, run: seq<Action>, a: Action, k: nat, lost: seq<Msg>, m: Msg)
    requires Story(s, run, k, lost) && t.down == s.down + [m] && t.host == s.host
    requires Life(t, run + [a], k) == Life(s, run, k) + if m.k == k then [m] else []
    ensures Of(Causes(t.host.raised), k) + Of(lost, k) + Of(t.down, k) == Life(t, run + [a], k)
  {
    hide Life, Of, Causes;
    OfAppend(s.down, [m], k);
    OfOne(m, k);
  }

  lemma {:induction false} LifeGrows(s: System, t: System, run: seq<Action>, a: Action, k: nat)
    requires Counting(s) && Enabled(s, a) && t == Step(s, a)
    requires !Announced(s, k) ==> DataOf(run, k) == [] && ClosePipe(k) !in run
    requires ClosePipe(k) in run ==> k !in s.threads
    ensures Life(t, run + [a], k) == Life(s, run, k) + Said(s, a, k)
  {
    hide Counting, Announced, DataOf, Step, Enabled;
    AnnouncedMoves(s, t, a, k);
    DataOfMore(run, a, k);
    CloseMore(run, a, k);
    var data := DataOf(run, k);
    assert data + [] == data && [Registered(k)] + data + [] == [Registered(k)] + data;
  }

  /** What the target says about request `k` by an action. */
  function Said(s: System, a: Action, k: nat): seq<Msg> {
    match a
    case Reply => if !s.handler.Ready? && s.handler.k == k then [Registered(k)] else []
    case ReadPipe(j, bytes) => if j == k then [PipeData(k, bytes)] else []
    case ClosePipe(j) => if j == k then [Closed(k)] else []
    case _ => []
  }

  lemma {:induction false} AnnouncedMoves(s: System, t: System, a: Action, k: nat)
    requires Counting(s) && Enabled(s, a) && t == Step(s, a)
    ensures Announced(t, k) <==> Announced(s, k) || (a.Reply? && s.handler.k == k)
    ensures a.Reply? ==> !s.handler.Ready? && (s.handler.k == k ==> !Announced(s, k))
    ensures (a.ReadPipe? && a.k == k) || (a.ClosePipe? && a.k == k) ==> Announced(s, k) && k in s.threads
  {
  }

  lemma {:induction false} DataOfMore(run: seq<Action>, a: Action, k: nat)
    ensures DataOf(run + [a], k) == DataOf(run, k) + if a.ReadPipe? && a.k == k then [PipeData(k, a.bytes)] else []
  {
    assert (run + [a])[..|run|] == run;
  }

  lemma {:induction false} CloseMore(run: seq<Action>, a: Action, k: nat)
    ensures ClosePipe(k) in run + [a] <==> ClosePipe(k) in run || a == ClosePipe(k)
  {
  }

  lemma {:induction false} StoryMarks(s: System, t: System, run: seq<Action>, a: Action, k: nat)
    requires Counting(s) && Enabled(s, a) && t == Step(s, a)
    requires !Announced(s, k) ==> DataOf(run, k) == [] && ClosePipe(k) !in run
    requires ClosePipe(k) in run ==> k !in s.threads && (s.handler.Ready? || s.handler.k != k) && Announced(s, k)
    ensures !Announced(t, k) ==> DataOf(run + [a], k) == [] && ClosePipe(k) !in run + [a]
    ensures ClosePipe(k) in run + [a] ==> k !in t.threads && (t.handler.Ready? || t.handler.k != k)
  {
    hide DataOf;
    AnnouncedMoves(s, t, a, k);
    DataOfMore(run, a, k);
    CloseMore(run, a, k);
  }

  /** The host handles a message: it passes from the channel into an event, or kills the host. */
  lemma {:induction false} StoryHeard(s: System, run: seq<Action>, k: nat, lost: seq<Msg>) returns (lost': seq<Msg>)
    requires Story(s, run, k, lost) && Enabled(s, HostHandle)
    ensures var t := Step(s, HostHandle);
            && Of(Causes(t.host.raised), k) + Of(lost', k) + Of(t.down, k) == Life(s, run, k)
            && (!t.host.dead ==> lost' == [])
  {
    hide Life, Of;
    var m, t := s.down[0], Step(s, HostHandle);
    assert s.down == [m] + s.down[1..];
    OfAppend([m], s.down[1..], k);
    assert Of([], k) == [] by { NothingOf(k); }
    if t.host.dead {
      lost' := [m];
    } else {
      lost' := [];
      assert Causes(t.host.raised) == Causes(s.host.raised) + [m];
      OfAppend(Causes(s.host.raised), [m], k);
    }
  }

  lemma {:induction false} NothingOf(k: nat)
    ensures Of([], k) == []
  {
  }

  lemma {:induction false} StoryStep(s: System, run: seq<Action>, a: Action, k: nat, lost: seq<Msg>) returns (lost': seq<Msg>)
    requires Counting(s) && Story(s, run, k, lost) && Enabled(s, a)
    ensures Story(Step(s, a), run + [a], k, lost')
  {
    hide Life, Of, Causes, DataOf, Counting, Announced;
    var t := Step(s, a);
    lost' := lost;
    LifeGrows(s, t, run, a, k);
    ClosedWasAnnounced(s, run, k, lost);
    StoryMarks(s, t, run, a, k);
    assert Life(s, run, k) + [] == Life(s, run, k);
    match a
    case Reply => StorySays(s, t, run, a, k, lost, Registered(s.handler.k));
    case ReadPipe(j, bytes) => StorySays(s, t, run, a, k, lost, PipeData(j, bytes));
    case ClosePipe(j) => StorySays(s, t, run, a, k, lost, Closed(j));
    case HostHandle => lost' := StoryHeard(s, run, k, lost);
    case _ =>
  }

  lemma {:induction false} ClosedWasAnnounced(s: System, run: seq<Action>, k: nat, lost: seq<Msg>)
    requires Story(s, run, k, lost)
    ensures ClosePipe(k) in run ==> Announced(s, k)
  {
  }

  lemma {:induction false} LastOf(s: System, run: seq<Action>)
    requires run != [] && IsRun(s, run)
    ensures var n := |run| - 1;
            IsRun(s, run[..n]) && Enabled(After(s, run[..n]), run[n]) && After(s, run) == Step(After(s, run[..n]), run[n])
    decreases |run|
  {
    var n := |run| - 1;
    if n == 0 {
      assert run[1..] == [] && run[..0] == [];
    } else {
      LastOf(Step(s, run[0]), run[1..]);
      assert run[1..][..n - 1] == run[..n][1..];
    }
  }

  lemma {:induction false} StoryTold(run: seq<Action>, k: nat) returns (lost: seq<Msg>)
    requires IsRun(Start, run)
    ensures Story(After(Start, run), run, k, lost)
    decreases |run|
  {
    hide IsRun, After, Story, Inv, Step, Enabled, Counting;
    if run == [] {
      lost := [];
      StartsHere(Start);
      StoryStarts(k);
    } else {
      var n := |run| - 1;
      LastOf(Start, run);
      var earlier := StoryTold(run[..n], k);
      StartInv();
      RunKeeps(Start, run[..n]);
      InvCounts(After(Start, run[..n]));
      lost := StoryStep(After(Start, run[..n]), run[..n], run[n], k, earlier);
      assert run[..n] + [run[n]] == run;
    }
  }

  lemma {:induction false} StoryStarts(k: nat)
    ensures Story(Start, [], k, [])
  {
  }

  lemma {:induction false} InvCounts(s: System)
    requires Inv(s)
    ensures Counting(s)
  {
  }

  /** In every run and for every request: the events raised for it, followed by what is in flight about it,
      are its RPIR, the data read from its pipe, byte for byte and in the order read, and its RPIC if the
      pipe has been closed. Of a host that has died the events are the beginning of that. */
  lemma {:induction false} EventsTellTheLife(run: seq<Action>, k: nat)
    requires IsRun(Start, run)
    ensures var s := After(Start, run);
            && Of(Causes(s.host.raised), k) <= Life(s, run, k)
            && (!s.host.dead ==> Of(Causes(s.host.raised), k) + Of(s.down, k) == Life(s, run, k))
  {
    hide IsRun, After, Of, Life, Causes;
    var s := After(Start, run);
    var lost := StoryTold(run, k);
    NothingOf(k);
    assert Of(Causes(s.host.raised), k) + [] == Of(Causes(s.host.raised), k);
  }

  // ---- Exactly when the host dies ----

  /** The host is about to handle an RPIR whose id is that of a pipe it still has registered. */
  predicate Clash(s: System, a: Action) {
    a.HostHandle? && s.down != [] && s.down[0].Registered? && exists j :: j in s.live && Wrap16(j) == s.down[0].Id()
  }

  lemma {:induction false} DiesIff(s: System, a: Action)
    requires Inv(s) && Enabled(s, a) && !s.host.dead
    ensures Step(s, a).host.dead <==> Clash(s, a)
  {
    if a.HostHandle? && s.down[0].Registered? {
      NextRegistered(s, s.down[0].k);
    }
  }

  /** In every run the host's reader is dead iff at some point an RPIR came in for an id whose pipe was
      still registered: its RPIC had not been handled, or was never sent. */
  lemma {:induction false} HostDiesIff(s: System, run: seq<Action>)
    requires Inv(s) && !s.host.dead && IsRun(s, run)
    ensures After(s, run).host.dead
       <==> exists i :: 0 <= i < |run| && IsRun(s, run[..i]) && Clash(After(s, run[..i]), run[i])
    decreases |run|
  {
    hide Inv, Clash;
    if run != [] {
      var t := Step(s, run[0]);
      StepKeeps(s, run[0]);
      DiesIff(s, run[0]);
      assert IsRun(s, run[..0]) && After(s, run[..0]) == s;
      if t.host.dead {
        StaysDead(t, run[1..]);
      } else {
        HostDiesIff(t, run[1..]);
        ShiftClash(s, run);
      }
    }
  }

  lemma {:induction false} StaysDead(s: System, run: seq<Action>)
    requires s.host.dead && IsRun(s, run)
    ensures After(s, run).host.dead
    decreases |run|
  {
    if run != [] { StaysDead(Step(s, run[0]), run[1..]); }
  }

  lemma {:induction false} ShiftClash(s: System, run: seq<Action>)
    requires run != [] && IsRun(s, run) && !Clash(s, run[0])
    ensures (exists i :: 0 <= i < |run| && IsRun(s, run[..i]) && Clash(After(s, run[..i]), run[i]))
       <==> (exists i :: 0 <= i < |run[1..]| && IsRun(Step(s, run[0]), run[1..][..i])
                         && Clash(After(Step(s, run[0]), run[1..][..i]), run[1..][i]))
  {
    hide Clash;
    var t, rest := Step(s, run[0]), run[1..];
    if i :| 0 <= i < |run| && IsRun(s, run[..i]) && Clash(After(s, run[..i]), run[i]) {
      assert i > 0 && run[..i][1..] == rest[..i - 1];
      assert IsRun(t, rest[..i - 1]) && Clash(After(t, rest[..i - 1]), rest[i - 1]);
    }
    if i :| 0 <= i < |rest| && IsRun(t, rest[..i]) && Clash(After(t, rest[..i]), rest[i]) {
      assert run[..i + 1][1..] == rest[..i] && run[..i + 1][0] == run[0];
      assert IsRun(s, run[..i + 1]) && Clash(After(s, run[..i + 1]), run[i + 1]);
    }
  }

  lemma {:induction false} OneMore(s: System, run: seq<Action>, a: Action)
    requires IsRun(s, run) && Enabled(After(s, run), a)
    ensures IsRun(s, run + [a]) && After(s, run + [a]) == Step(After(s, run), a)
    decreases |run|
  {
    if run == [] {
      assert (run + [a])[1..] == [];
    } else {
      OneMore(Step(s, run[0]), run[1..], a);
      assert (run + [a])[1..] == run[1..] + [a];
    }
  }

  lemma {:induction false} StartsHere(s: System)
    ensures IsRun(s, []) && After(s, []) == s
  {
  }

  /** Two callers that enqueue in one order and send in the other swap the names of their pipes: the
      two lines of RemoteRequestPipe are not one critical section. */
  lemma {:induction false} RaceSwapsNames(a: Name, b: Name) returns (run: seq<Action>)
    requires a != b && 0 !in a && 0 !in b
    ensures IsRun(Start, run) && !InOrder(run)
    ensures After(Start, run).host.raised == [Event(Registered(0), a), Event(Registered(1), b)]
    ensures After(Start, run).taken == [b, a]
  {
    hide IsRun, After;
    StartsHere(Start);
    OneMore(Start, [], Enqueue(a));
    OneMore(Start, [] + [Enqueue(a)], Enqueue(b));
    run := [] + [Enqueue(a)] + [Enqueue(b)];
    assert After(Start, run).unsent == [a, b];
    OneMore(Start, run, Send(1));
    run := run + [Send(1)];
    assert run[2] == Send(1);
    OneMore(Start, run, Send(0));
    run := run + [Send(0)];
    assert run[2] == Send(1) && After(Start, run).up == [b, a];
    CStringWhole(b);
    OneMore(Start, run, Accept);
    run := run + [Accept];
    OneMore(Start, run, Reply);
    run := run + [Reply];
    assert run[2] == Send(1) && After(Start, run).down == [Registered(0)];
    OneMore(Start, run, HostHandle);
    run := run + [HostHandle];
    assert run[2] == Send(1) && After(Start, run).host.raised == [Event(Registered(0), a)];
    run := SecondOfTwo(a, b, run);
  }

  /** The race goes on: the second request is served in the same way. */
  lemma {:induction false} SecondOfTwo(a: Name, b: Name, before: seq<Action>) returns (run: seq<Action>)
    requires IsRun(Start, before) && |before| > 2 && before[2] == Send(1) && 0 !in a
    requires var s := After(Start, before);
             && s.up == [a] && s.taken == [b] && s.handler.Replied? && s.down == [] && !s.host.dead
             && s.host.requested == [b] && s.host.registered.Keys == {0} && s.host.raised == [Event(Registered(0), a)]
    ensures IsRun(Start, run) && |run| > 2 && run[2] == Send(1) && !InOrder(run)
    ensures After(Start, run).host.raised == [Event(Registered(0), a), Event(Registered(1), b)]
    ensures After(Start, run).taken == [b, a]
  {
    hide IsRun, After;
    OneMore(Start, before, Spawn);
    run := before + [Spawn];
    CStringWhole(a);
    OneMore(Start, run, Accept);
    run := run + [Accept];
    assert run[2] == Send(1) && After(Start, run).taken == [b, a];
    OneMore(Start, run, Reply);
    run := run + [Reply];
    assert After(Start, run).down == [Registered(1)];
    OneMore(Start, run, HostHandle);
    run := run + [HostHandle];
    assert run[2] == Send(1);
  }

  /** Nothing is in flight and the first `n` pipes are all registered. */
  ghost predicate Settled(s: System, n: nat) {
    && s.handler.Ready? && s.up == [] && s.down == [] && s.unsent == [] && s.host.requested == []
    && |s.taken| == n && !s.host.dead && forall k: nat :: k in s.live <==> k < n
  }

  /** One more pipe is requested, answered and started; the RPIR reaches the host. */
  lemma {:induction false} RequestArrives(s: System, n: nat, name: Name) returns (run: seq<Action>)
    requires Settled(s, n)
    ensures IsRun(s, run)
    ensures var t := After(s, run);
            && t.handler.Ready? && t.up == [] && t.unsent == [] && |t.taken| == n + 1 && t.live == s.live
            && t.down == [Registered(n)] && t.host == s.host.(requested := [name])
  {
    hide IsRun, After;
    StartsHere(s);
    OneMore(s, [], Enqueue(name));
    run := [] + [Enqueue(name)];
    OneMore(s, run, Send(0));
    run := run + [Send(0)];
    assert After(s, run).up == [name] && After(s, run).unsent == [];
    OneMore(s, run, Accept);
    run := run + [Accept];
    OneMore(s, run, Reply);
    run := run + [Reply];
    OneMore(s, run, Spawn);
    run := run + [Spawn];
  }

  lemma {:induction false} RequestOne(before: seq<Action>, n: nat, name: Name) returns (run: seq<Action>)
    requires IsRun(Start, before) && Settled(After(Start, before), n)
    ensures IsRun(Start, run)
    ensures var t := After(Start, run);
            && |t.taken| == n + 1
            && if Wrap16(n) in After(Start, before).host.registered then t.host.dead else Settled(t, n + 1)
  {
    hide IsRun, After;
    var more := RequestArrives(After(Start, before), n, name);
    Concat(Start, before, more);
    run := before + more;
    OneMore(Start, run, HostHandle);
    run := run + [HostHandle];
  }

  lemma {:induction false} Concat(s: System, run: seq<Action>, more: seq<Action>)
    requires IsRun(s, run) && IsRun(After(s, run), more)
    ensures IsRun(s, run + more) && After(s, run + more) == After(After(s, run), more)
    decreases |run|
  {
    if run == [] {
      assert run + more == more;
    } else {
      Concat(Step(s, run[0]), run[1..], more);
      assert (run + more)[1..] == run[1..] + more;
    }
  }

  lemma {:induction false} RequestMany(n: nat, name: Name) returns (run: seq<Action>)
    requires n <= 0x1_0000
    ensures IsRun(Start, run) && Settled(After(Start, run), n)
  {
    if n == 0 {
      run := [];
    } else {
      var before := RequestMany(n - 1, name);
      EveryEventByNumber(before);
      assert Inv(Start);
      RunKeeps(Start, before);
      var s := After(Start, before);
      if Wrap16(n - 1) in s.host.registered {
        var j :| j in s.live && Wrap16(j) == Wrap16(n - 1);
        Wrap16Distinct(j, n - 1);
      }
      run := RequestOne(before, n - 1, name);
    }
  }

  /** The bound is sharp: with 65536 pipes open, the next RPIR reuses id 0 and kills the host. */
  lemma {:induction false} IdsWrapAround(name: Name) returns (run: seq<Action>)
    ensures IsRun(Start, run) && After(Start, run).host.dead && |After(Start, run).taken| == 0x1_0001
  {
    var before := RequestMany(0x1_0000, name);
    assert Inv(Start);
    RunKeeps(Start, before);
    var s := After(Start, before);
    assert 0 in s.live && Wrap16(0) == Wrap16(0x1_0000);
    run := RequestOne(before, 0x1_0000, name);
  }
}
