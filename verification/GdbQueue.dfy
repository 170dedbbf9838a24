/** The GDB command queue: callers queue commands from any thread, the reader thread runs response
    handlers, and handlers and finish callbacks may queue commands re-entrantly. Every region under the
    lock is one step; a run is any sequence of such steps, whoever takes them. */
module GdbQueue {
  import opened Bytes

  /** A command, whether it waits for a response, and what the subscribers of its CommandFinishedEvent
      queue when they are called. */
  datatype Cmd = Cmd(hasHandler: bool, onFinish: seq<Cmd>)

  /** A queued command object; `id` numbers the objects in the order of queueing. */
  datatype Queued = Queued(id: nat, cmd: Cmd)

  datatype Event =
    | Prompt
    | Wrote(id: nat, overlapped: bool)      // overlapped: another command was still current
    | Finished(id: nat, answerer: Option<nat>)    // answerer: the command whose handler answered Handled

  datatype State = State(
    commands: seq<Queued>,        // _commands
    current: Option<Queued>,      // _currentCommand
    ready: bool,                  // _gdbReadyForInput
    alive: bool,                  // the reader thread has not died of an exception
    queued: nat,                  // how many commands have been queued
    log: seq<Event>)

  const Start := State([], None, false, true, 0, [])

  datatype Response = Handled | NotHandled | RequestLine | Throws

  /** What one call of a response handler does: the commands it queues, then its answer. */
  datatype Script = Script(queues: seq<Cmd>, response: Response)

  // ---- The regions under the lock ----

  function Rank(s: State): nat { if s.ready then 1 else 0 }

  function Enqueue(s: State, c: Cmd): State {
    s.(commands := s.commands + [Queued(s.queued, c)], queued := s.queued + 1)
  }

  /** ProcessQueue: writes the next command if gdb is ready. A command without a handler is finished at
      once, while it is still current. */
  function ProcessQueue(s: State): (r: State)
    ensures r.ready ==> s.ready && r == s
    decreases Rank(s), 0, 0
  {
    if s.commands == [] || !s.ready then s else
    var q := s.commands[0];
    var t := s.(ready := false, commands := s.commands[1..], current := Some(q),
                log := s.log + [Wrote(q.id, s.current.Some?)]);
    if q.cmd.hasHandler then t else Finish(t, q, None).(current := None)
  }

  /** CommandFinished: the subscribers queue their commands. */
  function Finish(s: State, q: Queued, answerer: Option<nat>): (r: State)
    ensures r.ready ==> s.ready
    decreases Rank(s), 2, 0
  {
    QueueAll(s.(log := s.log + [Finished(q.id, answerer)]), q.cmd.onFinish)
  }

  /** QueueCommand for each command in turn, with the lock already held. */
  function QueueAll(s: State, cs: seq<Cmd>): (r: State)
    ensures r.ready ==> s.ready
    decreases Rank(s), 1, |cs|
  {
    if cs == [] then s else QueueAll(ProcessQueue(Enqueue(s, cs[0])), cs[1..])
  }

  /** ReceivedNewLine. After its handler has run, the current command may be another one, or none: then
      the dereference in the Handled branch throws, and so does the one in the catch block. */
  function ReceivedNewLine(s: State, script: Script, permanent: seq<Script>): State {
    if s.current.Some? then
      var answerer := s.current.value.id;
      var t := QueueAll(s, script.queues);
      match script.response
      case NotHandled => t
      case Handled =>
        if t.current.None? then t.(alive := false)
        else Finish(t, t.current.value, Some(answerer)).(current := None)
      case RequestLine => if t.ready && t.current.None? then t.(alive := false) else t
      case Throws => if t.current.None? then t.(alive := false) else t
    else AskPermanent(s, permanent)
  }

  /** The permanent handlers, until one takes the line. */
  function AskPermanent(s: State, permanent: seq<Script>): State
    decreases |permanent|
  {
    if permanent == [] then s else
    var t := QueueAll(s, permanent[0].queues);
    match permanent[0].response
    case Handled => t
    case NotHandled => AskPermanent(t, permanent[1..])
    case RequestLine => if t.ready then t.(alive := false) else t
    case Throws => t.(alive := false)
  }

  function PromptReceived(s: State, script: Script, permanent: seq<Script>): State {
    var t := ReceivedNewLine(s.(ready := true, log := s.log + [Prompt]), script, permanent);
    if t.alive then ProcessQueue(t) else t
  }

  // ---- Runs ----

  datatype Region =
    | CallerEnqueues(cmd: Cmd)      // the first half of QueueCommand, on any thread
    | CallerProcesses               // the second half
    | Line(script: Script, permanent: seq<Script>)
    | AtPrompt(script: Script, permanent: seq<Script>)

  predicate Enabled(s: State, r: Region) { r.CallerEnqueues? || r.CallerProcesses? || s.alive }

  function Step(s: State, r: Region): State
    requires Enabled(s, r)
  {
    match r
    case CallerEnqueues(c) => Enqueue(s, c)
    case CallerProcesses => ProcessQueue(s)
    case Line(script, permanent) => ReceivedNewLine(s, script, permanent)
    case AtPrompt(script, permanent) => PromptReceived(s, script, permanent)
  }

  predicate IsRun(s: State, run: seq<Region>)
    decreases |run|
  {
    run == [] || (Enabled(s, run[0]) && IsRun(Step(s, run[0]), run[1..]))
  }

  function After(s: State, run: seq<Region>): State
    requires IsRun(s, run)
    decreases |run|
  {
    if run == [] then s else After(Step(s, run[0]), run[1..])
  }

  // ---- Safety ----

  function WrittenIds(log: seq<Event>): seq<nat> {
    if log == [] then [] else
    var e := log[|log| - 1];
    WrittenIds(log[..|log| - 1]) + if e.Wrote? then [e.id] else []
  }

  function FinishedIds(log: seq<Event>): seq<nat> {
    if log == [] then [] else
    var e := log[|log| - 1];
    FinishedIds(log[..|log| - 1]) + if e.Finished? then [e.id] else []
  }

  /** A prompt has come since the last write. */
  predicate Armed(log: seq<Event>) {
    log != [] &&
    var e := log[|log| - 1];
    e.Prompt? || (e.Finished? && Armed(log[..|log| - 1]))
  }

  /** Every write but the first comes after a prompt that follows the write before it, and so does the first. */
  predicate PromptBeforeEachWrite(log: seq<Event>) {
    log == [] ||
    var n := |log| - 1;
    PromptBeforeEachWrite(log[..n]) && (log[n].Wrote? ==> Armed(log[..n]))
  }

  function Ids(commands: seq<Queued>): seq<nat> {
    seq(|commands|, i requires 0 <= i < |commands| => commands[i].id)
  }

  predicate Distinct(ids: seq<nat>) { forall i, j :: 0 <= i < j < |ids| ==> ids[i] != ids[j] }

  /** Commands are numbered consecutively: first the written ones, then the queued ones. */
  predicate InQueueOrder(s: State) {
    var w := WrittenIds(s.log);
    && |w| + |s.commands| == s.queued
    && (forall i :: 0 <= i < |w| ==> w[i] == i)
    && (forall i :: 0 <= i < |s.commands| ==> s.commands[i].id == |w| + i)
  }

  predicate FinishedOnce(s: State) {
    var f := FinishedIds(s.log);
    Distinct(f) && forall i :: 0 <= i < |f| ==> f[i] < |WrittenIds(s.log)|
  }

  predicate Base(s: State) {
    InQueueOrder(s) && FinishedOnce(s) && PromptBeforeEachWrite(s.log) && s.ready == Armed(s.log)
  }

  /** The current command has been written and has not been finished. */
  predicate CurrentPending(s: State) {
    s.current.Some? ==> s.current.value.id < |WrittenIds(s.log)| && s.current.value.id !in FinishedIds(s.log)
  }

  predicate Inv(s: State) { Base(s) && CurrentPending(s) }

  lemma {:induction false} LogGrows(log: seq<Event>, e: Event)
    ensures WrittenIds(log + [e]) == WrittenIds(log) + if e.Wrote? then [e.id] else []
    ensures FinishedIds(log + [e]) == FinishedIds(log) + if e.Finished? then [e.id] else []
    ensures Armed(log + [e]) == (e.Prompt? || (e.Finished? && Armed(log)))
    ensures PromptBeforeEachWrite(log + [e]) == (PromptBeforeEachWrite(log) && (e.Wrote? ==> Armed(log)))
  {
    assert (log + [e])[..|log|] == log;
  }

  /** One write keeps the invariant. */
  lemma {:induction false} WriteKeeps(s: State, t: State)
    requires Base(s) && s.commands != [] && s.ready
    requires t == s.(ready := false, commands := s.commands[1..], current := Some(s.commands[0]),
                     log := s.log + [Wrote(s.commands[0].id, s.current.Some?)])
    ensures Inv(t)
  {
    hide WrittenIds, FinishedIds, Armed, PromptBeforeEachWrite;
    LogGrows(s.log, Wrote(s.commands[0].id, s.current.Some?));
  }

  /** Finishing a pending command keeps the invariant, though it stays current for the moment. */
  lemma {:induction false} FinishKeeps(s: State, q: Queued, answerer: Option<nat>)
    requires Inv(s) && s.current == Some(q)
    ensures Base(s.(log := s.log + [Finished(q.id, answerer)]))
  {
    hide WrittenIds, FinishedIds, Armed, PromptBeforeEachWrite;
    LogGrows(s.log, Finished(q.id, answerer));
  }

  lemma {:induction false} EnqueueKeeps(s: State, c: Cmd)
    requires Base(s)
    ensures Base(Enqueue(s, c)) && (CurrentPending(s) ==> CurrentPending(Enqueue(s, c)))
  {
    hide WrittenIds, FinishedIds, Armed, PromptBeforeEachWrite;
  }

  lemma {:induction false} ProcessKeeps(s: State)
    requires Base(s)
    ensures Base(ProcessQueue(s)) && (CurrentPending(s) ==> CurrentPending(ProcessQueue(s)))
    decreases Rank(s), 0, 0
  {
    if s.commands != [] && s.ready {
      var q := s.commands[0];
      var t := s.(ready := false, commands := s.commands[1..], current := Some(q),
                  log := s.log + [Wrote(q.id, s.current.Some?)]);
      WriteKeeps(s, t);
      if !q.cmd.hasHandler {
        FinishKeeps(t, q, None);
        QueueAllKeeps(t.(log := t.log + [Finished(q.id, None)]), q.cmd.onFinish);
      }
    }
  }

  lemma {:induction false} QueueAllKeeps(s: State, cs: seq<Cmd>)
    requires Base(s)
    ensures Base(QueueAll(s, cs)) && (CurrentPending(s) ==> CurrentPending(QueueAll(s, cs)))
    decreases Rank(s), 1, |cs|
  {
    if cs != [] {
      EnqueueKeeps(s, cs[0]);
      ProcessKeeps(Enqueue(s, cs[0]));
      QueueAllKeeps(ProcessQueue(Enqueue(s, cs[0])), cs[1..]);
    }
  }

  lemma {:induction false} AskPermanentKeeps(s: State, permanent: seq<Script>)
    requires Inv(s)
    ensures Inv(AskPermanent(s, permanent))
    decreases |permanent|
  {
    if permanent != [] {
      QueueAllKeeps(s, permanent[0].queues);
      var t := QueueAll(s, permanent[0].queues);
      if permanent[0].response.NotHandled? { AskPermanentKeeps(t, permanent[1..]); }
    }
  }

  lemma {:induction false} ReceivedKeeps(s: State, script: Script, permanent: seq<Script>)
    requires Inv(s)
    ensures Inv(ReceivedNewLine(s, script, permanent))
  {
    if s.current.Some? {
      QueueAllKeeps(s, script.queues);
      var t := QueueAll(s, script.queues);
      if script.response.Handled? && t.current.Some? {
        var answerer := Some(s.current.value.id);
        FinishKeeps(t, t.current.value, answerer);
        QueueAllKeeps(t.(log := t.log + [Finished(t.current.value.id, answerer)]), t.current.value.cmd.onFinish);
      }
    } else {
      AskPermanentKeeps(s, permanent);
    }
  }

  lemma {:induction false} StepKeeps(s: State, r: Region)
    requires Inv(s) && Enabled(s, r)
    ensures Inv(Step(s, r))
  {
    match r
    case CallerEnqueues(c) => EnqueueKeeps(s, c);
    case CallerProcesses => ProcessKeeps(s);
    case Line(script, permanent) => ReceivedKeeps(s, script, permanent);
    case AtPrompt(script, permanent) =>
      var ready := s.(ready := true, log := s.log + [Prompt]);
      LogGrows(s.log, Prompt);
      assert Inv(ready);
      ReceivedKeeps(ready, script, permanent);
      ProcessKeeps(ReceivedNewLine(ready, script, permanent));
  }

  lemma {:induction false} RunKeeps(s: State, run: seq<Region>)
    requires Inv(s) && IsRun(s, run)
    ensures Inv(After(s, run))
    decreases |run|
  {
    if run != [] {
      StepKeeps(s, run[0]);
      RunKeeps(Step(s, run[0]), run[1..]);
    }
  }

  /** Safety of every run, re-entrant handlers and callbacks included: what has been written followed by
      what is queued is what has been queued, in order; a prompt comes before each write; no command is
      finished twice, and only written ones are finished. */
  lemma {:induction false} RunIsSafe(run: seq<Region>)
    requires IsRun(Start, run)
    ensures var s := After(Start, run);
            && WrittenIds(s.log) + Ids(s.commands) == seq(s.queued, i => i)
            && PromptBeforeEachWrite(s.log)
            && Distinct(FinishedIds(s.log))
            && (forall i :: 0 <= i < |FinishedIds(s.log)| ==> FinishedIds(s.log)[i] < |WrittenIds(s.log)|)
  {
    assert Inv(Start);
    RunKeeps(Start, run);
  }

  // ---- When responses go to their own commands ----

  /** No subscriber of a command that waits for a response queues anything. */
  predicate Tame(c: Cmd) {
    (c.hasHandler ==> c.onFinish == []) && forall d | d in c.onFinish :: Tame(d)
  }

  predicate AllTame(cs: seq<Cmd>) { forall c | c in cs :: Tame(c) }

  predicate TameScripts(scripts: seq<Script>) { forall i :: 0 <= i < |scripts| ==> AllTame(scripts[i].queues) }

  /** At the prompt the handler answers Handled and queues nothing. */
  predicate Quiet(r: Region) {
    match r
    case CallerEnqueues(c) => Tame(c)
    case CallerProcesses => true
    case Line(script, permanent) => AllTame(script.queues) && TameScripts(permanent)
    case AtPrompt(script, permanent) => script.queues == [] && script.response.Handled? && TameScripts(permanent)
  }

  /** No write while another command was current, and every answer finishes the command that asked. */
  predicate Proper(e: Event) {
    (e.Wrote? ==> !e.overlapped) && (e.Finished? && e.answerer.Some? ==> e.answerer.value == e.id)
  }

  predicate Calm(s: State) {
    && (forall i :: 0 <= i < |s.log| ==> Proper(s.log[i]))
    && (forall i :: 0 <= i < |s.commands| ==> Tame(s.commands[i].cmd))
    && (s.ready ==> s.current.None?)
  }

  predicate CurrentTame(s: State) {
    s.current.Some? ==> Tame(s.current.value.cmd) && s.current.value.cmd.hasHandler
  }

  lemma {:induction false} CalmProcess(s: State)
    requires Calm(s)
    ensures Calm(ProcessQueue(s)) && (CurrentTame(s) ==> CurrentTame(ProcessQueue(s)))
    ensures !s.ready ==> ProcessQueue(s) == s
    decreases Rank(s), 0, 0
  {
    if s.commands != [] && s.ready {
      var q := s.commands[0];
      var t := s.(ready := false, commands := s.commands[1..], current := Some(q),
                  log := s.log + [Wrote(q.id, s.current.Some?)]);
      assert Calm(t);
      if !q.cmd.hasHandler {
        var u := t.(log := t.log + [Finished(q.id, None)]);
        assert Calm(u) && AllTame(q.cmd.onFinish);
        CalmQueueAll(u, q.cmd.onFinish);
      }
    }
  }

  lemma {:induction false} CalmQueueAll(s: State, cs: seq<Cmd>)
    requires Calm(s) && AllTame(cs)
    ensures var t := QueueAll(s, cs);
            && Calm(t) && (CurrentTame(s) ==> CurrentTame(t))
            && (!s.ready ==> t.current == s.current)
    decreases Rank(s), 1, |cs|
  {
    if cs != [] {
      assert cs[0] in cs;
      var t := Enqueue(s, cs[0]);
      assert Calm(t);
      CalmProcess(t);
      assert AllTame(cs[1..]);
      CalmQueueAll(ProcessQueue(t), cs[1..]);
    }
  }

  lemma {:induction false} CalmPermanent(s: State, permanent: seq<Script>)
    requires Calm(s) && CurrentTame(s) && TameScripts(permanent)
    ensures Calm(AskPermanent(s, permanent)) && CurrentTame(AskPermanent(s, permanent))
    decreases |permanent|
  {
    if permanent != [] {
      CalmQueueAll(s, permanent[0].queues);
      CalmPermanent(QueueAll(s, permanent[0].queues), permanent[1..]);
    }
  }

  lemma {:induction false} CalmLine(s: State, script: Script, permanent: seq<Script>)
    requires Calm(s) && CurrentTame(s) && AllTame(script.queues) && TameScripts(permanent)
    ensures Calm(ReceivedNewLine(s, script, permanent)) && CurrentTame(ReceivedNewLine(s, script, permanent))
  {
    if s.current.Some? {
      CalmQueueAll(s, script.queues);
      var t, q := QueueAll(s, script.queues), s.current.value;
      assert Finish(t, q, Some(q.id)) == t.(log := t.log + [Finished(q.id, Some(q.id))]);
    } else {
      CalmPermanent(s, permanent);
    }
  }

  lemma {:induction false} CalmPrompt(s: State, script: Script, permanent: seq<Script>)
    requires Calm(s) && CurrentTame(s) && Quiet(AtPrompt(script, permanent))
    ensures Calm(PromptReceived(s, script, permanent)) && CurrentTame(PromptReceived(s, script, permanent))
  {
    var ready := s.(ready := true, log := s.log + [Prompt]);
    if s.current.Some? {
      var q := s.current.value;
      assert Finish(ready, q, Some(q.id)) == ready.(log := ready.log + [Finished(q.id, Some(q.id))]);
    } else {
      CalmPermanent(ready, permanent);
    }
    CalmProcess(ReceivedNewLine(ready, script, permanent));
  }

  lemma {:induction false} CalmStep(s: State, r: Region)
    requires Calm(s) && CurrentTame(s) && Enabled(s, r) && Quiet(r)
    ensures Calm(Step(s, r)) && CurrentTame(Step(s, r))
  {
    match r
    case CallerEnqueues(c) =>
    case CallerProcesses => CalmProcess(s);
    case Line(script, permanent) => CalmLine(s, script, permanent);
    case AtPrompt(script, permanent) => CalmPrompt(s, script, permanent);
  }

  lemma {:induction false} CalmRun(s: State, run: seq<Region>)
    requires Calm(s) && CurrentTame(s) && IsRun(s, run) && forall r | r in run :: Quiet(r)
    ensures Calm(After(s, run))
    decreases |run|
  {
    if run != [] {
      assert run[0] in run;
      CalmStep(s, run[0]);
      CalmRun(Step(s, run[0]), run[1..]);
    }
  }

  /** If handlers answer Handled at the prompt and neither they nor the finish callbacks of their
      commands queue there, no command is ever still current when the next one is written, and every
      answer finishes the command whose handler gave it. */
  lemma {:induction false} AnswersReachTheirCommands(run: seq<Region>)
    requires IsRun(Start, run) && forall r | r in run :: Quiet(r)
    ensures forall i :: 0 <= i < |After(Start, run).log| ==> Proper(After(Start, run).log[i])
  {
    CalmRun(Start, run);
  }

  predicate AllProper(log: seq<Event>) { forall i :: 0 <= i < |log| ==> Proper(log[i]) }

  lemma {:induction false} ProcessGrows(s: State)
    ensures s.log <= ProcessQueue(s).log
    decreases Rank(s), 0, 0
  {
    if s.commands != [] && s.ready {
      var q := s.commands[0];
      var t := s.(ready := false, commands := s.commands[1..], current := Some(q),
                  log := s.log + [Wrote(q.id, s.current.Some?)]);
      if !q.cmd.hasHandler {
        QueueAllGrows(t.(log := t.log + [Finished(q.id, None)]), q.cmd.onFinish);
      }
    }
  }

  lemma {:induction false} QueueAllGrows(s: State, cs: seq<Cmd>)
    ensures s.log <= QueueAll(s, cs).log
    decreases Rank(s), 1, |cs|
  {
    if cs != [] {
      ProcessGrows(Enqueue(s, cs[0]));
      QueueAllGrows(ProcessQueue(Enqueue(s, cs[0])), cs[1..]);
    }
  }

  /** With a command current, being ready for the next is what goes wrong: it is written at once. */
  lemma {:induction false} Overlaps(s: State)
    requires s.ready && s.current.Some? && s.commands != []
    ensures !AllProper(ProcessQueue(s).log)
  {
    var q := s.commands[0];
    var t := s.(ready := false, commands := s.commands[1..], current := Some(q), log := s.log + [Wrote(q.id, true)]);
    assert !Proper(t.log[|s.log|]);
    if !q.cmd.hasHandler {
      QueueAllGrows(t.(log := t.log + [Finished(q.id, None)]), q.cmd.onFinish);
      assert ProcessQueue(s).log == QueueAll(t.(log := t.log + [Finished(q.id, None)]), q.cmd.onFinish).log;
      StaysImproper(t.log, ProcessQueue(s).log);
    }
  }

  lemma {:induction false} StaysImproper(log: seq<Event>, more: seq<Event>)
    requires log <= more && !AllProper(log)
    ensures !AllProper(more)
  {
    var i :| 0 <= i < |log| && !Proper(log[i]);
    assert more[i] == log[i];
  }

  lemma {:induction false} ReceivedGrows(s: State, script: Script)
    requires s.current.Some?
    ensures QueueAll(s, script.queues).log <= ReceivedNewLine(s, script, []).log
  {
    var t := QueueAll(s, script.queues);
    if script.response.Handled? && t.current.Some? {
      var q := t.current.value;
      QueueAllGrows(t.(log := t.log + [Finished(q.id, Some(s.current.value.id))]), q.cmd.onFinish);
    }
  }

  /** A handler that queues at the prompt has its first command written while its own is current. */
  lemma {:induction false} QueueingOverlaps(s: State, script: Script)
    requires s.ready && s.current.Some? && script.queues != []
    ensures !AllProper(ReceivedNewLine(s, script, []).log)
  {
    hide Proper, ProcessQueue, AllProper;
    var t := Enqueue(s, script.queues[0]);
    Overlaps(t);
    QueueAllGrows(ProcessQueue(t), script.queues[1..]);
    StaysImproper(ProcessQueue(t).log, QueueAll(s, script.queues).log);
    ReceivedGrows(s, script);
    StaysImproper(QueueAll(s, script.queues).log, ReceivedNewLine(s, script, []).log);
  }

  /** While gdb is not ready, queueing does nothing but queue. */
  lemma {:induction false} QueueAllWaits(s: State, cs: seq<Cmd>)
    requires !s.ready
    ensures var t := QueueAll(s, cs);
            !t.ready && t.current == s.current && t.alive == s.alive && t.log == s.log
    decreases |cs|
  {
    if cs != [] { QueueAllWaits(Enqueue(s, cs[0]), cs[1..]); }
  }

  /** What one write does. */
  lemma {:induction false} WriteOne(s: State)
    requires s.ready && s.commands != []
    ensures var t, q := ProcessQueue(s), s.commands[0];
            && !t.ready && t.alive == s.alive && t.current == (if q.cmd.hasHandler then Some(q) else None)
            && t.log == s.log + [Wrote(q.id, s.current.Some?)] + if q.cmd.hasHandler then [] else [Finished(q.id, None)]
  {
    var q := s.commands[0];
    var t := s.(ready := false, commands := s.commands[1..], current := Some(q),
                log := s.log + [Wrote(q.id, s.current.Some?)]);
    if !q.cmd.hasHandler { QueueAllWaits(t.(log := t.log + [Finished(q.id, None)]), q.cmd.onFinish); }
  }

  /** A write is in order if nothing is current. */
  lemma {:induction false} ProperWrite(s: State)
    requires AllProper(s.log) && (s.ready ==> s.current.None?)
    ensures AllProper(ProcessQueue(s).log) && (ProcessQueue(s).ready ==> ProcessQueue(s).current.None?)
  {
    if s.ready && s.commands != [] { WriteOne(s); }
  }

  /** Exactly when a prompt is safe: a command is current and has its handler called. Whatever is queued
      next, by anyone, finds everything in order iff the handler answered Handled and queued nothing, and
      no subscriber of the command's finished event queues anything. */
  lemma {:induction false} PromptIsSafeIff(s: State, script: Script, permanent: seq<Script>, next: Cmd)
    requires AllProper(s.log) && s.current.Some? && s.alive
    ensures AllProper(ProcessQueue(Enqueue(PromptReceived(s, script, permanent), next)).log)
       <==> script.queues == [] && script.response.Handled? && s.current.value.cmd.onFinish == []
  {
    assert PromptReceived(s, script, permanent) == PromptReceived(s, script, []);
    if script.queues == [] && script.response.Handled? && s.current.value.cmd.onFinish == [] {
      QuietPrompt(s, script);
      ProperWrite(Enqueue(PromptReceived(s, script, []), next));
    } else {
      UnsafePrompt(s, script, next);
    }
  }

  lemma {:induction false} QuietPrompt(s: State, script: Script)
    requires AllProper(s.log) && s.current.Some? && script.queues == [] && script.response.Handled?
    requires s.current.value.cmd.onFinish == []
    ensures var t := PromptReceived(s, script, []); AllProper(t.log) && (t.ready ==> t.current.None?)
  {
    var ready, q := s.(ready := true, log := s.log + [Prompt]), s.current.value;
    assert Finish(ready, q, Some(q.id)) == ready.(log := ready.log + [Finished(q.id, Some(q.id))]);
    ProperWrite(ReceivedNewLine(ready, script, []));
  }

  /** A subscriber that queues has its first command written while the finished one is still current. */
  lemma {:induction false} CallbackOverlaps(s: State, script: Script)
    requires s.ready && s.current.Some? && script.queues == [] && script.response.Handled?
    requires s.current.value.cmd.onFinish != []
    ensures !AllProper(ReceivedNewLine(s, script, []).log)
  {
    hide Proper, ProcessQueue, AllProper;
    var q := s.current.value;
    var t := s.(log := s.log + [Finished(q.id, Some(q.id))]);
    var u := Enqueue(t, q.cmd.onFinish[0]);
    Overlaps(u);
    QueueAllGrows(ProcessQueue(u), q.cmd.onFinish[1..]);
    assert ReceivedNewLine(s, script, []).log == QueueAll(t, q.cmd.onFinish).log;
    StaysImproper(ProcessQueue(u).log, QueueAll(t, q.cmd.onFinish).log);
  }

  lemma {:induction false} UnsafePrompt(s: State, script: Script, next: Cmd)
    requires s.current.Some? && s.alive
    requires !(script.queues == [] && script.response.Handled? && s.current.value.cmd.onFinish == [])
    ensures !AllProper(ProcessQueue(Enqueue(PromptReceived(s, script, []), next)).log)
  {
    hide Proper, AllProper, ProcessQueue;
    var ready := s.(ready := true, log := s.log + [Prompt]);
    var t := ReceivedNewLine(ready, script, []);
    var u := PromptReceived(s, script, []);
    ProcessGrows(t);
    ProcessGrows(Enqueue(u, next));
    if script.queues != [] {
      QueueingOverlaps(ready, script);
      StaysImproper(t.log, u.log);
      StaysImproper(u.log, ProcessQueue(Enqueue(u, next)).log);
    } else if script.response.Handled? {
      CallbackOverlaps(ready, script);
      StaysImproper(t.log, u.log);
      StaysImproper(u.log, ProcessQueue(Enqueue(u, next)).log);
    } else if s.commands != [] {
      assert t == ready;
      Overlaps(t);
      StaysImproper(u.log, ProcessQueue(Enqueue(u, next)).log);
    } else {
      assert t == ready;
      NothingToWrite(t);
      Overlaps(Enqueue(u, next));
    }
  }

  lemma {:induction false} NothingToWrite(s: State)
    requires s.commands == []
    ensures ProcessQueue(s) == s
  {
  }

  /** The condition is needed: a handler that queues a command at the prompt and answers Handled has the
      new command finished in place of its own, which is never finished. */
  lemma {:induction false} QueueingAtThePromptMisdirects(first: Cmd, second: Cmd, run: seq<Region>)
    requires first == second == Cmd(true, [])
    requires run == [CallerEnqueues(first), AtPrompt(Script([], Handled), []), AtPrompt(Script([second], Handled), [])]
    ensures IsRun(Start, run)
    ensures After(Start, run).log == [Prompt, Wrote(0, false), Prompt, Wrote(1, true), Finished(1, Some(0))]
    ensures After(Start, run).current.None? && After(Start, run).commands == []
  {
    var s1 := Step(Start, run[0]);
    var s2 := Step(s1, run[1]);
    assert s2 == State([], Some(Queued(0, first)), false, true, 1, [Prompt, Wrote(0, false)]);
    var ready := s2.(ready := true, log := s2.log + [Prompt]);
    assert [second][1..] == [];
    var t := QueueAll(ready, [second]);
    assert t == QueueAll(ProcessQueue(Enqueue(ready, second)), []);
    assert t == State([], Some(Queued(1, second)), false, true, 2, [Prompt, Wrote(0, false), Prompt, Wrote(1, true)]);
    var s3 := Step(s2, run[2]);
    assert s3 == State([], None, false, true, 2, [Prompt, Wrote(0, false), Prompt, Wrote(1, true), Finished(1, Some(0))]);
    assert IsRun(s3, []) && IsRun(s2, [run[2]]) && IsRun(s1, run[1..]);
    assert run[1..] == [run[1], run[2]] && run[1..][1..] == [run[2]] && run[1..][1..][1..] == [];
    assert After(s2, [run[2]]) == s3;
  }

  /** What queueing there does: the first command in line is written, and the others have to wait. */
  lemma {:induction false} QueueWhenReady(s: State, cs: seq<Cmd>)
    requires s.ready && cs != []
    ensures var t, q := QueueAll(s, cs), (s.commands + [Queued(s.queued, cs[0])])[0];
            !t.ready && t.alive == s.alive && t.current == if q.cmd.hasHandler then Some(q) else None
  {
    var u := Enqueue(s, cs[0]);
    WriteOne(u);
    QueueAllWaits(ProcessQueue(u), cs[1..]);
  }

  lemma {:induction false} QueueAllAlive(s: State, cs: seq<Cmd>)
    ensures QueueAll(s, cs).alive == s.alive
  {
    if cs != [] {
      if s.ready { QueueWhenReady(s, cs); } else { QueueAllWaits(s, cs); }
    }
  }

  lemma {:induction false} ProcessAlive(s: State)
    ensures ProcessQueue(s).alive == s.alive
  {
    if s.ready && s.commands != [] { WriteOne(s); }
  }

  /** Exactly when a prompt kills the reader thread: the handler queues, the command that is written as a
      consequence has no handler, so that none is current, and the handler answers Handled or throws. */
  lemma {:induction false} PromptKillsIff(s: State, script: Script, permanent: seq<Script>)
    requires s.current.Some? && s.alive
    ensures !PromptReceived(s, script, permanent).alive
       <==> script.queues != [] && (script.response.Handled? || script.response.Throws?)
            && !(s.commands + [Queued(s.queued, script.queues[0])])[0].cmd.hasHandler
  {
    hide QueueAll, ProcessQueue;
    var ready := s.(ready := true, log := s.log + [Prompt]);
    var t := QueueAll(ready, script.queues);
    QueueAllAlive(ready, script.queues);
    if script.queues == [] {
      NothingQueued(ready);
    } else {
      QueueWhenReady(ready, script.queues);
    }
    if script.response.Handled? && t.current.Some? {
      var q := t.current.value;
      QueueAllAlive(t.(log := t.log + [Finished(q.id, Some(s.current.value.id))]), q.cmd.onFinish);
    }
    ProcessAlive(ReceivedNewLine(ready, script, permanent));
  }

  lemma {:induction false} NothingQueued(s: State)
    ensures QueueAll(s, []) == s
  {
  }

  // ---- Who is asked, and what is written ----

  function QueuesOf(scripts: seq<Script>): seq<Cmd> {
    if scripts == [] then [] else scripts[0].queues + QueuesOf(scripts[1..])
  }

  lemma {:induction false} QueueAllAppend(s: State, a: seq<Cmd>, b: seq<Cmd>)
    ensures QueueAll(s, a + b) == QueueAll(QueueAll(s, a), b)
    decreases |a|
  {
    hide ProcessQueue, Enqueue;
    if a == [] {
      assert a + b == b;
    } else {
      assert (a + b)[1..] == a[1..] + b;
      QueueAllAppend(ProcessQueue(Enqueue(s, a[0])), a[1..], b);
    }
  }

  /** A line for which no command waits is offered to the permanent handlers in turn, up to the first that
      does not answer NotHandled; what these queue is queued, in order. The thread dies if that first one
      throws, or asks for another line although gdb is ready. */
  lemma {:induction false} PermanentAsked(s: State, permanent: seq<Script>) returns (k: nat)
    requires s.alive
    ensures k <= |permanent| && forall i :: 0 <= i < k - 1 ==> permanent[i].response.NotHandled?
    ensures k < |permanent| ==> k > 0 && !permanent[k - 1].response.NotHandled?
    ensures var t := QueueAll(s, QueuesOf(permanent[..k]));
            var dies := k > 0 && (permanent[k - 1].response.Throws? || (permanent[k - 1].response.RequestLine? && t.ready));
            AskPermanent(s, permanent) == t.(alive := !dies)
    decreases |permanent|
  {
    hide QueueAll;
    if permanent == [] {
      k := 0;
      NothingQueued(s);
    } else {
      var first := permanent[0];
      var t := QueueAll(s, first.queues);
      QueueAllAlive(s, first.queues);
      if first.response.NotHandled? {
        k := PermanentAsked(t, permanent[1..]);
        QueueAllAppend(s, first.queues, QueuesOf(permanent[1..][..k]));
        assert permanent[..k + 1][1..] == permanent[1..][..k];
        assert forall i :: 1 <= i < k + 1 ==> permanent[i] == permanent[1..][i - 1];
        k := k + 1;
      } else {
        k := 1;
        assert permanent[..1][1..] == [] && first.queues + [] == first.queues;
      }
    }
  }

  /** An answer finishes the current command: on a line between prompts, exactly one event is raised and
      nothing is written, and the command is current no longer. Any other answer leaves it current. */
  lemma {:induction false} LineFinishesIff(s: State, script: Script, permanent: seq<Script>)
    requires s.current.Some? && !s.ready
    ensures var t, q := ReceivedNewLine(s, script, permanent), s.current.value;
            && t.alive == s.alive && !t.ready
            && if script.response.Handled? then t.current.None? && t.log == s.log + [Finished(q.id, Some(q.id))]
               else t.current == s.current && t.log == s.log
  {
    var q := s.current.value;
    QueueAllWaits(s, script.queues);
    var t := QueueAll(s, script.queues);
    QueueAllWaits(t.(log := t.log + [Finished(q.id, Some(q.id))]), q.cmd.onFinish);
  }

  /** gdb never sits ready while something is queued: neither after a caller has come through QueueCommand nor
      after a prompt the reader thread survives. */
  lemma {:induction false} NeverIdle(s: State, script: Script, permanent: seq<Script>)
    ensures ProcessQueue(s).ready ==> ProcessQueue(s).commands == []
    ensures var t := PromptReceived(s, script, permanent); t.alive && t.ready ==> t.commands == []
  {
  }

  /** A prompt for which nobody queues anything releases the oldest command queued, and it alone. */
  lemma {:induction false} PromptReleases(s: State)
    requires s.alive && s.current.None? && s.commands != []
    ensures var t, q := PromptReceived(s, Script([], NotHandled), []), s.commands[0];
            && !t.ready && t.current == (if q.cmd.hasHandler then Some(q) else None)
            && t.log == s.log + [Prompt, Wrote(q.id, false)] + if q.cmd.hasHandler then [] else [Finished(q.id, None)]
  {
    var ready := s.(ready := true, log := s.log + [Prompt]);
    WriteOne(ready);
    assert (s.log + [Prompt]) + [Wrote(s.commands[0].id, false)] == s.log + [Prompt, Wrote(s.commands[0].id, false)];
  }

  // ---- The class ----

  class GDBSubProcess {
    var commands: seq<Queued>
    var currentCommand: Option<Queued>
    var gdbReadyForInput: bool
    var alive: bool
    var queued: nat
    /** What has been written to gdb, read from it and reported as finished. */
    ghost var log: seq<Event>

    ghost function View(): State
      reads this
    {
      State(commands, currentCommand, gdbReadyForInput, alive, queued, log)
    }

    constructor ()
      ensures View() == Start
    {
      commands, currentCommand, gdbReadyForInput, alive, queued, log := [], None, false, true, 0, [];
    }

    /** The region of QueueCommand that enqueues. */
    method EnqueueCommand(cmd: Cmd)
      modifies this
      ensures View() == Enqueue(old(View()), cmd)
    {
      commands, queued := commands + [Queued(queued, cmd)], queued + 1;
    }

    method QueueCommand(cmd: Cmd)
      modifies this
      ensures View() == ProcessQueue(Enqueue(old(View()), cmd))
      decreases Rank(View()), 0, 1
    {
      EnqueueCommand(cmd);
      ProcessTheQueue();
    }

    /** ProcessQueue. */
    method ProcessTheQueue()
      modifies this
      ensures View() == ProcessQueue(old(View()))
      decreases Rank(View()), 0, 0
    {
      if |commands| == 0 || !gdbReadyForInput { return; }
      gdbReadyForInput := false;
      log := log + [Wrote(commands[0].id, currentCommand.Some?)];
      currentCommand, commands := Some(commands[0]), commands[1..];
      if !currentCommand.value.cmd.hasHandler {
        CommandFinished(currentCommand.value, None);
        currentCommand := None;
      }
    }

    method CommandFinished(q: Queued, ghost answerer: Option<nat>)
      modifies this
      ensures View() == Finish(old(View()), q, answerer)
      decreases Rank(View()), 2, 0
    {
      log := log + [Finished(q.id, answerer)];
      QueueEach(q.cmd.onFinish);
    }

    /** What subscribers and handlers do while the lock is held. */
    method QueueEach(cs: seq<Cmd>)
      modifies this
      ensures View() == QueueAll(old(View()), cs)
      decreases Rank(View()), 1, |cs|
    {
      if cs != [] {
        QueueCommand(cs[0]);
        QueueEach(cs[1..]);
      }
    }

    /** ReceivedNewLine; `script` is what the current command's handler does, `permanent` what the
        permanent ones do. */
    method Receive(script: Script, permanent: seq<Script>)
      modifies this
      ensures View() == ReceivedNewLine(old(View()), script, permanent)
    {
      if currentCommand.Some? {
        ghost var answerer := currentCommand.value.id;
        QueueEach(script.queues);
        match script.response
        case NotHandled =>
        case Handled =>
          if currentCommand.None? { alive := false; return; }
          CommandFinished(currentCommand.value, Some(answerer));
          currentCommand := None;
        case RequestLine =>
          if gdbReadyForInput && currentCommand.None? { alive := false; }
        case Throws =>
          if currentCommand.None? { alive := false; }
      } else {
        var i := 0;
        while i < |permanent|
          invariant 0 <= i <= |permanent|
          invariant AskPermanent(View(), permanent[i..]) == AskPermanent(old(View()), permanent)
          invariant ReceivedNewLine(old(View()), script, permanent) == AskPermanent(old(View()), permanent)
        {
          assert permanent[i..][0] == permanent[i] && permanent[i..][1..] == permanent[i + 1..];
          QueueEach(permanent[i].queues);
          match permanent[i].response {
            case Handled => return;
            case RequestLine =>
              if gdbReadyForInput { alive := false; }
              return;
            case Throws =>
              alive := false;
              return;
            case NotHandled =>
          }
          i := i + 1;
        }
      }
    }

    /** The prompt handling of ReadThread. */
    method ReceivePrompt(script: Script, permanent: seq<Script>)
      modifies this
      ensures View() == PromptReceived(old(View()), script, permanent)
    {
      gdbReadyForInput := true;
      log := log + [Prompt];
      Receive(script, permanent);
      if alive { ProcessTheQueue(); }
    }
  }
}
