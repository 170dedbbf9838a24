/** Stop conditions, triggers and fuzz locations, and predefined locations that share one child by
    swapping its components in before every call. */
module FuzzLocations {
  import opened Bytes

  // ---- Values ----

  datatype Kind = Start | End | Location

  datatype TriggerState = TriggerState(kind: Kind, first: bool, count: int, address: Option<nat>, current: int)

  datatype StopState = StopState(maxRuns: int, current: int)

  datatype LocationState = LocationState(stop: Option<StopState>, triggers: Option<seq<TriggerState>>)

  /** Trigger.NextFuzzRun */
  function NextRun(t: TriggerState): TriggerState {
    var c := Wrap32(t.current + 1);
    t.(current := if c > t.count then 1 else c)
  }

  predicate AtEdge(k: Kind) { k.Start? || k.End? }

  /** Trigger.IsTriggered: its answer, and the trigger afterwards. */
  function Fires(t: TriggerState, kind: Kind, data: Option<nat>): bool {
    || (t.first && kind == t.kind && AtEdge(kind))
    || (kind == t.kind && AtEdge(kind) && (t.current == t.count || t.count == 0))
    || (kind == t.kind && kind.Location? && data.Some? && t.address == data)
  }

  function AfterAsking(t: TriggerState, kind: Kind): TriggerState {
    if t.first && kind == t.kind && AtEdge(kind) then t.(first := false, current := 0) else t
  }

  function NextRunAll(ts: seq<TriggerState>): (r: seq<TriggerState>)
    ensures |r| == |ts|
  {
    seq(|ts|, i requires 0 <= i < |ts| => NextRun(ts[i]))
  }

  /** The first trigger that fires, if one does; the triggers after it are not asked. */
  function FirstFiring(ts: seq<TriggerState>, kind: Kind, data: Option<nat>, i: nat): (r: Option<nat>)
    requires i <= |ts|
    ensures r.Some? ==> i <= r.value < |ts| && Fires(ts[r.value], kind, data)
    decreases |ts| - i
  {
    if i == |ts| then None else if Fires(ts[i], kind, data) then Some(i) else FirstFiring(ts, kind, data, i + 1)
  }

  function StartRound(s: StopState): StopState { s.(current := Wrap32(s.current + 1)) }

  predicate Reached(s: StopState) { s.current > s.maxRuns }

  // What a location of its own would do on each call.

  predicate IsFinished(l: LocationState) { l.stop.Some? && Reached(l.stop.value) }

  predicate IsTriggered(l: LocationState, kind: Kind, data: Option<nat>) {
    l.triggers.Some? && FirstFiring(l.triggers.value, kind, data, 0).Some?
  }

  function Asked(l: LocationState, kind: Kind, data: Option<nat>): LocationState {
    if !IsTriggered(l, kind, data) then l else
    var i := FirstFiring(l.triggers.value, kind, data, 0).value;
    l.(triggers := Some(l.triggers.value[i := AfterAsking(l.triggers.value[i], kind)]))
  }

  function NextFuzzRun(l: LocationState): LocationState {
    if l.triggers.None? then l else l.(triggers := Some(NextRunAll(l.triggers.value)))
  }

  function Run(l: LocationState): LocationState {
    NextFuzzRun(if l.stop.None? then l else l.(stop := Some(StartRound(l.stop.value))))
  }

  lemma {:induction false} FirstFiringIff(ts: seq<TriggerState>, kind: Kind, data: Option<nat>, i: nat)
    requires i <= |ts|
    ensures FirstFiring(ts, kind, data, i).Some? <==> exists j :: i <= j < |ts| && Fires(ts[j], kind, data)
    decreases |ts| - i
  {
    hide Fires;
    if i < |ts| { FirstFiringIff(ts, kind, data, i + 1); }
  }

  /** A trigger of this kind whose time has come: the address is reached, or the count is, or it is not counted,
      or it fires on the very first occasion. */
  predicate Due(t: TriggerState, kind: Kind, data: Option<nat>) {
    t.kind == kind && if kind.Location? then data.Some? && t.address == data
                      else t.current == t.count || t.count == 0 || t.first
  }

  /** Exactly when a location is triggered, and what being asked does to it: nothing, except that a first
      occasion, if it is what triggers, is used up and the count starts again. */
  lemma {:induction false} TriggeredIff(l: LocationState, kind: Kind, data: Option<nat>)
    ensures IsTriggered(l, kind, data)
       <==> l.triggers.Some? && exists i :: 0 <= i < |l.triggers.value| && Due(l.triggers.value[i], kind, data)
    ensures !IsTriggered(l, kind, data) ==> Asked(l, kind, data) == l
    ensures IsTriggered(l, kind, data) ==>
      exists i :: 0 <= i < |l.triggers.value| && Due(l.triggers.value[i], kind, data)
        && (forall j :: 0 <= j < i ==> !Due(l.triggers.value[j], kind, data))
        && var t := l.triggers.value[i];
           Asked(l, kind, data) == if t.first && !kind.Location?
             then l.(triggers := Some(l.triggers.value[i := t.(first := false, current := 0)])) else l
  {
    if l.triggers.Some? {
      var ts := l.triggers.value;
      FirstFiringIff(ts, kind, data, 0);
      FiresIffDue(ts, kind, data);
      if IsTriggered(l, kind, data) {
        var i := FirstFiring(ts, kind, data, 0).value;
        FirstIsFirst(ts, kind, data, 0);
        assert ts[i := ts[i]] == ts;
        assert Due(ts[i], kind, data);
      }
    }
  }

  lemma {:induction false} FiresIffDue(ts: seq<TriggerState>, kind: Kind, data: Option<nat>)
    ensures forall i :: 0 <= i < |ts| ==> (Fires(ts[i], kind, data) <==> Due(ts[i], kind, data))
  {
  }

  lemma {:induction false} FirstIsFirst(ts: seq<TriggerState>, kind: Kind, data: Option<nat>, i: nat)
    requires i <= |ts| && FirstFiring(ts, kind, data, i).Some?
    ensures forall j :: i <= j < FirstFiring(ts, kind, data, i).value ==> !Fires(ts[j], kind, data)
    decreases |ts| - i
  {
    hide Fires;
    if i < |ts| && !Fires(ts[i], kind, data) { FirstIsFirst(ts, kind, data, i + 1); }
  }

  // ---- Objects ----

  class Trigger {
    const kind: Kind
    const count: int
    const address: Option<nat>
    var first: bool
    var current: int

    function View(): TriggerState
      reads this
    {
      TriggerState(kind, first, count, address, current)
    }

    constructor (t: TriggerState)
      ensures View() == t
    {
      kind, count, address, first, current := t.kind, t.count, t.address, t.first, t.current;
    }

    method NextFuzzRun()
      modifies this
      ensures View() == NextRun(old(View()))
    {
      current := Wrap32(current + 1);
      if current > count { current := 1; }
    }

    method IsTriggered(trigger: Kind, data: Option<nat>) returns (fired: bool)
      modifies this
      ensures fired == Fires(old(View()), trigger, data) && View() == AfterAsking(old(View()), trigger)
    {
      if first && trigger == kind && (trigger == Start || trigger == End) {
        first, current := false, 0;
        return true;
      }
      if trigger == kind && (trigger == Start || trigger == End) && (current == count || count == 0) {
        return true;
      }
      if trigger == kind && trigger == Location && data.Some? {
        return address.Some? && address.value == data.value;
      }
      return false;
    }
  }

  class CountFuzzStopCondition {
    const maxRuns: int
    var current: int

    function View(): StopState
      reads this
    {
      StopState(maxRuns, current)
    }

    constructor (s: StopState)
      ensures View() == s
    {
      maxRuns, current := s.maxRuns, s.current;
    }

    method StartFuzzRound()
      modifies this
      ensures View() == StartRound(old(View()))
    {
      current := Wrap32(current + 1);
    }

    predicate Finished()
      reads this
      ensures Finished() == Reached(View())
    {
      current > maxRuns
    }
  }

  ghost function Views(ts: seq<Trigger>): (r: seq<TriggerState>)
    reads ts
    ensures |r| == |ts| && forall i :: 0 <= i < |ts| ==> r[i] == ts[i].View()
  {
    if ts == [] then [] else Views(ts[..|ts| - 1]) + [ts[|ts| - 1].View()]
  }

  ghost predicate DistinctTriggers(ts: seq<Trigger>) { forall i, j :: 0 <= i < j < |ts| ==> ts[i] != ts[j] }

  /** What InitChanges reads for one user of a location. */
  class ChangeableComponents {
    const stopCondition: CountFuzzStopCondition?
    const triggers: Option<seq<Trigger>>
    /** The mutable objects the components consist of. */
    ghost const Repr: set<object>

    ghost predicate Valid()
    {
      && (stopCondition != null ==> stopCondition in Repr)
      && (triggers.Some? ==> DistinctTriggers(triggers.value) && forall t :: t in triggers.value ==> t in Repr)
    }

    ghost function View(): LocationState
      requires Valid()
      reads Repr
    {
      LocationState(if stopCondition == null then None else Some(stopCondition.View()),
                    if triggers.None? then None else Some(Views(triggers.value)))
    }

    constructor (stop: CountFuzzStopCondition?, triggers: Option<seq<Trigger>>, ghost repr: set<object>)
      ensures this.stopCondition == stop && this.triggers == triggers && Repr == repr
    {
      stopCondition, this.triggers, Repr := stop, triggers, repr;
    }
  }

  /** A location whose components can be exchanged. The ghost parameter of the calls names the
      components that are in place. */
  class BaseFuzzLocation {
    var changeableComponents: seq<ChangeableComponents>
    var stopCondition: CountFuzzStopCondition?
    var triggers: Option<seq<Trigger>>

    ghost predicate Holds(c: ChangeableComponents)
      reads this
    {
      c.Valid() && this !in c.Repr && stopCondition == c.stopCondition && triggers == c.triggers
    }

    constructor ()
      ensures changeableComponents == []
    {
      changeableComponents, stopCondition, triggers := [], null, None;
    }

    /** InitChanges builds new components and puts them in place. */
    method InitChanges(config: LocationState) returns (id: ChangeableComponents)
      modifies this
      ensures fresh(id) && fresh(id.Repr) && Holds(id) && id.View() == config
      ensures changeableComponents == old(changeableComponents) + [id]
    {
      hide Views;
      ghost var repr: set<object> := {};
      stopCondition, triggers := null, None;
      if config.stop.Some? {
        var stop := new CountFuzzStopCondition(config.stop.value);
        stopCondition := stop;
        repr := {stop};
      }
      if config.triggers.Some? {
        var ts := ReadTriggers(config.triggers.value);
        triggers := Some(ts);
        repr := repr + set t | t in ts;
      }
      id := new ChangeableComponents(stopCondition, triggers, repr);
      changeableComponents := changeableComponents + [id];
    }

    static method ReadTriggers(config: seq<TriggerState>) returns (ts: seq<Trigger>)
      ensures |ts| == |config| && DistinctTriggers(ts) && Views(ts) == config
      ensures forall t :: t in ts ==> fresh(t)
    {
      ts := [];
      var i := 0;
      while i < |config|
        invariant 0 <= i == |ts| <= |config| && DistinctTriggers(ts)
        invariant forall t :: t in ts ==> fresh(t)
        invariant forall k :: 0 <= k < i ==> ts[k].View() == config[k]
      {
        var t := new Trigger(config[i]);
        ts := ts + [t];
        i := i + 1;
      }
    }

    /** Unknown ids are refused; null leaves everything as it is. */
    method ApplyChangeableId(id: ChangeableComponents?) returns (ok: bool)
      modifies this`stopCondition, this`triggers
      ensures ok == (id == null || id in changeableComponents)
      ensures id != null && ok ==> stopCondition == id.stopCondition && triggers == id.triggers
      ensures id == null || !ok ==> stopCondition == old(stopCondition) && triggers == old(triggers)
    {
      if id != null && id in changeableComponents {
        stopCondition, triggers := id.stopCondition, id.triggers;
        return true;
      }
      return id == null;
    }

    method AskFinished(ghost c: ChangeableComponents) returns (finished: bool)
      requires Holds(c)
      ensures finished == IsFinished(c.View())
    {
      finished := stopCondition != null && stopCondition.Finished();
    }

    method AskTriggered(kind: Kind, data: Option<nat>, ghost c: ChangeableComponents) returns (fired: bool)
      requires Holds(c)
      modifies c.Repr
      ensures fired == IsTriggered(old(c.View()), kind, data) && c.View() == Asked(old(c.View()), kind, data)
    {
      if triggers.None? { return false; }
      var i := 0;
      while i < |triggers.value|
        invariant 0 <= i <= |triggers.value| && c.View() == old(c.View())
        invariant FirstFiring(old(Views(c.triggers.value)), kind, data, i) == FirstFiring(old(Views(c.triggers.value)), kind, data, 0)
      {
        fired := AskOne(i, kind, data, c);
        if fired { return; }
        i := i + 1;
      }
      return false;
    }

    /** Trigger `i` is asked, after those before it have been without firing. */
    method AskOne(i: nat, kind: Kind, data: Option<nat>, ghost c: ChangeableComponents) returns (fired: bool)
      requires Holds(c) && triggers.Some? && i < |triggers.value|
      requires FirstFiring(Views(c.triggers.value), kind, data, i) == FirstFiring(Views(c.triggers.value), kind, data, 0)
      modifies c.Repr
      ensures if fired then IsTriggered(old(c.View()), kind, data) && c.View() == Asked(old(c.View()), kind, data)
              else c.View() == old(c.View())
                   && FirstFiring(old(Views(c.triggers.value)), kind, data, i + 1) == FirstFiring(old(Views(c.triggers.value)), kind, data, 0)
    {
      ghost var was := Views(triggers.value);
      fired := triggers.value[i].IsTriggered(kind, data);
      assert Views(triggers.value) == was[i := AfterAsking(was[i], kind)];
      assert !fired ==> was[i := was[i]] == was;
    }

    method NextRunOfTriggers(ghost c: ChangeableComponents)
      requires Holds(c)
      modifies c.Repr
      ensures c.View() == NextFuzzRun(old(c.View()))
    {
      if triggers.Some? {
        var i := 0;
        while i < |triggers.value|
          invariant 0 <= i <= |triggers.value|
          invariant stopCondition != null ==> stopCondition.View() == old(stopCondition.View())
          invariant forall k :: 0 <= k < i ==> triggers.value[k].View() == NextRun(old(triggers.value[k].View()))
          invariant forall k :: i <= k < |triggers.value| ==> triggers.value[k].View() == old(triggers.value[k].View())
        {
          triggers.value[i].NextFuzzRun();
          i := i + 1;
        }
        assert Views(triggers.value) == NextRunAll(old(Views(triggers.value)));
      }
    }

    method RunBase(ghost c: ChangeableComponents)
      requires Holds(c)
      modifies c.Repr
      ensures c.View() == Run(old(c.View()))
    {
      if stopCondition != null { stopCondition.StartFuzzRound(); }
      NextRunOfTriggers(c);
    }
  }

  /** A location that delegates to a shared child after putting its own components in place. */
  class PredefinedFuzzLocation {
    const child: BaseFuzzLocation
    var changeableId: ChangeableComponents?

    ghost predicate Ready()
      reads this, child
    {
      && changeableId != null && changeableId in child.changeableComponents
      && changeableId.Valid() && child !in changeableId.Repr && this !in changeableId.Repr
    }

    constructor (child: BaseFuzzLocation)
      ensures this.child == child && changeableId == null
    {
      this.child, changeableId := child, null;
    }

    method InitChanges(config: LocationState)
      modifies this, child
      ensures Ready() && fresh(changeableId) && fresh(changeableId.Repr) && changeableId.View() == config
      ensures child.changeableComponents == old(child.changeableComponents) + [changeableId]
    {
      changeableId := child.InitChanges(config);
    }

    /** Puts this location's components in place. */
    method Apply()
      requires Ready()
      modifies child`stopCondition, child`triggers
      ensures Ready() && child.Holds(changeableId)
    {
      var ok := child.ApplyChangeableId(changeableId);
    }

    method Finished() returns (finished: bool)
      requires Ready()
      modifies child`stopCondition, child`triggers
      ensures Ready() && finished == IsFinished(old(changeableId.View())) && changeableId.View() == old(changeableId.View())
    {
      Apply();
      finished := child.AskFinished(changeableId);
    }

    method Triggered(kind: Kind, data: Option<nat>) returns (fired: bool)
      requires Ready()
      modifies child`stopCondition, child`triggers, changeableId.Repr
      ensures Ready() && fired == IsTriggered(old(changeableId.View()), kind, data)
      ensures changeableId.View() == Asked(old(changeableId.View()), kind, data)
    {
      Apply();
      fired := child.AskTriggered(kind, data, changeableId);
    }

    method NextRunShared()
      requires Ready()
      modifies child`stopCondition, child`triggers, changeableId.Repr
      ensures Ready() && changeableId.View() == NextFuzzRun(old(changeableId.View()))
    {
      Apply();
      child.NextRunOfTriggers(changeableId);
    }

    method RunShared()
      requires Ready()
      modifies child`stopCondition, child`triggers, changeableId.Repr
      ensures Ready() && changeableId.View() == Run(old(changeableId.View()))
    {
      Apply();
      child.RunBase(changeableId);
    }
  }

  // ---- Isolation ----

  datatype Op = AskFinished | AskTriggered(kind: Kind, data: Option<nat>) | DoRun | DoNextRun

  /** A new predefined location is configured on the shared child, or one of those there are is called. */
  datatype Call = Configure(config: LocationState) | Use(who: nat, op: Op)

  /** The answer of a private location to one call (true where the call has none), and its new state. */
  function Answer(l: LocationState, op: Op): bool {
    match op
    case AskFinished => IsFinished(l)
    case AskTriggered(kind, data) => IsTriggered(l, kind, data)
    case _ => true
  }

  function Moved(l: LocationState, op: Op): LocationState {
    match op
    case AskFinished => l
    case AskTriggered(kind, data) => Asked(l, kind, data)
    case DoRun => Run(l)
    case DoNextRun => NextFuzzRun(l)
  }

  /** A private location after a list of calls. */
  function PrivateState(l: LocationState, ops: seq<Op>): LocationState {
    if ops == [] then l else Moved(PrivateState(l, ops[..|ops| - 1]), ops[|ops| - 1])
  }

  /** The locations there are after some calls, in the order in which they were configured. */
  function ConfigsOf(calls: seq<Call>): seq<LocationState> {
    if calls == [] then [] else
    var last := calls[|calls| - 1];
    ConfigsOf(calls[..|calls| - 1]) + if last.Configure? then [last.config] else []
  }

  /** Only locations that there are already are called. */
  predicate InRange(calls: seq<Call>) {
    calls == [] ||
    var n := |calls| - 1;
    InRange(calls[..n]) && (calls[n].Use? ==> calls[n].who < |ConfigsOf(calls[..n])|)
  }

  /** The calls made through location `who`. */
  function CallsOf(calls: seq<Call>, who: nat): seq<Op> {
    if calls == [] then [] else
    var last := calls[|calls| - 1];
    CallsOf(calls[..|calls| - 1], who) + if last.Use? && last.who == who then [last.op] else []
  }

  /** What private locations would have answered: each one sees only its own calls. */
  function PrivateAnswers(calls: seq<Call>): (r: seq<bool>)
    requires InRange(calls)
    ensures |r| == |calls|
  {
    if calls == [] then [] else
    var n := |calls| - 1;
    PrivateAnswers(calls[..n]) + [match calls[n]
                                  case Configure(_) => true
                                  case Use(who, op) => Answer(Private(calls[..n], who), op)]
  }

  /** Location `who` as it would be if it were alone. */
  function Private(calls: seq<Call>, who: nat): LocationState
    requires who < |ConfigsOf(calls)|
  {
    PrivateState(ConfigsOf(calls)[who], CallsOf(calls, who))
  }

  /** Location `i` of `ws` delegates to `child` with the components `comps[i]`, which it shares with no one. */
  ghost predicate Sharing(child: BaseFuzzLocation, ws: seq<PredefinedFuzzLocation>, comps: seq<ChangeableComponents>)
    reads child, ws
  {
    && |ws| == |comps|
    && (forall i :: 0 <= i < |ws| ==> ws[i].child == child && ws[i].changeableId == comps[i])
    && (forall i :: 0 <= i < |ws| ==> comps[i] in child.changeableComponents && comps[i].Valid())
    && (forall i :: 0 <= i < |ws| ==> child !in comps[i].Repr)
    && (forall i, j :: 0 <= i < |ws| && 0 <= j < |ws| ==> ws[i] !in comps[j].Repr)
    && (forall i, j :: 0 <= i < j < |ws| ==> comps[i].Repr !! comps[j].Repr)
  }

  /** One call through one location: its components move as those of a private location would, and the
      components of all others stay as they are. */
  method Dispatch(child: BaseFuzzLocation, ws: seq<PredefinedFuzzLocation>, ghost comps: seq<ChangeableComponents>,
                  who: nat, op: Op) returns (answer: bool)
    requires Sharing(child, ws, comps) && who < |ws| == |comps|
    requires forall i :: 0 <= i < |comps| ==> comps[i].Valid()
    modifies child`stopCondition, child`triggers, comps[who].Repr
    ensures Sharing(child, ws, comps)
    ensures answer == Answer(old(comps[who].View()), op)
    ensures comps[who].View() == Moved(old(comps[who].View()), op)
    ensures forall i :: 0 <= i < |comps| && i != who ==> comps[i].View() == old(comps[i].View())
  {
    hide IsFinished, IsTriggered, Asked, NextFuzzRun, Run, Views;
    var w := ws[who];
    answer := true;
    match op
    case AskFinished => answer := w.Finished();
    case AskTriggered(kind, data) => answer := w.Triggered(kind, data);
    case DoRun => w.RunShared();
    case DoNextRun => w.NextRunShared();
  }

  /** Configures one more location on the child. Its components are in place afterwards; those of the
      others stay as they are. */
  method AddLocation(child: BaseFuzzLocation, ws: seq<PredefinedFuzzLocation>, ghost comps: seq<ChangeableComponents>,
                     config: LocationState) returns (w: PredefinedFuzzLocation, ghost c: ChangeableComponents)
    requires Sharing(child, ws, comps)
    requires forall i :: 0 <= i < |comps| ==> comps[i].Valid()
    modifies child
    ensures Sharing(child, ws + [w], comps + [c])
    ensures c.Valid() && fresh(c.Repr) && c.View() == config
    ensures forall i :: 0 <= i < |comps| ==> comps[i].View() == old(comps[i].View())
  {
    hide Views;
    w := new PredefinedFuzzLocation(child);
    w.InitChanges(config);
    c := w.changeableId;
  }

  lemma {:induction false} OneMoreUse(calls: seq<Call>, who: nat, op: Op)
    requires InRange(calls) && who < |ConfigsOf(calls)|
    ensures var more := calls + [Use(who, op)];
            && InRange(more) && ConfigsOf(more) == ConfigsOf(calls)
            && PrivateAnswers(more) == PrivateAnswers(calls) + [Answer(Private(calls, who), op)]
            && (forall i :: 0 <= i < |ConfigsOf(calls)| ==>
                  Private(more, i) == if i == who then Moved(Private(calls, i), op) else Private(calls, i))
  {
    hide Answer, Moved;
    var more := calls + [Use(who, op)];
    assert more[..|calls|] == calls && ConfigsOf(calls) + [] == ConfigsOf(calls);
    forall i | 0 <= i < |ConfigsOf(calls)|
      ensures Private(more, i) == if i == who then Moved(Private(calls, i), op) else Private(calls, i)
    {
      var ops := CallsOf(calls, i);
      assert (ops + [op])[..|ops|] == ops && ops + [] == ops;
    }
  }

  /** A location that there is not yet has not been called. */
  lemma {:induction false} NotCalledYet(calls: seq<Call>, who: nat)
    requires InRange(calls) && who >= |ConfigsOf(calls)|
    ensures CallsOf(calls, who) == []
  {
    if calls != [] { NotCalledYet(calls[..|calls| - 1], who); }
  }

  lemma {:induction false} OneMoreConfigure(calls: seq<Call>, config: LocationState)
    requires InRange(calls)
    ensures var more, n := calls + [Configure(config)], |ConfigsOf(calls)|;
            && InRange(more) && ConfigsOf(more) == ConfigsOf(calls) + [config]
            && PrivateAnswers(more) == PrivateAnswers(calls) + [true]
            && Private(more, n) == config && (forall i :: 0 <= i < n ==> Private(more, i) == Private(calls, i))
  {
    var more := calls + [Configure(config)];
    assert more[..|calls|] == calls;
    NotCalledYet(calls, |ConfigsOf(calls)|);
    assert CallsOf(more, |ConfigsOf(calls)|) == [];
    forall i | 0 <= i < |ConfigsOf(calls)|
      ensures Private(more, i) == Private(calls, i)
    {
      assert CallsOf(calls, i) + [] == CallsOf(calls, i);
    }
  }

  lemma {:induction false} NoCallsYet()
    ensures InRange([]) && ConfigsOf([]) == [] && PrivateAnswers([]) == []
  {
  }

  lemma {:induction false} RangeOf(calls: seq<Call>, i: nat)
    requires i < |calls| && InRange(calls)
    ensures InRange(calls[..i]) && (calls[i].Use? ==> calls[i].who < |ConfigsOf(calls[..i])|)
  {
    var n := |calls| - 1;
    if i < n {
      RangeOf(calls[..n], i);
      assert calls[..n][..i] == calls[..i];
    }
  }

  /** The components of all locations are as those of private ones would be. */
  ghost predicate InStep(comps: seq<ChangeableComponents>, calls: seq<Call>)
    requires forall i :: 0 <= i < |comps| ==> comps[i].Valid()
    reads set c, o | c in comps && o in c.Repr :: o
  {
    |comps| == |ConfigsOf(calls)| && forall i :: 0 <= i < |comps| ==> comps[i].View() == Private(calls, i)
  }

  /** Isolation: for any number of predefined locations on one child, configured at any time, and any
      interleaving of calls, each call is answered exactly as a location of its own, having seen only the
      calls made to it, would. */
  method SharedSession(calls: seq<Call>) returns (answers: seq<bool>)
    requires InRange(calls)
    ensures answers == PrivateAnswers(calls)
  {
    hide Answer, Moved, Views, Sharing, Private, CallsOf, ConfigsOf, InRange, PrivateAnswers;
    NoCallsYet();
    var child := new BaseFuzzLocation();
    var ws: seq<PredefinedFuzzLocation> := [];
    ghost var comps: seq<ChangeableComponents> := [];
    SharingNone(child);
    answers := [];
    ghost var done: seq<Call> := [];
    var i := 0;
    while i < |calls|
      invariant 0 <= i <= |calls| && done == calls[..i] && InRange(done)
      invariant fresh(child) && Sharing(child, ws, comps) && |ws| == |comps|
      invariant forall k :: 0 <= k < |comps| ==> comps[k].Valid() && fresh(comps[k].Repr)
      invariant InStep(comps, done) && answers == PrivateAnswers(done)
    {
      RangeOf(calls, i);
      match calls[i] {
        case Configure(config) =>
          var w;
          ghost var c;
          w, c := AddLocation(child, ws, comps, config);
          OneMoreConfigure(done, config);
          ws, comps, answers := ws + [w], comps + [c], answers + [true];
        case Use(who, op) =>
          var answer := Dispatch(child, ws, comps, who, op);
          OneMoreUse(done, who, op);
          answers := answers + [answer];
      }
      done, i := done + [calls[i]], i + 1;
    }
    assert calls[..i] == calls;
  }

  lemma {:induction false} SharingNone(child: BaseFuzzLocation)
    ensures Sharing(child, [], [])
  {
  }

  // ---- What a caller sees of a shared location ----

  /** How often location `who` was run. */
  function RunsThrough(calls: seq<Call>, who: nat): nat {
    if calls == [] then 0 else
    var last := calls[|calls| - 1];
    RunsThrough(calls[..|calls| - 1], who) + if last == Use(who, DoRun) then 1 else 0
  }

  function CountRuns(ops: seq<Op>): nat {
    if ops == [] then 0 else CountRuns(ops[..|ops| - 1]) + if ops[|ops| - 1].DoRun? then 1 else 0
  }

  lemma {:induction false} RunsAreCounted(calls: seq<Call>, who: nat)
    ensures CountRuns(CallsOf(calls, who)) == RunsThrough(calls, who) <= |calls|
  {
    if calls != [] {
      var n := |calls| - 1;
      RunsAreCounted(calls[..n], who);
      var ops := CallsOf(calls[..n], who);
      assert ops + [] == ops;
      if calls[n].Use? && calls[n].who == who { assert (ops + [calls[n].op])[..|ops|] == ops; }
    }
  }

  lemma {:induction false} StopAfter(l: LocationState, ops: seq<Op>)
    requires l.stop.Some? ==> l.stop.value.current == 0 && CountRuns(ops) < 0x8000_0000
    ensures PrivateState(l, ops).stop == if l.stop.None? then None else Some(l.stop.value.(current := CountRuns(ops)))
  {
    hide Asked;
    if ops != [] {
      var n := |ops| - 1;
      StopAfter(l, ops[..n]);
      if ops[n].AskTriggered? { AskedKeepsStop(PrivateState(l, ops[..n]), ops[n].kind, ops[n].data); }
    }
  }

  lemma {:induction false} AskedKeepsStop(l: LocationState, kind: Kind, data: Option<nat>)
    ensures Asked(l, kind, data).stop == l.stop
  {
  }

  /** In a shared session a location with stop condition count|n says that it is finished iff it has been run
      more than n times, through its own wrapper; one without a stop condition never does. */
  lemma {:induction false} FinishedIff(calls: seq<Call>, n: nat, who: nat)
    requires InRange(calls) && n < |calls| < 0x8000_0000 && calls[n] == Use(who, AskFinished)
    requires who < |ConfigsOf(calls[..n])|
    requires var stop := ConfigsOf(calls[..n])[who].stop; stop.Some? ==> stop.value.current == 0
    ensures var stop := ConfigsOf(calls[..n])[who].stop;
            PrivateAnswers(calls)[n] <==> stop.Some? && RunsThrough(calls[..n], who) > stop.value.maxRuns
    decreases |calls|
  {
    hide CallsOf, ConfigsOf, PrivateState, RunsThrough, CountRuns;
    var k := |calls| - 1;
    if n < k {
      assert calls[..k][..n] == calls[..n];
      FinishedIff(calls[..k], n, who);
    } else {
      RunsAreCounted(calls[..n], who);
      StopAfter(ConfigsOf(calls[..n])[who], CallsOf(calls[..n], who));
    }
  }
}
