/** The fuzz loop: snapshot, restore, log prefixes, logger runs, and the list of locations that shrinks
    as their stop conditions are reached. */
module FuzzController {
  import opened Bytes
  import L = FuzzLocations

  datatype Reason = Breakpoint | Exit | Terminated

  datatype Stop = Stop(reason: Reason, address: nat)

  /** A fuzz location and its number in the description. */
  datatype Location = Location(id: nat, state: L.LocationState)

  /** What the loop does to its loggers, its snapshot and the target. */
  datatype Event =
    | StartRun(prefix: nat)
    | FinishRun(prefix: nat)
    | ErrorLogged(prefix: nat)
    | LocationRun(id: nat, prefix: nat)
    | Snapshot
    | Restore
    | Continue(prefix: nat)

  datatype State = State(locations: seq<Location>, snapshot: bool, prefix: nat, log: seq<Event>)

  function Log(s: State, e: Event): State { s.(log := s.log + [e]) }

  // ---- One round of the locations ----

  /** One location asked at a trigger: None if it is finished and goes, else what it has become. */
  function Invoked(l: L.LocationState, kind: L.Kind): Option<L.LocationState> {
    if L.IsFinished(l) then None
    else if L.IsTriggered(l, kind, None) then Some(L.Run(L.Asked(l, kind, None)))
    else Some(L.Asked(l, kind, None))
  }

  predicate Runs(l: L.LocationState, kind: L.Kind) { !L.IsFinished(l) && L.IsTriggered(l, kind, None) }

  /** InvokeFuzzLocations on the list: what stays of it, and the locations that were run. */
  function Kept(ls: seq<Location>, kind: L.Kind): seq<Location> {
    if ls == [] then [] else
    var rest := Kept(ls[1..], kind);
    match Invoked(ls[0].state, kind)
    case None => rest
    case Some(state) => [Location(ls[0].id, state)] + rest
  }

  function RunEvents(ls: seq<Location>, kind: L.Kind, prefix: nat): seq<Event> {
    if ls == [] then [] else
    (if Runs(ls[0].state, kind) then [LocationRun(ls[0].id, prefix)] else []) + RunEvents(ls[1..], kind, prefix)
  }

  function Invoke(s: State, kind: L.Kind): State {
    s.(locations := Kept(s.locations, kind), log := s.log + RunEvents(s.locations, kind, s.prefix))
  }

  function NextRunAll(ls: seq<Location>): (r: seq<Location>)
    ensures |r| == |ls|
  {
    seq(|ls|, i requires 0 <= i < |ls| => Location(ls[i].id, L.NextFuzzRun(ls[i].state)))
  }

  function RestoreAndFuzz(s: State): State {
    var a := Invoke(s, L.End);
    var b := Log(Log(a, FinishRun(a.prefix)), Restore);
    var c := b.(prefix := b.prefix + 1);
    var d := Log(c, StartRun(c.prefix));
    Invoke(d.(locations := NextRunAll(d.locations)), L.Start)
  }

  // ---- The loop ----

  /** Where the description wants the snapshot taken and restored. */
  datatype Places = Places(snapshot: nat, restore: nat)

  function TakeSnapshot(s: State, p: Places, stop: Stop): State {
    if !s.snapshot && p.snapshot == stop.address && stop.reason.Breakpoint?
    then Log(Log(s, StartRun(s.prefix)), Snapshot).(snapshot := true)
    else s
  }

  function MaybeRestore(s: State, p: Places, stop: Stop): State {
    if s.snapshot && stop.reason.Breakpoint? && p.restore == stop.address then RestoreAndFuzz(s)
    else if s.snapshot && !stop.reason.Breakpoint? then RestoreAndFuzz(Log(s, ErrorLogged(s.prefix)))
    else s
  }

  /** One pass of the loop at a debugger stop. */
  function Iterate(s: State, p: Places, stop: Stop): State {
    var t := MaybeRestore(TakeSnapshot(s, p, stop), p, stop);
    Log(t, Continue(t.prefix))
  }

  /** The loop over the stops the debugger reports; it ends when no location is left. */
  function Loop(s: State, p: Places, stops: seq<Stop>): State
    decreases |stops|
  {
    if stops == [] || s.locations == [] then s else Loop(Iterate(s, p, stops[0]), p, stops[1..])
  }

  function Start(locations: seq<Location>, snapshot: bool): State {
    State(locations, snapshot, 1, [])
  }

  /** The loop over one stop more. */
  lemma {:induction false} LoopSnoc(s: State, p: Places, stops: seq<Stop>, last: Stop)
    ensures var t := Loop(s, p, stops);
            Loop(s, p, stops + [last]) == if t.locations == [] then t else Iterate(t, p, last)
    decreases |stops|
  {
    hide Iterate;
    if stops == [] {
      assert [last][1..] == [];
    } else if s.locations != [] {
      assert (stops + [last])[1..] == stops[1..] + [last];
      LoopSnoc(Iterate(s, p, stops[0]), p, stops[1..], last);
    }
  }

  // ---- Bracketing ----

  /** Who is open after a log: no run, the run with some prefix, or the log is not bracketed. */
  datatype Bracket = Closed(runs: nat) | Open(runs: nat) | Broken

  /** Run number k opens and closes under prefix k; locations run and errors are logged inside. */
  function Next(b: Bracket, e: Event): Bracket {
    match e
    case StartRun(p) => if b.Closed? && p == b.runs + 1 then Open(p) else Broken
    case FinishRun(p) => if b.Open? && p == b.runs then Closed(p) else Broken
    case ErrorLogged(p) => if b.Open? && p == b.runs then b else Broken
    case LocationRun(_, p) => if b.Open? && p == b.runs then b else Broken
    case _ => b
  }

  function Brackets(log: seq<Event>): Bracket {
    if log == [] then Closed(0) else Next(Brackets(log[..|log| - 1]), log[|log| - 1])
  }

  predicate Bracketed(s: State) {
    s.prefix >= 1 && Brackets(s.log) == if s.snapshot then Open(s.prefix) else Closed(s.prefix - 1)
  }

  lemma {:induction false} LogOne(log: seq<Event>, e: Event)
    ensures Brackets(log + [e]) == Next(Brackets(log), e)
  {
    assert (log + [e])[..|log|] == log;
  }

  /** What the first location adds to a log, and then the others. */
  lemma {:induction false} FrontEvents(log: seq<Event>, ls: seq<Location>, kind: L.Kind, prefix: nat)
    ensures log + RunEvents(ls, kind, prefix)
         == if ls == [] then log
            else if Runs(ls[0].state, kind) then (log + [LocationRun(ls[0].id, prefix)]) + RunEvents(ls[1..], kind, prefix)
            else log + RunEvents(ls[1..], kind, prefix)
  {
    hide Runs;
    if ls == [] {
      assert log + [] == log;
    } else {
      var rest := RunEvents(ls[1..], kind, prefix);
      assert [] + rest == rest;
      assert (log + [LocationRun(ls[0].id, prefix)]) + rest == log + ([LocationRun(ls[0].id, prefix)] + rest);
    }
  }

  /** Location runs inside an open run keep it open. */
  lemma {:induction false} RunEventsInside(log: seq<Event>, ls: seq<Location>, kind: L.Kind, prefix: nat)
    requires Brackets(log) == Open(prefix)
    ensures Brackets(log + RunEvents(ls, kind, prefix)) == Open(prefix)
    decreases |ls|
  {
    hide Runs, RunEvents, Brackets;
    FrontEvents(log, ls, kind, prefix);
    if ls != [] {
      if Runs(ls[0].state, kind) {
        var e := LocationRun(ls[0].id, prefix);
        LogOne(log, e);
        RunEventsInside(log + [e], ls[1..], kind, prefix);
      } else {
        RunEventsInside(log, ls[1..], kind, prefix);
      }
    }
  }

  lemma {:induction false} RestoreBracketed(s: State)
    requires Brackets(s.log) == Open(s.prefix)
    ensures var t := RestoreAndFuzz(s);
            Brackets(t.log) == Open(t.prefix) && t.prefix == s.prefix + 1 && t.snapshot == s.snapshot
  {
    hide Brackets;
    RunEventsInside(s.log, s.locations, L.End, s.prefix);
    var a := Invoke(s, L.End);
    LogOne(a.log, FinishRun(a.prefix));
    LogOne(a.log + [FinishRun(a.prefix)], Restore);
    var log := a.log + [FinishRun(a.prefix)] + [Restore];
    LogOne(log, StartRun(s.prefix + 1));
    RunEventsInside(log + [StartRun(s.prefix + 1)], NextRunAll(a.locations), L.Start, s.prefix + 1);
  }

  lemma {:induction false} SnapshotBracketed(s: State, p: Places, stop: Stop)
    requires Bracketed(s)
    ensures Bracketed(TakeSnapshot(s, p, stop)) && (s.snapshot ==> TakeSnapshot(s, p, stop) == s)
  {
    hide Brackets;
    LogOne(s.log, StartRun(s.prefix));
    LogOne(s.log + [StartRun(s.prefix)], Snapshot);
  }

  lemma {:induction false} MaybeRestoreBracketed(s: State, p: Places, stop: Stop)
    requires Bracketed(s)
    ensures Bracketed(MaybeRestore(s, p, stop)) && MaybeRestore(s, p, stop).snapshot == s.snapshot
  {
    hide RestoreAndFuzz, Brackets;
    LogOne(s.log, ErrorLogged(s.prefix));
    if s.snapshot {
      RestoreBracketed(s);
      RestoreBracketed(Log(s, ErrorLogged(s.prefix)));
    }
  }

  lemma {:induction false} IterateBracketed(s: State, p: Places, stop: Stop)
    requires Bracketed(s)
    ensures Bracketed(Iterate(s, p, stop)) && (s.snapshot ==> Iterate(s, p, stop).snapshot)
  {
    hide TakeSnapshot, MaybeRestore, Brackets;
    SnapshotBracketed(s, p, stop);
    MaybeRestoreBracketed(TakeSnapshot(s, p, stop), p, stop);
    var t := MaybeRestore(TakeSnapshot(s, p, stop), p, stop);
    LogOne(t.log, Continue(t.prefix));
  }

  lemma {:induction false} LoopBracketed(s: State, p: Places, stops: seq<Stop>)
    requires Bracketed(s)
    ensures Bracketed(Loop(s, p, stops))
    decreases |stops|
  {
    if stops != [] && s.locations != [] {
      IterateBracketed(s, p, stops[0]);
      LoopBracketed(Iterate(s, p, stops[0]), p, stops[1..]);
    }
  }

  /** For a controller built without a snapshot, whatever its locations and whatever the debugger
      reports: a snapshot exists iff a logger run is open, run k starts and finishes under prefix k, and
      every location run and every error-log write falls inside an open run under its prefix. */
  lemma {:induction false} RunsAreBracketed(locations: seq<Location>, p: Places, stops: seq<Stop>)
    ensures var s := Loop(Start(locations, false), p, stops);
            s.prefix >= 1 && Brackets(s.log) == if s.snapshot then Open(s.prefix) else Closed(s.prefix - 1)
  {
    LoopBracketed(Start(locations, false), p, stops);
  }

  lemma {:induction false} BrokenStays(log: seq<Event>, more: seq<Event>)
    requires Brackets(log).Broken?
    ensures Brackets(log + more).Broken?
    decreases |more|
  {
    if more == [] {
      assert log + [] == log;
    } else {
      LogOne(log, more[0]);
      BrokenStays(log + [more[0]], more[1..]);
      assert (log + [more[0]]) + more[1..] == log + more;
    }
  }

  /** What a restore leaves, and what it adds to the log. */
  lemma {:induction false} RestoreShape(s: State)
    ensures var t := RestoreAndFuzz(s);
            var next := NextRunAll(Kept(s.locations, L.End));
            && t.locations == Kept(next, L.Start) && t.prefix == s.prefix + 1 && t.snapshot == s.snapshot
            && t.log == (s.log + RunEvents(s.locations, L.End, s.prefix))
                        + [FinishRun(s.prefix), Restore, StartRun(s.prefix + 1)]
                        + RunEvents(next, L.Start, s.prefix + 1)
  {
    hide Kept, RunEvents, NextRunAll;
  }

  /** Location runs outside a run do not open one. */
  lemma {:induction false} RunEventsOutside(log: seq<Event>, ls: seq<Location>, kind: L.Kind, prefix: nat)
    requires !Brackets(log).Open?
    ensures !Brackets(log + RunEvents(ls, kind, prefix)).Open?
    decreases |ls|
  {
    hide Runs, RunEvents, Brackets;
    FrontEvents(log, ls, kind, prefix);
    if ls != [] {
      if Runs(ls[0].state, kind) {
        var e := LocationRun(ls[0].id, prefix);
        LogOne(log, e);
        RunEventsOutside(log + [e], ls[1..], kind, prefix);
      } else {
        RunEventsOutside(log, ls[1..], kind, prefix);
      }
    }
  }

  /** Finishing a run that was never started breaks the bracketing for good. */
  lemma {:induction false} RestoreWithoutRun(s: State)
    requires !Brackets(s.log).Open?
    ensures var t := RestoreAndFuzz(s); Brackets(t.log).Broken? && Restore in t.log && t.snapshot == s.snapshot
  {
    hide RestoreAndFuzz, RunEvents;
    RestoreShape(s);
    var t := RestoreAndFuzz(s);
    var before := s.log + RunEvents(s.locations, L.End, s.prefix);
    var after := [StartRun(s.prefix + 1)] + RunEvents(NextRunAll(Kept(s.locations, L.End)), L.Start, s.prefix + 1);
    assert t.log[|before| + 1] == Restore;
    RunEventsOutside(s.log, s.locations, L.End, s.prefix);
    LogOne(before, FinishRun(s.prefix));
    BrokenStays(before + [FinishRun(s.prefix)], [Restore] + after);
    assert t.log == (before + [FinishRun(s.prefix)]) + ([Restore] + after);
  }

  /** Either nothing has been restored and nothing has been opened, or the log is broken. */
  predicate NeverOpened(s: State) {
    && s.snapshot
    && if Restore in s.log then Brackets(s.log).Broken? else !Brackets(s.log).Broken? && !Brackets(s.log).Open?
  }

  lemma {:induction false} IterateWithSnapshot(s: State, p: Places, stop: Stop)
    requires NeverOpened(s)
    ensures NeverOpened(Iterate(s, p, stop))
  {
    hide RestoreAndFuzz, Brackets;
    LogOne(s.log, ErrorLogged(s.prefix));
    RestoreWithoutRun(s);
    RestoreWithoutRun(Log(s, ErrorLogged(s.prefix)));
    var t := MaybeRestore(s, p, stop);
    LogOne(t.log, Continue(t.prefix));
  }

  lemma {:induction false} LoopWithSnapshot(s: State, p: Places, stops: seq<Stop>)
    requires NeverOpened(s)
    ensures NeverOpened(Loop(s, p, stops))
    decreases |stops|
  {
    if stops != [] && s.locations != [] {
      IterateWithSnapshot(s, p, stops[0]);
      LoopWithSnapshot(Iterate(s, p, stops[0]), p, stops[1..]);
    }
  }

  /** A stop at which a controller that has a snapshot restores it. */
  predicate Restoring(p: Places, stop: Stop) { !stop.reason.Breakpoint? || stop.address == p.restore }

  lemma {:induction false} LoopGrows(s: State, p: Places, stops: seq<Stop>)
    ensures s.log <= Loop(s, p, stops).log
    decreases |stops|
  {
    hide RestoreAndFuzz;
    if stops != [] && s.locations != [] {
      RestoreShape(s);
      RestoreShape(Log(s, ErrorLogged(s.prefix)));
      var t := TakeSnapshot(s, p, stops[0]);
      RestoreShape(t);
      RestoreShape(Log(t, ErrorLogged(t.prefix)));
      LoopGrows(Iterate(s, p, stops[0]), p, stops[1..]);
    }
  }

  lemma {:induction false} RestoreLogged(s: State)
    ensures Restore in RestoreAndFuzz(s).log
  {
    hide Kept, RunEvents, NextRunAll, RestoreAndFuzz;
    RestoreShape(s);
    var before := s.log + RunEvents(s.locations, L.End, s.prefix);
    assert RestoreAndFuzz(s).log[|before| + 1] == Restore;
  }

  /** With a snapshot from the start, something is restored iff the loop is entered and some stop is one
      at which to restore. */
  lemma {:induction false} RestoresIff(s: State, p: Places, stops: seq<Stop>)
    requires s.snapshot && Restore !in s.log
    ensures Restore in Loop(s, p, stops).log
       <==> s.locations != [] && exists i :: 0 <= i < |stops| && Restoring(p, stops[i])
    decreases |stops|
  {
    hide RestoreAndFuzz;
    if stops != [] && s.locations != [] {
      var t := Iterate(s, p, stops[0]);
      if Restoring(p, stops[0]) {
        RestoreLogged(s);
        RestoreLogged(Log(s, ErrorLogged(s.prefix)));
        assert Restore in t.log;
        LoopGrows(t, p, stops[1..]);
      } else {
        RestoresIff(t, p, stops[1..]);
        if exists i :: 0 <= i < |stops| && Restoring(p, stops[i]) {
          var i :| 0 <= i < |stops| && Restoring(p, stops[i]);
          assert stops[1..][i - 1] == stops[i];
        }
      }
    }
  }

  /** A controller that is handed a snapshot never opens the run it finishes at its first restore: its log
      is out of bracket exactly if there is a location to fuzz and the debugger reports a stop at the
      restore address or one that is not a breakpoint. */
  lemma {:induction false} BuiltWithSnapshot(locations: seq<Location>, p: Places, stops: seq<Stop>)
    ensures Brackets(Loop(Start(locations, true), p, stops).log).Broken?
       <==> locations != [] && exists i :: 0 <= i < |stops| && Restoring(p, stops[i])
  {
    LoopWithSnapshot(Start(locations, true), p, stops);
    RestoresIff(Start(locations, true), p, stops);
  }

  // ---- Restores ----

  function Restores(log: seq<Event>): nat {
    if log == [] then 0 else Restores(log[..|log| - 1]) + if log[|log| - 1].Restore? then 1 else 0
  }

  lemma {:induction false} RestoresAppend(a: seq<Event>, b: seq<Event>)
    ensures Restores(a + b) == Restores(a) + Restores(b)
    decreases |b|
  {
    if b == [] {
      assert a + b == a;
    } else {
      RestoresAppend(a, b[..|b| - 1]);
      assert (a + b)[..|a + b| - 1] == a + b[..|b| - 1];
    }
  }

  lemma {:induction false} RunsAreNoRestores(ls: seq<Location>, kind: L.Kind, prefix: nat)
    ensures Restores(RunEvents(ls, kind, prefix)) == 0
  {
    hide Runs;
    if ls != [] {
      var e := LocationRun(ls[0].id, prefix);
      RunsAreNoRestores(ls[1..], kind, prefix);
      RestoresAppend([e], RunEvents(ls[1..], kind, prefix));
      CountOther([], e);
      assert [] + [e] == [e] && [] + RunEvents(ls[1..], kind, prefix) == RunEvents(ls[1..], kind, prefix);
    }
  }

  lemma {:induction false} RestoreCounts(s: State)
    ensures Restores(RestoreAndFuzz(s).log) == Restores(s.log) + 1 && RestoreAndFuzz(s).prefix == s.prefix + 1
  {
    hide Kept, RunEvents, NextRunAll, RestoreAndFuzz;
    RestoreShape(s);
    var next := NextRunAll(Kept(s.locations, L.End));
    var ends, a, b, c := RunEvents(s.locations, L.End, s.prefix), FinishRun(s.prefix), Restore, StartRun(s.prefix + 1);
    RunsAreNoRestores(s.locations, L.End, s.prefix);
    RunsAreNoRestores(next, L.Start, s.prefix + 1);
    RestoresAppend(s.log, ends);
    CountOther(s.log + ends, a);
    CountOther(s.log + ends + [a], b);
    CountOther(s.log + ends + [a] + [b], c);
    assert s.log + ends + [a] + [b] + [c] == s.log + ends + [a, b, c];
    RestoresAppend(s.log + ends + [a, b, c], RunEvents(next, L.Start, s.prefix + 1));
  }

  /** The prefix is one ahead of the number of restores, always. */
  lemma {:induction false} PrefixCountsRestores(s: State, p: Places, stops: seq<Stop>)
    requires s.prefix == Restores(s.log) + 1
    ensures var t := Loop(s, p, stops); t.prefix == Restores(t.log) + 1
    decreases |stops|
  {
    hide RestoreAndFuzz, Restores;
    if stops != [] && s.locations != [] {
      OneRestoreAtMost(s, p, stops[0]);
      PrefixCountsRestores(Iterate(s, p, stops[0]), p, stops[1..]);
    }
  }

  lemma {:induction false} CountOther(log: seq<Event>, e: Event)
    ensures Restores(log + [e]) == Restores(log) + if e.Restore? then 1 else 0
  {
    assert (log + [e])[..|log|] == log;
  }

  lemma {:induction false} OneRestoreAtMost(s: State, p: Places, stop: Stop)
    ensures var t := Iterate(s, p, stop);
            Restores(s.log) <= Restores(t.log) <= Restores(s.log) + 1
            && t.prefix - s.prefix == Restores(t.log) - Restores(s.log)
  {
    hide RestoreAndFuzz, Restores;
    CountOther(s.log, StartRun(s.prefix));
    CountOther(s.log + [StartRun(s.prefix)], Snapshot);
    var a := TakeSnapshot(s, p, stop);
    CountOther(a.log, ErrorLogged(a.prefix));
    RestoreCounts(a);
    RestoreCounts(Log(a, ErrorLogged(a.prefix)));
    var t := MaybeRestore(a, p, stop);
    CountOther(t.log, Continue(t.prefix));
  }

  // ---- Numbers of locations ----

  function IdsOf(ls: seq<Location>): seq<nat> {
    if ls == [] then [] else [ls[0].id] + IdsOf(ls[1..])
  }

  predicate DistinctIds(ids: seq<nat>) { forall i, j :: 0 <= i < j < |ids| ==> ids[i] != ids[j] }

  // ---- The class ----

  /** The list after the asking loop: finished locations are still in it. */
  function AskedAll(ls: seq<Location>, kind: L.Kind): (r: seq<Location>)
    ensures |r| == |ls|
  {
    seq(|ls|, i requires 0 <= i < |ls| => match Invoked(ls[i].state, kind)
                                          case None => ls[i]
                                          case Some(state) => Location(ls[i].id, state))
  }

  function FinishedIds(ls: seq<Location>): seq<nat> {
    if ls == [] then [] else (if L.IsFinished(ls[0].state) then [ls[0].id] else []) + FinishedIds(ls[1..])
  }

  /** List.Remove: takes out the first occurrence. */
  function Remove(ls: seq<Location>, id: nat): seq<Location> {
    if ls == [] then [] else if ls[0].id == id then ls[1..] else [ls[0]] + Remove(ls[1..], id)
  }

  function RemoveAll(ls: seq<Location>, ids: seq<nat>): seq<Location>
    decreases |ids|
  {
    if ids == [] then ls else RemoveAll(Remove(ls, ids[0]), ids[1..])
  }

  lemma {:induction false} RemoveOthers(l: Location, ls: seq<Location>, ids: seq<nat>)
    requires l.id !in ids
    ensures RemoveAll([l] + ls, ids) == [l] + RemoveAll(ls, ids)
    decreases |ids|
  {
    if ids != [] {
      assert ([l] + ls)[1..] == ls && ids[0] != l.id;
      RemoveOthers(l, Remove(ls, ids[0]), ids[1..]);
    }
  }

  lemma {:induction false} FinishedIdsAreIds(ls: seq<Location>)
    ensures forall id | id in FinishedIds(ls) :: id in IdsOf(ls)
  {
    if ls != [] { FinishedIdsAreIds(ls[1..]); }
  }

  lemma {:induction false} GoneIfFinished(l: L.LocationState, kind: L.Kind)
    ensures Invoked(l, kind).None? <==> L.IsFinished(l)
  {
  }

  /** Asking everyone and then removing the finished ones keeps exactly the others. */
  lemma {:induction false} AskThenRemove(ls: seq<Location>, kind: L.Kind)
    requires DistinctIds(IdsOf(ls))
    ensures RemoveAll(AskedAll(ls, kind), FinishedIds(ls)) == Kept(ls, kind)
  {
    hide L.IsFinished, Invoked;
    if ls != [] {
      var l, rest := ls[0], ls[1..];
      GoneIfFinished(l.state, kind);
      assert IdsOf(ls)[0] == l.id && IdsOf(ls)[1..] == IdsOf(rest);
      AskThenRemove(rest, kind);
      var asked := AskedAll(ls, kind);
      assert asked == [asked[0]] + AskedAll(rest, kind);
      FinishedIdsAreIds(rest);
      if L.IsFinished(l.state) {
        assert FinishedIds(ls)[0] == l.id && FinishedIds(ls)[1..] == FinishedIds(rest);
        assert Remove(asked, l.id) == asked[1..] == AskedAll(rest, kind);
      } else {
        assert FinishedIds(ls) == FinishedIds(rest);
        RemoveOthers(asked[0], AskedAll(rest, kind), FinishedIds(rest));
      }
    }
  }

  lemma {:induction false} OneAsked(ls: seq<Location>, kind: L.Kind, prefix: nat, log: seq<Event>)
    requires ls != []
    ensures FinishedIds(ls) == (if L.IsFinished(ls[0].state) then [ls[0].id] else []) + FinishedIds(ls[1..])
    ensures (log + if Runs(ls[0].state, kind) then [LocationRun(ls[0].id, prefix)] else []) + RunEvents(ls[1..], kind, prefix)
         == log + RunEvents(ls, kind, prefix)
  {
    hide L.IsFinished, Runs;
  }

  lemma {:induction false} NoneAsked(kind: L.Kind, prefix: nat)
    ensures FinishedIds([]) == [] && RunEvents([], kind, prefix) == []
  {
  }

  lemma {:induction false} IdsAt(ls: seq<Location>)
    ensures |IdsOf(ls)| == |ls| && forall i :: 0 <= i < |ls| ==> IdsOf(ls)[i] == ls[i].id
  {
    if ls != [] { IdsAt(ls[1..]); }
  }

  /** Invoking and advancing locations leaves their numbers distinct. */
  lemma {:induction false} KeptDistinct(ls: seq<Location>, kind: L.Kind)
    requires DistinctIds(IdsOf(ls))
    ensures DistinctIds(IdsOf(Kept(ls, kind))) && forall id | id in IdsOf(Kept(ls, kind)) :: id in IdsOf(ls)
  {
    if ls != [] {
      assert IdsOf(ls)[0] == ls[0].id && IdsOf(ls)[1..] == IdsOf(ls[1..]);
      KeptDistinct(ls[1..], kind);
      var kept, rest := Kept(ls, kind), Kept(ls[1..], kind);
      if Invoked(ls[0].state, kind).Some? {
        assert kept[0].id == ls[0].id && kept[1..] == rest;
        assert forall i :: 0 <= i < |IdsOf(rest)| ==> IdsOf(rest)[i] in IdsOf(ls[1..]);
      }
    }
  }

  lemma {:induction false} NextRunDistinct(ls: seq<Location>)
    requires DistinctIds(IdsOf(ls))
    ensures DistinctIds(IdsOf(NextRunAll(ls)))
  {
    IdsAt(ls);
    IdsAt(NextRunAll(ls));
  }

  class FuzzController {
    var locations: seq<Location>
    var snapshot: bool
    var loggerPrefix: nat
    const places: Places
    /** What the loggers, the snapshot and the target have been told. */
    ghost var log: seq<Event>

    ghost predicate Valid()
      reads this
    {
      DistinctIds(IdsOf(locations))
    }

    ghost function View(): State
      reads this
    {
      State(locations, snapshot, loggerPrefix, log)
    }

    constructor (locations: seq<Location>, snapshot: bool, places: Places)
      requires DistinctIds(IdsOf(locations))
      ensures Valid() && View() == Start(locations, snapshot) && this.places == places
    {
      this.locations, this.snapshot, loggerPrefix, this.places, log := locations, snapshot, 1, places, [];
    }

    method InvokeFuzzLocations(kind: L.Kind)
      requires Valid()
      modifies this`locations, this`log
      ensures Valid() && View() == Invoke(old(View()), kind)
    {
      var toRemove := AskLocations(kind);
      AskThenRemove(old(locations), kind);
      KeptDistinct(old(locations), kind);
      var i := 0;
      while i < |toRemove|
        invariant 0 <= i <= |toRemove|
        invariant RemoveAll(locations, toRemove[i..]) == Kept(old(locations), kind)
        invariant log == old(log) + RunEvents(old(locations), kind, loggerPrefix)
      {
        assert toRemove[i..][0] == toRemove[i] && toRemove[i..][1..] == toRemove[i + 1..];
        locations := Remove(locations, toRemove[i]);
        i := i + 1;
      }
      assert toRemove[i..] == [];
    }

    /** The asking loop: finished locations are noted, triggered ones run. */
    method AskLocations(kind: L.Kind) returns (toRemove: seq<nat>)
      modifies this`locations, this`log
      ensures locations == AskedAll(old(locations), kind) && toRemove == FinishedIds(old(locations))
      ensures log == old(log) + RunEvents(old(locations), kind, loggerPrefix)
    {
      hide FinishedIds, RunEvents;
      toRemove := [];
      var i := 0;
      while i < |locations|
        invariant 0 <= i <= |locations| == |old(locations)|
        invariant forall k :: 0 <= k < i ==> locations[k] == AskedAll(old(locations), kind)[k]
        invariant forall k :: i <= k < |locations| ==> locations[k] == old(locations)[k]
        invariant toRemove + FinishedIds(old(locations)[i..]) == FinishedIds(old(locations))
        invariant log + RunEvents(old(locations)[i..], kind, loggerPrefix) == old(log) + RunEvents(old(locations), kind, loggerPrefix)
      {
        ghost var logged, rest := log, old(locations)[i..];
        assert rest[0] == locations[i] && rest[1..] == old(locations)[i + 1..];
        var gone := AskLocation(i, kind);
        OneAsked(rest, kind, loggerPrefix, logged);
        if gone { toRemove := toRemove + [locations[i].id]; }
        i := i + 1;
      }
      assert old(locations)[i..] == [];
      NoneAsked(kind, loggerPrefix);
    }

    method AskLocation(i: nat, kind: L.Kind) returns (gone: bool)
      requires i < |locations|
      modifies this`locations, this`log
      ensures locations == old(locations)[i := AskedAll(old(locations), kind)[i]]
      ensures gone == L.IsFinished(old(locations)[i].state)
      ensures log == old(log) + if Runs(old(locations)[i].state, kind) then [LocationRun(old(locations)[i].id, loggerPrefix)] else []
    {
      hide L.IsFinished, L.IsTriggered, L.Asked, L.Run;
      var l := locations[i];
      gone := L.IsFinished(l.state);
      if !gone {
        if L.IsTriggered(l.state, kind, None) {
          locations := locations[i := Location(l.id, L.Run(L.Asked(l.state, kind, None)))];
          log := log + [LocationRun(l.id, loggerPrefix)];
        } else {
          locations := locations[i := Location(l.id, L.Asked(l.state, kind, None))];
        }
      }
    }

    method LoggerStartFuzzRun()
      modifies this`log
      ensures log == old(log) + [StartRun(loggerPrefix)]
    {
      log := log + [StartRun(loggerPrefix)];
    }

    method LoggerFinishFuzzRun()
      modifies this`log
      ensures log == old(log) + [FinishRun(loggerPrefix)]
    {
      log := log + [FinishRun(loggerPrefix)];
    }

    method NextFuzzRun()
      modifies this`locations
      ensures locations == NextRunAll(old(locations))
    {
      var i := 0;
      while i < |locations|
        invariant 0 <= i <= |locations| == |old(locations)|
        invariant forall k :: 0 <= k < i ==> locations[k] == NextRunAll(old(locations))[k]
        invariant forall k :: i <= k < |locations| ==> locations[k] == old(locations)[k]
      {
        locations := locations[i := Location(locations[i].id, L.NextFuzzRun(locations[i].state))];
        i := i + 1;
      }
    }

    method RestoreAndFuzzNext()
      requires Valid()
      modifies this
      ensures Valid() && View() == RestoreAndFuzz(old(View()))
    {
      InvokeFuzzLocations(L.End);
      LoggerFinishFuzzRun();
      log := log + [Restore];
      loggerPrefix := loggerPrefix + 1;
      LoggerStartFuzzRun();
      NextRunDistinct(locations);
      NextFuzzRun();
      InvokeFuzzLocations(L.Start);
    }

    /** One pass of the loop at the last debugger stop. */
    method Pass(stop: Stop)
      requires Valid()
      modifies this
      ensures Valid() && View() == Iterate(old(View()), places, stop)
    {
      hide RestoreAndFuzz;
      if !snapshot && places.snapshot == stop.address && stop.reason == Breakpoint {
        LoggerStartFuzzRun();
        log := log + [Snapshot];
        snapshot := true;
      }
      if snapshot && stop.reason == Breakpoint && places.restore == stop.address {
        RestoreAndFuzzNext();
      } else if snapshot && stop.reason != Breakpoint {
        log := log + [ErrorLogged(loggerPrefix)];
        RestoreAndFuzzNext();
      }
      log := log + [Continue(loggerPrefix)];
    }

    /** The loop, fed with the stops that DebugContinue leads to. */
    method Fuzz(stops: seq<Stop>)
      requires Valid()
      modifies this
      ensures Valid() && View() == Loop(old(View()), places, stops)
    {
      var i := 0;
      while |locations| > 0 && i < |stops|
        invariant 0 <= i <= |stops| && Valid()
        invariant Loop(View(), places, stops[i..]) == Loop(old(View()), places, stops)
        decreases |stops| - i
      {
        assert stops[i..][0] == stops[i] && stops[i..][1..] == stops[i + 1..];
        Pass(stops[i]);
        i := i + 1;
      }
    }
  }
}
