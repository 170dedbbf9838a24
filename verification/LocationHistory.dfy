/** What becomes of one location in the fuzz loop: it depends on the number of restores, not on the other
    locations nor on what the debugger reports. */
module LocationHistory {
  import opened Bytes
  import L = FuzzLocations
  import C = FuzzController

  // ---- One location by itself ----

  /** A location that may have been removed, and the prefixes under which it has been run so far. */
  datatype History = History(left: Option<L.LocationState>, prefixes: seq<nat>)

  function Visit(h: History, kind: L.Kind, prefix: nat): History {
    match h.left
    case None => h
    case Some(l) => History(C.Invoked(l, kind), h.prefixes + if C.Runs(l, kind) then [prefix] else [])
  }

  function NextOf(o: Option<L.LocationState>): Option<L.LocationState> {
    match o
    case None => None
    case Some(l) => Some(L.NextFuzzRun(l))
  }

  /** One restore made under `prefix`: End triggers, the controller's step of the counters, Start triggers. */
  function Round(h: History, prefix: nat): History {
    var ended := Visit(h, L.End, prefix);
    Visit(ended.(left := NextOf(ended.left)), L.Start, prefix + 1)
  }

  /** The location after `restores` restores. */
  function Alone(o: Option<L.LocationState>, restores: nat): History {
    if restores == 0 then History(o, []) else Round(Alone(o, restores - 1), restores)
  }

  // ---- The location among others ----

  predicate Absent(ls: seq<C.Location>, id: nat) { forall i :: 0 <= i < |ls| ==> ls[i].id != id }

  /** Location `id` is in the list once, in the given state, or not at all. */
  predicate Holds(ls: seq<C.Location>, id: nat, o: Option<L.LocationState>) {
    if ls == [] then o == None
    else if ls[0].id == id then o == Some(ls[0].state) && Absent(ls[1..], id)
    else Holds(ls[1..], id, o)
  }

  lemma {:induction false} HoldsNone(ls: seq<C.Location>, id: nat)
    ensures Holds(ls, id, None) <==> Absent(ls, id)
  {
    if ls != [] && ls[0].id != id {
      HoldsNone(ls[1..], id);
      if Absent(ls[1..], id) {
        assert forall i :: 1 <= i < |ls| ==> ls[i] == ls[1..][i - 1];
      }
    }
  }

  lemma {:induction false} HoldsAt(ls: seq<C.Location>, i: nat)
    requires i < |ls| && C.DistinctIds(C.IdsOf(ls))
    ensures Holds(ls, ls[i].id, Some(ls[i].state))
  {
    C.IdsAt(ls);
    C.IdsAt(ls[1..]);
    var ids := C.IdsOf(ls);
    if i == 0 {
      assert forall j :: 0 <= j < |ls[1..]| ==> ls[1..][j].id == ids[j + 1];
    } else {
      assert ids[0] != ids[i] && C.IdsOf(ls[1..]) == ids[1..];
      HoldsAt(ls[1..], i - 1);
    }
  }

  /** The prefixes under which location `id` was run, in order. */
  function RunPrefixes(log: seq<C.Event>, id: nat): seq<nat> {
    if log == [] then [] else
    var e := log[|log| - 1];
    RunPrefixes(log[..|log| - 1], id) + if e.LocationRun? && e.id == id then [e.prefix] else []
  }

  lemma {:induction false} RunPrefixesAppend(a: seq<C.Event>, b: seq<C.Event>, id: nat)
    ensures RunPrefixes(a + b, id) == RunPrefixes(a, id) + RunPrefixes(b, id)
    decreases |b|
  {
    if b == [] {
      assert a + b == a;
    } else {
      RunPrefixesAppend(a, b[..|b| - 1], id);
      assert (a + b)[..|a + b| - 1] == a + b[..|b| - 1];
    }
  }

  lemma {:induction false} OneEvent(e: C.Event, id: nat)
    ensures RunPrefixes([e], id) == if e.LocationRun? && e.id == id then [e.prefix] else []
  {
    assert [e][..0] == [];
  }

  lemma {:induction false} HeadRuns(ls: seq<C.Location>, kind: L.Kind, prefix: nat, id: nat)
    requires ls != []
    ensures RunPrefixes(C.RunEvents(ls, kind, prefix), id)
         == (if ls[0].id == id && C.Runs(ls[0].state, kind) then [prefix] else [])
            + RunPrefixes(C.RunEvents(ls[1..], kind, prefix), id)
  {
    hide C.Runs;
    var e, rest := C.LocationRun(ls[0].id, prefix), C.RunEvents(ls[1..], kind, prefix);
    RunPrefixesAppend([e], rest, id);
    OneEvent(e, id);
    assert [] + rest == rest;
  }

  lemma {:induction false} AbsentKept(ls: seq<C.Location>, kind: L.Kind, prefix: nat, id: nat)
    requires Absent(ls, id)
    ensures Absent(C.Kept(ls, kind), id) && RunPrefixes(C.RunEvents(ls, kind, prefix), id) == []
  {
    hide C.Invoked, C.Runs;
    if ls != [] {
      AbsentKept(ls[1..], kind, prefix, id);
      HeadRuns(ls, kind, prefix, id);
    }
  }

  /** Invoking the list does to the location what invoking it alone does. */
  lemma {:induction false} HoldsKept(ls: seq<C.Location>, kind: L.Kind, prefix: nat, id: nat, h: History)
    requires Holds(ls, id, h.left)
    ensures Holds(C.Kept(ls, kind), id, Visit(h, kind, prefix).left)
    ensures h.prefixes + RunPrefixes(C.RunEvents(ls, kind, prefix), id) == Visit(h, kind, prefix).prefixes
  {
    hide C.Invoked, C.Runs, C.RunEvents, RunPrefixes;
    if ls == [] {
      NoEvents(kind, prefix, id);
      assert h.prefixes + [] == h.prefixes;
    } else {
      HeadRuns(ls, kind, prefix, id);
      var kept := C.Kept(ls[1..], kind);
      assert C.Invoked(ls[0].state, kind).Some? ==> C.Kept(ls, kind)[1..] == kept;
      if ls[0].id == id {
        AbsentKept(ls[1..], kind, prefix, id);
        HoldsNone(kept, id);
      } else {
        HoldsKept(ls[1..], kind, prefix, id, h);
      }
    }
  }

  lemma {:induction false} NoEvents(kind: L.Kind, prefix: nat, id: nat)
    ensures C.RunEvents([], kind, prefix) == [] && RunPrefixes([], id) == []
  {
  }

  lemma {:induction false} HoldsNext(ls: seq<C.Location>, id: nat, o: Option<L.LocationState>)
    requires Holds(ls, id, o)
    ensures Holds(C.NextRunAll(ls), id, NextOf(o))
  {
    hide L.NextFuzzRun;
    if ls != [] {
      assert C.NextRunAll(ls)[1..] == C.NextRunAll(ls[1..]);
      if ls[0].id != id { HoldsNext(ls[1..], id, o); }
    }
  }

  // ---- The loop ----

  /** The controller's list and log show of the location what it would have gone through by itself. */
  predicate InHistory(s: C.State, id: nat, o: Option<L.LocationState>) {
    && s.prefix >= 1
    && Holds(s.locations, id, Alone(o, s.prefix - 1).left)
    && RunPrefixes(s.log, id) == Alone(o, s.prefix - 1).prefixes
  }

  lemma {:induction false} OtherEvent(s: C.State, e: C.Event, id: nat, o: Option<L.LocationState>)
    requires InHistory(s, id, o) && !e.LocationRun?
    ensures InHistory(C.Log(s, e), id, o)
  {
    assert (s.log + [e])[..|s.log|] == s.log;
    assert RunPrefixes(s.log, id) + [] == RunPrefixes(s.log, id);
  }

  lemma {:induction false} RestoreRuns(s: C.State, id: nat)
    ensures RunPrefixes(C.RestoreAndFuzz(s).log, id)
         == RunPrefixes(s.log, id) + RunPrefixes(C.RunEvents(s.locations, L.End, s.prefix), id)
            + RunPrefixes(C.RunEvents(C.NextRunAll(C.Kept(s.locations, L.End)), L.Start, s.prefix + 1), id)
  {
    hide C.Kept, C.RunEvents, C.NextRunAll, C.RestoreAndFuzz, RunPrefixes;
    C.RestoreShape(s);
    var next := C.NextRunAll(C.Kept(s.locations, L.End));
    var ends, marks := C.RunEvents(s.locations, L.End, s.prefix), [C.FinishRun(s.prefix), C.Restore, C.StartRun(s.prefix + 1)];
    RunPrefixesAppend(s.log, ends, id);
    RunPrefixesAppend(s.log + ends, marks, id);
    RunPrefixesAppend(s.log + ends + marks, C.RunEvents(next, L.Start, s.prefix + 1), id);
    Marks(s.prefix, id);
  }

  lemma {:induction false} Marks(prefix: nat, id: nat)
    ensures RunPrefixes([C.FinishRun(prefix), C.Restore, C.StartRun(prefix + 1)], id) == []
  {
    OneEvent(C.FinishRun(prefix), id);
    OneEvent(C.Restore, id);
    OneEvent(C.StartRun(prefix + 1), id);
    RunPrefixesAppend([C.FinishRun(prefix)], [C.Restore], id);
    RunPrefixesAppend([C.FinishRun(prefix)] + [C.Restore], [C.StartRun(prefix + 1)], id);
    assert [C.FinishRun(prefix)] + [C.Restore] + [C.StartRun(prefix + 1)] == [C.FinishRun(prefix), C.Restore, C.StartRun(prefix + 1)];
  }

  lemma {:induction false} RestoreInHistory(s: C.State, id: nat, o: Option<L.LocationState>)
    requires InHistory(s, id, o)
    ensures InHistory(C.RestoreAndFuzz(s), id, o)
  {
    hide C.Kept, C.RunEvents, C.NextRunAll, C.RestoreAndFuzz, RunPrefixes, Holds, Visit;
    var h := Alone(o, s.prefix - 1);
    var kept, ended := C.Kept(s.locations, L.End), Visit(h, L.End, s.prefix);
    C.RestoreShape(s);
    RestoreRuns(s, id);
    HoldsKept(s.locations, L.End, s.prefix, id, h);
    HoldsNext(kept, id, ended.left);
    HoldsKept(C.NextRunAll(kept), L.Start, s.prefix + 1, id, ended.(left := NextOf(ended.left)));
  }

  lemma {:induction false} IterateInHistory(s: C.State, p: C.Places, stop: C.Stop, id: nat, o: Option<L.LocationState>)
    requires InHistory(s, id, o)
    ensures InHistory(C.Iterate(s, p, stop), id, o)
  {
    hide C.RestoreAndFuzz, Holds, RunPrefixes, Alone;
    OtherEvent(s, C.StartRun(s.prefix), id, o);
    OtherEvent(C.Log(s, C.StartRun(s.prefix)), C.Snapshot, id, o);
    var a := C.TakeSnapshot(s, p, stop);
    assert InHistory(a, id, o);
    OtherEvent(a, C.ErrorLogged(a.prefix), id, o);
    RestoreInHistory(a, id, o);
    RestoreInHistory(C.Log(a, C.ErrorLogged(a.prefix)), id, o);
    var t := C.MaybeRestore(a, p, stop);
    OtherEvent(t, C.Continue(t.prefix), id, o);
  }

  lemma {:induction false} LoopInHistory(s: C.State, p: C.Places, stops: seq<C.Stop>, id: nat, o: Option<L.LocationState>)
    requires InHistory(s, id, o)
    ensures InHistory(C.Loop(s, p, stops), id, o)
    decreases |stops|
  {
    hide InHistory;
    if stops != [] && s.locations != [] {
      IterateInHistory(s, p, stops[0], id, o);
      LoopInHistory(C.Iterate(s, p, stops[0]), p, stops[1..], id, o);
    }
  }

  /** Whatever the other locations are and whatever the debugger reports: after any run of the loop a
      location is in the state, or gone, and has been run under the prefixes that follow from its own
      configuration and the number of restores. */
  lemma {:induction false} LocationsDoNotInteract(locations: seq<C.Location>, snapshot: bool, p: C.Places, stops: seq<C.Stop>,
                                                  id: nat, o: Option<L.LocationState>)
    requires Holds(locations, id, o)
    ensures var s := C.Loop(C.Start(locations, snapshot), p, stops);
            && s.prefix >= 1 && Holds(s.locations, id, Alone(o, s.prefix - 1).left)
            && RunPrefixes(s.log, id) == Alone(o, s.prefix - 1).prefixes
  {
    LoopInHistory(C.Start(locations, snapshot), p, stops, id, o);
  }
}
