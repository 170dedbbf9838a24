/** How often locations with a count stop condition are run, and when the fuzz loop is through. */
module RunBound {
  import opened Arithmetic
  import opened Bytes
  import L = FuzzLocations
  import C = FuzzController
  import H = LocationHistory

  /** How often a location with stop condition `n` can be run: one time more than `n`, as the condition is
      only reached when the count exceeds it. */
  function Total(n: int): nat { if n < 0 then 0 else n + 1 }

  // ---- One location ----

  /** The stop condition is count|n, at `runs`. */
  predicate Counting(l: L.LocationState, n: int, runs: int) { l.stop == Some(L.StopState(n, runs)) }

  /** One of the triggers is an unconditional Start trigger. */
  predicate HasStart(l: L.LocationState) {
    l.triggers.Some? && exists i :: 0 <= i < |l.triggers.value| && Unconditional(l.triggers.value[i])
  }

  predicate Unconditional(t: L.TriggerState) { t.kind.Start? && t.count == 0 }

  predicate NoEnd(l: L.LocationState) {
    l.triggers.Some? ==> forall i :: 0 <= i < |l.triggers.value| ==> !l.triggers.value[i].kind.End?
  }

  lemma {:induction false} AskedKeeps(l: L.LocationState, kind: L.Kind)
    ensures L.Asked(l, kind, None).stop == l.stop
    ensures (HasStart(l) ==> HasStart(L.Asked(l, kind, None))) && (NoEnd(l) ==> NoEnd(L.Asked(l, kind, None)))
  {
    var a := L.Asked(l, kind, None);
    if HasStart(l) {
      var i :| 0 <= i < |l.triggers.value| && Unconditional(l.triggers.value[i]);
      assert Unconditional(a.triggers.value[i]);
    }
  }

  lemma {:induction false} NextKeeps(l: L.LocationState)
    ensures L.NextFuzzRun(l).stop == l.stop
    ensures (HasStart(l) ==> HasStart(L.NextFuzzRun(l))) && (NoEnd(l) ==> NoEnd(L.NextFuzzRun(l)))
  {
    var a := L.NextFuzzRun(l);
    if HasStart(l) {
      var i :| 0 <= i < |l.triggers.value| && Unconditional(l.triggers.value[i]);
      assert Unconditional(a.triggers.value[i]);
    }
  }

  /** Asking a location at `kind`: it goes if it is at its end; else it may run, which counts. */
  lemma {:induction false} InvokedCounts(l: L.LocationState, n: int, runs: nat, kind: L.Kind)
    requires Counting(l, n, runs) && n < 0x7fff_ffff && runs <= Total(n)
    ensures if runs == Total(n) then C.Invoked(l, kind) == None && !C.Runs(l, kind)
            else C.Invoked(l, kind).Some? && Counting(C.Invoked(l, kind).value, n, if C.Runs(l, kind) then runs + 1 else runs)
    ensures C.Invoked(l, kind).Some? && HasStart(l) ==> HasStart(C.Invoked(l, kind).value)
    ensures C.Invoked(l, kind).Some? && NoEnd(l) ==> NoEnd(C.Invoked(l, kind).value)
    ensures HasStart(l) && kind.Start? && runs < Total(n) ==> C.Runs(l, kind)
    ensures NoEnd(l) && kind.End? ==> !C.Runs(l, kind)
  {
    hide HasStart, NoEnd, L.Asked, L.NextFuzzRun, L.IsTriggered;
    AskedKeeps(l, kind);
    var a := L.Asked(l, kind, None);
    NextKeeps(if a.stop.None? then a else a.(stop := Some(L.StartRound(a.stop.value))));
    SameTriggers(a);
    StartFires(l);
    EndDoesNot(l);
  }

  lemma {:induction false} SameTriggers(a: L.LocationState)
    ensures a.stop.Some? ==> var b := a.(stop := Some(L.StartRound(a.stop.value)));
                             (HasStart(a) <==> HasStart(b)) && (NoEnd(a) <==> NoEnd(b))
  {
  }

  lemma {:induction false} StartFires(l: L.LocationState)
    ensures HasStart(l) ==> L.IsTriggered(l, L.Start, None)
  {
    if HasStart(l) {
      L.FirstFiringIff(l.triggers.value, L.Start, None, 0);
      var i :| 0 <= i < |l.triggers.value| && Unconditional(l.triggers.value[i]);
      assert L.Fires(l.triggers.value[i], L.Start, None);
    }
  }

  lemma {:induction false} EndDoesNot(l: L.LocationState)
    ensures NoEnd(l) ==> !L.IsTriggered(l, L.End, None)
  {
    if NoEnd(l) && l.triggers.Some? { L.FirstFiringIff(l.triggers.value, L.End, None, 0); }
  }

  /** What is known of a location after `r` restores. */
  predicate Bounded(h: H.History, n: int, r: nat, starts: bool, noEnd: bool) {
    && |h.prefixes| <= Total(n)
    && (starts ==> Min(r, Total(n)) <= |h.prefixes|)
    && (starts && noEnd ==> |h.prefixes| == Min(r, Total(n)) && (h.left.Some? <==> r <= Total(n)))
    && match h.left
       case None => |h.prefixes| == Total(n)
       case Some(l) =>
         && Counting(l, n, |h.prefixes|) && (starts ==> HasStart(l) && r <= Total(n)) && (noEnd ==> NoEnd(l))
  }

  lemma {:induction false} RoundBounded(h: H.History, n: int, r: nat, starts: bool, noEnd: bool)
    requires n < 0x7fff_ffff && Bounded(h, n, r, starts, noEnd)
    ensures Bounded(H.Round(h, r + 1), n, r + 1, starts, noEnd)
  {
    hide HasStart, NoEnd, C.Invoked, C.Runs, L.NextFuzzRun;
    if h.left.Some? {
      var runs := |h.prefixes|;
      InvokedCounts(h.left.value, n, runs, L.End);
      var ended := H.Visit(h, L.End, r + 1);
      if ended.left.Some? {
        NextKeeps(ended.left.value);
        InvokedCounts(L.NextFuzzRun(ended.left.value), n, |ended.prefixes|, L.Start);
      }
    }
  }

  lemma {:induction false} AloneBounded(l: L.LocationState, n: int, r: nat, starts: bool, noEnd: bool)
    requires n < 0x7fff_ffff && Counting(l, n, 0) && (starts ==> HasStart(l)) && (noEnd ==> NoEnd(l))
    ensures Bounded(H.Alone(Some(l), r), n, r, starts, noEnd)
  {
    hide H.Round, HasStart, NoEnd;
    if r > 0 {
      AloneBounded(l, n, r - 1, starts, noEnd);
      RoundBounded(H.Alone(Some(l), r - 1), n, r - 1, starts, noEnd);
    }
  }

  // ---- The location in the controller ----

  /** How often location `id` was run. */
  function RunsOf(log: seq<C.Event>, id: nat): nat { |H.RunPrefixes(log, id)| }

  /** A location with stop condition count|n, whatever its triggers and whatever else is in the list, is
      run n + 1 times at most, and exactly that often once it is gone (not at all if n is negative). With an
      unconditional Start trigger among its triggers it is run in every round until then, and gone after
      n + 2 restores; with no End trigger beside, it has been run min(r, n + 1) times after r restores. */
  lemma {:induction false} CountedRuns(locations: seq<C.Location>, snapshot: bool, p: C.Places, stops: seq<C.Stop>, i: nat, n: int)
    requires i < |locations| && C.DistinctIds(C.IdsOf(locations))
    requires n < 0x7fff_ffff && Counting(locations[i].state, n, 0)
    ensures var s := C.Loop(C.Start(locations, snapshot), p, stops); var id, l := locations[i].id, locations[i].state;
            var r, runs := C.Restores(s.log), RunsOf(s.log, id);
            && runs <= Total(n) && (H.Absent(s.locations, id) ==> runs == Total(n))
            && (HasStart(l) ==> Min(r, Total(n)) <= runs && (!H.Absent(s.locations, id) ==> r <= Total(n)))
            && (HasStart(l) && NoEnd(l) ==> runs == Min(r, Total(n)) && (!H.Absent(s.locations, id) <==> r <= Total(n)))
  {
    hide C.Loop, HasStart, NoEnd, H.Alone, H.Holds, H.RunPrefixes, C.Restores, H.Absent;
    var s, id, l := C.Loop(C.Start(locations, snapshot), p, stops), locations[i].id, locations[i].state;
    H.HoldsAt(locations, i);
    H.LocationsDoNotInteract(locations, snapshot, p, stops, id, Some(l));
    NothingRestored();
    C.PrefixCountsRestores(C.Start(locations, snapshot), p, stops);
    AloneBounded(l, n, s.prefix - 1, HasStart(l), NoEnd(l));
    Presence(s.locations, id, H.Alone(Some(l), s.prefix - 1).left);
  }

  lemma {:induction false} NothingRestored()
    ensures C.Restores([]) == 0
  {
  }

  lemma {:induction false} Presence(ls: seq<C.Location>, id: nat, o: Option<L.LocationState>)
    requires H.Holds(ls, id, o)
    ensures H.Absent(ls, id) <==> o == None
  {
    if ls != [] && ls[0].id != id {
      Presence(ls[1..], id, o);
      if H.Absent(ls[1..], id) {
        assert forall i :: 1 <= i < |ls| ==> ls[i] == ls[1..][i - 1];
      }
    }
  }

  // ---- The whole list ----

  /** Every location has a count stop condition, of at most `most` runs, and an unconditional Start trigger. */
  predicate AllCounted(ls: seq<C.Location>, most: nat) {
    forall i :: 0 <= i < |ls| ==> CountedStart(ls[i].state, most)
  }

  predicate CountedStart(l: L.LocationState, most: nat) {
    && l.stop.Some? && l.stop.value.current == 0 && l.stop.value.maxRuns < 0x7fff_ffff
    && Total(l.stop.value.maxRuns) <= most && HasStart(l)
  }

  /** A location that is still there is one of the original ones, so its total has not been exceeded. */
  lemma {:induction false} StillCounting(locations: seq<C.Location>, most: nat, snapshot: bool, p: C.Places, stops: seq<C.Stop>)
    requires AllCounted(locations, most) && C.DistinctIds(C.IdsOf(locations))
    ensures var s := C.Loop(C.Start(locations, snapshot), p, stops);
            s.locations != [] ==> C.Restores(s.log) <= most
  {
    hide C.Loop, C.Restores, CountedStart;
    var s := C.Loop(C.Start(locations, snapshot), p, stops);
    if s.locations != [] {
      var id := s.locations[0].id;
      if H.Absent(locations, id) {
        H.HoldsNone(locations, id);
        H.LocationsDoNotInteract(locations, snapshot, p, stops, id, None);
        GoneStaysGone(s.prefix - 1);
        H.HoldsNone(s.locations, id);
        assert false;
      } else {
        var i :| 0 <= i < |locations| && locations[i].id == id;
        HasCount(locations[i].state, most);
        CountedRuns(locations, snapshot, p, stops, i, locations[i].state.stop.value.maxRuns);
      }
    }
  }

  lemma {:induction false} HasCount(l: L.LocationState, most: nat)
    requires CountedStart(l, most)
    ensures l.stop.Some? && l.stop.value.maxRuns < 0x7fff_ffff && Counting(l, l.stop.value.maxRuns, 0)
    ensures Total(l.stop.value.maxRuns) <= most && HasStart(l)
  {
  }

  lemma {:induction false} GoneStaysGone(r: nat)
    ensures H.Alone(None, r).left == None
  {
    if r > 0 { GoneStaysGone(r - 1); }
  }

  /** Bounded fuzzing: if every location has a count stop condition and, among whatever other triggers, an
      unconditional Start trigger, there are at most max(n) + 2 restores, the last of which finds the list
      empty; and once the list is empty every location has been run exactly n + 1 times. */
  lemma {:induction false} BoundedFuzzing(locations: seq<C.Location>, most: nat, snapshot: bool, p: C.Places, stops: seq<C.Stop>)
    requires AllCounted(locations, most) && C.DistinctIds(C.IdsOf(locations))
    ensures var s := C.Loop(C.Start(locations, snapshot), p, stops);
            && C.Restores(s.log) <= most + 1 && (C.Restores(s.log) == most + 1 ==> s.locations == [])
            && (s.locations == [] ==> forall i :: 0 <= i < |locations| ==>
                  RunsOf(s.log, locations[i].id) == Total(locations[i].state.stop.value.maxRuns))
    decreases |stops|
  {
    hide C.Loop, C.Restores, CountedStart, H.RunPrefixes, C.Iterate;
    var s := C.Loop(C.Start(locations, snapshot), p, stops);
    StillCounting(locations, most, snapshot, p, stops);
    RestoresBounded(locations, most, snapshot, p, stops);
    if s.locations == [] {
      forall i | 0 <= i < |locations|
        ensures locations[i].state.stop.Some?
        ensures RunsOf(s.log, locations[i].id) == Total(locations[i].state.stop.value.maxRuns)
      {
        HasCount(locations[i].state, most);
        CountedRuns(locations, snapshot, p, stops, i, locations[i].state.stop.value.maxRuns);
      }
    }
  }

  lemma {:induction false} RestoresBounded(locations: seq<C.Location>, most: nat, snapshot: bool, p: C.Places, stops: seq<C.Stop>)
    requires AllCounted(locations, most) && C.DistinctIds(C.IdsOf(locations))
    ensures C.Restores(C.Loop(C.Start(locations, snapshot), p, stops).log) <= most + 1
    decreases |stops|
  {
    hide C.Restores, CountedStart, C.Iterate;
    NothingRestored();
    if stops != [] {
      var n := |stops| - 1;
      var t := C.Loop(C.Start(locations, snapshot), p, stops[..n]);
      RestoresBounded(locations, most, snapshot, p, stops[..n]);
      StillCounting(locations, most, snapshot, p, stops[..n]);
      C.LoopSnoc(C.Start(locations, snapshot), p, stops[..n], stops[n]);
      assert stops[..n] + [stops[n]] == stops;
      C.OneRestoreAtMost(t, p, stops[n]);
    }
  }
}
