/** When a location with a counting trigger is run. Its counter is advanced by the controller once a round
    and once more by the location's own run, so start|n and start|!n are not what they are documented to be. */
module TriggerSchedule {
  import opened Arithmetic
  import opened Bytes
  import L = FuzzLocations
  import C = FuzzController
  import H = LocationHistory

  /** A location without stop condition whose only trigger is start|n, or start|!n if `first`. */
  function Timed(n: nat, first: bool, current: int): L.LocationState {
    L.LocationState(None, Some([L.TriggerState(L.Start, first, n, None, current)]))
  }

  // ---- One location ----

  /** The rounds in which the location is run. */
  predicate Scheduled(n: nat, first: bool, round: nat) {
    n <= 1 || (var start := if first then 1 else n; round >= start && (round - start) % (n - 1) == 0)
  }

  /** The trigger's counter after some rounds. */
  function CurrentAfter(n: nat, first: bool, rounds: nat): int {
    if rounds == 0 then 0
    else if n <= 1 then 1
    else var start := if first then 1 else n; if rounds < start then rounds else 1 + (rounds - start) % (n - 1)
  }

  function StateAfter(n: nat, first: bool, rounds: nat): L.LocationState {
    Timed(n, first && rounds == 0, CurrentAfter(n, first, rounds))
  }

  lemma {:induction false} ModStep(m: nat, d: nat)
    requires d > 0
    ensures (m + 1) % d == if m % d == d - 1 then 0 else m % d + 1
  {
    var q, r := m / d, m % d;
    assert m == d * q + r;
    if r == d - 1 {
      assert m + 1 == d * (q + 1);
      Divides(m + 1, d, q + 1, 0);
    } else {
      Divides(m + 1, d, q, r + 1);
    }
  }

  /** The counter's step from one round to the next. */
  lemma {:induction false} CounterStep(n: nat, first: bool, r: nat)
    requires n >= 2
    ensures 0 <= CurrentAfter(n, first, r) < n
    ensures first && r == 0 ==> Scheduled(n, first, r + 1)
    ensures !(first && r == 0) ==> (Scheduled(n, first, r + 1) <==> CurrentAfter(n, first, r) + 1 == n)
    ensures CurrentAfter(n, first, r + 1) == if Scheduled(n, first, r + 1) then 1 else CurrentAfter(n, first, r) + 1
  {
    var start := if first then 1 else n;
    ZeroMod(n - 1);
    if r >= start {
      ModStep(r - start, n - 1);
      ModBound(r - start, n - 1);
    }
  }

  lemma {:induction false} ZeroMod(d: nat)
    requires d > 0
    ensures 0 % d == 0
  {
  }

  lemma {:induction false} ModBound(m: nat, d: nat)
    requires d > 0
    ensures 0 <= m % d < d
  {
  }

  lemma {:induction false} AtEnd(n: nat, first: bool, current: int)
    ensures var l := Timed(n, first, current); C.Invoked(l, L.End) == Some(l) && !C.Runs(l, L.End)
  {
    var l := Timed(n, first, current);
    assert L.FirstFiring(l.triggers.value, L.End, None, 1).None?;
  }

  lemma {:induction false} AtNext(n: nat, first: bool, current: int)
    requires 0 <= current <= n < 0x7fff_ffff
    ensures L.NextFuzzRun(Timed(n, first, current)) == Timed(n, first, if current + 1 > n then 1 else current + 1)
  {
    var t := Timed(n, first, current).triggers.value[0];
    assert L.NextRunAll([t]) == [L.NextRun(t)];
  }

  lemma {:induction false} AtStart(n: nat, first: bool, current: int)
    requires 0 <= current <= n < 0x7fff_ffff || current == 1
    requires n < 0x7fff_ffff
    ensures var l := Timed(n, first, current);
            && (C.Runs(l, L.Start) <==> first || current == n || n == 0)
            && C.Invoked(l, L.Start) == Some(
                 if !C.Runs(l, L.Start) then l else
                 var c := if first then 0 else current; Timed(n, false, if c + 1 > n then 1 else c + 1))
  {
    var l := Timed(n, first, current);
    var ts := l.triggers.value;
    assert L.FirstFiring(ts, L.Start, None, 1).None?;
    if L.Fires(ts[0], L.Start, None) {
      var t := L.AfterAsking(ts[0], L.Start);
      assert L.FirstFiring(ts, L.Start, None, 0) == Some(0);
      assert ts[0 := t] == [t] && L.NextRunAll([t]) == [L.NextRun(t)];
    }
  }

  /** One round of the location by itself: End triggers, the controller's step of the counters, Start triggers. */
  lemma {:induction false} OneRound(n: nat, first: bool, r: nat)
    requires n < 0x7fff_ffff
    ensures var l := StateAfter(n, first, r);
            && C.Invoked(l, L.End) == Some(l) && !C.Runs(l, L.End)
            && C.Invoked(L.NextFuzzRun(l), L.Start) == Some(StateAfter(n, first, r + 1))
            && (C.Runs(L.NextFuzzRun(l), L.Start) <==> Scheduled(n, first, r + 1))
  {
    hide C.Invoked, C.Runs, L.NextFuzzRun;
    var f, c := first && r == 0, CurrentAfter(n, first, r);
    AtEnd(n, f, c);
    if n >= 2 {
      CounterStep(n, first, r);
      AtNext(n, f, c);
      AtStart(n, f, c + 1);
    } else {
      FewRounds(n, f, c);
    }
  }

  lemma {:induction false} FewRounds(n: nat, first: bool, current: int)
    requires n <= 1 && 0 <= current <= 1
    ensures var l := L.NextFuzzRun(Timed(n, first, current));
            C.Invoked(l, L.Start) == Some(Timed(n, false, 1)) && C.Runs(l, L.Start)
  {
    var t := Timed(n, first, current).triggers.value[0];
    assert L.NextRunAll([t]) == [L.NextRun(t)];
    assert L.NextFuzzRun(Timed(n, first, current)) == Timed(n, first, 1);
    hide L.NextFuzzRun, C.Invoked, C.Runs;
    AtStart(n, first, 1);
  }

  /** start|n is documented to run the location every n-th round, start|!n also in the very first. That is
      what happens exactly for n = 1: for every larger n the period is n - 1. */
  lemma {:induction false} AsDocumentedIff(n: nat, first: bool)
    requires n >= 1
    ensures (forall r: nat :: r >= 1 ==> (Scheduled(n, first, r) <==> r % n == 0 || (first && r == 1))) <==> n == 1
  {
    if n >= 2 {
      var r, d := 2 * n - 1, n - 1;
      Divides(r, n, 1, n - 1);
      Divides(r - 1, d, 2, 0);
      Divides(r - n, d, 1, 0);
      assert Scheduled(n, first, r) && r % n != 0 && r != 1;
    } else {
      assert forall r: nat :: r % 1 == 0;
    }
  }

  // ---- The location in the controller ----

  /** The prefixes up to `last` under which the location is scheduled; the round with prefix p is number p - 1. */
  function Schedule(n: nat, first: bool, last: nat): seq<nat> {
    if last <= 1 then [] else Schedule(n, first, last - 1) + if Scheduled(n, first, last - 1) then [last] else []
  }

  lemma {:induction false} AloneOnSchedule(n: nat, first: bool, restores: nat)
    requires n < 0x7fff_ffff
    ensures H.Alone(Some(Timed(n, first, 0)), restores)
         == H.History(Some(StateAfter(n, first, restores)), Schedule(n, first, restores + 1))
  {
    hide StateAfter, Scheduled, C.Invoked, C.Runs, L.NextFuzzRun;
    if restores == 0 {
      AtFirst(n, first);
    } else {
      AloneOnSchedule(n, first, restores - 1);
      OneRound(n, first, restores - 1);
      var prefixes := Schedule(n, first, restores);
      assert prefixes + [] == prefixes;
    }
  }

  lemma {:induction false} AtFirst(n: nat, first: bool)
    ensures StateAfter(n, first, 0) == Timed(n, first, 0)
  {
  }

  /** Whatever the other locations are and whatever the debugger reports, a location with trigger start|n or
      start|!n is run exactly once in each round it is scheduled for, in order, and in no other. */
  lemma {:induction false} RunsOnSchedule(locations: seq<C.Location>, snapshot: bool, p: C.Places, stops: seq<C.Stop>,
                                          id: nat, n: nat, first: bool)
    requires n < 0x7fff_ffff && H.Holds(locations, id, Some(Timed(n, first, 0)))
    ensures var s := C.Loop(C.Start(locations, snapshot), p, stops);
            H.RunPrefixes(s.log, id) == Schedule(n, first, s.prefix)
  {
    hide C.Loop, C.Start, H.RunPrefixes, H.Holds, H.Alone, Schedule, StateAfter, Timed;
    H.LocationsDoNotInteract(locations, snapshot, p, stops, id, Some(Timed(n, first, 0)));
    AloneOnSchedule(n, first, C.Loop(C.Start(locations, snapshot), p, stops).prefix - 1);
  }

  lemma {:induction false} ScheduleMembers(n: nat, first: bool, last: nat)
    ensures forall q :: q in Schedule(n, first, last) <==> 2 <= q <= last && Scheduled(n, first, q - 1)
  {
    hide Scheduled;
    if last > 1 { ScheduleMembers(n, first, last - 1); }
  }
}
