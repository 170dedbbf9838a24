/** What a run of the fuzz loop records, told by the stops the debugger reports: which stop takes the
    snapshot, which ones are restored from, and which are logged as errors. */
module StopHistory {
  import opened Bytes
  import L = FuzzLocations
  import C = FuzzController

  // ---- What a log shows ----

  /** An error that was logged, and the number of passes the loop had completed by then. */
  datatype Logged = Logged(pass: nat, prefix: nat)

  /** The passes of the loop, the errors logged, the passes in which a snapshot was taken, the restores. */
  datatype Tally = Tally(passes: nat, errors: seq<Logged>, snapshots: seq<nat>, restores: nat)

  function Bump(t: Tally, e: C.Event): Tally {
    match e
    case Continue(_) => t.(passes := t.passes + 1)
    case ErrorLogged(prefix) => t.(errors := t.errors + [Logged(t.passes, prefix)])
    case Snapshot => t.(snapshots := t.snapshots + [t.passes])
    case Restore => t.(restores := t.restores + 1)
    case _ => t
  }

  function TallyOf(log: seq<C.Event>): Tally {
    if log == [] then Tally(0, [], [], 0) else Bump(TallyOf(log[..|log| - 1]), log[|log| - 1])
  }

  // ---- What the stops call for ----

  predicate Crash(stop: C.Stop) { !stop.reason.Breakpoint? }

  /** A stop at which a controller without a snapshot takes one. */
  predicate Wanted(p: C.Places, stop: C.Stop) { stop.reason.Breakpoint? && stop.address == p.snapshot }

  /** There is a snapshot by the time stop `i` is looked at for a restore. */
  predicate Ready(p: C.Places, stops: seq<C.Stop>, had: bool, i: nat)
    requires i < |stops|
  {
    had || exists j :: 0 <= j <= i && Wanted(p, stops[j])
  }

  predicate Restored(p: C.Places, stops: seq<C.Stop>, had: bool, i: nat)
    requires i < |stops|
  {
    Ready(p, stops, had, i) && (Crash(stops[i]) || stops[i].address == p.restore)
  }

  function RestoresBefore(p: C.Places, stops: seq<C.Stop>, had: bool, n: nat): nat
    requires n <= |stops|
  {
    if n == 0 then 0 else RestoresBefore(p, stops, had, n - 1) + if Restored(p, stops, had, n - 1) then 1 else 0
  }

  /** Every crash that comes while there is a snapshot, under the prefix of the run it ends. */
  function Crashes(p: C.Places, stops: seq<C.Stop>, had: bool, n: nat): seq<Logged>
    requires n <= |stops|
  {
    if n == 0 then [] else
    Crashes(p, stops, had, n - 1)
    + if Ready(p, stops, had, n - 1) && Crash(stops[n - 1]) then [Logged(n - 1, 1 + RestoresBefore(p, stops, had, n - 1))] else []
  }

  /** The first stop at which a snapshot is wanted. */
  predicate FirstWanted(p: C.Places, stops: seq<C.Stop>, i: nat) {
    i < |stops| && Wanted(p, stops[i]) && forall j :: 0 <= j < i ==> !Wanted(p, stops[j])
  }

  // ---- One pass ----

  lemma {:induction false} TallyMore(log: seq<C.Event>, e: C.Event)
    ensures TallyOf(log + [e]) == Bump(TallyOf(log), e)
  {
    assert (log + [e])[..|log|] == log;
  }

  lemma {:induction false} RunsAreSilent(log: seq<C.Event>, ls: seq<C.Location>, kind: L.Kind, prefix: nat)
    ensures TallyOf(log + C.RunEvents(ls, kind, prefix)) == TallyOf(log)
    decreases |ls|
  {
    hide TallyOf, C.RunEvents, C.Runs;
    C.FrontEvents(log, ls, kind, prefix);
    if ls != [] {
      TallyMore(log, C.LocationRun(ls[0].id, prefix));
      RunsAreSilent(log + [C.LocationRun(ls[0].id, prefix)], ls[1..], kind, prefix);
      RunsAreSilent(log, ls[1..], kind, prefix);
    }
  }

  lemma {:induction false} TallyRestore(s: C.State)
    ensures var t, c := C.RestoreAndFuzz(s), TallyOf(s.log);
            && TallyOf(t.log) == c.(restores := c.restores + 1) && t.prefix == s.prefix + 1 && t.snapshot == s.snapshot
  {
    hide TallyOf, C.RestoreAndFuzz, C.RunEvents, C.Kept, C.NextRunAll;
    C.RestoreShape(s);
    var next := C.NextRunAll(C.Kept(s.locations, L.End));
    var l := s.log + C.RunEvents(s.locations, L.End, s.prefix);
    var a, b, d := C.FinishRun(s.prefix), C.Restore, C.StartRun(s.prefix + 1);
    RunsAreSilent(s.log, s.locations, L.End, s.prefix);
    TallyMore(l, a);
    TallyMore(l + [a], b);
    TallyMore(l + [a] + [b], d);
    assert l + [a] + [b] + [d] == l + [a, b, d];
    RunsAreSilent(l + [a, b, d], next, L.Start, s.prefix + 1);
  }

  /** One pass: whether it takes a snapshot, logs an error and restores. */
  lemma {:induction false} TallyPass(s: C.State, p: C.Places, stop: C.Stop)
    ensures var t, c := C.Iterate(s, p, stop), TallyOf(s.log);
            var takes := !s.snapshot && Wanted(p, stop);
            var ready := s.snapshot || takes;
            var restores := ready && (Crash(stop) || stop.address == p.restore);
            && TallyOf(t.log) == Tally(c.passes + 1, c.errors + (if ready && Crash(stop) then [Logged(c.passes, s.prefix)] else []),
                                       c.snapshots + (if takes then [c.passes] else []), c.restores + if restores then 1 else 0)
            && t.prefix == s.prefix + (if restores then 1 else 0) && t.snapshot == ready
  {
    hide TallyOf, C.RestoreAndFuzz;
    var c := TallyOf(s.log);
    TallyMore(s.log, C.StartRun(s.prefix));
    TallyMore(s.log + [C.StartRun(s.prefix)], C.Snapshot);
    var a := C.TakeSnapshot(s, p, stop);
    TallyMore(a.log, C.ErrorLogged(a.prefix));
    TallyRestore(a);
    TallyRestore(C.Log(a, C.ErrorLogged(a.prefix)));
    var t := C.MaybeRestore(a, p, stop);
    TallyMore(t.log, C.Continue(t.prefix));
    assert c.errors + [] == c.errors && c.snapshots + [] == c.snapshots;
  }

  // ---- The loop ----

  /** The loop has looked at the first `n` stops and recorded what they call for. */
  ghost predicate Recorded(s: C.State, p: C.Places, stops: seq<C.Stop>, had: bool, n: nat)
    requires n <= |stops|
  {
    && TallyOf(s.log).passes == n && TallyOf(s.log).errors == Crashes(p, stops, had, n)
    && TallyOf(s.log).restores == RestoresBefore(p, stops, had, n) && s.prefix == 1 + RestoresBefore(p, stops, had, n)
    && (s.snapshot <==> had || exists j :: 0 <= j < n && Wanted(p, stops[j]))
    && (if had || forall j :: 0 <= j < n ==> !Wanted(p, stops[j]) then TallyOf(s.log).snapshots == []
        else exists i :: 0 <= i < n && FirstWanted(p, stops, i) && TallyOf(s.log).snapshots == [i])
  }

  lemma {:induction false} RecordedMore(s: C.State, p: C.Places, stops: seq<C.Stop>, had: bool, n: nat)
    requires n < |stops| && Recorded(s, p, stops, had, n)
    ensures Recorded(C.Iterate(s, p, stops[n]), p, stops, had, n + 1)
  {
    hide TallyOf, C.Iterate, Crash, Wanted;
    TallyPass(s, p, stops[n]);
    var t := C.Iterate(s, p, stops[n]);
    if !had && forall j :: 0 <= j < n ==> !Wanted(p, stops[j]) {
      if Wanted(p, stops[n]) { assert FirstWanted(p, stops, n) && TallyOf(t.log).snapshots == [n]; }
    }
  }

  /** What is recorded of the first `n` stops does not depend on later ones. */
  lemma {:induction false} RecordedPrefix(s: C.State, p: C.Places, stops: seq<C.Stop>, had: bool, m: nat, n: nat)
    requires n <= m <= |stops| && Recorded(s, p, stops[..m], had, n)
    ensures Recorded(s, p, stops, had, n)
  {
    hide TallyOf, Crash, Wanted;
    CrashesPrefix(p, stops, had, m, n);
    if !had && exists j :: 0 <= j < n && Wanted(p, stops[j]) {
      var j :| 0 <= j < n && Wanted(p, stops[j]);
      assert Wanted(p, stops[..m][j]);
      var i :| 0 <= i < n && FirstWanted(p, stops[..m], i) && TallyOf(s.log).snapshots == [i];
      assert forall j :: 0 <= j < i ==> stops[..m][j] == stops[j];
      assert FirstWanted(p, stops, i);
    }
    assert forall j :: 0 <= j < n ==> stops[..m][j] == stops[j];
  }

  lemma {:induction false} CrashesPrefix(p: C.Places, stops: seq<C.Stop>, had: bool, m: nat, n: nat)
    requires n <= m <= |stops|
    ensures Crashes(p, stops[..m], had, n) == Crashes(p, stops, had, n)
    ensures RestoresBefore(p, stops[..m], had, n) == RestoresBefore(p, stops, had, n)
  {
    if n > 0 {
      CrashesPrefix(p, stops, had, m, n - 1);
      ReadyPrefix(p, stops, had, m, n - 1);
    }
  }

  lemma {:induction false} ReadyPrefix(p: C.Places, stops: seq<C.Stop>, had: bool, m: nat, i: nat)
    requires i < m <= |stops|
    ensures Ready(p, stops[..m], had, i) <==> Ready(p, stops, had, i)
  {
    hide Wanted;
    assert forall j :: 0 <= j <= i ==> stops[..m][j] == stops[j];
  }

  /** The run of the loop over some stops, whatever the locations are and whether or not it is handed a
      snapshot: it looks at the stops in order until no location is left. A snapshot is taken at the first
      stop at the snapshot address, if none was handed over. Every stop that is no breakpoint and comes
      while there is a snapshot is logged as an error, in the same pass and under the prefix of the run it
      ends, and nothing else is; those stops and the breakpoints at the restore address are restored from. */
  lemma {:induction false} EveryCrashIsLogged(locations: seq<C.Location>, had: bool, p: C.Places, stops: seq<C.Stop>)
    returns (n: nat)
    ensures var s := C.Loop(C.Start(locations, had), p, stops);
            && n <= |stops| && (n < |stops| ==> s.locations == []) && Recorded(s, p, stops, had, n)
    ensures forall m :: 0 <= m < n ==> C.Loop(C.Start(locations, had), p, stops[..m]).locations != []
    decreases |stops|
  {
    hide Recorded, C.Loop, C.Iterate;
    var start := C.Start(locations, had);
    if stops == [] {
      n := 0;
      RecordedStart(locations, had, p, stops);
    } else {
      var k := |stops| - 1;
      var before := stops[..k];
      n := EveryCrashIsLogged(locations, had, p, before);
      var t := C.Loop(start, p, before);
      RecordedPrefix(t, p, stops, had, k, n);
      C.LoopSnoc(start, p, before, stops[k]);
      assert before + [stops[k]] == stops;
      assert forall m :: 0 <= m < n ==> before[..m] == stops[..m];
      if t.locations != [] {
        RecordedMore(t, p, stops, had, k);
        n := k + 1;
      }
    }
  }

  lemma {:induction false} RecordedStart(locations: seq<C.Location>, had: bool, p: C.Places, stops: seq<C.Stop>)
    requires stops == []
    ensures C.Loop(C.Start(locations, had), p, stops) == C.Start(locations, had)
    ensures Recorded(C.Start(locations, had), p, stops, had, 0)
  {
  }
}
