/** Weighted selection of parent proxies: the loop of handleredirect, without what it does to a parent
    once it is selected. */
module ChainSelection {
  import opened Arithmetic
  import opened Bytes

  /** Random draws are taken modulo this. */
  const RANGE := 12347
  const FULL := 1000

  /** The loop's variables: the weight left in the group, and whether one of it has been selected. */
  datatype State = State(weight: int, done: bool)

  const Start := State(FULL, false)

  /** One parent is not selected. The draw counts only while its weight is below what is left. */
  predicate Skipped(s: State, weight: nat, draw: nat)
    requires s.weight > 0
  {
    s.done || (weight < s.weight && weight * RANGE / s.weight < draw)
  }

  function Used(s: State, weight: nat, selected: bool): State {
    if s.weight - weight <= 0 then Start else State(s.weight - weight, s.done || selected)
  }

  function Next(s: State, weight: nat, draw: nat): (t: State)
    requires s.weight > 0
    ensures t.weight > 0
  {
    Used(s, weight, !Skipped(s, weight, draw))
  }

  /** Which parents are selected, given a draw for each. */
  function Select(s: State, weights: seq<nat>, draws: seq<nat>): (r: seq<bool>)
    requires s.weight > 0 && |weights| == |draws|
    ensures |r| == |weights|
    decreases |weights|
  {
    if weights == [] then [] else
    [!Skipped(s, weights[0], draws[0])] + Select(Next(s, weights[0], draws[0]), weights[1..], draws[1..])
  }

  function After(s: State, weights: seq<nat>, draws: seq<nat>): (t: State)
    requires s.weight > 0 && |weights| == |draws|
    ensures t.weight > 0
    decreases |weights|
  {
    if weights == [] then s else After(Next(s, weights[0], draws[0]), weights[1..], draws[1..])
  }

  /** The weight left when parent `i` is looked at: 1000 at first, and again once it has been used up. */
  function Left(weights: seq<nat>, i: nat): (left: nat)
    requires i <= |weights|
    ensures left > 0
  {
    if i == 0 || Left(weights, i - 1) <= weights[i - 1] then 1000 else Left(weights, i - 1) - weights[i - 1]
  }

  /** Where the group that parent `i` belongs to begins. */
  function GroupBegin(weights: seq<nat>, i: nat): (from: nat)
    requires i <= |weights|
    ensures from <= i
  {
    if i == 0 || Left(weights, i - 1) <= weights[i - 1] then i else GroupBegin(weights, i - 1)
  }

  predicate NoneYet(selected: seq<bool>, weights: seq<nat>, i: nat)
    requires i <= |weights| && i <= |selected|
  {
    forall j :: GroupBegin(weights, i) <= j < i ==> !selected[j]
  }

  /** Parent `i` is selected iff none of its group has been, and it takes all the weight left or its draw,
      out of 12347, is not above its share of the weight left. */
  predicate RightlySelected(selected: seq<bool>, weights: seq<nat>, draws: seq<nat>, i: nat)
    requires i < |weights| == |draws| && i < |selected|
  {
    selected[i] <==> NoneYet(selected, weights, i)
                     && (weights[i] >= Left(weights, i) || draws[i] * Left(weights, i) <= weights[i] * 12347)
  }

  predicate AllRightly(selected: seq<bool>, weights: seq<nat>, draws: seq<nat>)
    requires |selected| <= |weights| == |draws|
  {
    forall i :: 0 <= i < |selected| ==> RightlySelected(selected, weights, draws, i)
  }

  /** Comparing with the rounded share is comparing with the exact one. */
  lemma {:induction false} ShareExact(w: nat, left: nat, draw: nat)
    requires left > 0
    ensures w * RANGE / left < draw <==> w * RANGE < draw * left
  {
    QuotientIff(w * RANGE, left, draw);
  }

  lemma {:induction false} QuotientIff(n: nat, d: nat, x: nat)
    requires d > 0
    ensures n / d < x <==> n < x * d
  {
    var q := n / d;
    assert q * d <= n < (q + 1) * d;
    if q < x { MulLe(q + 1, x, d); } else { MulLe(x, q, d); }
  }

  /** How many of the draws below `n` select a parent of weight `w`. */
  function Selecting(w: nat, left: nat, n: nat): nat {
    if n == 0 then 0
    else Selecting(w, left, n - 1) + if w >= left || (n - 1) * left <= w * 12347 then 1 else 0
  }

  lemma {:induction false} SelectingBelow(w: nat, left: nat, n: nat)
    requires left > 0
    ensures Selecting(w, left, n) == if w >= left then n else Min(n, w * 12347 / left + 1)
  {
    if n > 0 {
      SelectingBelow(w, left, n - 1);
      QuotientIff(w * 12347, left, n - 1);
    }
  }

  /** Of the 12347 draws, those that select a parent are as many as its share of the weight left, rounded up to
      the next whole number. */
  lemma {:induction false} SelectingDraws(w: nat, left: nat)
    requires left > 0
    ensures var n := Selecting(w, left, 12347);
            if w >= left then n == 12347 else n == w * 12347 / left + 1 && w * 12347 < n * left <= w * 12347 + left
  {
    hide Selecting;
    SelectingBelow(w, left, 12347);
    if w < left {
      MulLt(w, left, 12347);
      QuotientIff(w * 12347, left, 12347);
      var q := w * 12347 / left;
      assert q * left <= w * 12347 < (q + 1) * left == q * left + left;
    }
  }

  /** The loop's variables follow from the output so far. */
  ghost predicate InState(s: State, selected: seq<bool>, weights: seq<nat>, i: nat)
    requires i <= |weights| && i <= |selected|
  {
    s.weight == Left(weights, i) && (s.done <==> !NoneYet(selected, weights, i))
  }

  lemma {:induction false} InStateNext(s: State, selected: seq<bool>, weights: seq<nat>, draws: seq<nat>, i: nat)
    requires |draws| == |weights| && |selected| == i < |weights| && InState(s, selected, weights, i)
    ensures s.weight > 0
    ensures var now := selected + [!Skipped(s, weights[i], draws[i])];
            && InState(Next(s, weights[i], draws[i]), now, weights, i + 1)
            && RightlySelected(now, weights, draws, i)
            && (AllRightly(selected, weights, draws) ==> AllRightly(now, weights, draws))
  {
    hide Left, GroupBegin;
    ShareExact(weights[i], s.weight, draws[i]);
    var now := selected + [!Skipped(s, weights[i], draws[i])];
    LeftNext(weights, i);
    assert forall j :: 0 <= j < i ==> now[j] == selected[j];
    assert NoneYet(now, weights, i) <==> NoneYet(selected, weights, i);
    if Left(weights, i) > weights[i] {
      assert NoneYet(now, weights, i + 1) <==> NoneYet(selected, weights, i) && !now[i];
    }
    if AllRightly(selected, weights, draws) {
      forall j | 0 <= j < i
        ensures RightlySelected(now, weights, draws, j)
      {
        assert RightlySelected(selected, weights, draws, j);
        assert forall k :: 0 <= k < j ==> now[k] == selected[k];
        assert NoneYet(now, weights, j) <==> NoneYet(selected, weights, j);
      }
    }
  }

  lemma {:induction false} StartInState(weights: seq<nat>)
    ensures InState(Start, [], weights, 0)
  {
  }

  lemma {:induction false} LeftNext(weights: seq<nat>, i: nat)
    requires i < |weights|
    ensures Left(weights, i + 1) == if Left(weights, i) <= weights[i] then 1000 else Left(weights, i) - weights[i]
    ensures GroupBegin(weights, i + 1) == if Left(weights, i) <= weights[i] then i + 1 else GroupBegin(weights, i)
  {
  }

  method SelectParents(weights: seq<nat>, draws: seq<nat>) returns (selected: seq<bool>, redirected: nat)
    requires |draws| == |weights|
    ensures selected == Select(Start, weights, draws) && redirected == Count(selected)
    ensures |selected| == |weights| && forall i :: 0 <= i < |weights| ==> RightlySelected(selected, weights, draws, i)
  {
    hide Select, Count, Left, GroupBegin, NoneYet, RightlySelected, InState;
    StartInState(weights);
    var weight, done := FULL, false;
    selected, redirected := [], 0;
    var i := 0;
    SelectNone(Start, weights, draws);
    while i < |weights|
      invariant 0 <= i <= |weights| && weight > 0 && redirected == Count(selected)
      invariant selected + Select(State(weight, done), weights[i..], draws[i..]) == Select(Start, weights, draws)
      invariant |selected| == i && InState(State(weight, done), selected, weights, i)
      invariant AllRightly(selected, weights, draws)
    {
      SelectStep(State(weight, done), weights, draws, i);
      ghost var s := State(weight, done);
      InStateNext(s, selected, weights, draws, i);
      ghost var now := selected + [!Skipped(s, weights[i], draws[i])];
      var w, r2 := weights[i], draws[i];
      var skip := false;
      if done || w < weight {
        var r1 := w * RANGE / weight;
        skip := done || r1 < r2;
      }
      CountAppend(selected, [!skip]);
      CountOne(!skip);
      assert skip == Skipped(s, w, r2);
      if !skip {
        redirected := redirected + 1;
        done := true;
      }
      weight := weight - w;
      if weight <= 0 {
        weight, done := FULL, false;
      }
      assert State(weight, done) == Next(s, w, r2);
      selected := selected + [!skip];
      assert selected == now;
      i := i + 1;
    }
    SelectDone(State(weight, done), weights, draws);
  }

  lemma {:induction false} SelectNone(s: State, weights: seq<nat>, draws: seq<nat>)
    requires s.weight > 0 && |weights| == |draws|
    ensures [] + Select(s, weights[0..], draws[0..]) == Select(s, weights, draws) && Count([]) == 0
  {
    assert weights[0..] == weights && draws[0..] == draws;
  }

  lemma {:induction false} SelectStep(s: State, weights: seq<nat>, draws: seq<nat>, i: nat)
    requires s.weight > 0 && |weights| == |draws| && i < |weights|
    ensures Select(s, weights[i..], draws[i..])
         == [!Skipped(s, weights[i], draws[i])] + Select(Next(s, weights[i], draws[i]), weights[i + 1..], draws[i + 1..])
  {
    assert weights[i..][1..] == weights[i + 1..] && draws[i..][1..] == draws[i + 1..];
  }

  lemma {:induction false} SelectDone(s: State, weights: seq<nat>, draws: seq<nat>)
    requires s.weight > 0 && |weights| == |draws|
    ensures Select(s, weights[|weights|..], draws[|weights|..]) == []
  {
  }

  function Count(flags: seq<bool>): nat {
    if flags == [] then 0 else (if flags[0] then 1 else 0) + Count(flags[1..])
  }

  lemma {:induction false} CountOne(b: bool)
    ensures Count([b]) == if b then 1 else 0
  {
  }

  lemma {:induction false} CountAppend(a: seq<bool>, b: seq<bool>)
    ensures Count(a + b) == Count(a) + Count(b)
  {
    if a == [] {
      assert a + b == b;
    } else {
      CountAppend(a[1..], b);
      assert (a + b)[1..] == a[1..] + b;
    }
  }

  function Sum(weights: seq<nat>): nat { if weights == [] then 0 else weights[0] + Sum(weights[1..]) }

  /** The weights use up `left` with the last one and not before. */
  predicate UsesUp(weights: seq<nat>, left: int) {
    weights != [] &&
    if |weights| == 1 then weights[0] >= left else weights[0] < left && UsesUp(weights[1..], left - weights[0])
  }

  /** Positive weights whose sum is exactly `left` use it up. */
  lemma {:induction false} ExactSumUsesUp(weights: seq<nat>, left: nat)
    requires weights != [] && Sum(weights) == left
    requires forall i :: 0 <= i < |weights| ==> weights[i] > 0
    ensures UsesUp(weights, left)
  {
    if |weights| > 1 {
      assert weights[1..] != [] && weights[1..][0] > 0;
      ExactSumUsesUp(weights[1..], left - weights[0]);
    } else {
      assert Sum(weights[1..]) == 0;
    }
  }

  /** Within a group, whatever is drawn: one parent is selected unless one has been already, and the
      next parent starts a new group. */
  lemma {:induction false} OnePerGroup(s: State, group: seq<nat>, draws: seq<nat>)
    requires s.weight > 0 && |draws| == |group| && UsesUp(group, s.weight)
    ensures Count(Select(s, group, draws)) == if s.done then 0 else 1
    ensures After(s, group, draws) == Start
    decreases |group|
  {
    var t := Next(s, group[0], draws[0]);
    if |group| > 1 {
      OnePerGroup(t, group[1..], draws[1..]);
    } else {
      assert group[1..] == [] && draws[1..] == [];
    }
    assert Select(s, group, draws)[1..] == Select(t, group[1..], draws[1..]);
  }

  /** The loop over two stretches of the list. */
  lemma {:induction false} SelectSplit(s: State, a: seq<nat>, b: seq<nat>, da: seq<nat>, db: seq<nat>)
    requires s.weight > 0 && |a| == |da| && |b| == |db|
    ensures Select(s, a + b, da + db) == Select(s, a, da) + Select(After(s, a, da), b, db)
    decreases |a|
  {
    if a == [] {
      assert a + b == b && da + db == db;
    } else {
      SelectSplit(Next(s, a[0], da[0]), a[1..], b, da[1..], db);
      assert (a + b)[1..] == a[1..] + b && (da + db)[1..] == da[1..] + db;
    }
  }

  /** Where group `j` begins in the list. */
  function Begin(groups: seq<seq<nat>>, j: nat): nat
    requires j <= |groups|
  {
    if j == 0 then 0 else |groups[0]| + Begin(groups[1..], j - 1)
  }

  lemma {:induction false} GroupInRange(groups: seq<seq<nat>>, j: nat)
    requires j < |groups|
    ensures Begin(groups, j) + |groups[j]| <= |Flatten(groups)|
    decreases |groups|
  {
    if j > 0 { GroupInRange(groups[1..], j - 1); }
  }

  /** If the parents fall into consecutive groups that each use up the full weight (in particular, groups
      of positive weights that add up to exactly 1000), exactly one parent of every group is selected,
      for every outcome of the draws. */
  lemma {:induction false} OneParentPerGroup(groups: seq<seq<nat>>, draws: seq<nat>, j: nat)
    requires |draws| == |Flatten(groups)| && j < |groups|
    requires forall i :: 0 <= i < |groups| ==> UsesUp(groups[i], FULL)
    ensures Begin(groups, j) + |groups[j]| <= |draws|
    ensures Count(Select(Start, Flatten(groups), draws)[Begin(groups, j)..Begin(groups, j) + |groups[j]|]) == 1
    decreases |groups|
  {
    hide UsesUp, Select, After, Count;
    GroupInRange(groups, j);
    var n := |groups[0]|;
    var da, db := draws[..n], draws[n..];
    var rest := Flatten(groups[1..]);
    assert da + db == draws;
    OnePerGroup(Start, groups[0], da);
    SelectSplit(Start, groups[0], rest, da, db);
    var all := Select(Start, Flatten(groups), draws);
    if j == 0 {
      assert all[0..n] == Select(Start, groups[0], da);
    } else {
      OneParentPerGroup(groups[1..], db, j - 1);
      var from := Begin(groups[1..], j - 1);
      assert groups[1..][j - 1] == groups[j];
      assert all[n + from..n + from + |groups[j]|] == Select(Start, rest, db)[from..from + |groups[j]|];
    }
  }

  /** A group left incomplete at the end of the list has at most one parent selected. */
  lemma {:induction false} AtMostOneInRest(s: State, rest: seq<nat>, draws: seq<nat>)
    requires s.weight > 0 && |draws| == |rest| && Sum(rest) < s.weight
    ensures Count(Select(s, rest, draws)) <= if s.done then 0 else 1
    decreases |rest|
  {
    if rest != [] {
      var t := Next(s, rest[0], draws[0]);
      AtMostOneInRest(t, rest[1..], draws[1..]);
      assert Select(s, rest, draws)[1..] == Select(t, rest[1..], draws[1..]);
    }
  }

  /** No parent of a group is shut out: some draws below RANGE select it. */
  lemma {:induction false} EveryParentCanBeSelected(s: State, group: seq<nat>, k: nat) returns (draws: seq<nat>)
    requires 0 < s.weight <= FULL && !s.done && UsesUp(group, s.weight) && k < |group|
    ensures |draws| == |group| && (forall i :: 0 <= i < |draws| ==> draws[i] < RANGE)
    ensures Select(s, group, draws)[k]
    decreases |group|
  {
    hide Select, Next;
    if k == 0 {
      draws := seq(|group|, _ => 0);
      ZeroSelects(s, group, draws);
    } else {
      SkipFirst(s, group);
      var more := EveryParentCanBeSelected(State(s.weight - group[0], false), group[1..], k - 1);
      draws := [RANGE - 1] + more;
      SelectRest(s, group, more, k);
    }
  }

  lemma {:induction false} ZeroSelects(s: State, group: seq<nat>, draws: seq<nat>)
    requires s.weight > 0 && !s.done && |draws| == |group| > 0 && draws[0] == 0
    ensures Select(s, group, draws)[0]
  {
    Quotients(group[0], s.weight);
  }

  lemma {:induction false} Quotients(w: nat, left: int)
    requires left > 0
    ensures w * RANGE / left >= 0
  {
  }

  lemma {:induction false} SkipFirst(s: State, group: seq<nat>)
    requires 0 < s.weight <= FULL && !s.done && UsesUp(group, s.weight) && |group| > 1
    ensures Skipped(s, group[0], RANGE - 1)
    ensures Next(s, group[0], RANGE - 1) == State(s.weight - group[0], false)
    ensures UsesUp(group[1..], s.weight - group[0])
  {
    DrawCanSkip(group[0], s.weight);
  }

  lemma {:induction false} SelectRest(s: State, group: seq<nat>, more: seq<nat>, k: nat)
    requires s.weight > 0 && |group| == |more| + 1 && 0 < k < |group|
    ensures Select(s, group, [RANGE - 1] + more)[k] == Select(Next(s, group[0], RANGE - 1), group[1..], more)[k - 1]
  {
    assert ([RANGE - 1] + more)[1..] == more;
  }

  lemma {:induction false} DrawCanSkip(w: nat, left: int)
    requires w < left <= FULL
    ensures w * RANGE / left < RANGE - 1
  {
    assert w * RANGE <= (left - 1) * RANGE;
    assert (left - 1) * RANGE == left * RANGE - RANGE < left * (RANGE - 1);
    Quotient(w * RANGE, left, RANGE - 1);
  }

  lemma {:induction false} Quotient(n: nat, d: int, q: int)
    requires d > 0 && n < d * q
    ensures n / d < q
  {
    var r := n / d;
    assert d * r <= n;
    assert d * (q - r) > 0;
    Positive(d, q - r);
  }

  lemma {:induction false} Positive(d: int, x: int)
    requires d > 0 && d * x > 0
    ensures x > 0
  {
  }
}
