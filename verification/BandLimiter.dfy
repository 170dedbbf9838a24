/** The bandwidth limiter: per limiter a second and an offset in microseconds, in 32-bit unsigned
    arithmetic. Seen as one absolute deadline it is a leaky bucket. */
module BandLimiter {
  import opened Arithmetic

  const U32 := 0x1_0000_0000
  const SECOND := 1000000

  datatype Limit = Limit(rate: nat, basetime: nat, nexttime: nat)

  /** A moment as gettimeofday gives it. */
  datatype Moment = Moment(sec: nat, usec: nat)

  predicate IsMoment(t: Moment) { t.sec < U32 && t.usec < SECOND }

  function Micros(t: Moment): nat { t.sec * SECOND + t.usec }

  /** `sec - 120` on unsigned long: early seconds wrap to the far end. */
  function TwoMinutesBefore(sec: nat): nat { if sec < 120 then sec + 0x1_0000_0000_0000_0000 - 120 else sec - 120 }

  /** The limiter is started afresh instead of charged. */
  predicate Stale(l: Limit, t: Moment) {
    l.basetime == 0 || l.basetime > t.sec || l.basetime < TwoMinutesBefore(t.sec)
  }

  /** Microseconds charged for `n` bytes, before any wrap-around. */
  function Cost(rate: nat, n: nat): nat
    requires rate > 0
  {
    if rate > 1000000 then (n / 32) * (256000000 / rate) else n * (8000000 / rate)
  }

  /** nsleeptime */
  function Delay(l: Limit, t: Moment): nat
    requires l.basetime <= t.sec
  {
    var now := ((t.sec - l.basetime) * SECOND + t.usec) % U32;
    if l.nexttime > now then l.nexttime - now else 0
  }

  /** One limiter at one call. */
  function Charge(l: Limit, t: Moment, n: nat): Limit
    requires l.rate > 0
  {
    if Stale(l, t) then Limit(l.rate, t.sec, 0)
    else Limit(l.rate, t.sec, (t.usec + Delay(l, t) + Cost(l.rate, n)) % U32)
  }

  function DelayOf(l: Limit, t: Moment): nat { if Stale(l, t) then 0 else Delay(l, t) }

  // ---- The method ----

  class BandLim {
    const rate: nat
    var basetime: nat
    var nexttime: nat

    function View(): Limit
      reads this
    {
      Limit(rate, basetime, nexttime)
    }

    constructor (rate: nat)
      ensures View() == Limit(rate, 0, 0)
    {
      this.rate, basetime, nexttime := rate, 0, 0;
    }
  }

  /** The longest delay any of the limiters asks for. */
  ghost function Longest(lims: seq<BandLim>, t: Moment): nat
    reads lims
  {
    if lims == [] then 0 else Max(Longest(lims[..|lims| - 1], t), DelayOf(lims[|lims| - 1].View(), t))
  }

  ghost predicate Separate(lims: seq<BandLim>) { forall i, j :: 0 <= i < j < |lims| ==> lims[i] != lims[j] }

  /** The charging loop over the limiters of one direction. */
  method ChargeAll(lims: seq<BandLim>, n: nat, t: Moment, start: nat) returns (sleeptime: nat)
    requires IsMoment(t) && Separate(lims) && forall i :: 0 <= i < |lims| ==> lims[i].rate > 0
    modifies lims
    ensures n == 0 ==> sleeptime == start && forall i :: 0 <= i < |lims| ==> lims[i].View() == old(lims[i].View())
    ensures n > 0 ==> sleeptime == Max(start, old(Longest(lims, t)))
                      && forall i :: 0 <= i < |lims| ==> lims[i].View() == Charge(old(lims[i].View()), t, n)
  {
    sleeptime := start;
    var i := 0;
    while n > 0 && i < |lims|
      invariant 0 <= i <= |lims| && (n == 0 ==> i == 0)
      invariant sleeptime == Max(start, old(Longest(lims[..i], t)))
      invariant forall k :: 0 <= k < i ==> lims[k].View() == Charge(old(lims[k].View()), t, n)
      invariant forall k :: i <= k < |lims| ==> lims[k].View() == old(lims[k].View())
      decreases |lims| - i
    {
      assert lims[..i + 1][..i] == lims[..i];
      var l := lims[i];
      i := i + 1;
      if l.basetime == 0 || l.basetime > t.sec || l.basetime < TwoMinutesBefore(t.sec) {
        l.basetime, l.nexttime := t.sec, 0;
        continue;
      }
      var now := ((t.sec - l.basetime) * SECOND + t.usec) % U32;
      var nsleeptime := if l.nexttime > now then l.nexttime - now else 0;
      sleeptime := if nsleeptime > sleeptime then nsleeptime else sleeptime;
      l.basetime := t.sec;
      l.nexttime := (t.usec + nsleeptime + Cost(l.rate, n)) % U32;
    }
    assert lims[..|lims|] == lims;
  }

  /** bandlimitfunc: charges the limiters of both directions and returns the milliseconds to sleep. */
  method BandLimit(lims: seq<BandLim>, limsOut: seq<BandLim>, nbytesin: nat, nbytesout: nat, t: Moment) returns (ms: nat)
    requires IsMoment(t) && Separate(lims) && Separate(limsOut)
    requires forall i, j :: 0 <= i < |lims| && 0 <= j < |limsOut| ==> lims[i] != limsOut[j]
    requires (forall i :: 0 <= i < |lims| ==> lims[i].rate > 0) && (forall i :: 0 <= i < |limsOut| ==> limsOut[i].rate > 0)
    modifies lims, limsOut
    ensures ms == Max(if nbytesin > 0 then old(Longest(lims, t)) else 0,
                      if nbytesout > 0 then old(Longest(limsOut, t)) else 0) / 1000
    ensures forall i :: 0 <= i < |lims| ==>
      lims[i].View() == if nbytesin > 0 then Charge(old(lims[i].View()), t, nbytesin) else old(lims[i].View())
    ensures forall i :: 0 <= i < |limsOut| ==>
      limsOut[i].View() == if nbytesout > 0 then Charge(old(limsOut[i].View()), t, nbytesout) else old(limsOut[i].View())
  {
    if nbytesin == 0 && nbytesout == 0 { return 0; }
    assert forall l :: l in limsOut ==> l !in lims;
    var sleeptime := ChargeAll(lims, nbytesin, t, 0);
    sleeptime := ChargeAll(limsOut, nbytesout, t, sleeptime);
    return sleeptime / 1000;
  }

  // ---- The leaky bucket ----

  /** The moment, in microseconds, before which the limiter lets nothing through. */
  function Deadline(l: Limit): nat { l.basetime * SECOND + l.nexttime }

  /** The delay is exactly the time left until the deadline. */
  lemma {:induction false} DelayIsTimeLeft(l: Limit, t: Moment)
    requires IsMoment(t) && !Stale(l, t)
    ensures l.basetime <= t.sec
    ensures Delay(l, t) == Max(0, Deadline(l) - Micros(t))
  {
    assert t.sec - l.basetime <= 120 || t.sec < 120;
  }

  /** The sum the limiter keeps fits in 32 bits. */
  predicate Fits(l: Limit, t: Moment, n: nat)
    requires l.rate > 0
  {
    !Stale(l, t) && t.usec + Delay(l, t) + Cost(l.rate, n) < U32
  }

  /** A call that is not a restart moves the deadline to max(now, deadline) + cost, exactly if the sum
      fits in 32 bits. */
  lemma {:induction false} ChargeIsLeakyBucket(l: Limit, t: Moment, n: nat)
    requires l.rate > 0 && IsMoment(t) && !Stale(l, t)
    ensures Deadline(Charge(l, t, n)) == Max(Micros(t), Deadline(l)) + Cost(l.rate, n) <==> Fits(l, t, n)
  {
    DelayIsTimeLeft(l, t);
    var sum := t.usec + Delay(l, t) + Cost(l.rate, n);
    assert sum % U32 == sum <==> sum < U32;
  }

  datatype Use = Use(at: Moment, bytes: nat)

  /** The limiter after a list of calls. */
  function After(l: Limit, uses: seq<Use>): (r: Limit)
    requires l.rate > 0
    ensures r.rate == l.rate
  {
    if uses == [] then l else
    var u := uses[|uses| - 1];
    Charge(After(l, uses[..|uses| - 1]), u.at, u.bytes)
  }

  function TotalCost(rate: nat, uses: seq<Use>): nat
    requires rate > 0
  {
    if uses == [] then 0 else TotalCost(rate, uses[..|uses| - 1]) + Cost(rate, uses[|uses| - 1].bytes)
  }

  /** No call restarts the limiter or overflows it. */
  predicate Undisturbed(l: Limit, uses: seq<Use>)
    requires l.rate > 0
  {
    uses == [] ||
    var n := |uses| - 1;
    Undisturbed(l, uses[..n]) && IsMoment(uses[n].at) && Fits(After(l, uses[..n]), uses[n].at, uses[n].bytes)
  }

  /** The deadline after some calls is at least the first moment plus everything charged since. */
  lemma {:induction false} DeadlineCoversCosts(l: Limit, uses: seq<Use>)
    requires l.rate > 0 && uses != [] && Undisturbed(l, uses)
    ensures Deadline(After(l, uses)) >= Micros(uses[0].at) + TotalCost(l.rate, uses)
  {
    var n := |uses| - 1;
    var before := After(l, uses[..n]);
    ChargeIsLeakyBucket(before, uses[n].at, uses[n].bytes);
    if n > 0 {
      DeadlineCoversCosts(l, uses[..n]);
    } else {
      assert uses[..0] == [];
    }
  }

  /** Conformance: if the caller comes back no sooner than the returned milliseconds after call `m`,
      then everything charged before that call is less than the time elapsed since the first call plus
      one millisecond, however many calls there were: the truncation to milliseconds does not add up. */
  lemma {:induction false} CostIsBoundedByTime(l: Limit, uses: seq<Use>, call: Use, ms: nat, next: Moment)
    requires l.rate > 0 && uses != [] && Undisturbed(l, uses + [call])
    requires ms >= DelayOf(After(l, uses), call.at) / 1000
    requires Micros(next) >= Micros(call.at) + 1000 * ms
    ensures TotalCost(l.rate, uses) < Micros(next) - Micros(uses[0].at) + 1000
  {
    assert (uses + [call])[..|uses|] == uses;
    DeadlineCoversCosts(l, uses);
    DelayIsTimeLeft(After(l, uses), call.at);
  }

  /** The same bound for the milliseconds bandlimitfunc returns, whichever of its limiters asked longest. */
  lemma {:induction false} LongestCoversEach(lims: seq<BandLim>, t: Moment, i: nat)
    requires i < |lims|
    ensures Longest(lims, t) >= DelayOf(lims[i].View(), t)
    ensures Longest(lims, t) / 1000 >= DelayOf(lims[i].View(), t) / 1000
  {
    if i < |lims| - 1 { LongestCoversEach(lims[..|lims| - 1], t, i); }
  }

  /** Exactly which calls are free: those for no bytes, all at rates above 256 million bits per second, and
      at rates above one million those for fewer than 32 bytes, as whole groups of 32 are charged. */
  lemma {:induction false} FreeIff(rate: nat, n: nat)
    requires rate > 0
    ensures Cost(rate, n) == 0 <==> IsFree(rate, n)
  {
    if rate > 1000000 {
      Quotient(256000000, rate);
      ProductIsZero(n / 32, 256000000 / rate);
    } else {
      Quotient(8000000, rate);
      ProductIsZero(n, 8000000 / rate);
    }
  }

  predicate IsFree(rate: nat, n: nat) { n == 0 || rate > 256000000 || (rate > 1000000 && n < 32) }

  lemma {:induction false} Quotient(total: nat, rate: nat)
    requires rate > 0
    ensures total / rate == 0 <==> total < rate
  {
    if total < rate {
      Divides(total, rate, 0, total);
    } else {
      AtLeastOne(total, rate);
    }
  }

  lemma {:induction false} AtLeastOne(total: nat, rate: nat)
    requires 0 < rate <= total
    ensures total / rate >= 1
  {
    var q := total / rate;
    assert rate * (q + 1) > total;
  }

  lemma {:induction false} ProductIsZero(a: nat, b: nat)
    ensures a * b == 0 <==> a == 0 || b == 0
  {
    if a > 0 && b > 0 { MulLe(1, a, b); }
  }

  /** A session costs nothing exactly if each of its calls is free, however many there are. */
  lemma {:induction false} FreeRideIff(rate: nat, uses: seq<Use>)
    requires rate > 0
    ensures TotalCost(rate, uses) == 0 <==> forall i :: 0 <= i < |uses| ==> IsFree(rate, uses[i].bytes)
  {
    hide Cost, IsFree;
    if uses != [] {
      var n := |uses| - 1;
      FreeRideIff(rate, uses[..n]);
      FreeIff(rate, uses[n].bytes);
      assert forall i :: 0 <= i < n ==> uses[..n][i] == uses[i];
    }
  }

  /** The delay asked for is that of one of the limiters. */
  lemma {:induction false} LongestIsOne(lims: seq<BandLim>, t: Moment)
    ensures Longest(lims, t) == 0 || exists i :: 0 <= i < |lims| && Longest(lims, t) == DelayOf(lims[i].View(), t)
  {
    if lims != [] {
      var n := |lims| - 1;
      LongestIsOne(lims[..n], t);
      if Longest(lims, t) == DelayOf(lims[n].View(), t) {
      } else if i :| 0 <= i < n && Longest(lims[..n], t) == DelayOf(lims[..n][i].View(), t) {
        assert lims[..n][i] == lims[i];
      }
    }
  }

  // ---- What the limiter lets through ----

  /** Up to a million bits per second: eight million microseconds for every byte, divided by the rate, and
      less than one microsecond a byte is lost in the division. */
  lemma {:induction false} CostPerByte(rate: nat, n: nat)
    requires 0 < rate <= 1000000
    ensures (8000000 - (rate - 1)) * n <= rate * Cost(rate, n) <= 8000000 * n
  {
    var q := 8000000 / rate;
    DivisionBounds(8000000, rate);
    Scaled(rate, q, n, 8000000);
  }

  /** Above that: the same for whole groups of 32 bytes. */
  lemma {:induction false} CostPerGroup(rate: nat, n: nat)
    requires 1000000 < rate
    ensures (256000000 - (rate - 1)) * (n / 32) <= rate * Cost(rate, n) <= 256000000 * (n / 32)
  {
    var q := 256000000 / rate;
    DivisionBounds(256000000, rate);
    Scaled(rate, q, n / 32, 256000000);
  }

  lemma {:induction false} DivisionBounds(total: nat, rate: nat)
    requires rate > 0
    ensures total - (rate - 1) <= rate * (total / rate) <= total
  {
  }

  lemma {:induction false} Scaled(rate: nat, q: nat, n: nat, total: nat)
    requires rate > 0 && total - (rate - 1) <= rate * q <= total
    ensures (total - (rate - 1)) * n <= rate * (n * q) <= total * n
  {
    assert rate * (n * q) == (rate * q) * n;
    Ordered(total - (rate - 1), rate * q, n);
    Ordered(rate * q, total, n);
  }

  lemma {:induction false} Ordered(a: int, b: int, n: nat)
    requires a <= b
    ensures a * n <= b * n
  {
    assert (b - a) * n >= 0;
  }

  function TotalBytes(uses: seq<Use>): nat {
    if uses == [] then 0 else TotalBytes(uses[..|uses| - 1]) + uses[|uses| - 1].bytes
  }

  /** A 32nd of the charge for `n` bytes in groups of 32. */
  function Grouped(rate: nat, n: int): int { (256000000 - (rate - 1)) * n }

  lemma {:induction false} TotalAtLeast(rate: nat, uses: seq<Use>)
    requires 0 < rate <= 256000000
    ensures if rate <= 1000000 then (8000000 - (rate - 1)) * TotalBytes(uses) <= rate * TotalCost(rate, uses)
            else Grouped(rate, TotalBytes(uses) - 31 * |uses|) <= 32 * (rate * TotalCost(rate, uses))
    ensures rate * TotalCost(rate, uses) <= 8000000 * TotalBytes(uses)
  {
    hide Cost, Grouped;
    if uses == [] {
      NothingGrouped(rate);
    } else {
      var n := |uses| - 1;
      TotalAtLeast(rate, uses[..n]);
      var b: int, c, d := uses[n].bytes, Cost(rate, uses[n].bytes), TotalCost(rate, uses[..n]);
      assert rate * (d + c) == rate * d + rate * c;
      if rate <= 1000000 {
        CostPerByte(rate, b);
        Distribute(8000000 - (rate - 1), TotalBytes(uses[..n]), b);
      } else {
        GroupedAtLeast(rate, b);
        GroupedSum(rate, TotalBytes(uses[..n]) - 31 * n, b - 31);
      }
    }
  }

  lemma {:induction false} NothingGrouped(rate: nat)
    ensures Grouped(rate, 0) == 0
  {
  }

  lemma {:induction false} GroupedSum(rate: nat, a: int, b: int)
    ensures Grouped(rate, a + b) == Grouped(rate, a) + Grouped(rate, b)
  {
    Distribute(256000000 - (rate - 1), a, b);
  }

  lemma {:induction false} Distribute(x: int, a: int, b: int)
    ensures x * (a + b) == x * a + x * b
  {
  }

  /** Of a call's bytes at most 31 are left out of the groups. */
  lemma {:induction false} GroupedAtLeast(rate: nat, n: nat)
    requires 1000000 < rate <= 256000000
    ensures Grouped(rate, n - 31) <= 32 * (rate * Cost(rate, n)) && rate * Cost(rate, n) <= 8000000 * n
  {
    hide Cost;
    CostPerGroup(rate, n);
    var x, g := 256000000 - (rate - 1), n / 32;
    assert n - 31 <= 32 * g <= n;
    Ordered2(x, n - 31, 32 * g);
    assert x * (32 * g) == 32 * (x * g);
  }

  lemma {:induction false} Ordered2(x: int, a: int, b: int)
    requires x >= 0 && a <= b
    ensures x * a <= x * b
  {
    assert x * (b - a) >= 0;
  }

  /** Throughput: in a session that is neither restarted nor overflows, up to a call after which the caller
      sleeps as it is told, the bytes passed before that call are bounded by the configured rate, in bits per
      second, times the time from the first call to the caller's return and one millisecond. The rounding is
      that of one division: each byte counts for `rate - 1` millionths of a bit less than eight bits; above a
      million bits per second up to 31 bytes of each call are not counted, and the other bytes count for
      `rate - 1` millionths of a bit less than 256 bits per 32 bytes. */
  lemma {:induction false} Throughput(l: Limit, uses: seq<Use>, call: Use, ms: nat, next: Moment)
    requires 0 < l.rate <= 256000000 && uses != [] && Undisturbed(l, uses + [call])
    requires ms >= DelayOf(After(l, uses), call.at) / 1000
    requires Micros(next) >= Micros(call.at) + 1000 * ms
    ensures var elapsed := Micros(next) - Micros(uses[0].at);
            if l.rate <= 1000000 then (8000000 - (l.rate - 1)) * TotalBytes(uses) <= l.rate * (elapsed + 1000)
            else (256000000 - (l.rate - 1)) * (TotalBytes(uses) - 31 * |uses|) <= 32 * (l.rate * (elapsed + 1000))
  {
    hide TotalCost, Undisturbed, After, DelayOf;
    CostIsBoundedByTime(l, uses, call, ms, next);
    var elapsed := Micros(next) - Micros(uses[0].at);
    TotalAtLeast(l.rate, uses);
    Ordered2(l.rate, TotalCost(l.rate, uses), elapsed + 1000);
  }

  /** Nor does the limiter ask for more: after one call to an idle limiter, the delay in microseconds times
      the rate is what eight bits a byte take, less the rounding. */
  lemma {:induction false} DelayAfterOne(l: Limit, t: Moment, n: nat)
    requires l.rate > 0 && IsMoment(t) && Fits(l, t, n) && DelayOf(l, t) == 0
    ensures var d := DelayOf(Charge(l, t, n), t);
            && l.rate * d <= 8000000 * n
            && (l.rate <= 1000000 ==> (8000000 - (l.rate - 1)) * n <= l.rate * d)
            && (l.rate > 1000000 ==> (256000000 - (l.rate - 1)) * (n / 32) <= l.rate * d)
  {
    hide Cost;
    ChargeIsLeakyBucket(l, t, n);
    assert DelayOf(Charge(l, t, n), t) == Cost(l.rate, n);
    if l.rate <= 1000000 {
      CostPerByte(l.rate, n);
    } else {
      CostPerGroup(l.rate, n);
      assert 32 * (n / 32) <= n;
    }
  }

  /** A limiter is restarted, without any delay, if it has never been used, if its last use lies in the
      future, or if it is more than two minutes old. */
  lemma {:induction false} RestartedIff(l: Limit, t: Moment, n: nat)
    requires l.rate > 0 && t.sec >= 120
    ensures Stale(l, t) <==> l.basetime == 0 || l.basetime > t.sec || t.sec - l.basetime > 120
    ensures Stale(l, t) ==> DelayOf(l, t) == 0 && Charge(l, t, n) == Limit(l.rate, t.sec, 0)
  {
  }
}
