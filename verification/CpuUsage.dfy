/** CPU usage between two snapshots of /proc/stat: the parser, the wrapping counters and the
    percentages.  Percentages are exact reals. */
module CpuUsage {
  import opened Text
  import opened Decimal

  const TWO64: nat := 0x1_0000_0000_0000_0000

  type u64 = n: int | 0 <= n < TWO64

  /** Unsigned 64-bit wrap-around. */
  function Wrap(n: int): u64
    decreases if n < 0 then TWO64 - n else n
  {
    if n < 0 then Wrap(n + TWO64) else if n >= TWO64 then Wrap(n - TWO64) else n
  }

  lemma {:induction false} WrapIsModulo(n: int)
    ensures Wrap(n) == n % TWO64
    decreases if n < 0 then TWO64 - n else n
  {
    if n < 0 {
      WrapIsModulo(n + TWO64);
    } else if n >= TWO64 {
      WrapIsModulo(n - TWO64);
    }
  }

  datatype Totals = Totals(
    user: u64, nice: u64, system: u64, idle: u64, iowait: u64, irq: u64, softirq: u64, steal: u64)
  {
    function RawSum(): nat { user + nice + system + idle + iowait + irq + softirq + steal }

    function RawIdle(): nat { idle + iowait }

    function Sum(): u64 { Wrap(RawSum()) }

    function IdleAll(): u64 { Wrap(RawIdle()) }
  }

  const ZERO := Totals(0, 0, 0, 0, 0, 0, 0, 0)

  // ---------------------------------------------------------------- percentages

  function TotalDelta(prev: Totals, cur: Totals): u64 { Wrap(cur.Sum() - prev.Sum()) }

  function IdleDelta(prev: Totals, cur: Totals): u64 { Wrap(cur.IdleAll() - prev.IdleAll()) }

  function Share(part: nat, whole: nat): real
    requires whole > 0
  {
    part as real / whole as real * 100.0
  }

  function Clamp(busy: real): real {
    var atLeast := if busy < 0.0 then 0.0 else busy;
    if atLeast > 100.0 then 100.0 else atLeast
  }

  predicate Valid(prev: Totals, cur: Totals) {
    prev.Sum() < cur.Sum() && IdleDelta(prev, cur) <= TotalDelta(prev, cur)
  }

  function Busy(prev: Totals, cur: Totals): u64 { Wrap(TotalDelta(prev, cur) - IdleDelta(prev, cur)) }

  function Percent(prev: Totals, cur: Totals): real {
    if cur.Sum() <= prev.Sum() then 0.0
    else if IdleDelta(prev, cur) > TotalDelta(prev, cur) then 0.0
    else Clamp(Share(Busy(prev, cur), TotalDelta(prev, cur)))
  }

  lemma SignOfProduct(x: real, y: real)
    requires y > 0.0
    ensures x < 0.0 ==> x * y < 0.0
    ensures x > 0.0 ==> x * y > 0.0
  {}

  lemma Quotient(q: real, part: real, whole: real)
    requires q * whole == part && 0.0 <= part <= whole && whole > 0.0
    ensures 0.0 <= q <= 1.0
  {
    SignOfProduct(q, whole);
    SignOfProduct(q - 1.0, whole);
  }

  lemma ShareBounds(part: nat, whole: nat)
    requires part <= whole && whole > 0
    ensures 0.0 <= Share(part, whole) <= 100.0
    ensures Share(part, whole) * whole as real == 100.0 * part as real
  {
    var q := part as real / whole as real;
    assert q * whole as real == part as real;
    Quotient(q, part as real, whole as real);
  }

  lemma BusyBounds(prev: Totals, cur: Totals)
    requires Valid(prev, cur)
    ensures Busy(prev, cur) == TotalDelta(prev, cur) - IdleDelta(prev, cur)
    ensures Busy(prev, cur) <= TotalDelta(prev, cur) && TotalDelta(prev, cur) == cur.Sum() - prev.Sum() > 0
  {}

  /** For all counters, wrapped or not, the percentage lies in [0, 100] and neither clamp ever acts. */
  lemma PercentInRange(prev: Totals, cur: Totals)
    ensures 0.0 <= Percent(prev, cur) <= 100.0
    ensures Valid(prev, cur)
            ==> TotalDelta(prev, cur) > 0 && Percent(prev, cur) == Share(Busy(prev, cur), TotalDelta(prev, cur))
  {
    if Valid(prev, cur) {
      BusyBounds(prev, cur);
      ShareBounds(Busy(prev, cur), TotalDelta(prev, cur));
    }
  }

  predicate Fits(t: Totals) { t.RawSum() < TWO64 }

  /** Without overflow an idle counter that went backwards wraps to something larger than the whole
      delta, so the answer is 0. */
  lemma IdleBackwardsIsZero(prev: Totals, cur: Totals)
    requires Fits(prev) && Fits(cur) && cur.RawIdle() < prev.RawIdle()
    ensures prev.Sum() < cur.Sum() ==> IdleDelta(prev, cur) > TotalDelta(prev, cur)
    ensures Percent(prev, cur) == 0.0
  {
    assert Wrap(cur.RawIdle() - prev.RawIdle()) == cur.RawIdle() - prev.RawIdle() + TWO64;
  }

  lemma ShareIsZeroIff(part: nat, whole: nat)
    requires part <= whole && whole > 0
    ensures Share(part, whole) == 0.0 <==> part == 0
  {
    ShareBounds(part, whole);
    SignOfProduct(Share(part, whole), whole as real);
  }

  /** Whatever overflows: when the idle reading fell by e, the answer is not 0 if and only if the
      readings' total grew by more than 2^64 - e. */
  lemma IdleBackwardsIff(prev: Totals, cur: Totals)
    requires cur.IdleAll() < prev.IdleAll()
    ensures Percent(prev, cur) != 0.0 <==> cur.Sum() - prev.Sum() > TWO64 - (prev.IdleAll() - cur.IdleAll())
  {
    var fallen := prev.IdleAll() - cur.IdleAll();
    assert Wrap(-fallen) == Wrap(TWO64 - fallen) == TWO64 - fallen;
    if Valid(prev, cur) {
      BusyBounds(prev, cur);
      PercentInRange(prev, cur);
      ShareIsZeroIff(Busy(prev, cur), TotalDelta(prev, cur));
    }
  }

  /** Which does happen once a sum overflows. */
  lemma OverflowHidesIdleBackwards()
    ensures
      var prev := ZERO.(user := TWO64 - 5, idle := 10);
      var cur := ZERO.(user := TWO64 - 1);
      !Fits(prev) && Fits(cur) && cur.RawIdle() < prev.RawIdle() && Percent(prev, cur) > 0.0
  {
    var prev := ZERO.(user := TWO64 - 5, idle := 10);
    var cur := ZERO.(user := TWO64 - 1);
    assert prev.RawSum() == TWO64 + 5 && cur.RawSum() == TWO64 - 1;
    assert Wrap(TWO64 + 5) == Wrap(5) == 5 && Wrap(TWO64 - 1) == TWO64 - 1;
    PercentInRange(prev, cur);
    IdleBackwardsIff(prev, cur);
  }

  /** The same in ticks, counter by counter: for counters that neither shrink nor overflow the answer
      is the number p with p * all == 100 * busy, where all is the growth of the eight counters, and
      busy that of all but idle and iowait; and 0 when nothing has passed. */
  lemma PercentInTicks(prev: Totals, cur: Totals, p: real)
    requires Grown(prev, cur)
    requires
      cur.user + cur.nice + cur.system + cur.idle + cur.iowait + cur.irq + cur.softirq + cur.steal
      < 0x1_0000_0000_0000_0000
    ensures
      var busy :=
        (cur.user - prev.user) + (cur.nice - prev.nice) + (cur.system - prev.system) + (cur.irq - prev.irq)
        + (cur.softirq - prev.softirq) + (cur.steal - prev.steal);
      var all := busy + (cur.idle - prev.idle) + (cur.iowait - prev.iowait);
      p == Percent(prev, cur) <==> if all == 0 then p == 0.0 else IsShare(p, busy, all)
  {
    TicksAre(prev, cur);
    PercentIsUsage(prev, cur, p);
  }

  lemma TicksAre(prev: Totals, cur: Totals)
    requires Grown(prev, cur)
    requires
      cur.user + cur.nice + cur.system + cur.idle + cur.iowait + cur.irq + cur.softirq + cur.steal
      < 0x1_0000_0000_0000_0000
    ensures
      var busy :=
        (cur.user - prev.user) + (cur.nice - prev.nice) + (cur.system - prev.system) + (cur.irq - prev.irq)
        + (cur.softirq - prev.softirq) + (cur.steal - prev.steal);
      var all := busy + (cur.idle - prev.idle) + (cur.iowait - prev.iowait);
      && busy >= 0 && all >= 0 && (Valid(prev, cur) <==> all > 0)
      && (all > 0 ==> Busy(prev, cur) == busy && TotalDelta(prev, cur) == all)
  {
    DeltasAreExact(prev, cur);
    if Valid(prev, cur) {
      BusyBounds(prev, cur);
    }
  }

  // ---------------------------------------------------------------- the total row and the cores

  predicate Grown(prev: Totals, cur: Totals) {
    && prev.user <= cur.user && prev.nice <= cur.nice && prev.system <= cur.system && prev.idle <= cur.idle
    && prev.iowait <= cur.iowait && prev.irq <= cur.irq && prev.softirq <= cur.softirq && prev.steal <= cur.steal
  }

  lemma DeltasAreExact(prev: Totals, cur: Totals)
    requires Fits(prev) && Fits(cur) && Grown(prev, cur)
    ensures cur.Sum() == cur.RawSum() && prev.Sum() == prev.RawSum()
    ensures TotalDelta(prev, cur) == cur.RawSum() - prev.RawSum()
    ensures IdleDelta(prev, cur) == cur.RawIdle() - prev.RawIdle() <= TotalDelta(prev, cur)
  {}

  /** x * n as a sum, which keeps real products out of the proofs about counters. */
  function Times(x: real, n: int): real { if n <= 0 then 0.0 else x + Times(x, n - 1) }

  lemma {:induction false} TimesIsProduct(x: real, n: nat)
    ensures Times(x, n) == x * n as real
  {
    if n > 0 {
      TimesIsProduct(x, n - 1);
      var y := (n - 1) as real;
      assert y + 1.0 == n as real;
      assert x + x * y == x * (y + 1.0);
    } else {
      assert x * 0.0 == 0.0;
    }
  }

  /** What a usage between two snapshots is, without the division: 0 when the deltas make no sense,
      else the number whose product with the total delta is a hundred times the busy time. */
  predicate IsUsage(p: real, prev: Totals, cur: Totals) {
    if Valid(prev, cur) then IsShare(p, Busy(prev, cur), TotalDelta(prev, cur)) else p == 0.0
  }

  predicate IsShare(p: real, part: nat, whole: nat) { p * whole as real == 100.0 * part as real }

  predicate IsUsageBySums(p: real, prev: Totals, cur: Totals) {
    if Valid(prev, cur) then Times(p, TotalDelta(prev, cur)) == 100.0 * Busy(prev, cur) as real else p == 0.0
  }

  lemma UsageBySums(p: real, prev: Totals, cur: Totals)
    ensures IsUsage(p, prev, cur) <==> IsUsageBySums(p, prev, cur)
  {
    ShareBySums(p, Busy(prev, cur), TotalDelta(prev, cur));
  }

  lemma ShareBySums(p: real, part: nat, whole: nat)
    ensures IsShare(p, part, whole) <==> Times(p, whole) == 100.0 * part as real
  {
    TimesIsProduct(p, whole);
  }

  lemma OnlyOneQuotient(p: real, q: real, whole: nat, total: real)
    requires whole > 0 && Times(p, whole) == total && q * whole as real == total
    ensures p == q
  {
    TimesIsProduct(p, whole);
    SameFactor(p, q, whole as real);
  }

  lemma ShareIsQuotient(part: nat, whole: nat)
    requires part <= whole && whole > 0
    ensures 0.0 <= Share(part, whole) <= 100.0 && Times(Share(part, whole), whole) == 100.0 * part as real
    ensures forall p :: Times(p, whole) == 100.0 * part as real ==> p == Share(part, whole)
  {
    var q := Share(part, whole);
    ShareBounds(part, whole);
    TimesIsProduct(q, whole);
    forall p | Times(p, whole) == 100.0 * part as real ensures p == q {
      OnlyOneQuotient(p, q, whole, 100.0 * part as real);
    }
  }

  lemma SameFactor(p: real, q: real, whole: real)
    requires p * whole == q * whole && whole > 0.0
    ensures p == q
  {
    SignOfProduct(p - q, whole);
    assert (p - q) * whole == p * whole - q * whole;
  }

  lemma PercentBySums(prev: Totals, cur: Totals, p: real)
    ensures IsUsageBySums(p, prev, cur) <==> p == Percent(prev, cur)
  {
    if Valid(prev, cur) {
      BusyBounds(prev, cur);
      ShareIsQuotient(Busy(prev, cur), TotalDelta(prev, cur));
    }
  }

  /** The code computes that number and no other. */
  lemma PercentIsUsage(prev: Totals, cur: Totals, p: real)
    ensures IsUsage(p, prev, cur) <==> p == Percent(prev, cur)
  {
    UsageBySums(p, prev, cur);
    PercentBySums(prev, cur, p);
  }

  /** For counters that neither shrink nor overflow: usage times delta is the busy time, also when
      nothing has passed at all. */
  lemma UsageTimesDelta(p: real, prev: Totals, cur: Totals, delta: int, idle: int)
    requires IsUsageBySums(p, prev, cur) && Fits(prev) && Fits(cur) && Grown(prev, cur)
    requires delta == Delta(prev, cur) && idle == Idle(prev, cur)
    ensures Times(p, delta) == 100.0 * (delta - idle) as real
  {
    DeltasAreExact(prev, cur);
    if delta > 0 {
      BusyBounds(prev, cur);
    }
  }

  /** The elapsed time and its idle part, without wrapping. */
  function Delta(prev: Totals, cur: Totals): int { cur.RawSum() - prev.RawSum() }

  function Idle(prev: Totals, cur: Totals): int { cur.RawIdle() - prev.RawIdle() }

  /** The total row is the field-wise sum of the core rows. */
  predicate IsSumOf(total: Totals, cores: seq<Totals>)
    decreases |cores|
  {
    if cores == [] then total == ZERO
    else
      var c := cores[0];
      && c.user <= total.user && c.nice <= total.nice && c.system <= total.system && c.idle <= total.idle
      && c.iowait <= total.iowait && c.irq <= total.irq && c.softirq <= total.softirq && c.steal <= total.steal
      && IsSumOf(Minus(total, c), cores[1..])
  }

  function Minus(t: Totals, c: Totals): Totals
    requires Grown(c, t)
  {
    Totals(t.user - c.user, t.nice - c.nice, t.system - c.system, t.idle - c.idle,
           t.iowait - c.iowait, t.irq - c.irq, t.softirq - c.softirq, t.steal - c.steal)
  }

  predicate AllGrown(prev: seq<Totals>, cur: seq<Totals>) {
    |prev| == |cur| && forall i :: 0 <= i < |prev| ==> Grown(prev[i], cur[i])
  }

  function Deltas(prev: seq<Totals>, cur: seq<Totals>): (d: seq<int>)
    requires |prev| == |cur|
    ensures |d| == |prev| && forall i :: 0 <= i < |d| ==> d[i] == Delta(prev[i], cur[i])
  {
    if prev == [] then [] else [Delta(prev[0], cur[0])] + Deltas(prev[1..], cur[1..])
  }

  function BusyTimes(prev: seq<Totals>, cur: seq<Totals>): (d: seq<int>)
    requires |prev| == |cur|
    ensures |d| == |prev| && forall i :: 0 <= i < |d| ==> d[i] == Delta(prev[i], cur[i]) - Idle(prev[i], cur[i])
  {
    if prev == [] then [] else [Delta(prev[0], cur[0]) - Idle(prev[0], cur[0])] + BusyTimes(prev[1..], cur[1..])
  }

  /** Sum over the cores of usage times delta. */
  function WeightedSum(usage: seq<real>, deltas: seq<int>): real
    requires |usage| == |deltas|
  {
    if usage == [] then 0.0 else usage[0] * deltas[0] as real + WeightedSum(usage[1..], deltas[1..])
  }

  function SumOfTimes(usage: seq<real>, deltas: seq<int>): real
    requires |usage| == |deltas|
  {
    if usage == [] then 0.0 else Times(usage[0], deltas[0]) + SumOfTimes(usage[1..], deltas[1..])
  }

  lemma {:induction false} WeightedBySums(usage: seq<real>, deltas: seq<int>)
    requires |usage| == |deltas| && forall i :: 0 <= i < |deltas| ==> deltas[i] >= 0
    ensures WeightedSum(usage, deltas) == SumOfTimes(usage, deltas)
  {
    if usage != [] {
      WeightedBySums(usage[1..], deltas[1..]);
      TimesIsProduct(usage[0], deltas[0]);
    }
  }

  function SumOf(ns: seq<int>): int { if ns == [] then 0 else ns[0] + SumOf(ns[1..]) }

  lemma {:induction false} WeightedIsSum(usage: seq<real>, deltas: seq<int>, busy: seq<int>)
    requires |usage| == |deltas| == |busy|
    requires forall i :: 0 <= i < |usage| ==> Times(usage[i], deltas[i]) == 100.0 * busy[i] as real
    ensures SumOfTimes(usage, deltas) == 100.0 * SumOf(busy) as real
  {
    if usage != [] {
      assert Times(usage[0], deltas[0]) == 100.0 * busy[0] as real;
      WeightedIsSum(usage[1..], deltas[1..], busy[1..]);
    }
  }

  lemma MinusDeltas(t1: Totals, c1: Totals, t2: Totals, c2: Totals)
    requires Grown(c1, t1) && Grown(c2, t2) && Fits(t1) && Fits(t2) && Grown(c1, c2)
    ensures Fits(c1) && Fits(c2) && Fits(Minus(t1, c1)) && Fits(Minus(t2, c2))
    ensures Delta(t1, t2) == Delta(c1, c2) + Delta(Minus(t1, c1), Minus(t2, c2))
    ensures Idle(t1, t2) == Idle(c1, c2) + Idle(Minus(t1, c1), Minus(t2, c2))
    ensures Grown(Minus(t1, c1), Minus(t2, c2)) ==> Grown(t1, t2)
  {}

  lemma {:induction false} BusyTimesSumUp(total1: Totals, cores1: seq<Totals>, total2: Totals, cores2: seq<Totals>)
    requires IsSumOf(total1, cores1) && IsSumOf(total2, cores2) && AllGrown(cores1, cores2)
    requires Fits(total1) && Fits(total2)
    ensures Grown(total1, total2)
    ensures SumOf(Deltas(cores1, cores2)) == Delta(total1, total2)
    ensures SumOf(BusyTimes(cores1, cores2)) == Delta(total1, total2) - Idle(total1, total2)
    decreases |cores1|
  {
    if cores1 != [] {
      var c1, c2 := cores1[0], cores2[0];
      assert AllGrown(cores1[1..], cores2[1..]) by {
        assert forall i :: 0 <= i < |cores1[1..]| ==>
          cores1[1..][i] == cores1[i + 1] && cores2[1..][i] == cores2[i + 1];
      }
      MinusDeltas(total1, c1, total2, c2);
      BusyTimesSumUp(Minus(total1, c1), cores1[1..], Minus(total2, c2), cores2[1..]);
    }
  }

  /** The fields of a core are bounded by those of the total, so they fit as well. */
  lemma {:induction false} CoresFit(total: Totals, cores: seq<Totals>)
    requires IsSumOf(total, cores) && Fits(total)
    ensures forall i :: 0 <= i < |cores| ==> Fits(cores[i])
    decreases |cores|
  {
    if cores != [] {
      CoresFit(Minus(total, cores[0]), cores[1..]);
    }
  }

  lemma MeanBySums(
    p: real, usage: seq<real>, total1: Totals, cores1: seq<Totals>, total2: Totals, cores2: seq<Totals>, delta: int)
    requires IsSumOf(total1, cores1) && IsSumOf(total2, cores2) && AllGrown(cores1, cores2)
    requires Fits(total1) && Fits(total2)
    requires |usage| == |cores1| && forall i :: 0 <= i < |usage| ==> IsUsageBySums(usage[i], cores1[i], cores2[i])
    requires IsUsageBySums(p, total1, total2) && delta == Delta(total1, total2)
    ensures SumOf(Deltas(cores1, cores2)) == delta >= 0
    ensures forall i :: 0 <= i < |usage| ==> Deltas(cores1, cores2)[i] >= 0
    ensures Times(p, delta) == SumOfTimes(usage, Deltas(cores1, cores2))
  {
    CoresFit(total1, cores1);
    CoresFit(total2, cores2);
    var deltas, busy := Deltas(cores1, cores2), BusyTimes(cores1, cores2);
    forall i | 0 <= i < |usage| ensures deltas[i] >= 0 && Times(usage[i], deltas[i]) == 100.0 * busy[i] as real {
      assert IsUsageBySums(usage[i], cores1[i], cores2[i]) && Grown(cores1[i], cores2[i]);
      UsageTimesDelta(usage[i], cores1[i], cores2[i], deltas[i], Idle(cores1[i], cores2[i]));
    }
    WeightedIsSum(usage, deltas, busy);
    BusyTimesSumUp(total1, cores1, total2, cores2);
    UsageTimesDelta(p, total1, total2, delta, Idle(total1, total2));
  }

  /** The total usage is the mean of the per-core usages weighted by their deltas, which add up to
      the total delta; for any number of cores, including cores on which no time has passed. */
  lemma TotalIsWeightedMean(
    p: real, usage: seq<real>, total1: Totals, cores1: seq<Totals>, total2: Totals, cores2: seq<Totals>, delta: int)
    requires IsSumOf(total1, cores1) && IsSumOf(total2, cores2) && AllGrown(cores1, cores2)
    requires Fits(total1) && Fits(total2)
    requires |usage| == |cores1| && forall i :: 0 <= i < |usage| ==> IsUsage(usage[i], cores1[i], cores2[i])
    requires IsUsage(p, total1, total2) && delta == Delta(total1, total2)
    ensures SumOf(Deltas(cores1, cores2)) == delta
    ensures p * delta as real == WeightedSum(usage, Deltas(cores1, cores2))
  {
    forall i | 0 <= i < |usage| ensures IsUsageBySums(usage[i], cores1[i], cores2[i]) {
      UsageBySums(usage[i], cores1[i], cores2[i]);
    }
    UsageBySums(p, total1, total2);
    MeanBySums(p, usage, total1, cores1, total2, cores2, delta);
    WeightedBySums(usage, Deltas(cores1, cores2));
    TimesIsProduct(p, delta);
  }

  method CpuDeltaPercent(prev: Totals, cur: Totals) returns (p: real)
    ensures IsUsage(p, prev, cur) && 0.0 <= p <= 100.0
  {
    PercentIsUsage(prev, cur, Percent(prev, cur));
    PercentInRange(prev, cur);
    return Percent(prev, cur);
  }

  /** The usage columns of collectCPU: the per-core one is left out when the two snapshots disagree on
      the number of cores. */
  method CollectUsage(total1: Totals, cores1: seq<Totals>, total2: Totals, cores2: seq<Totals>)
    returns (total: real, perCore: Option<seq<real>>)
    ensures IsUsage(total, total1, total2) && 0.0 <= total <= 100.0
    ensures perCore.Some? <==> |cores1| == |cores2|
    ensures perCore.Some? ==>
      && |perCore.value| == |cores1|
      && forall i :: 0 <= i < |cores1| ==>
           IsUsage(perCore.value[i], cores1[i], cores2[i]) && 0.0 <= perCore.value[i] <= 100.0
  {
    total := CpuDeltaPercent(total1, total2);
    perCore := None;
    if |cores1| == |cores2| {
      var out := [];
      for i := 0 to |cores1|
        invariant |out| == i
        invariant forall k :: 0 <= k < i ==> IsUsage(out[k], cores1[k], cores2[k]) && 0.0 <= out[k] <= 100.0
      {
        var p := CpuDeltaPercent(cores1[i], cores2[i]);
        out := out + [p];
      }
      perCore := Some(out);
    }
  }

  // ---------------------------------------------------------------- parsing /proc/stat

  datatype Stat = Stat(total: Totals, cores: seq<Totals>)

  /** atou64Safe */
  function Number(s: string): u64 { ParseUint64(Trim(s)) }

  function Column(f: seq<string>, i: nat): u64 { if i < |f| then Number(f[i]) else 0 }

  function RowTotals(f: seq<string>): Totals {
    Totals(Column(f, 1), Column(f, 2), Column(f, 3), Column(f, 4),
           Column(f, 5), Column(f, 6), Column(f, 7), Column(f, 8))
  }

  predicate IsCpuRow(f: seq<string>) { |f| >= 5 && "cpu" <= f[0] }

  function ParseLine(stat: Stat, line: string): Stat {
    var f := Fields(line);
    if !IsCpuRow(f) then stat
    else if f[0] == "cpu" then stat.(total := RowTotals(f))
    else stat.(cores := stat.cores + [RowTotals(f)])
  }

  function ParseLines(lines: seq<string>): Stat {
    if lines == [] then Stat(ZERO, []) else ParseLine(ParseLines(lines[..|lines| - 1]), lines[|lines| - 1])
  }

  method ParseProcStat(text: string) returns (total: Totals, perCore: seq<Totals>)
    ensures Stat(total, perCore) == ParseLines(Lines(text))
  {
    total, perCore := ZERO, [];
    var lines := Lines(text);
    for i := 0 to |lines|
      invariant Stat(total, perCore) == ParseLines(lines[..i])
    {
      assert lines[..i + 1][..i] == lines[..i];
      var f := Fields(lines[i]);
      if |f| < 5 || !("cpu" <= f[0]) {
        continue;
      }
      var ct := ZERO.(user := Number(f[1]), nice := Number(f[2]), system := Number(f[3]), idle := Number(f[4]));
      if |f| > 5 {
        ct := ct.(iowait := Number(f[5]));
      }
      if |f| > 6 {
        ct := ct.(irq := Number(f[6]));
      }
      if |f| > 7 {
        ct := ct.(softirq := Number(f[7]));
      }
      if |f| > 8 {
        ct := ct.(steal := Number(f[8]));
      }
      assert ct == RowTotals(f);
      if f[0] == "cpu" {
        total := ct;
      } else {
        perCore := perCore + [ct];
      }
    }
    assert lines[..|lines|] == lines;
  }

  // ---------------------------------------------------------------- reading back what the kernel prints

  function Printed(ns: seq<nat>): string {
    if ns == [] then "" else " " + Digits(ns[0]) + Printed(ns[1..])
  }

  function Texts(ns: seq<nat>): (s: seq<string>)
    ensures |s| == |ns| && forall i :: 0 <= i < |ns| ==> s[i] == Digits(ns[i])
  {
    if ns == [] then [] else [Digits(ns[0])] + Texts(ns[1..])
  }

  function Counters(t: Totals): seq<nat> {
    [t.user, t.nice, t.system, t.idle, t.iowait, t.irq, t.softirq, t.steal]
  }

  /** One row; the kernel appends guest times, which the parser ignores. */
  function Row(name: string, t: Totals, guest: seq<nat>): string { name + Printed(Counters(t) + guest) }

  lemma NumberThen(number: string, rest: string)
    requires number != "" && AllDigits(number) && (rest == "" || IsSpace(rest[0])) && '\n' !in rest
    ensures Fields(" " + number + rest) == [number] + Fields(rest)
    ensures '\n' !in " " + number + rest
  {
    FieldsWord(number, rest);
    FieldsSpace(number + rest);
    assert " " + number + rest == " " + (number + rest);
  }

  lemma {:induction false} FieldsOfPrinted(ns: seq<nat>)
    ensures Fields(Printed(ns)) == Texts(ns)
    ensures Printed(ns) == "" || IsSpace(Printed(ns)[0])
    ensures '\n' !in Printed(ns)
  {
    if ns != [] {
      FieldsOfPrinted(ns[1..]);
      NumberThen(Digits(ns[0]), Printed(ns[1..]));
    }
  }

  lemma ColumnOf(name: string, ns: seq<nat>, i: nat)
    requires i < |ns| && ns[i] < TWO64
    ensures Column([name] + Texts(ns), i + 1) == ns[i]
  {
    assert ([name] + Texts(ns))[i + 1] == Digits(ns[i]);
    NumberOfDigits(ns[i]);
  }

  lemma ColumnsOf(name: string, t: Totals, guest: seq<nat>)
    ensures RowTotals([name] + Texts(Counters(t) + guest)) == t
  {
    var ns := Counters(t) + guest;
    assert ns[0] == t.user && ns[1] == t.nice && ns[2] == t.system && ns[3] == t.idle;
    assert ns[4] == t.iowait && ns[5] == t.irq && ns[6] == t.softirq && ns[7] == t.steal;
    forall i | 0 <= i < 8 ensures Column([name] + Texts(ns), i + 1) == ns[i] {
      ColumnOf(name, ns, i);
    }
  }

  lemma NumberOfDigits(n: u64)
    ensures Number(Digits(n)) == n
  {
    TrimOfTrimmed(Digits(n));
    ParsePrinted(n);
  }

  function CoreName(i: nat): string { "cpu" + Digits(i) }

  /** A core with its number (offline cores leave gaps), its counters and its guest times. */
  datatype Core = Core(id: nat, totals: Totals, guest: seq<nat>)

  function CoreRow(c: Core): string { Row(CoreName(c.id), c.totals, c.guest) }

  function CoreRows(cores: seq<Core>): seq<string> {
    if cores == [] then [] else CoreRows(cores[..|cores| - 1]) + [CoreRow(cores[|cores| - 1])]
  }

  function CoreTotals(cores: seq<Core>): (totals: seq<Totals>)
    ensures |totals| == |cores| && forall i :: 0 <= i < |cores| ==> totals[i] == cores[i].totals
  {
    if cores == [] then [] else CoreTotals(cores[..|cores| - 1]) + [cores[|cores| - 1].totals]
  }

  lemma FieldsOfRow(name: string, ns: seq<nat>)
    requires name != "" && NoSpace(name)
    ensures Fields(name + Printed(ns)) == [name] + Texts(ns)
    ensures Fields(name + " " + Printed(ns)) == [name] + Texts(ns)
  {
    FieldsOfPrinted(ns);
    FieldsWord(name, Printed(ns));
    FieldsSpace(Printed(ns));
    FieldsWord(name, " " + Printed(ns));
    assert name + " " + Printed(ns) == name + (" " + Printed(ns));
  }

  lemma ParseSnoc(lines: seq<string>, line: string)
    ensures ParseLines(lines + [line]) == ParseLine(ParseLines(lines), line)
  {
    assert (lines + [line])[..|lines|] == lines;
  }

  lemma ReadRow(lines: seq<string>, line: string, name: string, t: Totals, guest: seq<nat>)
    requires Fields(line) == [name] + Texts(Counters(t) + guest) && "cpu" <= name
    ensures
      var stat := ParseLines(lines);
      ParseLines(lines + [line]) == if name == "cpu" then stat.(total := t) else stat.(cores := stat.cores + [t])
  {
    ParseSnoc(lines, line);
    ColumnsOf(name, t, guest);
  }

  lemma TotalRowFields(ns: seq<nat>)
    ensures Fields("cpu " + Printed(ns)) == ["cpu"] + Texts(ns)
  {
    FieldsOfRow("cpu", ns);
    assert "cpu" + " " + Printed(ns) == "cpu " + Printed(ns);
  }

  lemma CoreNameIs(i: nat)
    ensures "cpu" <= CoreName(i) && CoreName(i) != "cpu" && NoSpace(CoreName(i))
  {
    assert CoreName(i)[..3] == "cpu";
  }

  lemma ReadTotalRow(total: Totals, guest: seq<nat>)
    ensures ParseLines([Row("cpu ", total, guest)]) == Stat(total, [])
  {
    TotalRowFields(Counters(total) + guest);
    ReadRow([], Row("cpu ", total, guest), "cpu", total, guest);
    assert [] + [Row("cpu ", total, guest)] == [Row("cpu ", total, guest)];
  }

  lemma ReadCoreRow(lines: seq<string>, c: Core)
    ensures
      ParseLines(lines + [CoreRow(c)]) == ParseLines(lines).(cores := ParseLines(lines).cores + [c.totals])
  {
    CoreNameIs(c.id);
    FieldsOfRow(CoreName(c.id), Counters(c.totals) + c.guest);
    ReadRow(lines, CoreRow(c), CoreName(c.id), c.totals, c.guest);
  }

  lemma {:induction false} ReadCores(head: seq<string>, total: Totals, cores: seq<Core>)
    requires ParseLines(head) == Stat(total, [])
    ensures ParseLines(head + CoreRows(cores)) == Stat(total, CoreTotals(cores))
  {
    if cores == [] {
      assert head + [] == head;
    } else {
      var n := |cores| - 1;
      ReadCores(head, total, cores[..n]);
      ReadCoreRow(head + CoreRows(cores[..n]), cores[n]);
      assert head + CoreRows(cores) == head + CoreRows(cores[..n]) + [CoreRow(cores[n])];
    }
  }

  lemma {:induction false} IgnoredRows(lines: seq<string>, others: seq<string>)
    requires forall i :: 0 <= i < |others| ==> !IsCpuRow(Fields(others[i]))
    ensures ParseLines(lines + others) == ParseLines(lines)
  {
    if others == [] {
      assert lines + others == lines;
    } else {
      var n := |others| - 1;
      var all := lines + others;
      IgnoredRows(lines, others[..n]);
      assert all[..|all| - 1] == lines + others[..n] && all[|all| - 1] == others[n];
    }
  }

  lemma {:induction false} CoreRowsAreLines(cores: seq<Core>)
    ensures forall i :: 0 <= i < |CoreRows(cores)| ==> '\n' !in CoreRows(cores)[i]
  {
    if cores != [] {
      var c := cores[|cores| - 1];
      CoreRowsAreLines(cores[..|cores| - 1]);
      FieldsOfPrinted(Counters(c.totals) + c.guest);
    }
  }

  /** Any /proc/stat text reads back to the counters the kernel printed: any number of cores with any
      numbers, guest columns that differ from row to row, and further rows after them. */
  lemma ProcStatReadsBack(total: Totals, guest: seq<nat>, cores: seq<Core>, others: seq<string>)
    requires forall i :: 0 <= i < |others| ==> '\n' !in others[i] && !IsCpuRow(Fields(others[i]))
    ensures
      var rows := [Row("cpu ", total, guest)] + CoreRows(cores) + others;
      ParseLines(Lines(Join(rows, "\n"))) == Stat(total, CoreTotals(cores))
  {
    var rows := [Row("cpu ", total, guest)] + CoreRows(cores);
    FieldsOfPrinted(Counters(total) + guest);
    CoreRowsAreLines(cores);
    LinesOfJoin(rows + others);
    ReadTotalRow(total, guest);
    ReadCores([Row("cpu ", total, guest)], total, cores);
    IgnoredRows(rows, others);
  }
}
