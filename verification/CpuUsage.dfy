/** Host CPU usage from two `/proc/stat` samples: the collector's saturating 64-bit
    arithmetic against the probe's unbounded integers. */
module CpuUsage {
  import opened Options

  const U64_MAX: nat := 0xFFFF_FFFF_FFFF_FFFF

  function Min(a: int, b: int): int {
    if a <= b then a else b
  }

  function SaturatingAdd(a: nat, b: nat): nat {
    Min(a + b, U64_MAX)
  }

  function SaturatingSub(a: nat, b: nat): nat {
    if a >= b then a - b else 0
  }

  function SaturatingMul(a: nat, b: nat): nat {
    Min(a * b, U64_MAX)
  }

  /** Cumulative busy-plus-idle time and idle time. */
  datatype Times = Times(total: nat, idle: nat)

  /** The first eight counters of the aggregate line. */
  function FirstEight(fields: seq<nat>): seq<nat> {
    if |fields| <= 8 then fields else fields[..8]
  }

  // ----- The collector -----

  function SaturatingSum(values: seq<nat>): nat {
    if values == [] then 0
    else SaturatingAdd(SaturatingSum(values[..|values| - 1]), values[|values| - 1])
  }

  /** None when a counter does not fit 64 bits or fewer than four are given. */
  function CollectorTimes(fields: seq<nat>): Option<Times> {
    var values := FirstEight(fields);
    if (exists v :: v in values && v > U64_MAX) || |values| < 4 then None
    else Some(Times(SaturatingSum(values),
                    SaturatingAdd(values[3], if |values| > 4 then values[4] else 0)))
  }

  /** The quotient before it is narrowed to eight bits. */
  function CollectorQuotient(previous: Times, current: Times): Option<nat> {
    if current.total < previous.total || current.idle < previous.idle then None
    else
      var totalDelta := current.total - previous.total;
      var idleDelta := current.idle - previous.idle;
      if totalDelta == 0 then None
      else Some(SaturatingMul(SaturatingSub(totalDelta, idleDelta), 100) / totalDelta)
  }

  function CollectorPercent(previous: Times, current: Times): Option<nat> {
    var q := CollectorQuotient(previous, current);
    if q.None? || q.value > 255 then None else Some(Min(q.value, 100))
  }

  // ----- The probe -----

  function Sum(values: seq<nat>): nat {
    if values == [] then 0 else Sum(values[..|values| - 1]) + values[|values| - 1]
  }

  function ProbeTimes(fields: seq<nat>): Option<Times> {
    var values := FirstEight(fields);
    if |values| < 4 then None
    else Some(Times(Sum(values), values[3] + if |values| > 4 then values[4] else 0))
  }

  /** The divisor is positive where the division is reached, so flooring is exact. */
  function ProbePercent(previous: Times, current: Times): Option<nat> {
    var totalDelta := current.total - previous.total;
    var idleDelta := current.idle - previous.idle;
    if totalDelta <= 0 || idleDelta < 0 then None
    else
      var floor := (totalDelta - idleDelta) * 100 / totalDelta;
      Some(Min(100, if floor >= 0 then floor else 0))
  }

  // ----- The eight counters -----

  lemma SumOfEight(f: seq<nat>)
    requires |f| == 8
    ensures Sum(f) == f[0] + f[1] + f[2] + f[3] + f[4] + f[5] + f[6] + f[7]
  {
    SumOfFourth(f[..4]);
    assert f[..5][..4] == f[..4] && f[..6][..5] == f[..5] && f[..7][..6] == f[..6] && f[..8] == f;
    assert Sum(f[..5]) == Sum(f[..4]) + f[4];
    assert Sum(f[..6]) == Sum(f[..5]) + f[5];
    assert Sum(f[..7]) == Sum(f[..6]) + f[6];
  }

  lemma SumOfFourth(f: seq<nat>)
    requires |f| == 4
    ensures Sum(f) == f[0] + f[1] + f[2] + f[3]
  {
    assert f[..2][..1] == f[..1] && f[..3][..2] == f[..2] && f[..1][..0] == [];
    assert Sum(f[..1]) == f[0];
    assert Sum(f[..2]) == f[0] + f[1];
  }

  /** The totals on the fields: user, nice, system, idle, iowait, irq, softirq and steal add up,
      idle and iowait are idle, and later fields do not count. */
  lemma TimesOnFields(fields: seq<nat>)
    requires |fields| >= 8
    ensures ProbeTimes(fields)
         == Some(Times(fields[0] + fields[1] + fields[2] + fields[3] + fields[4] + fields[5] + fields[6] + fields[7],
                       fields[3] + fields[4]))
  {
    SumOfEight(fields[..8]);
    assert FirstEight(fields) == fields[..8];
  }

  /** With four fields the fourth is all the idle time; with fewer there is no reading. */
  lemma TimesOnFewFields(fields: seq<nat>)
    requires |fields| <= 4
    ensures ProbeTimes(fields)
         == if |fields| < 4 then None else Some(Times(fields[0] + fields[1] + fields[2] + fields[3], fields[3]))
  {
    if |fields| == 4 {
      SumOfFourth(fields);
    }
  }

  /** The percentage on the numbers: the floor of the busy share in hundredths, for readings
      whose idle time does not outgrow the total. */
  lemma PercentOnNumbers(previous: Times, current: Times, percent: nat)
    requires previous.total < current.total && previous.idle <= current.idle
    requires current.idle - previous.idle <= current.total - previous.total
    ensures var total := current.total - previous.total;
            var busy := total - (current.idle - previous.idle);
            ProbePercent(previous, current) == Some(percent) <==> percent * total <= 100 * busy < (percent + 1) * total
  {
    var total := current.total - previous.total;
    var busy := total - (current.idle - previous.idle);
    ShareAtMost100(busy, total);
    FloorExactly(busy * 100, total, percent);
  }

  lemma FloorExactly(a: nat, d: nat, q: nat)
    requires d > 0
    ensures a / d == q <==> q * d <= a < (q + 1) * d
  {
    var r := a / d;
    assert a == r * d + a % d;
    if q < r {
      MulKeepsOrder(q + 1, r, d);
    } else if r < q {
      MulKeepsOrder(r + 1, q, d);
      assert (r + 1) * d == r * d + d;
    } else {
      assert (r + 1) * d == r * d + d;
    }
  }

  // ----- How the two relate -----

  lemma {:induction false} SaturatingSumIsMin(values: seq<nat>)
    ensures SaturatingSum(values) == Min(Sum(values), U64_MAX)
  {
    if values != [] {
      SaturatingSumIsMin(values[..|values| - 1]);
    }
  }

  lemma {:induction false} SumAtLeast(values: seq<nat>, i: nat, j: nat)
    requires i < j < |values|
    ensures values[i] <= Sum(values[..j]) && Sum(values[..j]) + values[j] <= Sum(values)
  {
    var n := |values| - 1;
    if j < n {
      SumAtLeast(values[..n], i, j);
      assert values[..n][..j] == values[..j];
    } else {
      SumPrefix(values[..n], i);
    }
  }

  lemma {:induction false} SumPrefix(values: seq<nat>, i: nat)
    requires i < |values|
    ensures values[i] <= Sum(values)
  {
    if i < |values| - 1 {
      SumPrefix(values[..|values| - 1], i);
    }
  }

  /** The collector sees the probe's times cut off at 64 bits, and idle is part of total. */
  lemma TimesAreCutOff(fields: seq<nat>)
    requires CollectorTimes(fields).Some?
    ensures ProbeTimes(fields).Some?
    ensures var c, p := CollectorTimes(fields).value, ProbeTimes(fields).value;
            c.total == Min(p.total, U64_MAX) && c.idle == Min(p.idle, U64_MAX) && p.idle <= p.total
  {
    var values := FirstEight(fields);
    SaturatingSumIsMin(values);
    if |values| > 4 {
      SumAtLeast(values, 3, 4);
    } else {
      SumPrefix(values, 3);
    }
  }

  lemma MulKeepsOrder(a: nat, b: nat, d: nat)
    requires a <= b
    ensures a * d <= b * d
  {
    assert b * d - a * d == (b - a) * d;
  }

  lemma QuotientTimes(a: nat, d: nat)
    requires d > 0
    ensures a / d * d <= a
  {
    assert a == a / d * d + a % d;
  }

  lemma QuotientAtMost(q: nat, a: nat, d: nat)
    requires d > 0 && q * d <= a
    ensures q <= a / d
  {
    var r := a / d;
    assert a == r * d + a % d;
    assert (r + 1) * d == r * d + d;
    FactorBelow(q, r + 1, d);
  }

  lemma FactorBelow(q: nat, bound: nat, d: nat)
    requires d > 0 && q * d < bound * d
    ensures q < bound
  {
  }

  lemma FactorAtMost(q: nat, bound: nat, d: nat)
    requires d > 0 && q * d <= bound * d
    ensures q <= bound
  {
  }

  lemma DivMonotone(a: nat, b: nat, d: nat)
    requires a <= b && 0 < d
    ensures a / d <= b / d
  {
    QuotientTimes(a, d);
    QuotientAtMost(a / d, b, d);
  }

  lemma ShareAtMost100(busy: nat, total: nat)
    requires busy <= total && 0 < total
    ensures busy * 100 / total <= 100
  {
    QuotientTimes(busy * 100, total);
    FactorAtMost(busy * 100 / total, 100, total);
  }

  /** A busy share over a longer interval with the same idle time is no smaller. */
  lemma BusyShareGrows(idle: nat, short: nat, long: nat)
    requires idle <= short <= long && 0 < short
    ensures (short - idle) * 100 / short <= (long - idle) * 100 / long
  {
    var q := (short - idle) * 100 / short;
    QuotientTimes((short - idle) * 100, short);
    ShareAtMost100(short - idle, short);
    MulKeepsOrder(short, long, 100 - q);
    assert q * long <= (long - idle) * 100 by {
      assert (100 - q) * short == 100 * short - q * short;
      assert (100 - q) * long == 100 * long - q * long;
    }
    QuotientAtMost(q, (long - idle) * 100, long);
  }

  lemma NegativeFloors(excess: nat, d: nat)
    requires excess > 0 && d > 0
    ensures (0 - excess) * 100 / d < 0
  {
  }

  lemma SaturatedShare(idle: nat, short: nat, long: nat)
    requires idle < short <= long
    ensures SaturatingMul(short - idle, 100) / short <= (long - idle) * 100 / long <= 100
  {
    DivMonotone(SaturatingMul(short - idle, 100), (short - idle) * 100, short);
    BusyShareGrows(idle, short, long);
    ShareAtMost100(long - idle, long);
  }

  /** The same comparison on the four cut-off counters. */
  lemma CutOffNeverOverstates(c0: Times, c1: Times, p0: Times, p1: Times)
    requires p0.idle <= p0.total && p1.idle <= p1.total
    requires c0 == Times(Min(p0.total, U64_MAX), Min(p0.idle, U64_MAX))
    requires c1 == Times(Min(p1.total, U64_MAX), Min(p1.idle, U64_MAX))
    requires CollectorQuotient(c0, c1).Some?
    ensures ProbePercent(p0, p1).Some?
    ensures CollectorQuotient(c0, c1).value <= ProbePercent(p0, p1).value <= 100
  {
    assert c0 == p0;
    var td, id := c1.total - c0.total, c1.idle - c0.idle;
    var q := CollectorQuotient(c0, c1).value;
    if td <= id {
      assert q == 0 / td;
    } else {
      assert c1.idle == p1.idle;
      SaturatedShare(id, td, p1.total - p0.total);
    }
  }

  /** Whatever saturates, a percentage the collector reports is at most the probe's, which
      is at most 100; so narrowing it to eight bits cannot fail. */
  lemma CollectorNeverOverstates(before: seq<nat>, after: seq<nat>)
    requires CollectorTimes(before).Some? && CollectorTimes(after).Some?
    ensures ProbeTimes(before).Some? && ProbeTimes(after).Some?
    ensures var q := CollectorQuotient(CollectorTimes(before).value, CollectorTimes(after).value);
            var p := ProbePercent(ProbeTimes(before).value, ProbeTimes(after).value);
            && CollectorPercent(CollectorTimes(before).value, CollectorTimes(after).value) == q
            && (q.Some? ==> p.Some? && q.value <= p.value <= 100)
  {
    TimesAreCutOff(before);
    TimesAreCutOff(after);
    var c0, c1 := CollectorTimes(before).value, CollectorTimes(after).value;
    if CollectorQuotient(c0, c1).Some? {
      CutOffNeverOverstates(c0, c1, ProbeTimes(before).value, ProbeTimes(after).value);
    }
  }

  /** Where nothing saturates the collector and the probe return the same result. */
  lemma CollectorAgreesWithProbe(before: seq<nat>, after: seq<nat>)
    requires CollectorTimes(before).Some? && CollectorTimes(after).Some?
    requires ProbeTimes(before).Some? && ProbeTimes(after).Some?
    requires ProbeTimes(before).value.total <= U64_MAX && ProbeTimes(after).value.total <= U64_MAX
    requires var p0, p1 := ProbeTimes(before).value, ProbeTimes(after).value;
             (p1.total - p0.total) - (p1.idle - p0.idle) <= U64_MAX / 100
    ensures CollectorPercent(CollectorTimes(before).value, CollectorTimes(after).value)
         == ProbePercent(ProbeTimes(before).value, ProbeTimes(after).value)
  {
    TimesAreCutOff(before);
    TimesAreCutOff(after);
    CollectorNeverOverstates(before, after);
    var p0, p1 := ProbeTimes(before).value, ProbeTimes(after).value;
    var td, id := p1.total - p0.total, p1.idle - p0.idle;
    if td > 0 && id >= 0 && td < id {
      NegativeFloors(id - td, td);
    }
  }

  /** Two readings that both sides take, with sums that fit 64 bits. */
  predicate Readable(before: seq<nat>, after: seq<nat>) {
    && CollectorTimes(before).Some? && CollectorTimes(after).Some?
    && ProbeTimes(before).Some? && ProbeTimes(after).Some?
    && ProbeTimes(before).value.total <= U64_MAX && ProbeTimes(after).value.total <= U64_MAX
  }

  function BusyDelta(before: seq<nat>, after: seq<nat>): int
    requires Readable(before, after)
  {
    var p0, p1 := ProbeTimes(before).value, ProbeTimes(after).value;
    (p1.total - p0.total) - (p1.idle - p0.idle)
  }

  predicate Agree(before: seq<nat>, after: seq<nat>)
    requires Readable(before, after)
  {
    CollectorPercent(CollectorTimes(before).value, CollectorTimes(after).value)
    == ProbePercent(ProbeTimes(before).value, ProbeTimes(after).value)
  }

  lemma SumOfFour(a: nat)
    ensures Sum([a, 0, 0, 0]) == a && SaturatingSum([a, 0, 0, 0]) == Min(a, U64_MAX)
  {
    assert Sum([a]) == Sum([a][..0]) + a;
    assert [a, 0][..1] == [a] && [a, 0, 0][..2] == [a, 0] && [a, 0, 0, 0][..3] == [a, 0, 0];
    assert Sum([a, 0]) == a;
    assert Sum([a, 0, 0]) == a;
    SaturatingSumIsMin([a, 0, 0, 0]);
  }

  lemma CutProductBelow(b: nat)
    requires U64_MAX / 100 < b <= U64_MAX
    ensures SaturatingMul(b, 100) / b < 100 && b * 100 / b == 100
  {
    QuotientTimes(U64_MAX, b);
    FactorBelow(U64_MAX / b, 100, b);
    QuotientAtMost(100, b * 100, b);
    QuotientTimes(b * 100, b);
    FactorAtMost(b * 100 / b, 100, b);
  }

  /** A fully busy interval beyond the bound: from an idle start, `user` time `b` reads below
      100 percent in the collector and 100 in the probe. */
  lemma SaturationUnderstates(b: nat)
    requires U64_MAX / 100 < b <= U64_MAX
    ensures var before, after := [0, 0, 0, 0], [b, 0, 0, 0];
            && Readable(before, after) && BusyDelta(before, after) == b
            && ProbePercent(ProbeTimes(before).value, ProbeTimes(after).value) == Some(100)
            && !Agree(before, after)
  {
    SumOfFour(0);
    SumOfFour(b);
    CutProductBelow(b);
  }

  /** Among readings whose sums fit 64 bits, collector and probe agree on every interval with
      busy time `b` if and only if a hundred times it still fits. */
  lemma AgreeExactlyWhileProductFits(b: int)
    requires b <= U64_MAX
    ensures (forall before, after :: Readable(before, after) && BusyDelta(before, after) == b ==> Agree(before, after))
       <==> b <= U64_MAX / 100
  {
    if b <= U64_MAX / 100 {
      forall before, after | Readable(before, after) && BusyDelta(before, after) == b
        ensures Agree(before, after)
      {
        CollectorAgreesWithProbe(before, after);
      }
    } else {
      SaturationUnderstates(b);
    }
  }
}
