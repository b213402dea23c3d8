/** The CPU usage figure of getCPUUsage: two readings of the cumulative tick
    counters taken half a second apart, differenced with Go's uint64
    wrap-around, and turned into a busy percentage unless no tick elapsed.
    The percentage is kept as the exact fraction it is computed from;
    float64 rounding and "%.2f" are not modelled. */
module Cpu {
  import opened Results

  const Uint64Modulus: int := 0x1_0000_0000_0000_0000

  type Uint64 = x: int | 0 <= x < Uint64Modulus

  /** Go's uint64 subtraction b - a, which wraps modulo 2^64. */
  function WrappingSub(b: Uint64, a: Uint64): (d: Uint64)
    ensures d == (b - a) % Uint64Modulus
  {
    if a <= b then b - a else b - a + Uint64Modulus
  }

  /** The counters of gosigar.Cpu that the computation reads. Irq, SoftIrq
      and Stolen exist too but do not enter the total. */
  datatype CpuTimes = CpuTimes(user: Uint64, nice: Uint64, sys: Uint64, idle: Uint64, wait: Uint64)

  /** The true sum of the counters the total is made of. */
  function Sum(c: CpuTimes): nat {
    c.user + c.nice + c.sys + c.idle + c.wait
  }

  /** User + Nice + Sys + Idle + Wait, a uint64 sum that wraps. */
  function Total(c: CpuTimes): Uint64 {
    Sum(c) % Uint64Modulus
  }

  /** The published figure: the literal "0", or 100 * busyTicks / elapsedTicks. */
  datatype CpuUsage = Zero | Share(busyTicks: int, elapsedTicks: nat)

  /** The number the figure stands for. */
  function Percent(u: CpuUsage): real {
    match u
    case Zero => 0.0
    case Share(busy, elapsed) => if elapsed == 0 then 0.0 else 100.0 * busy as real / elapsed as real
  }

  /** The figure for given tick deltas: "0" when none elapsed, else the
      elapsed ticks that were not idle, as a share of all elapsed ticks. */
  function UsageOfDeltas(totalDelta: Uint64, idleDelta: Uint64): (r: CpuUsage)
    ensures r.Zero? <==> totalDelta == 0
    ensures r.Share? ==> r.elapsedTicks == totalDelta > 0 && r.busyTicks + idleDelta == totalDelta
  {
    if totalDelta == 0 then Zero else Share(totalDelta - idleDelta, totalDelta)
  }

  /** getCPUUsage: "0" when a reading failed or no tick elapsed between the
      readings, else the share of the wrapping tick deltas. */
  function CpuUsageOf(first: Option<CpuTimes>, second: Option<CpuTimes>): (r: CpuUsage)
    ensures (first.None? || second.None?) ==> r == Zero
    ensures first.Some? && second.Some? ==>
      (r == Zero <==> Total(first.value) == Total(second.value))
    ensures r.Share? ==>
      r.elapsedTicks == WrappingSub(Total(second.value), Total(first.value))
      && r.busyTicks + WrappingSub(second.value.idle, first.value.idle) == r.elapsedTicks
  {
    match (first, second)
    case (Some(a), Some(b)) => UsageOfDeltas(WrappingSub(Total(b), Total(a)), WrappingSub(b.idle, a.idle))
    case _ => Zero
  }

  /** 100 * b / t for 0 <= b <= t lies in [0, 100], at the ends exactly for b = 0 and b = t. */
  lemma ShareBounds(b: real, t: real)
    requires 0.0 <= b <= t && t > 0.0
    ensures 0.0 <= 100.0 * b / t <= 100.0
    ensures 100.0 * b / t == 0.0 <==> b == 0.0
    ensures 100.0 * b / t == 100.0 <==> b == t
  {
    var p := 100.0 * b / t;
    assert p * t == 100.0 * b;
    if p < 0.0 {
      assert false;
    }
    assert (p - 100.0) * t == 100.0 * (b - t) <= 0.0;
    if p == 100.0 {
      assert 100.0 * t == 100.0 * b;
    }
  }

  /** When idle ticks are at most the elapsed ticks, the figure lies in
      [0, 100]; it is 0 exactly when no tick elapsed or every one was idle,
      and 100 exactly when ticks elapsed and none was idle. */
  lemma UsageBounds(totalDelta: Uint64, idleDelta: Uint64)
    requires idleDelta <= totalDelta
    ensures 0.0 <= Percent(UsageOfDeltas(totalDelta, idleDelta)) <= 100.0
    ensures Percent(UsageOfDeltas(totalDelta, idleDelta)) == 0.0 <==> totalDelta == 0 || idleDelta == totalDelta
    ensures Percent(UsageOfDeltas(totalDelta, idleDelta)) == 100.0 <==> totalDelta > 0 && idleDelta == 0
  {
    if totalDelta > 0 {
      var busy := totalDelta - idleDelta;
      assert Percent(UsageOfDeltas(totalDelta, idleDelta)) == 100.0 * busy as real / totalDelta as real;
      ShareBounds(busy as real, totalDelta as real);
    }
  }

  /** For growing counters the wrapping total delta is the true one, even when
      the uint64 total itself wrapped between the readings. */
  lemma WrappingSubOfSums(x: int, y: int)
    requires 0 <= x <= y < x + Uint64Modulus
    ensures WrappingSub(y % Uint64Modulus, x % Uint64Modulus) == y - x
  {
    var M := Uint64Modulus;
    assert x == (x / M) * M + x % M;
    assert y == (y / M) * M + y % M;
    assert y / M == x / M || y / M == x / M + 1;
  }

  /** Identical readings report "0", never a division by zero. */
  lemma IdenticalReadingsReportZero(c: CpuTimes)
    ensures CpuUsageOf(Some(c), Some(c)) == Zero
    ensures Percent(CpuUsageOf(Some(c), Some(c))) == 0.0
  {
  }

  /** For growing counters the wrapping deltas are the true ones. */
  lemma GrowingCountersDeltas(a: CpuTimes, b: CpuTimes)
    requires a.user <= b.user && a.nice <= b.nice && a.sys <= b.sys && a.idle <= b.idle && a.wait <= b.wait
    requires Sum(b) - Sum(a) < Uint64Modulus
    ensures WrappingSub(Total(b), Total(a)) == Sum(b) - Sum(a)
    ensures WrappingSub(b.idle, a.idle) == b.idle - a.idle
  {
    WrappingSubOfSums(Sum(a), Sum(b));
  }

  /** With counters that only grow between the readings (and grow by less than
      2^64 in all), the figure is the share of user, nice, sys and wait ticks
      among all elapsed ticks, even when the uint64 total itself wraps between
      the readings; so it lies in [0, 100]. */
  lemma GrowingCountersGiveBusyShare(a: CpuTimes, b: CpuTimes)
    requires a.user <= b.user && a.nice <= b.nice && a.sys <= b.sys && a.idle <= b.idle && a.wait <= b.wait
    requires Sum(b) - Sum(a) < Uint64Modulus
    ensures
      var busy := (b.user - a.user) + (b.nice - a.nice) + (b.sys - a.sys) + (b.wait - a.wait);
      var elapsed := busy + (b.idle - a.idle);
      CpuUsageOf(Some(a), Some(b)) == if elapsed == 0 then Zero else Share(busy, elapsed)
    ensures 0.0 <= Percent(CpuUsageOf(Some(a), Some(b))) <= 100.0
  {
    GrowingCountersDeltas(a, b);
    UsageBounds(Sum(b) - Sum(a), b.idle - a.idle);
  }
}
