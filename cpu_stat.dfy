/** CPU counters as read from the first line of /proc/stat, and the
    utilisation percentage computed from two snapshots of them. */
module CpuStat {

  /** `None` stands for the IndexError the source raises. */
  datatype Option<T> = None | Some(value: T)

  /** An `(idle, total)` pair of jiffy counters. */
  datatype Snapshot = Snapshot(idle: int, total: int)

  /** Python's `sum` over a list of integers. */
  function Sum(vals: seq<int>): int
  {
    if vals == [] then 0 else vals[0] + Sum(vals[1..])
  }

  /** The arithmetic of `read_cpu_times` on the numeric fields of the
      "cpu" line: idle is the idle field plus the iowait field (indices 3
      and 4), total the sum of every field. Fewer than five fields make
      the indexing fail. */
  function CpuTimes(vals: seq<int>): (r: Option<Snapshot>)
    ensures r.Some? <==> |vals| >= 5
    ensures r.Some? ==> r.value.idle == vals[3] + vals[4] && r.value.total == Sum(vals)
  {
    if |vals| < 5 then None else Some(Snapshot(vals[3] + vals[4], Sum(vals)))
  }

  /** Between two readings in which no counter went backwards, the growth of
      any one counter is at most the growth of the sum. */
  lemma {:induction false} SumGrowsByOne(prev: seq<int>, next: seq<int>, i: nat)
    requires |prev| == |next| && i < |prev|
    requires forall k :: 0 <= k < |prev| ==> prev[k] <= next[k]
    ensures next[i] - prev[i] <= Sum(next) - Sum(prev)
  {
    if i == 0 {
      SumNeverShrinks(prev[1..], next[1..]);
    } else {
      SumGrowsByOne(prev[1..], next[1..], i - 1);
    }
  }

  /** The sum of counters that did not go backwards did not go backwards. */
  lemma {:induction false} SumNeverShrinks(prev: seq<int>, next: seq<int>)
    requires |prev| == |next|
    requires forall k :: 0 <= k < |prev| ==> prev[k] <= next[k]
    ensures Sum(prev) <= Sum(next)
  {
    if prev != [] {
      SumNeverShrinks(prev[1..], next[1..]);
    }
  }

  /** The same for two distinct counters together. */
  lemma {:induction false} SumGrowsByTwo(prev: seq<int>, next: seq<int>, i: nat, j: nat)
    requires |prev| == |next| && i < j < |prev|
    requires forall k :: 0 <= k < |prev| ==> prev[k] <= next[k]
    ensures (next[i] - prev[i]) + (next[j] - prev[j]) <= Sum(next) - Sum(prev)
  {
    if i == 0 {
      SumGrowsByOne(prev[1..], next[1..], j - 1);
    } else {
      SumGrowsByTwo(prev[1..], next[1..], i - 1, j - 1);
    }
  }

  /** With non-negative fields the idle part never exceeds the total. */
  lemma IdleWithinTotal(vals: seq<int>)
    requires |vals| >= 5
    requires forall k :: 0 <= k < |vals| ==> vals[k] >= 0
    ensures 0 <= CpuTimes(vals).value.idle <= CpuTimes(vals).value.total
  {
    var zeros := seq(|vals|, _ => 0);
    SumOfZeros(|vals|);
    SumGrowsByTwo(zeros, vals, 3, 4);
  }

  lemma {:induction false} SumOfZeros(n: nat)
    ensures Sum(seq(n, _ => 0)) == 0
  {
    if n > 0 {
      assert seq(n, _ => 0)[1..] == seq(n - 1, _ => 0);
      SumOfZeros(n - 1);
    }
  }

  /** Two readings of the same counters, none of which went backwards, give
      an idle delta between 0 and the total delta. */
  lemma AdvancingCounters(prev: seq<int>, next: seq<int>)
    requires 5 <= |prev| == |next|
    requires forall k :: 0 <= k < |prev| ==> prev[k] <= next[k]
    ensures var p, n := CpuTimes(prev).value, CpuTimes(next).value;
      0 <= n.idle - p.idle <= n.total - p.total
  {
    SumGrowsByTwo(prev, next, 3, 4);
  }

  /** `cpu_percent`: the share of the elapsed jiffies that were not idle, as
      a percentage clamped to [0, 100]; no elapsed jiffies give 0. */
  function CpuPercent(prevIdle: int, prevTotal: int, curIdle: int, curTotal: int): (r: real)
    ensures 0.0 <= r <= 100.0
    ensures curTotal - prevTotal <= 0 ==> r == 0.0
    ensures var di, dt := curIdle - prevIdle, curTotal - prevTotal;
      dt > 0 && 0 <= di <= dt ==> r == 100.0 * (dt - di) as real / dt as real
    ensures var di, dt := curIdle - prevIdle, curTotal - prevTotal;
      dt > 0 && di > dt ==> r == 0.0
    ensures var di, dt := curIdle - prevIdle, curTotal - prevTotal;
      dt > 0 && di < 0 ==> r == 100.0
  {
    var di, dt := curIdle - prevIdle, curTotal - prevTotal;
    if dt <= 0 then 0.0
    else
      var used := 100.0 * (1.0 - di as real / dt as real);
      assert used == 100.0 * (dt - di) as real / dt as real by {
        assert (dt - di) as real / dt as real == dt as real / dt as real - di as real / dt as real;
      }
      if used < 0.0 then 0.0 else if used > 100.0 then 100.0 else used
  }

  /** On two well-formed readings of /proc/stat in which no counter went
      backwards, the percentage is exactly the busy share of the interval:
      the clamp never cuts in. */
  lemma CpuPercentOfReadings(prev: seq<int>, next: seq<int>)
    requires 5 <= |prev| == |next|
    requires forall k :: 0 <= k < |prev| ==> prev[k] <= next[k]
    ensures var p, n := CpuTimes(prev).value, CpuTimes(next).value;
      var di, dt := n.idle - p.idle, n.total - p.total;
      CpuPercent(p.idle, p.total, n.idle, n.total)
        == if dt == 0 then 0.0 else 100.0 * (dt - di) as real / dt as real
  {
    AdvancingCounters(prev, next);
  }
}
