/** The state the status loop of `main` carries from one iteration to the
    next: the last counter snapshot and the bounded CPU history. */
module Monitor {
  import opened CpuStat
  import opened History
  import opened Display

  class CpuTracker {
    /** `pi, pt`: the snapshot the next percentage is measured from. */
    var prevIdle: int
    var prevTotal: int
    /** `hist`: the deque of recent percentages, oldest first. */
    var hist: seq<real>
    /** Every percentage computed so far, the seed first. */
    ghost var samples: seq<real>

    ghost predicate Valid()
      reads this
    {
      && |samples| > 0
      && hist == Window(samples)
      && Within(hist, 0.0, 100.0)
    }

    /** The seeding before the loop: one percentage from two snapshots taken
        a moment apart, the second kept, and a history of that one sample. */
    constructor (seedIdle: int, seedTotal: int, idle: int, total: int)
      ensures Valid()
      ensures prevIdle == idle && prevTotal == total
      ensures samples == [CpuPercent(seedIdle, seedTotal, idle, total)]
      ensures hist == samples
    {
      var cur := CpuPercent(seedIdle, seedTotal, idle, total);
      prevIdle, prevTotal := idle, total;
      hist := [cur];
      samples := [cur];
    }

    /** One pass of the loop body up to the bar: measure the new snapshot
        against the kept one, keep only the new one, append the percentage
        to the history, take the peak over the history and map both to bar
        columns and the lines to draw. */
    method Step(idle: int, total: int) returns (cur: real, peak: real, bar: Bar, lines: seq<Line>)
      requires Valid()
      modifies this
      ensures Valid()
      ensures prevIdle == idle && prevTotal == total
      ensures cur == CpuPercent(old(prevIdle), old(prevTotal), idle, total)
      ensures samples == old(samples) + [cur]
      ensures hist == Append(old(hist), cur)
      ensures 1 <= |hist| <= Capacity && hist[|hist| - 1] == cur
      ensures peak in hist && forall i :: 0 <= i < |hist| ==> hist[i] <= peak
      ensures 0.0 <= cur <= peak <= 100.0
      ensures bar == BarFor(cur, peak)
      ensures 0 <= bar.xCur <= bar.xPeak <= Width - 1
      ensures lines == BarLines(bar)
      ensures forall l :: l in lines ==> OnPanel(l)
    {
      cur := CpuPercent(prevIdle, prevTotal, idle, total);
      prevIdle, prevTotal := idle, total;
      AppendWindow(samples, cur);
      AppendWithin(hist, cur, 0.0, 100.0);
      hist := Append(hist, cur);
      samples := samples + [cur];
      peak := MaxOf(hist);
      assert 0.0 <= cur <= peak <= 100.0;
      bar := BarFor(cur, peak);
      lines := BarLines(bar);
    }
  }
}
