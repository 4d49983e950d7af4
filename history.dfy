/** The rolling CPU history `deque(maxlen=10)` and its peak. */
module History {

  /** `maxlen` of the deque (oled_status.py:69). */
  const Capacity: nat := 10

  /** `hist.append(x)` on a deque bounded by Capacity: the new sample goes to
      the right end and, when the deque is full, the leftmost (oldest) one is
      dropped. */
  function Append(hist: seq<real>, x: real): (r: seq<real>)
    requires |hist| <= Capacity
    ensures 1 <= |r| <= Capacity && r[|r| - 1] == x
    ensures |hist| < Capacity ==> r == hist + [x]
    ensures |hist| == Capacity ==> r[..|r| - 1] == hist[1..]
  {
    if |hist| < Capacity then hist + [x] else hist[1..] + [x]
  }

  /** Every element of a sequence lies in [lo, hi]. */
  predicate Within(s: seq<real>, lo: real, hi: real)
  {
    forall i :: 0 <= i < |s| ==> lo <= s[i] <= hi
  }

  /** Appending a value in range to a history in range keeps it in range. */
  lemma AppendWithin(hist: seq<real>, x: real, lo: real, hi: real)
    requires |hist| <= Capacity && Within(hist, lo, hi) && lo <= x <= hi
    ensures Within(Append(hist, x), lo, hi)
  {
  }

  /** The last `min(|samples|, Capacity)` samples, oldest first. */
  ghost function Window(samples: seq<real>): seq<real>
  {
    if |samples| <= Capacity then samples else samples[|samples| - Capacity..]
  }

  /** Appending to the window of a sample stream gives the window of the
      stream extended by that sample: the deque keeps exactly the most recent
      samples, in order, evicting the oldest first. */
  lemma AppendWindow(samples: seq<real>, x: real)
    ensures |Window(samples)| <= Capacity
    ensures Append(Window(samples), x) == Window(samples + [x])
  {
  }

  /** `max(hist)`: Python scans left to right and keeps a later element only
      when it is strictly larger. */
  function MaxOf(s: seq<real>): (m: real)
    requires |s| > 0
    ensures m in s
    ensures forall i :: 0 <= i < |s| ==> s[i] <= m
  {
    if |s| == 1 then s[0]
    else
      var m := MaxOf(s[..|s| - 1]);
      if s[|s| - 1] > m then s[|s| - 1] else m
  }

  /** The peak of the window is the rolling maximum of the stream: it bounds
      every one of the last Capacity samples and is one of them. Older
      samples play no part. */
  lemma PeakIsRollingMax(samples: seq<real>)
    requires |samples| > 0
    ensures forall k :: |samples| - Capacity <= k < |samples| && 0 <= k
                     ==> samples[k] <= MaxOf(Window(samples))
    ensures exists k :: |samples| - Capacity <= k < |samples| && 0 <= k
                     && samples[k] == MaxOf(Window(samples))
  {
    var w := Window(samples);
    var d := |samples| - |w|;
    forall k | |samples| - Capacity <= k < |samples| && 0 <= k
      ensures samples[k] <= MaxOf(w)
    {
      assert samples[k] == w[k - d];
    }
    var i :| 0 <= i < |w| && w[i] == MaxOf(w);
    assert samples[d + i] == MaxOf(w);
  }
}
