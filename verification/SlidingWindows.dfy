/** Pruned lists of timestamps against counting over a full history. */
module SlidingWindows {

  /** The list comprehension `[t for t in times if t > cutoff]`. */
  function After(times: seq<real>, cutoff: real): seq<real> {
    if times == [] then []
    else After(times[..|times| - 1], cutoff) + if times[|times| - 1] > cutoff then [times[|times| - 1]] else []
  }

  /** How many of the times lie in the half-open interval (lo, hi]. */
  function CountIn(times: seq<real>, lo: real, hi: real): nat {
    if times == [] then 0
    else CountIn(times[..|times| - 1], lo, hi) + if lo < times[|times| - 1] <= hi then 1 else 0
  }

  predicate NoneLaterThan(times: seq<real>, now: real) {
    forall i :: 0 <= i < |times| ==> times[i] <= now
  }

  lemma AfterSnoc(times: seq<real>, t: real, cutoff: real)
    ensures After(times + [t], cutoff) == After(times, cutoff) + if t > cutoff then [t] else []
  {
    assert (times + [t])[..|times|] == times;
  }

  lemma CountSnoc(times: seq<real>, t: real, lo: real, hi: real)
    ensures CountIn(times + [t], lo, hi) == CountIn(times, lo, hi) + if lo < t <= hi then 1 else 0
  {
    assert (times + [t])[..|times|] == times;
  }

  /** Pruning twice is pruning once, with the later cutoff. */
  lemma {:induction false} PruneAgain(times: seq<real>, early: real, late: real)
    requires early <= late
    ensures After(After(times, early), late) == After(times, late)
  {
    if times != [] {
      var front, t := times[..|times| - 1], times[|times| - 1];
      PruneAgain(front, early, late);
      if t > early {
        AfterSnoc(After(front, early), t, late);
      } else {
        assert After(front, early) + [] == After(front, early);
        assert After(front, late) + [] == After(front, late);
      }
    }
  }

  /** What a pruned list holds is what the full history counts in the window that ends now. */
  lemma {:induction false} PrunedCounts(times: seq<real>, cutoff: real, now: real)
    requires NoneLaterThan(times, now)
    ensures |After(times, cutoff)| == CountIn(times, cutoff, now)
  {
    if times != [] {
      PrunedCounts(times[..|times| - 1], cutoff, now);
    }
  }

  /** Appending and then pruning a list that was pruned before is pruning the full history. */
  lemma PruneAppended(times: seq<real>, early: real, t: real, late: real)
    requires early <= late
    ensures After(After(times, early) + [t], late) == After(times + [t], late)
  {
    AfterSnoc(After(times, early), t, late);
    AfterSnoc(times, t, late);
    PruneAgain(times, early, late);
  }

  lemma {:induction false} CountSplits(times: seq<real>, lo: real, mid: real, hi: real)
    requires lo <= mid <= hi
    ensures CountIn(times, lo, hi) == CountIn(times, lo, mid) + CountIn(times, mid, hi)
  {
    if times != [] {
      CountSplits(times[..|times| - 1], lo, mid, hi);
    }
  }

  lemma {:induction false} CountWithin(times: seq<real>, lo: real, hi: real, lo': real, hi': real)
    requires lo' <= lo && hi <= hi'
    ensures CountIn(times, lo, hi) <= CountIn(times, lo', hi')
  {
    if times != [] {
      CountWithin(times[..|times| - 1], lo, hi, lo', hi');
    }
  }

  lemma {:induction false} CountAtMostLength(times: seq<real>, lo: real, hi: real)
    ensures CountIn(times, lo, hi) <= |times|
  {
    if times != [] {
      CountAtMostLength(times[..|times| - 1], lo, hi);
    }
  }

  lemma {:induction false} PruneShortens(times: seq<real>, cutoff: real)
    ensures |After(times, cutoff)| <= |times|
  {
    if times != [] {
      PruneShortens(times[..|times| - 1], cutoff);
    }
  }

  lemma {:induction false} CountLater(times: seq<real>, lo: real, now: real, hi: real)
    requires NoneLaterThan(times, now) && now <= hi
    ensures CountIn(times, lo, hi) == CountIn(times, lo, now)
  {
    if times != [] {
      CountLater(times[..|times| - 1], lo, now, hi);
    }
  }

  /** Counting by places. */
  lemma {:induction false} CountIsExact(times: seq<real>, lo: real, hi: real)
    ensures CountIn(times, lo, hi) == |set i | 0 <= i < |times| && lo < times[i] && times[i] <= hi|
  {
    if times != [] {
      var n := |times| - 1;
      CountIsExact(times[..n], lo, hi);
      var front := set i | 0 <= i < |times[..n]| && lo < times[..n][i] && times[..n][i] <= hi;
      assert (set i | 0 <= i < |times| && lo < times[i] && times[i] <= hi) ==
        front + if lo < times[n] <= hi then {n} else {};
    }
  }
}
