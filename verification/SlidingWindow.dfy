/** Timestamped entries filtered to a window, as the activity detectors keep them. */
module SlidingWindow {

  datatype Tick = Tick(at: int, amount: int)

  /** The entries no older than `cutoff`, in order. */
  function Since(s: seq<Tick>, cutoff: int): seq<Tick> {
    if s == [] then []
    else
      var init, last := Since(s[..|s| - 1], cutoff), s[|s| - 1];
      if last.at >= cutoff then init + [last] else init
  }

  ghost predicate InTime(s: seq<Tick>, now: int) {
    (forall i, j :: 0 <= i < j < |s| ==> s[i].at <= s[j].at) && forall i :: 0 <= i < |s| ==> s[i].at <= now
  }

  lemma {:induction false} SinceTwice(s: seq<Tick>, c1: int, c2: int)
    requires c1 <= c2
    ensures Since(Since(s, c1), c2) == Since(s, c2)
  {
    if s != [] {
      var init, last := s[..|s| - 1], s[|s| - 1];
      SinceTwice(init, c1, c2);
      if last.at >= c1 {
        assert (Since(init, c1) + [last])[..|Since(init, c1)|] == Since(init, c1);
      }
    }
  }

  lemma SinceAppend(s: seq<Tick>, t: Tick, cutoff: int)
    ensures Since(s + [t], cutoff) == if t.at >= cutoff then Since(s, cutoff) + [t] else Since(s, cutoff)
  {
    assert (s + [t])[..|s|] == s;
  }

  lemma SinceRecentAppend(s: seq<Tick>, t: Tick, cutoff: int)
    requires cutoff <= t.at
    ensures Since(s + [t], cutoff) == Since(s, cutoff) + [t]
  {
    SinceAppend(s, t, cutoff);
  }

  lemma {:induction false} SinceShortens(s: seq<Tick>, cutoff: int)
    ensures |Since(s, cutoff)| <= |s|
  {
    if s != [] {
      SinceShortens(s[..|s| - 1], cutoff);
    }
  }

  /** In time order, something is recent exactly when the newest entry is. */
  lemma {:induction false} NewestDecides(s: seq<Tick>, now: int, cutoff: int)
    requires InTime(s, now)
    ensures Since(s, cutoff) != [] <==> s != [] && s[|s| - 1].at >= cutoff
  {
    if s != [] {
      NewestDecides(s[..|s| - 1], now, cutoff);
    }
  }
}
