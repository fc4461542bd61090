/** Counting events in half-open time intervals. */
module Windows {

  ghost predicate Nondecreasing(s: seq<int>) {
    forall i, j :: 0 <= i <= j < |s| ==> s[i] <= s[j]
  }

  /** How many times of `s` fall in [lo, hi). */
  function CountIn(s: seq<int>, lo: int, hi: int): nat {
    if s == [] then 0
    else CountIn(s[..|s| - 1], lo, hi) + if lo <= s[|s| - 1] < hi then 1 else 0
  }

  predicate Apart(s: seq<int>, j: nat, n: nat, window: int)
    requires n <= j < |s|
  {
    s[j] - s[j - n] >= window
  }

  /** Any n + 1 consecutive events span at least `window`. */
  ghost predicate Spaced(s: seq<int>, n: nat, window: int) {
    forall j :: n <= j < |s| ==> Apart(s, j, n, window)
  }

  lemma NondecreasingAppend(s: seq<int>, t: int)
    requires Nondecreasing(s) && (s != [] ==> s[|s| - 1] <= t)
    ensures Nondecreasing(s + [t])
  {
  }

  lemma SpacedAppend(s: seq<int>, t: int, n: nat, window: int)
    requires Spaced(s, n, window) && 0 < n
    requires n <= |s| ==> t - s[|s| - n] >= window
    ensures Spaced(s + [t], n, window)
  {
    forall j | n <= j < |s + [t]| ensures Apart(s + [t], j, n, window) {
      if j < |s| { assert Apart(s, j, n, window); }
    }
  }

  lemma {:induction false} CountIsAtMostLength(s: seq<int>, lo: int, hi: int)
    ensures CountIn(s, lo, hi) <= |s|
  {
    if s != [] { CountIsAtMostLength(s[..|s| - 1], lo, hi); }
  }

  lemma {:induction false} CountBelow(s: seq<int>, lo: int, hi: int)
    requires forall i :: 0 <= i < |s| ==> s[i] < lo
    ensures CountIn(s, lo, hi) == 0
  {
    if s != [] { CountBelow(s[..|s| - 1], lo, hi); }
  }

  lemma {:induction false} CountSplits(a: seq<int>, b: seq<int>, lo: int, hi: int)
    ensures CountIn(a + b, lo, hi) == CountIn(a, lo, hi) + CountIn(b, lo, hi)
  {
    if b == [] {
      assert a + b == a;
    } else {
      assert (a + b)[..|a + b| - 1] == a + b[..|b| - 1];
      CountSplits(a, b[..|b| - 1], lo, hi);
    }
  }

  /** Spaced events cannot crowd: no interval of length `window` holds more than n of them. */
  lemma {:induction false} SpacedMeansFew(s: seq<int>, n: nat, window: int, lo: int)
    requires Nondecreasing(s) && Spaced(s, n, window)
    ensures CountIn(s, lo, lo + window) <= n
  {
    hide CountIn, Spaced, Nondecreasing;
    if s == [] {
      CountIsAtMostLength(s, lo, lo + window);
    } else {
      var last := |s| - 1;
      FrontIsSpaced(s, n, window);
      SpacedMeansFew(s[..last], n, window, lo);
      CountSplits(s[..last], [s[last]], lo, lo + window);
      assert s == s[..last] + [s[last]];
      if lo <= s[last] < lo + window {
        FewInLastWindow(s, n, window, lo);
      } else {
        OutsideIsNotCounted(s[last], lo, lo + window);
      }
    }
  }

  lemma FrontIsSpaced(s: seq<int>, n: nat, window: int)
    requires s != [] && Nondecreasing(s) && Spaced(s, n, window)
    ensures Nondecreasing(s[..|s| - 1]) && Spaced(s[..|s| - 1], n, window)
  {
    var front := s[..|s| - 1];
    forall j | n <= j < |front| ensures Apart(front, j, n, window) { assert Apart(s, j, n, window); }
  }

  lemma OutsideIsNotCounted(t: int, lo: int, hi: int)
    requires !(lo <= t < hi)
    ensures CountIn([t], lo, hi) == 0
  {
    assert [t][..0] == [];
  }

  /** The last n events are all that can be in a window with the last one. */
  lemma FewInLastWindow(s: seq<int>, n: nat, window: int, lo: int)
    requires s != [] && Nondecreasing(s) && Spaced(s, n, window) && s[|s| - 1] < lo + window
    ensures CountIn(s, lo, lo + window) <= n
  {
    hide CountIn;
    var last := |s| - 1;
    if n <= last {
      var early, late := s[..last - n + 1], s[last - n + 1..];
      assert Apart(s, last, n, window);
      forall i | 0 <= i < |early| ensures early[i] < lo { assert s[i] <= s[last - n]; }
      hide Spaced, Nondecreasing;
      CountBelow(early, lo, lo + window);
      CountSplits(early, late, lo, lo + window);
      assert s == early + late;
      CountIsAtMostLength(late, lo, lo + window);
    } else {
      CountIsAtMostLength(s, lo, lo + window);
    }
  }
}
