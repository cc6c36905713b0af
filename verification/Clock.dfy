/**
  Times are integer nanoseconds.
 */
module Clock {
  const SECOND: nat := 1_000_000_000

  predicate Nondecreasing(times: seq<int>) {
    forall i, j :: 0 <= i < j < |times| ==> times[i] <= times[j]
  }

  // Windows that open more than `window` apart: an interval of n windows that begins at lo sees few
  // openings, k of them lying between lo and `start`.
  lemma OpeningsFit(window: nat, n: nat, k: nat, lo: int, start: int)
    requires lo + k * (window + 1) <= start <= lo + n * window
    ensures k <= n && (n > 0 ==> k < n)
  {
    assert k >= n ==> (k - n) * (window + 1) >= 0;
    assert k * (window + 1) == n * window + n + (k - n) * (window + 1);
  }
}
