/**
  The in-place insertion sort with which resolved environments order their keys and log redaction
  orders its substitutions, and the two orders it is used with.
 */
module EnvSort {
  // ---- What the sort computes ---------------------------------------------------------------------

  // x moves down from the end past everything it is less than.
  function Insert<T>(s: seq<T>, x: T, less: (T, T) -> bool): (r: seq<T>)
    ensures |r| == |s| + 1
  {
    if s == [] || !less(x, s[|s| - 1]) then s + [x]
    else Insert(s[..|s| - 1], x, less) + [s[|s| - 1]]
  }

  function Sorted<T>(s: seq<T>, less: (T, T) -> bool): (r: seq<T>)
    ensures |r| == |s|
  {
    if s == [] then [] else Insert(Sorted(s[..|s| - 1], less), s[|s| - 1], less)
  }

  // One swap of an element with its greater neighbour, seen from the sequences around it.
  lemma InsertPastLast<T>(s: seq<T>, x: T, less: (T, T) -> bool, above: seq<T>)
    requires s != [] && less(x, s[|s| - 1])
    ensures Insert(s, x, less) + above == Insert(s[..|s| - 1], x, less) + ([s[|s| - 1]] + above)
  {
  }

  // The inner loop: a[i] sinks to its place in the sorted prefix.
  method Sink<T>(a: array<T>, i: nat, less: (T, T) -> bool)
    requires i < a.Length
    modifies a
    ensures a[..i + 1] == Insert(old(a[..i]), old(a[i]), less)
    ensures forall k :: i < k < a.Length ==> a[k] == old(a[k])
  {
    var j := i;
    ghost var x, low, high := a[i], a[..i], [];
    while j > 0 && less(a[j], a[j - 1])
      invariant 0 <= j <= i && a[j] == x
      invariant a[..j] == low && a[j + 1..i + 1] == high
      invariant Insert(low, x, less) + high == Insert(old(a[..i]), x, less)
      invariant forall k :: i < k < a.Length ==> a[k] == old(a[k])
    {
      InsertPastLast(low, x, less, high);
      low, high := low[..j - 1], [low[j - 1]] + high;
      a[j - 1], a[j] := a[j], a[j - 1];
      j := j - 1;
    }
    assert a[..i + 1] == low + [x] + high;
  }

  lemma SortedSnoc<T>(s: seq<T>, i: nat, less: (T, T) -> bool)
    requires i < |s|
    ensures Sorted(s[..i + 1], less) == Insert(Sorted(s[..i], less), s[i], less)
  {
    assert s[..i + 1][..i] == s[..i];
  }

  method InsertionSort<T>(a: array<T>, less: (T, T) -> bool)
    modifies a
    ensures a[..] == Sorted(old(a[..]), less)
  {
    ghost var was := a[..];
    var i := 0;
    while i < a.Length
      invariant 0 <= i <= a.Length
      invariant a[..i] == Sorted(was[..i], less)
      invariant forall k :: i <= k < a.Length ==> a[k] == was[k]
    {
      SortedSnoc(was, i, less);
      Sink(a, i, less);
      i := i + 1;
    }
    assert was[..i] == was;
  }

  // ---- Order ----------------------------------------------------------------------------------------

  ghost predicate StrictOrder<T(!new)>(less: (T, T) -> bool) {
    && (forall x :: !less(x, x))
    && (forall x, y, z :: less(x, y) && less(y, z) ==> less(x, z))
    && (forall x, y, z :: less(x, z) ==> less(x, y) || less(y, z))
  }

  predicate Ordered<T>(s: seq<T>, less: (T, T) -> bool) {
    forall i, j :: 0 <= i < j < |s| ==> !less(s[j], s[i])
  }

  // Nothing in s is greater than x.
  predicate AtMost<T>(s: seq<T>, x: T, less: (T, T) -> bool) {
    forall i :: 0 <= i < |s| ==> !less(x, s[i])
  }

  lemma OrderedSnoc<T>(s: seq<T>, x: T, less: (T, T) -> bool)
    requires Ordered(s, less) && AtMost(s, x, less)
    ensures Ordered(s + [x], less)
  {
  }

  lemma {:induction false} InsertAtMost<T>(s: seq<T>, x: T, y: T, less: (T, T) -> bool)
    requires AtMost(s, y, less) && !less(y, x)
    ensures AtMost(Insert(s, x, less), y, less)
  {
    if s != [] && less(x, s[|s| - 1]) {
      InsertAtMost(s[..|s| - 1], x, y, less);
    }
  }

  lemma {:induction false} InsertOrders<T(!new)>(s: seq<T>, x: T, less: (T, T) -> bool)
    requires StrictOrder(less) && Ordered(s, less)
    ensures Ordered(Insert(s, x, less), less)
  {
    if s == [] {
    } else if less(x, s[|s| - 1]) {
      var n := |s| - 1;
      InsertOrders(s[..n], x, less);
      InsertAtMost(s[..n], x, s[n], less);
      OrderedSnoc(Insert(s[..n], x, less), s[n], less);
    } else {
      var n := |s| - 1;
      forall i | 0 <= i < |s| ensures !less(x, s[i]) {
        assert i == n || !less(s[n], s[i]);
      }
      OrderedSnoc(s, x, less);
    }
  }

  lemma {:induction false} InsertHas<T>(s: seq<T>, x: T, less: (T, T) -> bool, e: T)
    ensures e in Insert(s, x, less) <==> e == x || e in s
  {
    if s != [] && less(x, s[|s| - 1]) {
      InsertHas(s[..|s| - 1], x, less, e);
      assert s == s[..|s| - 1] + [s[|s| - 1]];
    }
  }

  lemma {:induction false} SortHas<T>(s: seq<T>, less: (T, T) -> bool, e: T)
    ensures e in Sorted(s, less) <==> e in s
  {
    if s != [] {
      var n := |s| - 1;
      SortHas(s[..n], less, e);
      InsertHas(Sorted(s[..n], less), s[n], less, e);
      assert s == s[..n] + [s[n]];
    }
  }

  lemma {:induction false} SortOrders<T(!new)>(s: seq<T>, less: (T, T) -> bool)
    requires StrictOrder(less)
    ensures Ordered(Sorted(s, less), less)
  {
    if s != [] {
      var n := |s| - 1;
      SortOrders(s[..n], less);
      InsertOrders(Sorted(s[..n], less), s[n], less);
    }
  }

  // ---- Stability, and with it permutation ------------------------------------------------------------

  function Filter<T>(s: seq<T>, p: T -> bool): seq<T> {
    if s == [] then []
    else Filter(s[..|s| - 1], p) + (if p(s[|s| - 1]) then [s[|s| - 1]] else [])
  }

  ghost predicate Ties<T(!new)>(p: T -> bool, less: (T, T) -> bool) {
    forall x, y :: p(x) && p(y) ==> !less(x, y)
  }

  lemma {:induction false} InsertKeepsTies<T(!new)>(s: seq<T>, x: T, less: (T, T) -> bool, p: T -> bool)
    requires Ties(p, less)
    ensures Filter(Insert(s, x, less), p) == Filter(s, p) + if p(x) then [x] else []
  {
    var r := Insert(s, x, less);
    if s != [] && less(x, s[|s| - 1]) {
      var n := |s| - 1;
      InsertKeepsTies(s[..n], x, less, p);
      assert r[..|r| - 1] == Insert(s[..n], x, less);
      assert p(x) ==> !p(s[n]);
    } else {
      assert r[..|r| - 1] == s;
    }
  }

  /** Elements that tie keep their order; taking "equal to x" for p, nothing is lost or duplicated. */
  lemma {:induction false} SortIsStable<T(!new)>(s: seq<T>, less: (T, T) -> bool, p: T -> bool)
    requires Ties(p, less)
    ensures Filter(Sorted(s, less), p) == Filter(s, p)
  {
    if s != [] {
      var n := |s| - 1;
      SortIsStable(s[..n], less, p);
      InsertKeepsTies(Sorted(s[..n], less), s[n], less, p);
    }
  }

  lemma {:induction false} InsertKeepsAll<T>(s: seq<T>, x: T, less: (T, T) -> bool)
    ensures multiset(Insert(s, x, less)) == multiset(s) + multiset{x}
  {
    if s != [] && less(x, s[|s| - 1]) {
      InsertKeepsAll(s[..|s| - 1], x, less);
      assert s == s[..|s| - 1] + [s[|s| - 1]];
    }
  }

  // Nothing is lost, added or duplicated.
  lemma {:induction false} SortIsPermutation<T>(s: seq<T>, less: (T, T) -> bool)
    ensures multiset(Sorted(s, less)) == multiset(s)
  {
    if s != [] {
      var n := |s| - 1;
      SortIsPermutation(s[..n], less);
      InsertKeepsAll(Sorted(s[..n], less), s[n], less);
      assert s == s[..n] + [s[n]];
    }
  }

  // ---- A sorted list of distinct things is determined by its elements -----------------------------------

  predicate Increasing<T>(s: seq<T>, less: (T, T) -> bool) {
    forall i, j :: 0 <= i < j < |s| ==> less(s[i], s[j])
  }

  ghost predicate Asymmetric<T(!new)>(less: (T, T) -> bool) {
    forall x, y :: !(less(x, y) && less(y, x))
  }

  lemma LastIsGreatest<T(!new)>(s: seq<T>, t: seq<T>, less: (T, T) -> bool)
    requires Asymmetric(less) && Increasing(s, less) && Increasing(t, less)
    requires s != [] && t != [] && s[|s| - 1] in t && t[|t| - 1] in s
    ensures s[|s| - 1] == t[|t| - 1]
  {
  }

  ghost predicate SameElements<T(!new)>(s: seq<T>, t: seq<T>) {
    forall e :: e in s <==> e in t
  }

  lemma DropLast<T(!new)>(s: seq<T>, t: seq<T>, less: (T, T) -> bool)
    requires Asymmetric(less) && Increasing(s, less) && Increasing(t, less) && SameElements(s, t)
    requires s != [] && t != [] && s[|s| - 1] == t[|t| - 1]
    ensures SameElements(s[..|s| - 1], t[..|t| - 1])
  {
    var m, n := |s| - 1, |t| - 1;
    forall e ensures e in s[..m] <==> e in t[..n] {
      assert e in s <==> e in t;
      assert e in s[..m] ==> less(e, s[m]);
      assert e in t[..n] ==> less(e, t[n]);
      assert s == s[..m] + [s[m]] && t == t[..n] + [t[n]];
    }
  }

  lemma BothEmpty<T(!new)>(s: seq<T>, t: seq<T>)
    requires SameElements(s, t)
    ensures s == [] <==> t == []
  {
    if |s| > 0 { assert s[0] in t; }
    if |t| > 0 { assert t[0] in s; }
  }

  lemma {:induction false} IncreasingIsUnique<T(!new)>(s: seq<T>, t: seq<T>, less: (T, T) -> bool)
    requires Asymmetric(less) && Increasing(s, less) && Increasing(t, less) && SameElements(s, t)
    ensures s == t
  {
    BothEmpty(s, t);
    if s != [] {
      var m, n := |s| - 1, |t| - 1;
      assert s[m] in t && t[n] in s;
      LastIsGreatest(s, t, less);
      DropLast(s, t, less);
      IncreasingIsUnique(s[..m], t[..n], less);
      assert s == s[..m] + [s[m]] && t == t[..n] + [t[n]];
    }
  }

  // ---- The order on keys ----------------------------------------------------------------------------------

  // Strings compare character by character, a proper prefix first.
  predicate Before(a: string, b: string) {
    if a == [] || b == [] then a == [] && b != []
    else if a[0] != b[0] then a[0] < b[0]
    else Before(a[1..], b[1..])
  }

  lemma {:induction false} BeforeIsStrict(a: string, b: string, c: string)
    ensures !Before(a, a)
    ensures Before(a, b) ==> !Before(b, a)
    ensures Before(a, b) && Before(b, c) ==> Before(a, c)
    ensures Before(a, c) ==> Before(a, b) || Before(b, c)
  {
    if a != [] || b != [] || c != [] {
      BeforeIsStrict(if a == [] then [] else a[1..], if b == [] then [] else b[1..], if c == [] then [] else c[1..]);
    }
  }

  lemma {:induction false} BeforeIsTotal(a: string, b: string)
    ensures a == b || Before(a, b) || Before(b, a)
  {
    if a != [] && b != [] && a[0] == b[0] {
      BeforeIsTotal(a[1..], b[1..]);
      assert a == [a[0]] + a[1..] && b == [b[0]] + b[1..];
    }
  }

  // a and b agree on their first k characters, and there a ends or has the smaller character.
  predicate SmallerAt(a: string, b: string, k: nat) {
    && k <= |a| && k < |b| && a[..k] == b[..k]
    && (k == |a| || a[k] < b[k])
  }

  /** The order is lexicographic: one text comes before another exactly when, at the first place where
      they differ, it has ended or has the smaller character. */
  lemma {:induction false} BeforeIsLexicographic(a: string, b: string)
    ensures Before(a, b) <==> exists k: nat :: SmallerAt(a, b, k)
  {
    if a == [] || b == [] {
      assert b != [] ==> SmallerAt([], b, 0);
    } else if a[0] != b[0] {
      assert a[0] < b[0] ==> SmallerAt(a, b, 0);
      forall k: nat | SmallerAt(a, b, k) ensures a[0] < b[0] {
        if k > 0 { assert a[..k][0] == b[..k][0]; }
      }
    } else {
      BeforeIsLexicographic(a[1..], b[1..]);
      if Before(a, b) {
        var k: nat :| SmallerAt(a[1..], b[1..], k);
        assert a[..k + 1] == [a[0]] + a[1..][..k] && b[..k + 1] == [b[0]] + b[1..][..k];
        assert SmallerAt(a, b, k + 1);
      }
      if k: nat :| SmallerAt(a, b, k) {
        assert k > 0;
        assert a[1..][..k - 1] == a[..k][1..] && b[1..][..k - 1] == b[..k][1..];
        assert SmallerAt(a[1..], b[1..], k - 1);
      }
    }
  }

  lemma KeyOrder()
    ensures StrictOrder(Before) && Asymmetric(Before)
  {
    forall a, b, c ensures !Before(a, a) && (Before(a, b) ==> !Before(b, a)) && (Before(a, b) && Before(b, c) ==> Before(a, c))
      && (Before(a, c) ==> Before(a, b) || Before(b, c))
    {
      BeforeIsStrict(a, b, c);
    }
  }

  // Sorting distinct keys leaves them strictly increasing.
  lemma DistinctKeysIncrease(keys: seq<string>)
    requires forall i, j :: 0 <= i < j < |keys| ==> keys[i] != keys[j]
    ensures Increasing(Sorted(keys, Before), Before)
    ensures forall k :: k in Sorted(keys, Before) <==> k in keys
  {
    KeyOrder();
    SortOrders(keys, Before);
    forall k ensures k in Sorted(keys, Before) <==> k in keys { SortHas(keys, Before, k); }
    var r := Sorted(keys, Before);
    forall i, j | 0 <= i < j < |r| ensures Before(r[i], r[j]) {
      SortKeepsDistinct(keys, i, j);
      BeforeIsTotal(r[i], r[j]);
    }
  }

  lemma SortKeepsDistinct(keys: seq<string>, i: int, j: int)
    requires forall i, j :: 0 <= i < j < |keys| ==> keys[i] != keys[j]
    requires 0 <= i < j < |keys|
    ensures Sorted(keys, Before)[i] != Sorted(keys, Before)[j]
  {
    var r := Sorted(keys, Before);
    if r[i] == r[j] {
      KeyOrder();
      var p := e => e == r[i];
      SortIsStable(keys, Before, p);
      FilterCountsPairs(r, p, i, j);
      DistinctFiltersOnce(keys, p, r[i]);
      assert false;
    }
  }

  lemma {:induction false} FilterCountsPairs<T>(s: seq<T>, p: T -> bool, i: int, j: int)
    requires 0 <= i < |s| && p(s[i])
    requires i < j < |s| ==> p(s[j])
    ensures |Filter(s, p)| >= if i < j < |s| then 2 else 1
  {
    var n := |s| - 1;
    if i < n { FilterCountsPairs(s[..n], p, i, j); }
  }

  lemma {:induction false} DistinctFiltersOnce<T>(s: seq<T>, p: T -> bool, x: T)
    requires forall i, j :: 0 <= i < j < |s| ==> s[i] != s[j]
    requires forall e :: p(e) <==> e == x
    ensures |Filter(s, p)| == if x in s then 1 else 0
  {
    if s != [] {
      var n := |s| - 1;
      DistinctFiltersOnce(s[..n], p, x);
      assert s == s[..n] + [s[n]];
    }
  }

  // ---- The order on substitutions ---------------------------------------------------------------------------

  datatype MaskPair = MaskPair(plain: string, masked: string)

  predicate Longer(a: MaskPair, b: MaskPair) { |a.plain| > |b.plain| }

  function OfLength(s: seq<MaskPair>, n: int): seq<MaskPair> { Filter(s, (e: MaskPair) => |e.plain| == n) }

  /** Substitutions end up longest plaintext first; those of one length keep their order, and every
      pair is still there as often as before. */
  method SortPairsByLenDesc(p: array<MaskPair>)
    modifies p
    ensures forall i, j :: 0 <= i < j < p.Length ==> |p[i].plain| >= |p[j].plain|
    ensures forall n :: OfLength(p[..], n) == OfLength(old(p[..]), n)
  {
    ghost var was := p[..];
    InsertionSort(p, Longer);
    SortOrders(was, Longer);
    assert forall i :: 0 <= i < p.Length ==> p[..][i] == p[i];
    forall n ensures OfLength(p[..], n) == OfLength(was, n) {
      SortIsStable(was, Longer, (e: MaskPair) => |e.plain| == n);
    }
  }
}
