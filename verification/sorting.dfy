/** Stable sorting by an integer key. Every ordering in the system is one of
    these: SQL `ORDER BY createdAt ASC` and JavaScript's (stable)
    `Array.prototype.sort` with a comparator `(a, b) => key(a) - key(b)`.
    A descending comparator `key(b) - key(a)` is the ascending sort on the
    negated key. */
module Sorting {

  /** Non-decreasing by `key`. */
  predicate SortedBy<T>(s: seq<T>, key: T -> int) {
    forall i, j :: 0 <= i < j < |s| ==> key(s[i]) <= key(s[j])
  }

  /** Where a stable insertion puts `x` into `s`: after every element whose
      key does not exceed `x`'s. */
  function InsertPos<T>(x: T, s: seq<T>, key: T -> int): (k: nat)
    ensures k <= |s|
    ensures forall i :: 0 <= i < k ==> key(s[i]) <= key(x)
    ensures k < |s| ==> key(x) < key(s[k])
  {
    if |s| == 0 || key(x) < key(s[0]) then 0
    else 1 + InsertPos(x, s[1..], key)
  }

  /** Stable insertion of `x` into the sorted `s`. */
  function Insert<T>(x: T, s: seq<T>, key: T -> int): (r: seq<T>)
    requires SortedBy(s, key)
    ensures |r| == |s| + 1
    ensures multiset(r) == multiset(s) + multiset{x}
    ensures SortedBy(r, key)
  {
    var k := InsertPos(x, s, key);
    InsertKeepsOrder(x, s, key, k);
    s[..k] + [x] + s[k..]
  }

  lemma InsertKeepsOrder<T>(x: T, s: seq<T>, key: T -> int, k: nat)
    requires SortedBy(s, key)
    requires k == InsertPos(x, s, key)
    ensures multiset(s[..k] + [x] + s[k..]) == multiset(s) + multiset{x}
    ensures SortedBy(s[..k] + [x] + s[k..], key)
  {
    InsertCounts(x, s, k);
    InsertSorted(x, s, key, k);
  }

  lemma InsertCounts<T>(x: T, s: seq<T>, k: nat)
    requires k <= |s|
    ensures multiset(s[..k] + [x] + s[k..]) == multiset(s) + multiset{x}
  {
    assert s == s[..k] + s[k..];
  }

  lemma InsertSorted<T>(x: T, s: seq<T>, key: T -> int, k: nat)
    requires SortedBy(s, key)
    requires k == InsertPos(x, s, key)
    ensures SortedBy(s[..k] + [x] + s[k..], key)
  {
    var r := s[..k] + [x] + s[k..];
    forall i, j | 0 <= i < j < |r|
      ensures key(r[i]) <= key(r[j])
    {
      KeyOrder(x, s, key, k, i, j);
    }
  }

  /** Positions of `s[..k] + [x] + s[k..]` in terms of `s`. */
  lemma InsertedAt<T>(x: T, s: seq<T>, k: nat)
    requires k <= |s|
    ensures forall i :: 0 <= i < k ==> (s[..k] + [x] + s[k..])[i] == s[i]
    ensures (s[..k] + [x] + s[k..])[k] == x
    ensures forall i :: k < i <= |s| ==> (s[..k] + [x] + s[k..])[i] == s[i - 1]
  {
  }

  lemma KeyOrder<T>(x: T, s: seq<T>, key: T -> int, k: nat, i: nat, j: nat)
    requires SortedBy(s, key)
    requires k == InsertPos(x, s, key)
    requires i < j <= |s|
    ensures key((s[..k] + [x] + s[k..])[i]) <= key((s[..k] + [x] + s[k..])[j])
  {
    InsertedAt(x, s, k);
    if i == k {
      assert key(s[k]) <= key(s[j - 1]);
    }
  }

  /** Stable insertion sort: each element, taken from left to right, is
      inserted after the elements already placed with a key not above its own. */
  function SortBy<T>(s: seq<T>, key: T -> int): (r: seq<T>)
    ensures |r| == |s|
    ensures multiset(r) == multiset(s)
    ensures SortedBy(r, key)
  {
    if |s| == 0 then []
    else
      var init := s[..|s| - 1];
      assert s == init + [s[|s| - 1]];
      Insert(s[|s| - 1], SortBy(init, key), key)
  }

  /** A permutation holds the same elements: membership is preserved both ways. */
  lemma SameElements<T>(a: seq<T>, b: seq<T>)
    requires multiset(a) == multiset(b)
    ensures forall i :: 0 <= i < |a| ==> a[i] in b
    ensures forall i :: 0 <= i < |b| ==> b[i] in a
  {
    forall i | 0 <= i < |a|
      ensures a[i] in b
    {
      assert a[i] in multiset(a);
    }
    forall i | 0 <= i < |b|
      ensures b[i] in a
    {
      assert b[i] in multiset(b);
    }
  }
}
