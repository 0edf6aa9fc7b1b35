/**
  The stable sort that `Array.prototype.sort` performs with a numeric comparator
  `(a, b) => key(a) - key(b)`: the result is ordered by non-decreasing key, and
  elements with equal keys keep their original relative order. A descending sort
  is a sort by the negated key.
 */
module StableSort {

  /** The keys of `s` never decrease. */
  ghost predicate SortedBy<T>(s: seq<T>, key: T -> real) {
    forall i, j :: 0 <= i < j < |s| ==> key(s[i]) <= key(s[j])
  }

  /** The elements of `s` whose key is `k`, in their order in `s`. */
  function WithKey<T>(s: seq<T>, key: T -> real, k: real): seq<T> {
    if |s| == 0 then []
    else WithKey(s[..|s| - 1], key, k) + (if key(s[|s| - 1]) == k then [s[|s| - 1]] else [])
  }

  /** `x` placed after every leading element whose key is at most `key(x)`. */
  function Insert<T>(x: T, s: seq<T>, key: T -> real): seq<T> {
    if |s| == 0 then [x]
    else if key(s[0]) <= key(x) then [s[0]] + Insert(x, s[1..], key)
    else [x] + s
  }

  /** Insertion sort, inserting the elements from the first to the last. */
  function SortBy<T>(s: seq<T>, key: T -> real): (r: seq<T>)
    ensures |r| == |s|
    ensures multiset(r) == multiset(s)
    ensures SortedBy(r, key)
  {
    if |s| == 0 then []
    else
      var init := SortBy(s[..|s| - 1], key);
      InsertKeepsOrder(s[|s| - 1], init, key);
      assert s == s[..|s| - 1] + [s[|s| - 1]];
      Insert(s[|s| - 1], init, key)
  }

  lemma {:induction false} InsertKeepsOrder<T>(x: T, s: seq<T>, key: T -> real)
    requires SortedBy(s, key)
    ensures |Insert(x, s, key)| == |s| + 1
    ensures multiset(Insert(x, s, key)) == multiset(s) + multiset{x}
    ensures SortedBy(Insert(x, s, key), key)
    ensures forall i :: 0 <= i < |Insert(x, s, key)| ==>
              key(Insert(x, s, key)[i]) == key(x) || (|s| > 0 && key(Insert(x, s, key)[i]) >= key(s[0]))
  {
    if |s| > 0 && key(s[0]) <= key(x) {
      InsertKeepsOrder(x, s[1..], key);
      assert s == [s[0]] + s[1..];
    }
  }

  /** Where `Insert` puts `x`: after a prefix of keys at most `key(x)`, before a suffix of larger keys. */
  lemma {:induction false} InsertSplit<T>(x: T, s: seq<T>, key: T -> real) returns (p: nat)
    requires SortedBy(s, key)
    ensures p <= |s|
    ensures Insert(x, s, key) == s[..p] + [x] + s[p..]
    ensures forall i :: p <= i < |s| ==> key(s[i]) > key(x)
  {
    if |s| == 0 {
      p := 0;
    } else if key(s[0]) <= key(x) {
      var q := InsertSplit(x, s[1..], key);
      p := q + 1;
      assert s[..p] == [s[0]] + s[1..][..q];
      assert s[p..] == s[1..][q..];
    } else {
      p := 0;
    }
  }

  /** Selecting by key distributes over concatenation. */
  lemma {:induction false} WithKeyAppend<T>(a: seq<T>, b: seq<T>, key: T -> real, k: real)
    ensures WithKey(a + b, key, k) == WithKey(a, key, k) + WithKey(b, key, k)
  {
    if |b| > 0 {
      var b' := b[..|b| - 1];
      WithKeyAppend(a, b', key, k);
      assert (a + b)[..|a + b| - 1] == a + b';
    } else {
      assert a + b == a;
    }
  }

  lemma {:induction false} WithKeyNone<T>(s: seq<T>, key: T -> real, k: real)
    requires forall i :: 0 <= i < |s| ==> key(s[i]) != k
    ensures WithKey(s, key, k) == []
  {
    if |s| > 0 {
      WithKeyNone(s[..|s| - 1], key, k);
    }
  }

  /** Inserting `x` appends it to the elements that share its key and leaves the others alone. */
  lemma InsertStable<T>(x: T, s: seq<T>, key: T -> real, k: real)
    requires SortedBy(s, key)
    ensures WithKey(Insert(x, s, key), key, k) == WithKey(s, key, k) + (if key(x) == k then [x] else [])
  {
    var p := InsertSplit(x, s, key);
    var lo, hi := s[..p], s[p..];
    assert s == lo + hi;
    WithKeyAppend(lo + [x], hi, key, k);
    WithKeyAppend(lo, [x], key, k);
    WithKeyAppend(lo, hi, key, k);
    assert WithKey([x], key, k) == (if key(x) == k then [x] else []) by {
      assert [x][..0] == [];
    }
    if key(x) == k {
      WithKeyNone(hi, key, k);
    }
  }

  /**
    Stability: for every key, the elements carrying that key appear in the sorted
    sequence exactly in the order they had in the input.
   */
  lemma {:induction false} SortByStable<T>(s: seq<T>, key: T -> real, k: real)
    ensures WithKey(SortBy(s, key), key, k) == WithKey(s, key, k)
  {
    if |s| > 0 {
      var x := s[|s| - 1];
      var init := SortBy(s[..|s| - 1], key);
      assert SortBy(s, key) == Insert(x, init, key);
      SortByStable(s[..|s| - 1], key, k);
      InsertStable(x, init, key, k);
    }
  }

  /** Sorting keeps exactly the elements of the input. */
  lemma SortedMember<T>(s: seq<T>, key: T -> real, x: T)
    ensures x in SortBy(s, key) <==> x in s
  {
    assert x in SortBy(s, key) <==> x in multiset(SortBy(s, key));
  }

  /** An element of the sorted sequence is an element of the input, at some index. */
  lemma SortedIndex<T>(s: seq<T>, key: T -> real, x: T) returns (i: int)
    requires x in SortBy(s, key)
    ensures 0 <= i < |s| && s[i] == x
  {
    assert x in multiset(SortBy(s, key));
    i :| 0 <= i < |s| && s[i] == x;
  }

  /** The first element of a sorted non-empty sequence has the least key. */
  lemma FirstIsLeast<T>(s: seq<T>, key: T -> real)
    requires |s| > 0
    ensures forall x :: x in s ==> key(SortBy(s, key)[0]) <= key(x)
  {
    var r := SortBy(s, key);
    forall x | x in s ensures key(r[0]) <= key(x) {
      assert x in multiset(s);
      assert x in multiset(r);
      var i :| 0 <= i < |r| && r[i] == x;
    }
  }

  /** The last element of a sorted non-empty sequence has the greatest key. */
  lemma LastIsGreatest<T>(s: seq<T>, key: T -> real)
    requires |s| > 0
    ensures forall x :: x in s ==> key(x) <= key(SortBy(s, key)[|s| - 1])
  {
    var r := SortBy(s, key);
    forall x | x in s ensures key(x) <= key(r[|r| - 1]) {
      assert x in multiset(s);
      assert x in multiset(r);
      var i :| 0 <= i < |r| && r[i] == x;
    }
  }
}
