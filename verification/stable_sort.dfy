/** A stable sort by an integer key, the behaviour the script gets from
    Python's `list.sort(key=...)` (which is guaranteed stable). */
module StableSort {
  import Seqs

  /** Non-decreasing in `key`. */
  ghost predicate SortedBy<T>(s: seq<T>, key: T -> int)
  {
    forall i, j :: 0 <= i < j < |s| ==> key(s[i]) <= key(s[j])
  }

  /** The elements of `s` whose key is `k`, in their order in `s`.  A sort is
      stable exactly when it leaves every one of these subsequences as it was. */
  function WithKey<T>(s: seq<T>, key: T -> int, k: int): seq<T>
  {
    Seqs.Filter(s, x => key(x) == k)
  }

  /** Each run of equal keys keeps its relative order. */
  ghost predicate StableFor<T>(r: seq<T>, s: seq<T>, key: T -> int)
  {
    forall k :: WithKey(r, key, k) == WithKey(s, key, k)
  }

  /** Places `x` in front of the first element whose key is not smaller, so
      that `x` stays ahead of the elements with the same key. */
  function Insert<T>(x: T, s: seq<T>, key: T -> int): (r: seq<T>)
    requires SortedBy(s, key)
    ensures SortedBy(r, key)
    ensures multiset(r) == multiset(s) + multiset{x}
  {
    if s == [] || key(x) <= key(s[0]) then
      SortedCons(x, s, key);
      [x] + s
    else
      SortedTail(s, key);
      var rest := Insert(x, s[1..], key);
      BoundedBelow(rest, s[1..], x, key, key(s[0]));
      SortedCons(s[0], rest, key);
      assert multiset(s) == multiset{s[0]} + multiset(s[1..]) by {
        assert s == [s[0]] + s[1..];
      }
      [s[0]] + rest
  }

  lemma SortedTail<T>(s: seq<T>, key: T -> int)
    requires s != [] && SortedBy(s, key)
    ensures SortedBy(s[1..], key)
    ensures forall j :: 0 <= j < |s[1..]| ==> key(s[0]) <= key(s[1..][j])
  {
  }

  /** An element no larger than the first of a sorted sequence can go in front. */
  lemma SortedCons<T>(h: T, t: seq<T>, key: T -> int)
    requires SortedBy(t, key)
    requires t == [] || key(h) <= key(t[0])
    ensures SortedBy([h] + t, key)
  {
  }

  /** A lower bound on the keys of `s` and of `x` bounds every element of a
      permutation of `s` plus `x`. */
  lemma BoundedBelow<T>(r: seq<T>, s: seq<T>, x: T, key: T -> int, m: int)
    requires multiset(r) == multiset(s) + multiset{x}
    requires m <= key(x)
    requires forall j :: 0 <= j < |s| ==> m <= key(s[j])
    ensures forall j :: 0 <= j < |r| ==> m <= key(r[j])
  {
    forall j | 0 <= j < |r|
      ensures m <= key(r[j])
    {
      assert r[j] in multiset(r);
      if r[j] != x {
        assert r[j] in s;
      }
    }
  }

  lemma WithKeyCons<T>(x: T, s: seq<T>, key: T -> int, k: int)
    ensures WithKey([x] + s, key, k) == (if key(x) == k then [x] else []) + WithKey(s, key, k)
  {
    assert ([x] + s)[1..] == s;
  }

  /** The element inserted goes in front of the ones with the same key and
      leaves every other key's run untouched. */
  lemma {:induction false} InsertWithKey<T>(x: T, s: seq<T>, key: T -> int, k: int)
    requires SortedBy(s, key)
    ensures WithKey(Insert(x, s, key), key, k) ==
      if key(x) == k then [x] + WithKey(s, key, k) else WithKey(s, key, k)
  {
    if s == [] || key(x) <= key(s[0]) {
      InsertFrontWithKey(x, s, key, k);
    } else {
      InsertStepWithKey(x, s, key, k);
      InsertWithKey(x, s[1..], key, k);
    }
  }

  /** When `x` goes in front, it heads its run. */
  lemma InsertFrontWithKey<T>(x: T, s: seq<T>, key: T -> int, k: int)
    requires SortedBy(s, key)
    requires s == [] || key(x) <= key(s[0])
    ensures WithKey(Insert(x, s, key), key, k) ==
      if key(x) == k then [x] + WithKey(s, key, k) else WithKey(s, key, k)
  {
    WithKeyCons(x, s, key, k);
  }

  /** When `x` goes past the first element, that element heads both runs. */
  lemma InsertStepWithKey<T>(x: T, s: seq<T>, key: T -> int, k: int)
    requires SortedBy(s, key)
    requires s != [] && key(s[0]) < key(x)
    ensures SortedBy(s[1..], key)
    ensures WithKey(Insert(x, s, key), key, k) ==
      (if key(s[0]) == k then [s[0]] else []) + WithKey(Insert(x, s[1..], key), key, k)
  {
    SortedTail(s, key);
    var rest := Insert(x, s[1..], key);
    assert Insert(x, s, key) == [s[0]] + rest;
    WithKeyCons(s[0], rest, key, k);
  }

  /** Insertion sort: the result is ordered by `key`, is a permutation of
      `s`, and keeps equal-key elements in their original order. */
  function Sort<T>(s: seq<T>, key: T -> int): (r: seq<T>)
    ensures |r| == |s|
    ensures SortedBy(r, key)
    ensures multiset(r) == multiset(s)
    ensures StableFor(r, s, key)
  {
    if s == [] then []
    else
      var rest := Sort(s[1..], key);
      InsertStable(s, rest, key);
      InsertPermutes(s, rest, key);
      Insert(s[0], rest, key)
  }

  /** Inserting the head of `s` into a stable sort of its tail gives a
      stable sort of `s`. */
  lemma InsertStable<T>(s: seq<T>, rest: seq<T>, key: T -> int)
    requires s != [] && SortedBy(rest, key)
    requires StableFor(rest, s[1..], key)
    ensures StableFor(Insert(s[0], rest, key), s, key)
  {
    forall k
      ensures WithKey(Insert(s[0], rest, key), key, k) == WithKey(s, key, k)
    {
      InsertWithKey(s[0], rest, key, k);
      WithKeyCons(s[0], s[1..], key, k);
      assert [s[0]] + s[1..] == s;
    }
  }

  /** Inserting the head of `s` into a permutation of its tail gives a
      permutation of `s`. */
  lemma InsertPermutes<T>(s: seq<T>, rest: seq<T>, key: T -> int)
    requires s != [] && SortedBy(rest, key)
    requires multiset(rest) == multiset(s[1..])
    ensures multiset(Insert(s[0], rest, key)) == multiset(s)
    ensures |Insert(s[0], rest, key)| == |s|
  {
    assert [s[0]] + s[1..] == s;
    assert |Insert(s[0], rest, key)| == |multiset(Insert(s[0], rest, key))|;
  }

  /** Mapping a function that leaves keys alone commutes with picking out a
      key's run. */
  lemma {:induction false} WithKeyMap<T, U>(s: seq<T>, f: T -> U, keyT: T -> int, keyU: U -> int, k: int)
    requires forall x :: keyU(f(x)) == keyT(x)
    ensures WithKey(Seqs.Map(s, f), keyU, k) == Seqs.Map(WithKey(s, keyT, k), f)
  {
    if s != [] {
      WithKeyMap(s[1..], f, keyT, keyU, k);
      assert Seqs.Map(s, f)[1..] == Seqs.Map(s[1..], f);
      var head := if keyT(s[0]) == k then [s[0]] else [];
      Seqs.MapAppend(head, WithKey(s[1..], keyT, k), f);
    }
  }

  /** Two elements out of order by key are swapped. */
  lemma SortSwapsPair<T>(x: T, y: T, key: T -> int)
    requires key(y) < key(x)
    ensures Sort([x, y], key) == [y, x]
  {
    assert [x, y][1..] == [y];
    SortSingleton(y, key);
    InsertPast(x, y, key);
  }

  lemma SortSingleton<T>(y: T, key: T -> int)
    ensures Sort([y], key) == [y]
  {
    assert [y][1..] == [];
  }

  lemma InsertPast<T>(x: T, y: T, key: T -> int)
    requires key(y) < key(x)
    ensures Insert(x, [y], key) == [y, x]
  {
    assert [y][1..] == [];
  }
}
