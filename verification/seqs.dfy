/** Small generic facts about sequences shared by the rest of the model. */
module Seqs {

  /** `f` applied to every element of `s`, in order. */
  function Map<T, U>(s: seq<T>, f: T -> U): (r: seq<U>)
    ensures |r| == |s|
    ensures forall i :: 0 <= i < |s| ==> r[i] == f(s[i])
  {
    seq(|s|, i requires 0 <= i < |s| => f(s[i]))
  }

  /** The elements of `s` that satisfy `p`, keeping the order of `s`. */
  function Filter<T>(s: seq<T>, p: T -> bool): (r: seq<T>)
  {
    if s == [] then []
    else (if p(s[0]) then [s[0]] else []) + Filter(s[1..], p)
  }

  /** `Filter` keeps exactly the elements satisfying `p`. */
  lemma {:induction false} FilterMembers<T>(s: seq<T>, p: T -> bool, x: T)
    ensures x in Filter(s, p) <==> x in s && p(x)
  {
    if s != [] {
      FilterMembers(s[1..], p, x);
      assert s == [s[0]] + s[1..];
    }
  }

  lemma {:induction false} NoneKept<T>(s: seq<T>, p: T -> bool)
    requires forall i :: 0 <= i < |s| ==> !p(s[i])
    ensures Filter(s, p) == []
  {
    if s != [] {
      NoneKept(s[1..], p);
    }
  }

  /** When `p` holds at position `j` only, the filter is that one element. */
  lemma {:induction false} FilterOnly<T>(s: seq<T>, p: T -> bool, j: nat)
    requires j < |s|
    requires forall i :: 0 <= i < |s| ==> (p(s[i]) <==> i == j)
    ensures Filter(s, p) == [s[j]]
  {
    if j == 0 {
      NoneKept(s[1..], p);
    } else {
      FilterOnly(s[1..], p, j - 1);
    }
  }

  /** When `p` holds exactly on the first `j` positions, the filter is that
      prefix. */
  lemma {:induction false} FilterPrefix<T>(s: seq<T>, p: T -> bool, j: nat)
    requires j <= |s|
    requires forall i :: 0 <= i < |s| ==> (p(s[i]) <==> i < j)
    ensures Filter(s, p) == s[..j]
  {
    if j == 0 {
      NoneKept(s, p);
    } else {
      FilterPrefix(s[1..], p, j - 1);
      assert s[..j] == [s[0]] + s[1..][..j - 1];
    }
  }

  /** Number of elements of `s` satisfying `p`. */
  function Count<T>(s: seq<T>, p: T -> bool): nat
  {
    |Filter(s, p)|
  }

  lemma {:induction false} MapAppend<T, U>(a: seq<T>, b: seq<T>, f: T -> U)
    ensures Map(a + b, f) == Map(a, f) + Map(b, f)
  {
  }

  lemma MapRemove<T, U>(b: seq<T>, i: nat, f: T -> U)
    requires i < |b|
    ensures multiset(Map(b, f)) == multiset{f(b[i])} + multiset(Map(b[..i] + b[i + 1..], f))
  {
    var l, m, r := Map(b[..i], f), Map([b[i]], f), Map(b[i + 1..], f);
    assert b == b[..i] + ([b[i]] + b[i + 1..]);
    MapAppend([b[i]], b[i + 1..], f);
    MapAppend(b[..i], [b[i]] + b[i + 1..], f);
    assert Map(b, f) == l + (m + r);
    MapAppend(b[..i], b[i + 1..], f);
    assert Map(b[..i] + b[i + 1..], f) == l + r;
    assert m == [f(b[i])];
    assert multiset(l + (m + r)) == multiset(l) + multiset(m) + multiset(r);
    assert multiset(l + r) == multiset(l) + multiset(r);
  }

  lemma MultisetRemove<T>(b: seq<T>, i: nat)
    requires i < |b|
    ensures multiset(b[..i] + b[i + 1..]) == multiset(b) - multiset{b[i]}
  {
    assert b == b[..i] + [b[i]] + b[i + 1..];
    assert multiset(b) == multiset(b[..i]) + multiset{b[i]} + multiset(b[i + 1..]);
  }

  lemma MapCons<T, U>(a: seq<T>, f: T -> U)
    requires a != []
    ensures multiset(Map(a, f)) == multiset{f(a[0])} + multiset(Map(a[1..], f))
  {
    assert Map(a, f) == [f(a[0])] + Map(a[1..], f);
  }

  /** Mapping a function over two permutations of each other gives two
      permutations of each other. */
  lemma {:induction false} MultisetMap<T, U>(a: seq<T>, b: seq<T>, f: T -> U)
    requires multiset(a) == multiset(b)
    ensures multiset(Map(a, f)) == multiset(Map(b, f))
    decreases |a|
  {
    if a == [] {
      assert |b| == |multiset(b)| == 0;
    } else {
      assert a[0] in multiset(b);
      var i :| 0 <= i < |b| && b[i] == a[0];
      var b' := b[..i] + b[i + 1..];
      assert multiset(a[1..]) == multiset(b') by {
        MultisetRemove(b, i);
        assert a == [a[0]] + a[1..];
      }
      MultisetMap(a[1..], b', f);
      MapCons(a, f);
      MapRemove(b, i, f);
    }
  }
}
