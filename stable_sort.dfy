/** Stable sorting by an integer key: the ordering used for the parameter list
    (`params.sort(comparingInt(index))`, `params.sort(key=lambda p: p[0])`) and for
    discovery results (`results.sort(comparingInt(key))`). Java's List.sort and
    Python's list.sort are both stable; any stable sort gives the same output
    (SortByUnique), so an insertion sort stands for them here. */
module StableSort {

  /** Keys never decrease from left to right. */
  predicate SortedBy<T>(s: seq<T>, key: T -> int) {
    forall i, j :: 0 <= i < j < |s| ==> key(s[i]) <= key(s[j])
  }

  /** The elements of `s` whose key is `k`, in their order in `s`. */
  function WithKey<T>(s: seq<T>, key: T -> int, k: int): (r: seq<T>)
    ensures |r| <= |s|
    ensures forall x :: x in r ==> x in s && key(x) == k
  {
    if s == [] then []
    else if key(s[0]) == k then [s[0]] + WithKey(s[1..], key, k)
    else WithKey(s[1..], key, k)
  }

  /** Put `x` in front of the first element whose key is not smaller. */
  function InsertBy<T>(x: T, s: seq<T>, key: T -> int): (r: seq<T>)
    requires SortedBy(s, key)
    ensures SortedBy(r, key)
    ensures multiset(r) == multiset(s) + multiset{x}
  {
    if s == [] || key(x) <= key(s[0]) then
      assert forall j :: 0 < j < |[x] + s| ==> ([x] + s)[j] == s[j - 1];
      [x] + s
    else
      var rest := InsertBy(x, s[1..], key);
      InsertStep(x, s, rest, key);
      [s[0]] + rest
  }

  /** The step case of InsertBy: the head of `s` stays in front of the insertion into
      its tail. */
  lemma InsertStep<T>(x: T, s: seq<T>, rest: seq<T>, key: T -> int)
    requires s != [] && SortedBy(s, key) && key(s[0]) < key(x)
    requires SortedBy(rest, key) && multiset(rest) == multiset(s[1..]) + multiset{x}
    ensures SortedBy([s[0]] + rest, key)
    ensures multiset([s[0]] + rest) == multiset(s) + multiset{x}
  {
    assert s == [s[0]] + s[1..];
    forall y | y in rest ensures key(s[0]) <= key(y) {
      assert y in multiset(rest);
      if y != x {
        assert y in multiset(s[1..]);
        var k :| 0 <= k < |s[1..]| && s[1..][k] == y;
        assert s[k + 1] == y;
      }
    }
    var r := [s[0]] + rest;
    forall i, j | 0 <= i < j < |r| ensures key(r[i]) <= key(r[j]) {
      assert r[j] == rest[j - 1];
      if i > 0 {
        assert r[i] == rest[i - 1];
      } else {
        assert r[j] in rest;
      }
    }
  }

  /** The stably sorted permutation of `s`. */
  function SortBy<T>(s: seq<T>, key: T -> int): (r: seq<T>)
    ensures SortedBy(r, key)
    ensures multiset(r) == multiset(s)
    ensures |r| == |s|
  {
    if s == [] then []
    else
      assert multiset(s) == multiset{s[0]} + multiset(s[1..]) by { assert s == [s[0]] + s[1..]; }
      InsertBy(s[0], SortBy(s[1..], key), key)
  }

  lemma {:induction false} WithKeyInsert<T>(x: T, s: seq<T>, key: T -> int, k: int)
    requires SortedBy(s, key)
    ensures WithKey(InsertBy(x, s, key), key, k)
         == (if key(x) == k then [x] else []) + WithKey(s, key, k)
  {
    if s == [] || key(x) <= key(s[0]) {
      assert ([x] + s)[1..] == s;
    } else {
      WithKeyInsert(x, s[1..], key, k);
      assert ([s[0]] + InsertBy(x, s[1..], key))[1..] == InsertBy(x, s[1..], key);
    }
  }

  /** Stability: for every key, the elements carrying it keep their relative order. */
  lemma {:induction false} SortByStable<T>(s: seq<T>, key: T -> int, k: int)
    ensures WithKey(SortBy(s, key), key, k) == WithKey(s, key, k)
  {
    if s != [] {
      SortByStable(s[1..], key, k);
      WithKeyInsert(s[0], SortBy(s[1..], key), key, k);
    }
  }

  lemma {:induction false} WithKeyOfSortedHead<T>(s: seq<T>, key: T -> int)
    requires s != []
    ensures WithKey(s, key, key(s[0])) != [] && WithKey(s, key, key(s[0]))[0] == s[0]
  {
  }

  lemma {:induction false} WithKeyNonEmpty<T>(s: seq<T>, key: T -> int, k: int)
    requires WithKey(s, key, k) != []
    ensures exists i :: 0 <= i < |s| && key(s[i]) == k
  {
    var x := WithKey(s, key, k)[0];
    assert x in WithKey(s, key, k);
    var i :| 0 <= i < |s| && s[i] == x;
  }

  lemma {:induction false} WithKeyTail<T>(s: seq<T>, key: T -> int, k: int)
    requires s != []
    ensures WithKey(s[1..], key, k)
         == if key(s[0]) == k then WithKey(s, key, k)[1..] else WithKey(s, key, k)
  {
  }

  /** A stable sort is determined by its input: two sequences that are sorted and
      agree, key by key, on the order of their elements are equal. */
  lemma {:induction false} SortedSameClassesEqual<T>(r: seq<T>, t: seq<T>, key: T -> int)
    requires SortedBy(r, key) && SortedBy(t, key)
    requires forall k :: WithKey(r, key, k) == WithKey(t, key, k)
    ensures r == t
    decreases |r| + |t|
  {
    if r == [] {
      if t != [] {
        WithKeyOfSortedHead(t, key);
        assert false;
      }
    } else if t == [] {
      WithKeyOfSortedHead(r, key);
      assert false;
    } else {
      SortedHeadsAgree(r, t, key);
      forall k ensures WithKey(r[1..], key, k) == WithKey(t[1..], key, k) {
        WithKeyTail(r, key, k);
        WithKeyTail(t, key, k);
      }
      SortedSameClassesEqual(r[1..], t[1..], key);
      assert r == [r[0]] + r[1..] && t == [t[0]] + t[1..];
    }
  }

  /** Two sorted sequences whose classes for their two head keys agree start with the
      same element. */
  lemma SortedHeadsAgree<T>(r: seq<T>, t: seq<T>, key: T -> int)
    requires r != [] && t != [] && SortedBy(r, key) && SortedBy(t, key)
    requires WithKey(r, key, key(r[0])) == WithKey(t, key, key(r[0]))
    requires WithKey(r, key, key(t[0])) == WithKey(t, key, key(t[0]))
    ensures r[0] == t[0]
  {
    WithKeyOfSortedHead(r, key);
    WithKeyOfSortedHead(t, key);
    WithKeyNonEmpty(t, key, key(r[0]));
    WithKeyNonEmpty(r, key, key(t[0]));
    assert key(r[0]) == key(t[0]);
  }

  /** Any sorted sequence that preserves the order within each key is SortBy's output. */
  lemma SortByUnique<T>(s: seq<T>, r: seq<T>, key: T -> int)
    requires SortedBy(r, key)
    requires forall k :: WithKey(r, key, k) == WithKey(s, key, k)
    ensures r == SortBy(s, key)
  {
    forall k ensures WithKey(r, key, k) == WithKey(SortBy(s, key), key, k) {
      SortByStable(s, key, k);
    }
    SortedSameClassesEqual(r, SortBy(s, key), key);
  }

  /** Sorting what is already in order changes nothing. */
  lemma {:induction false} SortBySorted<T>(s: seq<T>, key: T -> int)
    requires SortedBy(s, key)
    ensures SortBy(s, key) == s
  {
    if s != [] {
      SortBySorted(s[1..], key);
      assert SortBy(s[1..], key) == s[1..];
      assert s == [s[0]] + s[1..];
    }
  }
}
