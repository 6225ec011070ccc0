/** Stable sorting by an integer key, as Python's `list.sort(key=...)` and
    `sorted(..., key=...)` do. `SortBy` is defined as repeated selection of
    the first minimum; `SortByCharacterized` shows it is the one arrangement
    that is ordered by key and keeps the input order among equal keys, so it
    is the result of any stable sort. A descending stable sort
    (`reverse=True`) is `SortBy` with the negated key. */
module StableSort {

  ghost predicate Sorted<T>(s: seq<T>, key: T -> int) {
    forall i, j :: 0 <= i < j < |s| ==> key(s[i]) <= key(s[j])
  }

  /** Index of the first element whose key is minimal. */
  function FirstMinIndex<T>(s: seq<T>, key: T -> int): (m: nat)
    requires |s| > 0
    ensures m < |s|
    ensures forall j :: 0 <= j < |s| ==> key(s[m]) <= key(s[j])
    ensures forall j :: 0 <= j < m ==> key(s[m]) < key(s[j])
    decreases |s|
  {
    if |s| == 1 then 0
    else
      var k := 1 + FirstMinIndex(s[1..], key);
      if key(s[0]) <= key(s[k]) then 0 else k
  }

  function RemoveAt<T>(s: seq<T>, i: nat): (r: seq<T>)
    requires i < |s|
    ensures |r| == |s| - 1
    ensures multiset(r) + multiset{s[i]} == multiset(s)
  {
    assert s == s[..i] + [s[i]] + s[i + 1..];
    s[..i] + s[i + 1..]
  }

  /** Every element left after removing the first minimum has a key at
      least the minimum. */
  lemma MinBelowRest<T>(s: seq<T>, key: T -> int, m: nat, tail: seq<T>)
    requires m < |s|
    requires forall j :: 0 <= j < |s| ==> key(s[m]) <= key(s[j])
    requires multiset(tail) == multiset(RemoveAt(s, m))
    ensures forall j :: 0 <= j < |tail| ==> key(s[m]) <= key(tail[j])
  {
    forall j | 0 <= j < |tail|
      ensures key(s[m]) <= key(tail[j])
    {
      var x := tail[j];
      assert x in multiset(tail);
      assert x in multiset(s);
      assert x in s;
      var i :| 0 <= i < |s| && s[i] == x;
    }
  }

  /** An element no larger than any of an ordered sequence can go in front. */
  lemma SortedCons<T>(x: T, tail: seq<T>, key: T -> int)
    requires Sorted(tail, key)
    requires forall j :: 0 <= j < |tail| ==> key(x) <= key(tail[j])
    ensures Sorted([x] + tail, key)
  {
    var r := [x] + tail;
    forall i, j | 0 <= i < j < |r|
      ensures key(r[i]) <= key(r[j])
    {
      assert r[j] == tail[j - 1];
      if i > 0 {
        assert r[i] == tail[i - 1];
      }
    }
  }

  /** `s` sorted ascending by `key`, equal keys kept in input order. */
  function SortBy<T>(s: seq<T>, key: T -> int): (r: seq<T>)
    ensures |r| == |s|
    ensures multiset(r) == multiset(s)
    ensures Sorted(r, key)
    decreases |s|
  {
    if s == [] then []
    else
      var m := FirstMinIndex(s, key);
      var rest := RemoveAt(s, m);
      var tail := SortBy(rest, key);
      MinBelowRest(s, key, m, tail);
      SortedCons(s[m], tail, key);
      [s[m]] + tail
  }

  /** The elements of `s` whose key is `k`, in order. */
  function FilterKey<T>(s: seq<T>, key: T -> int, k: int): seq<T>
  {
    if s == [] then []
    else if key(s[0]) == k then [s[0]] + FilterKey(s[1..], key, k)
    else FilterKey(s[1..], key, k)
  }

  lemma {:induction false} FilterKeyConcat<T>(a: seq<T>, b: seq<T>, key: T -> int, k: int)
    ensures FilterKey(a + b, key, k) == FilterKey(a, key, k) + FilterKey(b, key, k)
    decreases |a|
  {
    if a != [] {
      assert (a + b)[0] == a[0];
      assert (a + b)[1..] == a[1..] + b;
      FilterKeyConcat(a[1..], b, key, k);
      if key(a[0]) == k {
        assert FilterKey(a + b, key, k) == [a[0]] + FilterKey(a[1..] + b, key, k);
      } else {
        assert FilterKey(a + b, key, k) == FilterKey(a[1..] + b, key, k);
      }
    } else {
      assert a + b == b;
    }
  }

  lemma {:induction false} FilterKeyNone<T>(s: seq<T>, key: T -> int, k: int)
    requires forall j :: 0 <= j < |s| ==> key(s[j]) != k
    ensures FilterKey(s, key, k) == []
    decreases |s|
  {
    if s != [] {
      FilterKeyNone(s[1..], key, k);
    }
  }

  lemma {:induction false} FilterKeyMember<T>(s: seq<T>, key: T -> int, k: int, x: T)
    requires x in FilterKey(s, key, k)
    ensures key(x) == k
    ensures exists j :: 0 <= j < |s| && s[j] == x
    decreases |s|
  {
    if s != [] {
      if key(s[0]) == k && x == s[0] {
        assert s[0] == x;
      } else {
        FilterKeyMember(s[1..], key, k, x);
        var j :| 0 <= j < |s[1..]| && s[1..][j] == x;
        assert s[j + 1] == x;
      }
    }
  }

  /** When `a` and `b` agree key by key and `a` is not empty, `b` holds the
      head of `a` and, if `b` is ordered, its own head has no larger key. */
  lemma HeadAppears<T>(a: seq<T>, b: seq<T>, key: T -> int)
    requires Sorted(b, key)
    requires forall k :: FilterKey(a, key, k) == FilterKey(b, key, k)
    ensures a != [] ==> b != [] && key(b[0]) <= key(a[0])
  {
    if a != [] {
      assert FilterKey(a, key, key(a[0]))[0] == a[0];
      FilterKeyMember(b, key, key(a[0]), a[0]);
    }
  }

  /** Filtering `s` around position `m`: the part before, the element, the
      part after; removing the element leaves the other two. */
  lemma FilterKeyAround<T>(s: seq<T>, m: nat, key: T -> int, k: int)
    requires m < |s|
    ensures FilterKey(s, key, k)
      == FilterKey(s[..m], key, k) + FilterKey([s[m]], key, k) + FilterKey(s[m + 1..], key, k)
    ensures FilterKey(RemoveAt(s, m), key, k) == FilterKey(s[..m], key, k) + FilterKey(s[m + 1..], key, k)
  {
    assert s == s[..m] + ([s[m]] + s[m + 1..]);
    FilterKeyConcat(s[..m], [s[m]] + s[m + 1..], key, k);
    FilterKeyConcat([s[m]], s[m + 1..], key, k);
    FilterKeyConcat(s[..m], s[m + 1..], key, k);
  }

  /** Stability: among elements with the same key, `SortBy` keeps the input
      order. */
  lemma {:induction false} SortByStable<T>(s: seq<T>, key: T -> int, k: int)
    ensures FilterKey(SortBy(s, key), key, k) == FilterKey(s, key, k)
    decreases |s|
  {
    if s != [] {
      var m := FirstMinIndex(s, key);
      var rest := RemoveAt(s, m);
      SortByStable(rest, key, k);
      assert SortBy(s, key) == [s[m]] + SortBy(rest, key);
      FirstMinThenRest(s, m, SortBy(rest, key), key, k);
    }
  }

  /** Putting the first minimum in front of an arrangement of the other
      elements that is stable for key `k` gives one stable for `k`. */
  lemma FirstMinThenRest<T>(s: seq<T>, m: nat, t: seq<T>, key: T -> int, k: int)
    requires m < |s|
    requires forall j :: 0 <= j < m ==> key(s[m]) < key(s[j])
    requires FilterKey(t, key, k) == FilterKey(RemoveAt(s, m), key, k)
    ensures FilterKey([s[m]] + t, key, k) == FilterKey(s, key, k)
  {
    var before, here, after := FilterKey(s[..m], key, k), FilterKey([s[m]], key, k), FilterKey(s[m + 1..], key, k);
    FilterKeyAround(s, m, key, k);
    FilterKeyConcat([s[m]], t, key, k);
    if key(s[m]) == k {
      forall j | 0 <= j < |s[..m]|
        ensures key(s[..m][j]) != k
      {
        assert s[..m][j] == s[j];
      }
      FilterKeyNone(s[..m], key, k);
      assert before == [];
      assert [] + here + after == here + ([] + after);
    } else {
      assert FilterKey([s[m]][1..], key, k) == [];
      assert here == [];
      assert before + [] + after == [] + (before + after);
    }
  }

  /** Two arrangements ordered by key that agree, key by key, on the order of
      their elements are the same sequence. */
  lemma {:induction false} SortedUnique<T>(a: seq<T>, b: seq<T>, key: T -> int)
    requires Sorted(a, key) && Sorted(b, key)
    requires forall k :: FilterKey(a, key, k) == FilterKey(b, key, k)
    ensures a == b
    decreases |a|
  {
    HeadAppears(a, b, key);
    HeadAppears(b, a, key);
    if a != [] {
      var ka, kb := key(a[0]), key(b[0]);
      assert ka == kb;
      assert FilterKey(a, key, ka)[0] == a[0];
      assert FilterKey(b, key, kb)[0] == b[0];
      forall k
        ensures FilterKey(a[1..], key, k) == FilterKey(b[1..], key, k)
      {
        assert FilterKey(a, key, k) == FilterKey(b, key, k);
        if ka == k {
          assert FilterKey(a, key, k) == [a[0]] + FilterKey(a[1..], key, k);
          assert FilterKey(b, key, k) == [b[0]] + FilterKey(b[1..], key, k);
          assert FilterKey(a[1..], key, k) == FilterKey(a, key, k)[1..];
        }
      }
      SortedUnique(a[1..], b[1..], key);
      assert a == [a[0]] + a[1..] && b == [b[0]] + b[1..];
    }
  }

  /** `SortBy` is exactly the result of a stable sort: any arrangement of
      `s` ordered by key that keeps the input order among equal keys is
      `SortBy(s, key)`. */
  lemma SortByCharacterized<T>(s: seq<T>, r: seq<T>, key: T -> int)
    requires Sorted(r, key)
    requires forall k :: FilterKey(r, key, k) == FilterKey(s, key, k)
    ensures r == SortBy(s, key)
  {
    forall k
      ensures FilterKey(r, key, k) == FilterKey(SortBy(s, key), key, k)
    {
      SortByStable(s, key, k);
    }
    SortedUnique(r, SortBy(s, key), key);
  }
}
