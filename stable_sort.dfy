/**
 * The stable sort the original obtains from underscore's `_.sortBy`: elements
 * are ordered by a numeric key, ascending, and elements with equal keys keep
 * their original relative order.  It is written as an insertion sort over
 * sequences; what matters is the pair of properties proved at the end.
 */
module StableSort {

  ghost predicate SortedBy<T>(s: seq<T>, key: T -> real)
  {
    forall i, j :: 0 <= i < j < |s| ==> key(s[i]) <= key(s[j])
  }

  /** The elements of `s` whose key is `k`, in the order they appear in `s`. */
  function WithKey<T>(s: seq<T>, key: T -> real, k: real): seq<T>
  {
    if s == [] then []
    else WithKey(s[..|s| - 1], key, k) + (if key(s[|s| - 1]) == k then [s[|s| - 1]] else [])
  }

  /** Put `x` after every element whose key is not greater than its own. */
  function Insert<T>(x: T, s: seq<T>, key: T -> real): (r: seq<T>)
    ensures |r| == |s| + 1
    ensures multiset(r) == multiset(s) + multiset{x}
  {
    if s == [] then [x]
    else if key(x) < key(s[0]) then [x] + s
    else
      assert s == [s[0]] + s[1..];
      [s[0]] + Insert(x, s[1..], key)
  }

  /** `_.sortBy(s, key)`. */
  function SortBy<T>(s: seq<T>, key: T -> real): (r: seq<T>)
    ensures |r| == |s|
    ensures multiset(r) == multiset(s)
  {
    if s == [] then []
    else
      assert s == s[..|s| - 1] + [s[|s| - 1]];
      Insert(s[|s| - 1], SortBy(s[..|s| - 1], key), key)
  }

  lemma SortedTail<T>(s: seq<T>, key: T -> real)
    requires SortedBy(s, key) && s != []
    ensures SortedBy(s[1..], key)
  {
    forall i, j | 0 <= i < j < |s[1..]| ensures key(s[1..][i]) <= key(s[1..][j]) {
      assert s[1..][i] == s[i + 1] && s[1..][j] == s[j + 1];
    }
  }

  /** Every element of `Insert(x, s, key)` is `x` or an element of `s`. */
  lemma InsertMembers<T>(x: T, s: seq<T>, key: T -> real, y: T)
    requires y in Insert(x, s, key)
    ensures y == x || y in s
  {
    assert y in multiset(Insert(x, s, key));
  }

  /** Putting `s[0]` in front of a sorted insertion into the rest keeps it sorted. */
  lemma InsertPastSorted<T>(x: T, s: seq<T>, key: T -> real)
    requires SortedBy(s, key) && s != [] && key(x) >= key(s[0])
    requires SortedBy(Insert(x, s[1..], key), key)
    ensures SortedBy(Insert(x, s, key), key)
  {
    var r := Insert(x, s[1..], key);
    assert Insert(x, s, key) == [s[0]] + r;
    forall i | 0 <= i < |r| ensures key(s[0]) <= key(r[i]) {
      InsertMembers(x, s[1..], key, r[i]);
      if r[i] != x {
        var j :| 0 <= j < |s[1..]| && s[1..][j] == r[i];
        assert s[j + 1] == r[i];
      }
    }
  }

  lemma {:induction false} InsertSorted<T>(x: T, s: seq<T>, key: T -> real)
    requires SortedBy(s, key)
    ensures SortedBy(Insert(x, s, key), key)
  {
    if s != [] && key(x) >= key(s[0]) {
      SortedTail(s, key);
      InsertSorted(x, s[1..], key);
      InsertPastSorted(x, s, key);
    } else if s != [] {
      assert Insert(x, s, key) == [x] + s;
    }
  }

  lemma WithKeyAppend<T>(a: seq<T>, b: seq<T>, key: T -> real, k: real)
    ensures WithKey(a + b, key, k) == WithKey(a, key, k) + WithKey(b, key, k)
    decreases |b|
  {
    if b == [] {
      assert a + b == a;
    } else {
      var b' := b[..|b| - 1];
      assert (a + b)[..|a + b| - 1] == a + b';
      assert (a + b)[|a + b| - 1] == b[|b| - 1];
      WithKeyAppend(a, b', key, k);
    }
  }

  lemma WithKeySingle<T>(x: T, key: T -> real, k: real)
    ensures WithKey([x], key, k) == if key(x) == k then [x] else []
  {
    assert [x][..0] == [];
  }

  lemma {:induction false} WithKeyAllAbove<T>(s: seq<T>, key: T -> real, k: real)
    requires forall i :: 0 <= i < |s| ==> key(s[i]) > k
    ensures WithKey(s, key, k) == []
  {
    if s != [] {
      WithKeyAllAbove(s[..|s| - 1], key, k);
    }
  }

  /** Inserting in front of a sorted sequence whose keys are all greater. */
  lemma InsertFrontWithKey<T>(x: T, s: seq<T>, key: T -> real, k: real)
    requires SortedBy(s, key) && s != [] && key(x) < key(s[0])
    ensures WithKey([x] + s, key, k) == WithKey(s, key, k) + (if key(x) == k then [x] else [])
  {
    WithKeySingle(x, key, k);
    WithKeyAppend([x], s, key, k);
    if key(x) == k {
      forall i | 0 <= i < |s| ensures key(s[i]) > k {
        if i > 0 {
          assert key(s[0]) <= key(s[i]);
        }
      }
      WithKeyAllAbove(s, key, k);
    }
  }

  /** Inserting past the first element, given what inserting into the rest does. */
  lemma InsertPastWithKey<T>(x: T, s: seq<T>, key: T -> real, k: real)
    requires s != [] && key(x) >= key(s[0])
    requires WithKey(Insert(x, s[1..], key), key, k) == WithKey(s[1..], key, k) + (if key(x) == k then [x] else [])
    ensures WithKey(Insert(x, s, key), key, k) == WithKey(s, key, k) + (if key(x) == k then [x] else [])
  {
    var t := Insert(x, s[1..], key);
    assert Insert(x, s, key) == [s[0]] + t;
    WithKeyAppend([s[0]], t, key, k);
    WithKeyAppend([s[0]], s[1..], key, k);
    assert [s[0]] + s[1..] == s;
  }

  lemma {:induction false} InsertWithKey<T>(x: T, s: seq<T>, key: T -> real, k: real)
    requires SortedBy(s, key)
    ensures WithKey(Insert(x, s, key), key, k)
         == WithKey(s, key, k) + (if key(x) == k then [x] else [])
  {
    if s == [] {
      WithKeySingle(x, key, k);
      assert WithKey(s, key, k) == [];
    } else if key(x) < key(s[0]) {
      InsertFrontWithKey(x, s, key, k);
    } else {
      SortedTail(s, key);
      InsertWithKey(x, s[1..], key, k);
      InsertPastWithKey(x, s, key, k);
    }
  }

  /** The result of `SortBy` is in ascending key order. */
  lemma {:induction false} SortBySorted<T>(s: seq<T>, key: T -> real)
    ensures SortedBy(SortBy(s, key), key)
  {
    if s != [] {
      SortBySorted(s[..|s| - 1], key);
      InsertSorted(s[|s| - 1], SortBy(s[..|s| - 1], key), key);
    }
  }

  /**
   * `SortBy` is stable: for every key value, the elements carrying it appear in
   * the result exactly as, and in the same order as, in the input.
   */
  lemma {:induction false} SortByStable<T>(s: seq<T>, key: T -> real, k: real)
    ensures WithKey(SortBy(s, key), key, k) == WithKey(s, key, k)
  {
    if s != [] {
      var init := s[..|s| - 1];
      SortByStable(init, key, k);
      SortBySorted(init, key);
      InsertWithKey(s[|s| - 1], SortBy(init, key), key, k);
    }
  }

  /** Membership is unchanged by sorting. */
  lemma SortByMembers<T>(s: seq<T>, key: T -> real, x: T)
    ensures x in SortBy(s, key) <==> x in s
  {
    assert x in multiset(SortBy(s, key)) <==> x in multiset(s);
  }

  // ----- sorting through a projection -----

  /** `s.map(f)`. */
  function MapSeq<A, B>(s: seq<A>, f: A -> B): (r: seq<B>)
    ensures |r| == |s| && forall i :: 0 <= i < |s| ==> r[i] == f(s[i])
  {
    if s == [] then [] else [f(s[0])] + MapSeq(s[1..], f)
  }

  lemma {:induction false} InsertMap<A, B>(x: A, s: seq<A>, f: A -> B, ka: A -> real, kb: B -> real)
    requires forall y :: kb(f(y)) == ka(y)
    ensures Insert(f(x), MapSeq(s, f), kb) == MapSeq(Insert(x, s, ka), f)
  {
    if s != [] {
      var m := MapSeq(s, f);
      assert m[0] == f(s[0]) && m[1..] == MapSeq(s[1..], f);
      assert kb(f(x)) == ka(x) && kb(m[0]) == ka(s[0]);
      if ka(x) >= ka(s[0]) {
        InsertMap(x, s[1..], f, ka, kb);
      }
    }
  }

  /**
   * Sorting commutes with a projection that carries the key along: sorting
   * the projected elements gives the projection of the sorted elements.
   */
  lemma {:induction false} SortByMap<A, B>(s: seq<A>, f: A -> B, ka: A -> real, kb: B -> real)
    requires forall y :: kb(f(y)) == ka(y)
    ensures SortBy(MapSeq(s, f), kb) == MapSeq(SortBy(s, ka), f)
  {
    if s != [] {
      var init := s[..|s| - 1];
      SortByMap(init, f, ka, kb);
      assert MapSeq(s, f)[..|s| - 1] == MapSeq(init, f);
      InsertMap(s[|s| - 1], SortBy(init, ka), f, ka, kb);
    }
  }

  // ----- distinct elements -----

  predicate Distinct<T(==)>(s: seq<T>)
  {
    forall i, j :: 0 <= i < j < |s| ==> s[i] != s[j]
  }

  lemma {:induction false} DistinctCount<T>(s: seq<T>, x: T)
    requires Distinct(s)
    ensures multiset(s)[x] <= 1
  {
    if s != [] {
      var init := s[..|s| - 1];
      assert s == init + [s[|s| - 1]];
      assert Distinct(init) by {
        forall i, j | 0 <= i < j < |init| ensures init[i] != init[j] {
          assert init[i] == s[i] && init[j] == s[j];
        }
      }
      DistinctCount(init, x);
      if x == s[|s| - 1] {
        assert x !in init by {
          forall i | 0 <= i < |init| ensures init[i] != x {
            assert init[i] == s[i];
          }
        }
      }
    }
  }

  lemma CountTwo<T>(s: seq<T>, i: int, j: int)
    requires 0 <= i < j < |s|
    ensures s[i] == s[j] ==> multiset(s)[s[i]] >= 2
  {
    var x := s[i];
    assert s == s[..j] + [s[j]] + s[j + 1..];
    assert x in s[..j];
    assert multiset(s) == multiset(s[..j]) + multiset{s[j]} + multiset(s[j + 1..]);
  }

  /** A permutation of distinct elements has distinct elements. */
  lemma DistinctPermutation<T>(a: seq<T>, b: seq<T>)
    requires Distinct(a) && multiset(a) == multiset(b)
    ensures Distinct(b)
  {
    forall i, j | 0 <= i < j < |b| ensures b[i] != b[j] {
      DistinctCount(a, b[i]);
      CountTwo(b, i, j);
    }
  }

  /** Sorting keeps distinct elements distinct. */
  lemma SortByDistinct<T>(s: seq<T>, key: T -> real)
    requires Distinct(s)
    ensures Distinct(SortBy(s, key))
  {
    DistinctPermutation(s, SortBy(s, key));
  }

  /** Taking one occurrence of `x` out of a permutation of `init + [x]` leaves a permutation of `init`. */
  lemma RemoveAt<T>(init: seq<T>, o2: seq<T>, j: int)
    requires 0 <= j < |o2| && multiset(init) + multiset{o2[j]} == multiset(o2)
    ensures o2 == o2[..j] + [o2[j]] + o2[j + 1..]
    ensures multiset(o2[..j] + o2[j + 1..]) == multiset(init)
  {
    var pre, x, post := o2[..j], o2[j], o2[j + 1..];
    assert o2 == pre + [x] + post;
    assert multiset(o2) == multiset(pre) + multiset{x} + multiset(post);
    forall y ensures multiset(pre + post)[y] == multiset(init)[y] {
      assert (multiset(pre) + multiset(post) + multiset{x})[y] == (multiset(init) + multiset{x})[y];
    }
  }
}
