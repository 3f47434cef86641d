/**
 * Stable sorting by a key, standing for Python's `list.sort(key=...)` and
 * `sorted(..., key=...)`, which are stable: elements with equal keys keep
 * their relative order. A stable sort is characterised by two facts: the
 * output is ordered by key, and for every key value the subsequence of
 * elements carrying that key is the same as in the input (`WithKey`).
 * `SortedUnique` shows that these two facts determine the output.
 */
module Sorting {

  predicate SortedBy<T>(s: seq<T>, key: T -> real) {
    forall i, j :: 0 <= i < j < |s| ==> key(s[i]) <= key(s[j])
  }

  /** The subsequence of `s` whose elements have key `k`, in their original order. */
  function WithKey<T>(s: seq<T>, key: T -> real, k: real): seq<T>
  {
    if s == [] then [] else (if key(s[0]) == k then [s[0]] else []) + WithKey(s[1..], key, k)
  }

  /** Inserts `x` into `s` in front of the first element whose key is not smaller. */
  function Insert<T>(x: T, s: seq<T>, key: T -> real): (r: seq<T>)
    ensures multiset(r) == multiset(s) + multiset{x}
  {
    if s == [] || key(x) <= key(s[0]) then [x] + s
    else
      var rest := Insert(x, s[1..], key);
      assert s == [s[0]] + s[1..];
      [s[0]] + rest
  }

  /** Insertion sort; the head of the input is inserted before its equal-key successors. */
  function SortBy<T>(s: seq<T>, key: T -> real): (r: seq<T>)
    ensures multiset(r) == multiset(s)
  {
    if s == [] then []
    else
      assert s == [s[0]] + s[1..];
      Insert(s[0], SortBy(s[1..], key), key)
  }

  lemma {:induction false} InsertSorted<T>(x: T, s: seq<T>, key: T -> real)
    requires SortedBy(s, key)
    ensures SortedBy(Insert(x, s, key), key)
  {
    if s == [] || key(x) <= key(s[0]) {
    } else {
      InsertSorted(x, s[1..], key);
      var r := Insert(x, s[1..], key);
      assert multiset(r) == multiset(s[1..]) + multiset{x};
      forall j | 0 <= j < |r| ensures key(s[0]) <= key(r[j]) {
        assert r[j] in multiset(r);
        if r[j] != x {
          assert r[j] in multiset(s[1..]);
          var m :| 0 <= m < |s[1..]| && s[1..][m] == r[j];
          assert s[1..][m] == s[m + 1];
        }
      }
    }
  }

  /** The result of `SortBy` is ordered by key. */
  lemma {:induction false} SortBySorted<T>(s: seq<T>, key: T -> real)
    ensures SortedBy(SortBy(s, key), key)
  {
    if s != [] {
      SortBySorted(s[1..], key);
      InsertSorted(s[0], SortBy(s[1..], key), key);
    }
  }

  lemma {:induction false} InsertWithKey<T>(x: T, s: seq<T>, key: T -> real, k: real)
    requires SortedBy(s, key)
    ensures WithKey(Insert(x, s, key), key, k) == (if key(x) == k then [x] else []) + WithKey(s, key, k)
  {
    if s == [] || key(x) <= key(s[0]) {
      assert ([x] + s)[1..] == s;
    } else {
      InsertWithKey(x, s[1..], key, k);
      var r := [s[0]] + Insert(x, s[1..], key);
      assert r[1..] == Insert(x, s[1..], key);
      if key(x) == k {
        assert WithKey(s, key, k) == WithKey(s[1..], key, k);
      }
    }
  }

  /** Stability: for every key, `SortBy` keeps the elements carrying it in input order. */
  lemma {:induction false} SortByStable<T>(s: seq<T>, key: T -> real, k: real)
    ensures WithKey(SortBy(s, key), key, k) == WithKey(s, key, k)
  {
    if s != [] {
      SortByStable(s[1..], key, k);
      SortBySorted(s[1..], key);
      InsertWithKey(s[0], SortBy(s[1..], key), key, k);
    }
  }

  lemma {:induction false} WithKeyConcat<T>(a: seq<T>, b: seq<T>, key: T -> real, k: real)
    ensures WithKey(a + b, key, k) == WithKey(a, key, k) + WithKey(b, key, k)
  {
    if a != [] {
      assert (a + b)[1..] == a[1..] + b;
      WithKeyConcat(a[1..], b, key, k);
    } else {
      assert a + b == b;
    }
  }

  lemma {:induction false} WithKeyMembers<T>(s: seq<T>, key: T -> real, k: real)
    ensures forall x :: x in WithKey(s, key, k) <==> x in s && key(x) == k
  {
    if s != [] {
      WithKeyMembers(s[1..], key, k);
      assert s == [s[0]] + s[1..];
    }
  }

  lemma WithKeyHead<T>(s: seq<T>, key: T -> real)
    ensures s != [] ==> s[0] in WithKey(s, key, key(s[0]))
  {
  }

  lemma SameKeysEmpty<T>(a: seq<T>, b: seq<T>, key: T -> real)
    requires forall k :: WithKey(a, key, k) == WithKey(b, key, k)
    ensures a == [] <==> b == []
  {
    WithKeyHead(a, key);
    WithKeyHead(b, key);
    if a != [] {
      WithKeyMembers(b, key, key(a[0]));
    }
    if b != [] {
      WithKeyMembers(a, key, key(b[0]));
    }
  }

  lemma SameKeysHead<T>(a: seq<T>, b: seq<T>, key: T -> real)
    requires SortedBy(a, key) && SortedBy(b, key) && a != [] && b != []
    requires forall k :: WithKey(a, key, k) == WithKey(b, key, k)
    ensures a[0] == b[0]
  {
    var ka, kb := key(a[0]), key(b[0]);
    WithKeyHead(a, key);
    WithKeyHead(b, key);
    WithKeyMembers(a, key, kb);
    WithKeyMembers(b, key, ka);
    assert b[0] in WithKey(a, key, kb);
    assert ka <= kb;
    assert a[0] in WithKey(b, key, ka);
    assert kb <= ka;
    assert WithKey(a, key, ka)[0] == a[0];
    assert WithKey(b, key, ka)[0] == b[0];
  }

  lemma SameKeysTail<T>(a: seq<T>, b: seq<T>, key: T -> real)
    requires a != [] && b != [] && a[0] == b[0]
    requires forall k :: WithKey(a, key, k) == WithKey(b, key, k)
    ensures forall k :: WithKey(a[1..], key, k) == WithKey(b[1..], key, k)
  {
    forall k ensures WithKey(a[1..], key, k) == WithKey(b[1..], key, k) {
      var wa, wb := WithKey(a, key, k), WithKey(b, key, k);
      assert wa == wb;
      if key(a[0]) == k {
        assert wa[1..] == WithKey(a[1..], key, k);
        assert wb[1..] == WithKey(b[1..], key, k);
      }
    }
  }

  /** Two key-ordered sequences with the same per-key subsequences are equal. */
  lemma {:induction false} SortedUnique<T>(a: seq<T>, b: seq<T>, key: T -> real)
    requires SortedBy(a, key) && SortedBy(b, key)
    requires forall k :: WithKey(a, key, k) == WithKey(b, key, k)
    ensures a == b
  {
    SameKeysEmpty(a, b, key);
    if a != [] {
      SameKeysHead(a, b, key);
      SameKeysTail(a, b, key);
      SortedUnique(a[1..], b[1..], key);
      assert a == [a[0]] + a[1..];
      assert b == [b[0]] + b[1..];
    }
  }

  /** Re-sorting a concatenation of sorted runs gives what sorting the unsorted runs gives. */
  lemma PresortedRuns<T>(a: seq<T>, b: seq<T>, key: T -> real)
    ensures SortBy(SortBy(a, key) + SortBy(b, key), key) == SortBy(a + b, key)
  {
    var left := SortBy(SortBy(a, key) + SortBy(b, key), key);
    var right := SortBy(a + b, key);
    SortBySorted(SortBy(a, key) + SortBy(b, key), key);
    SortBySorted(a + b, key);
    forall k ensures WithKey(left, key, k) == WithKey(right, key, k) {
      SortByStable(SortBy(a, key) + SortBy(b, key), key, k);
      WithKeyConcat(SortBy(a, key), SortBy(b, key), key, k);
      SortByStable(a, key, k);
      SortByStable(b, key, k);
      SortByStable(a + b, key, k);
      WithKeyConcat(a, b, key, k);
    }
    SortedUnique(left, right, key);
  }

  predicate StrictlyIncreasing(s: seq<int>) {
    forall i, j :: 0 <= i < j < |s| ==> s[i] < s[j]
  }

  /** Adds `k` to a strictly increasing sequence, keeping it strictly increasing. */
  function InsertDistinct(k: int, s: seq<int>): (r: seq<int>)
    requires StrictlyIncreasing(s)
    ensures StrictlyIncreasing(r)
    ensures forall v :: v in r <==> v == k || v in s
  {
    if s == [] then [k]
    else if k < s[0] then [k] + s
    else if k == s[0] then s
    else
      var rest := InsertDistinct(k, s[1..]);
      assert forall v :: v in s <==> v == s[0] || v in s[1..];
      assert forall i :: 0 <= i < |rest| ==> s[0] < rest[i] by {
        forall i | 0 <= i < |rest| ensures s[0] < rest[i] {
          assert rest[i] in rest;
        }
      }
      [s[0]] + rest
  }

  /**
   * The distinct values of `ys` in ascending order: the keys of a dictionary
   * filled from `ys`, listed by `sorted(d.keys())`.
   */
  function SortedDistinct(ys: seq<int>): (r: seq<int>)
    ensures StrictlyIncreasing(r)
    ensures forall v :: v in r <==> v in ys
  {
    if ys == [] then []
    else
      var r := InsertDistinct(ys[|ys| - 1], SortedDistinct(ys[..|ys| - 1]));
      assert forall v :: v in ys <==> v == ys[|ys| - 1] || v in ys[..|ys| - 1] by {
        assert ys == ys[..|ys| - 1] + [ys[|ys| - 1]];
      }
      r
  }
}
