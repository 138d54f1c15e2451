/** Stable sorting by a key.

    `Array.prototype.sort` is stable, and every comparator the calculators
    pass to it orders the records by a key drawn from a total order. Such a
    sort has exactly one possible result (`StableSortIsUnique`), so the
    insertion sort `SortBy` below yields what the browser's sort yields. */
module Sorting {

  /** `le` is a total order: total, antisymmetric and transitive. */
  ghost predicate TotalOrder<K(!new)>(le: (K, K) -> bool)
  {
    && (forall a, b :: le(a, b) || le(b, a))
    && (forall a, b :: le(a, b) && le(b, a) ==> a == b)
    && (forall a, b, c :: le(a, b) && le(b, c) ==> le(a, c))
  }

  ghost predicate Sorted<T, K>(s: seq<T>, key: T -> K, le: (K, K) -> bool)
  {
    forall i, j :: 0 <= i < j < |s| ==> le(key(s[i]), key(s[j]))
  }

  /** The subsequence of the records of `s` whose key is `k`. */
  function WithKey<T, K(==)>(s: seq<T>, key: T -> K, k: K): seq<T>
  {
    if s == [] then [] else (if key(s[0]) == k then [s[0]] else []) + WithKey(s[1..], key, k)
  }

  /** Records with equal keys keep their relative input order. */
  ghost predicate Stable<T, K(!new)>(input: seq<T>, output: seq<T>, key: T -> K)
  {
    forall k :: WithKey(output, key, k) == WithKey(input, key, k)
  }

  /** Inserts `x` in front of the first record whose key is not below its own. */
  function Insert<T, K(!new)>(x: T, s: seq<T>, key: T -> K, le: (K, K) -> bool): (r: seq<T>)
    requires TotalOrder(le)
    ensures multiset(r) == multiset(s) + multiset{x}
  {
    if s == [] || le(key(x), key(s[0])) then [x] + s
    else
      assert s == [s[0]] + s[1..];
      [s[0]] + Insert(x, s[1..], key, le)
  }

  lemma {:induction false} InsertSorted<T, K(!new)>(x: T, s: seq<T>, key: T -> K, le: (K, K) -> bool)
    requires TotalOrder(le)
    requires Sorted(s, key, le)
    ensures Sorted(Insert(x, s, key, le), key, le)
  {
    if s == [] || le(key(x), key(s[0])) {
    } else {
      var rest := Insert(x, s[1..], key, le);
      InsertSorted(x, s[1..], key, le);
      var r := [s[0]] + rest;
      assert le(key(s[0]), key(x));
      forall j | 0 < j < |r|
        ensures le(key(s[0]), key(r[j]))
      {
        assert r[j] == rest[j - 1];
        assert r[j] in multiset(rest);
        if r[j] != x {
          assert r[j] in multiset(s[1..]);
          var m :| 0 <= m < |s[1..]| && s[1..][m] == r[j];
          assert s[m + 1] == r[j];
        }
      }
    }
  }

  lemma {:induction false} InsertWithKey<T, K(!new)>(x: T, s: seq<T>, key: T -> K, le: (K, K) -> bool, k: K)
    requires TotalOrder(le)
    ensures WithKey(Insert(x, s, key, le), key, k) == (if key(x) == k then [x] else []) + WithKey(s, key, k)
  {
    if s == [] || le(key(x), key(s[0])) {
      assert ([x] + s)[1..] == s;
    } else {
      var rest := Insert(x, s[1..], key, le);
      InsertWithKey(x, s[1..], key, le, k);
      var r := [s[0]] + rest;
      assert r[1..] == rest;
      assert key(x) != key(s[0]);
      var w := WithKey(s[1..], key, k);
      assert WithKey(r, key, k) == (if key(s[0]) == k then [s[0]] else []) + WithKey(rest, key, k);
      assert WithKey(s, key, k) == (if key(s[0]) == k then [s[0]] else []) + w;
      if key(x) == k {
        assert WithKey(r, key, k) == [x] + w;
      } else if key(s[0]) == k {
        assert WithKey(r, key, k) == [s[0]] + w;
      } else {
        assert WithKey(r, key, k) == w;
      }
    }
  }

  /** Stable insertion sort of `s` by ascending `key` under `le`. */
  function SortBy<T, K(!new)>(s: seq<T>, key: T -> K, le: (K, K) -> bool): (r: seq<T>)
    requires TotalOrder(le)
    ensures multiset(r) == multiset(s)
    ensures |r| == |s|
    ensures Sorted(r, key, le)
    ensures Stable(s, r, key)
  {
    if s == [] then []
    else
      assert s == [s[0]] + s[1..];
      var rest := SortBy(s[1..], key, le);
      var r := Insert(s[0], rest, key, le);
      InsertSorted(s[0], rest, key, le);
      assert Stable(s, r, key) by {
        forall k
          ensures WithKey(r, key, k) == WithKey(s, key, k)
        {
          InsertWithKey(s[0], rest, key, le, k);
        }
      }
      assert |r| == |s| by {
        assert |multiset(r)| == |multiset(s)|;
      }
      r
  }

  lemma WithKeyHead<T, K>(s: seq<T>, key: T -> K)
    ensures s != [] ==> WithKey(s, key, key(s[0])) != []
  {
  }

  lemma WithKeyNonEmpty<T, K>(s: seq<T>, key: T -> K, k: K)
    requires WithKey(s, key, k) != []
    ensures exists i :: 0 <= i < |s| && key(s[i]) == k
  {
    if key(s[0]) != k {
      WithKeyNonEmpty(s[1..], key, k);
      var i :| 0 <= i < |s[1..]| && key(s[1..][i]) == k;
      assert key(s[i + 1]) == k;
    }
  }

  /** Two sequences sorted by the same total order whose per-key
      subsequences agree are equal: a stable sort has a unique result. */
  lemma {:induction false} SortedStableUnique<T, K(!new)>(a: seq<T>, b: seq<T>, key: T -> K, le: (K, K) -> bool)
    requires TotalOrder(le)
    requires Sorted(a, key, le) && Sorted(b, key, le)
    requires forall k :: WithKey(a, key, k) == WithKey(b, key, k)
    ensures a == b
  {
    if a == [] || b == [] {
      if a != [] {
        WithKeyHead(a, key);
        assert false;
      }
      if b != [] {
        WithKeyHead(b, key);
        assert false;
      }
    } else {
      HeadKeyFirst(a, b, key, le);
      HeadKeyFirst(b, a, key, le);
      SameHead(a, b, key);
      TailsAgree(a, b, key);
      SortedStableUnique(a[1..], b[1..], key, le);
      assert a == [a[0]] + a[1..] && b == [b[0]] + b[1..];
    }
  }

  /** The first key of a sorted sequence is at most the first key of any
      sequence with the same records per key. */
  lemma HeadKeyFirst<T, K(!new)>(a: seq<T>, b: seq<T>, key: T -> K, le: (K, K) -> bool)
    requires TotalOrder(le)
    requires a != [] && b != [] && Sorted(b, key, le)
    requires forall k :: WithKey(a, key, k) == WithKey(b, key, k)
    ensures le(key(b[0]), key(a[0]))
  {
    var ka := key(a[0]);
    assert WithKey(a, key, ka) == [a[0]] + WithKey(a[1..], key, ka);
    WithKeyNonEmpty(b, key, ka);
    var j :| 0 <= j < |b| && key(b[j]) == ka;
    if j > 0 {
      assert le(key(b[0]), key(b[j]));
    }
  }

  /** Equal head keys and equal per-key subsequences give equal heads. */
  lemma SameHead<T, K(!new)>(a: seq<T>, b: seq<T>, key: T -> K)
    requires a != [] && b != [] && key(a[0]) == key(b[0])
    requires forall k :: WithKey(a, key, k) == WithKey(b, key, k)
    ensures a[0] == b[0]
  {
    var k := key(a[0]);
    assert WithKey(a, key, k)[0] == a[0];
    assert WithKey(b, key, k)[0] == b[0];
  }

  /** Dropping an equal head keeps the per-key subsequences equal. */
  lemma TailsAgree<T, K(!new)>(a: seq<T>, b: seq<T>, key: T -> K)
    requires a != [] && b != [] && a[0] == b[0]
    requires forall k :: WithKey(a, key, k) == WithKey(b, key, k)
    ensures forall k :: WithKey(a[1..], key, k) == WithKey(b[1..], key, k)
  {
    forall k
      ensures WithKey(a[1..], key, k) == WithKey(b[1..], key, k)
    {
      var h := if key(a[0]) == k then [a[0]] else [];
      assert WithKey(a, key, k) == h + WithKey(a[1..], key, k);
      assert WithKey(b, key, k) == h + WithKey(b[1..], key, k);
      assert WithKey(a[1..], key, k) == (h + WithKey(a[1..], key, k))[|h|..];
      assert WithKey(b[1..], key, k) == (h + WithKey(b[1..], key, k))[|h|..];
    }
  }

  /** Any output of a stable sort by `key` under `le` is `SortBy`'s output. */
  lemma StableSortIsUnique<T, K(!new)>(s: seq<T>, out: seq<T>, key: T -> K, le: (K, K) -> bool)
    requires TotalOrder(le)
    requires Sorted(out, key, le) && Stable(s, out, key)
    ensures out == SortBy(s, key, le)
  {
    var r := SortBy(s, key, le);
    SortedStableUnique(out, r, key, le);
  }

  /** Three records where only the first two are out of order: the sort
      swaps them. */
  lemma SwapFirstTwo<T, K(!new)>(x: T, y: T, z: T, key: T -> K, le: (K, K) -> bool)
    requires TotalOrder(le)
    requires !le(key(x), key(y)) && le(key(x), key(z)) && le(key(y), key(z))
    ensures SortBy([x, y, z], key, le) == [y, x, z]
  {
    SortTwo(y, z, key, le);
    SortThree(x, y, z, key, le);
    InsertSecond(x, y, z, key, le);
  }

  lemma SortTwo<T, K(!new)>(y: T, z: T, key: T -> K, le: (K, K) -> bool)
    requires TotalOrder(le) && le(key(y), key(z))
    ensures SortBy([y, z], key, le) == [y, z]
  {
    assert Sorted([y, z], key, le);
    SortedUnchanged([y, z], key, le);
  }

  lemma SortThree<T, K(!new)>(x: T, y: T, z: T, key: T -> K, le: (K, K) -> bool)
    requires TotalOrder(le) && SortBy([y, z], key, le) == [y, z]
    ensures SortBy([x, y, z], key, le) == Insert(x, [y, z], key, le)
  {
    SortByCons([x, y, z], key, le);
    assert [x, y, z][1..] == [y, z];
  }

  lemma InsertSecond<T, K(!new)>(x: T, y: T, z: T, key: T -> K, le: (K, K) -> bool)
    requires TotalOrder(le)
    requires !le(key(x), key(y)) && le(key(x), key(z))
    ensures Insert(x, [y, z], key, le) == [y, x, z]
  {
    InsertPast(x, [y, z], key, le);
    assert [y, z][1..] == [z];
    InsertFront(x, [z], key, le);
  }

  /** An input that is already sorted comes back unchanged. */
  lemma SortedUnchanged<T, K(!new)>(s: seq<T>, key: T -> K, le: (K, K) -> bool)
    requires TotalOrder(le) && Sorted(s, key, le)
    ensures SortBy(s, key, le) == s
  {
    StableSortIsUnique(s, s, key, le);
  }

  /** The sort of a non-empty sequence inserts its head into the sorted tail. */
  lemma SortByCons<T, K(!new)>(s: seq<T>, key: T -> K, le: (K, K) -> bool)
    requires TotalOrder(le) && s != []
    ensures SortBy(s, key, le) == Insert(s[0], SortBy(s[1..], key, le), key, le)
  {
  }

  /** A record whose key is not above the first one's goes in front. */
  lemma InsertFront<T, K(!new)>(x: T, s: seq<T>, key: T -> K, le: (K, K) -> bool)
    requires TotalOrder(le) && (s == [] || le(key(x), key(s[0])))
    ensures Insert(x, s, key, le) == [x] + s
  {
  }

  /** A record whose key is above the first one's goes after it. */
  lemma InsertPast<T, K(!new)>(x: T, s: seq<T>, key: T -> K, le: (K, K) -> bool)
    requires TotalOrder(le) && s != [] && !le(key(x), key(s[0]))
    ensures Insert(x, s, key, le) == [s[0]] + Insert(x, s[1..], key, le)
  {
  }

  /** Ascending order of reals: the comparator `(a, b) => a - b`. */
  function Ascending(a: real, b: real): bool { a <= b }

  /** Descending order of reals: the comparator `(a, b) => b - a`. */
  function Descending(a: real, b: real): bool { a >= b }

  lemma AscendingIsTotal()
    ensures TotalOrder(Ascending)
  {
  }

  lemma DescendingIsTotal()
    ensures TotalOrder(Descending)
  {
  }
}
