/** Counting occurrences in first-seen order: a plain object used as a
    counter, `counts[key] = (counts[key] || 0) + 1`, whose keys are never
    array indices, so `Object.entries` lists them in insertion order. */
module Tally {
  import Seqs

  datatype Entry<K> = Entry(key: K, count: nat)

  /** How many times `x` occurs in `s`. */
  function Occurrences<K(==)>(s: seq<K>, x: K): nat
  {
    if s == [] then 0 else Occurrences(s[..|s| - 1], x) + (if s[|s| - 1] == x then 1 else 0)
  }

  lemma {:induction false} OccurrencesAppend<K>(a: seq<K>, b: seq<K>, x: K)
    ensures Occurrences(a + b, x) == Occurrences(a, x) + Occurrences(b, x)
    decreases |b|
  {
    if b == [] {
      assert a + b == a;
    } else {
      assert (a + b)[..|a + b| - 1] == a + b[..|b| - 1];
      OccurrencesAppend(a, b[..|b| - 1], x);
    }
  }

  lemma {:induction false} OccurrencesPositive<K>(s: seq<K>, x: K)
    ensures Occurrences(s, x) > 0 <==> x in s
  {
    if s != [] {
      OccurrencesPositive(s[..|s| - 1], x);
      assert s == s[..|s| - 1] + [s[|s| - 1]];
    }
  }

  /** In a sequence without duplicates an element occurs at most once. */
  lemma {:induction false} OccurrencesAtMostOnce<K>(s: seq<K>, x: K)
    requires Seqs.NoDuplicates(s)
    ensures Occurrences(s, x) == if x in s then 1 else 0
  {
    if s != [] {
      var init := s[..|s| - 1];
      OccurrencesAtMostOnce(init, x);
      assert s == init + [s[|s| - 1]];
      if s[|s| - 1] == x {
        assert x !in init;
      }
    }
  }

  function Keys<K>(es: seq<Entry<K>>): (ks: seq<K>)
    ensures |ks| == |es|
  {
    seq(|es|, i requires 0 <= i < |es| => es[i].key)
  }

  /** `counts[k] = (counts[k] || 0) + 1`: the entry for `k` goes up by one,
      or a new entry with count 1 is added at the end. */
  function Bump<K(==)>(es: seq<Entry<K>>, k: K): (r: seq<Entry<K>>)
    ensures Keys(r) == if k in Keys(es) then Keys(es) else Keys(es) + [k]
  {
    if es == [] then [Entry(k, 1)]
    else if es[0].key == k then
      var r := [Entry(k, es[0].count + 1)] + es[1..];
      assert Keys(r) == Keys(es);
      assert Keys(es)[0] == k;
      r
    else
      assert Keys(es) == [es[0].key] + Keys(es[1..]);
      var rest := Bump(es[1..], k);
      var r := [es[0]] + rest;
      assert Keys(r) == [es[0].key] + Keys(rest);
      r
  }

  /** On a counter without repeated keys, bumping `k` raises exactly the
      entry for `k` by one, or appends it with count 1. */
  lemma {:induction false} BumpEntries<K>(es: seq<Entry<K>>, k: K)
    requires Seqs.NoDuplicates(Keys(es))
    ensures Seqs.NoDuplicates(Keys(Bump(es, k)))
    ensures forall i :: 0 <= i < |es| ==> Bump(es, k)[i].count == es[i].count + (if es[i].key == k then 1 else 0)
    ensures k !in Keys(es) ==> Bump(es, k)[|es|] == Entry(k, 1)
  {
    var r := Bump(es, k);
    assert |Keys(r)| == |r|;
    if es != [] {
      if es[0].key == k {
        forall i | 1 <= i < |es|
          ensures es[i].key != k
        {
          assert Keys(es)[i] == es[i].key && Keys(es)[0] == k;
        }
      } else {
        assert Keys(es[1..]) == Keys(es)[1..];
        BumpEntries(es[1..], k);
        assert r == [es[0]] + Bump(es[1..], k);
      }
    }
  }

  lemma {:induction false} OccurrencesStep<K>(init: seq<K>, last: K, x: K)
    ensures Occurrences(init + [last], x) == Occurrences(init, x) + (if last == x then 1 else 0)
  {
    assert (init + [last])[..|init|] == init;
  }

  /** Bumping the counter of `init` by `last` gives the counts of `init + [last]`. */
  lemma {:induction false} BumpCounts<K>(prev: seq<Entry<K>>, init: seq<K>, last: K)
    requires Seqs.NoDuplicates(Keys(prev))
    requires forall i :: 0 <= i < |init| ==> init[i] in Keys(prev)
    requires forall i :: 0 <= i < |prev| ==> prev[i].count == Occurrences(init, prev[i].key)
    ensures forall i :: 0 <= i < |Bump(prev, last)| ==>
      Bump(prev, last)[i].count == Occurrences(init + [last], Bump(prev, last)[i].key)
  {
    var r := Bump(prev, last);
    BumpEntries(prev, last);
    forall i | 0 <= i < |r|
      ensures r[i].count == Occurrences(init + [last], r[i].key)
    {
      if i < |prev| {
        assert r[i].key == prev[i].key by {
          assert Keys(r)[i] == Keys(prev)[i];
        }
        OccurrencesStep(init, last, prev[i].key);
      } else {
        assert last !in Keys(prev) && r[i] == Entry(last, 1);
        NewKeyUnseen(prev, init, last);
        OccurrencesStep(init, last, last);
      }
    }
  }

  lemma {:induction false} NewKeyUnseen<K>(prev: seq<Entry<K>>, init: seq<K>, last: K)
    requires forall i :: 0 <= i < |init| ==> init[i] in Keys(prev)
    requires last !in Keys(prev)
    ensures Occurrences(init, last) == 0
  {
    OccurrencesPositive(init, last);
  }

  /** The counter after counting `keys` in order. */
  function Count<K(==)>(keys: seq<K>): seq<Entry<K>>
  {
    if keys == [] then [] else Bump(Count(keys[..|keys| - 1]), keys[|keys| - 1])
  }

  /** The counter lists the keys in order of first occurrence. */
  lemma {:induction false} CountKeys<K>(keys: seq<K>)
    ensures Keys(Count(keys)) == Seqs.Distinct(keys)
  {
    if keys != [] {
      CountKeys(keys[..|keys| - 1]);
      Seqs.DistinctLast(keys);
    }
  }

  /** Each listed key's count is its number of occurrences. */
  lemma {:induction false} CountCounts<K>(keys: seq<K>)
    ensures forall i :: 0 <= i < |Count(keys)| ==> Count(keys)[i].count == Occurrences(keys, Count(keys)[i].key)
  {
    if keys != [] {
      var init := keys[..|keys| - 1];
      var last := keys[|keys| - 1];
      CountCounts(init);
      assert keys == init + [last];
      CountCountsStep(init, last);
    }
  }

  lemma {:induction false} CountCountsStep<K>(init: seq<K>, last: K)
    requires forall i :: 0 <= i < |Count(init)| ==> Count(init)[i].count == Occurrences(init, Count(init)[i].key)
    ensures forall i :: 0 <= i < |Count(init + [last])| ==>
      Count(init + [last])[i].count == Occurrences(init + [last], Count(init + [last])[i].key)
  {
    CountKeys(init);
    Seqs.DistinctSpec(init);
    CountStep(init, last);
    BumpCounts(Count(init), init, last);
  }

  /** Counting a sequence is counting its prefix and then one more key. */
  lemma CountStep<K>(keys: seq<K>, k: K)
    ensures Count(keys + [k]) == Bump(Count(keys), k)
  {
    assert (keys + [k])[..|keys|] == keys;
  }

  /** Counting one more key: the counter of `done` bumped by `k` is the
      counter of `done + [k]`. */
  method BumpCount<K(==)>(counts0: seq<Entry<K>>, ghost done: seq<K>, ghost next: seq<K>, k: K)
    returns (counts: seq<Entry<K>>)
    requires counts0 == Count(done) && next == done + [k]
    ensures counts == Count(next)
  {
    CountStep(done, k);
    counts := Bump(counts0, k);
  }

  /** Every key with a positive count is listed, and only those. */
  lemma CountListsPresent<K>(keys: seq<K>, x: K)
    ensures x in Keys(Count(keys)) <==> x in keys
  {
    var r := Count(keys);
    CountKeys(keys);
    Seqs.DistinctSpec(keys);
    if x in keys {
      var i :| 0 <= i < |keys| && keys[i] == x;
      assert keys[i] in Seqs.Distinct(keys);
    }
    if x in Keys(r) {
      var i :| 0 <= i < |r| && Keys(r)[i] == x;
      assert Seqs.Distinct(keys)[i] in keys;
    }
  }

  /** Every listed key has been seen at least once. */
  lemma CountPositive<K>(keys: seq<K>, i: nat)
    requires i < |Count(keys)|
    ensures Count(keys)[i].count >= 1
  {
    var r := Count(keys);
    CountKeys(keys);
    CountCounts(keys);
    Seqs.DistinctSpec(keys);
    assert Keys(r)[i] == r[i].key;
    assert Seqs.Distinct(keys)[i] in keys;
    OccurrencesPositive(keys, r[i].key);
  }
}
