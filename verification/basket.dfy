/** `computeMarketBasket`: frequent item pairs. Every transaction line is a
    list of items; each unordered pair of distinct items in a transaction
    counts once for that transaction, and the pairs are listed by
    descending frequency. */
module Basket {
  import Text
  import Seqs
  import Sorting
  import Tally

  /** Lexicographic order of strings by character: the order the default
      `sort()` puts two strings in. */
  predicate Less(a: string, b: string)
    decreases |a|
  {
    if a == [] then b != []
    else if b == [] then false
    else if a[0] != b[0] then a[0] < b[0]
    else Less(a[1..], b[1..])
  }

  lemma {:induction false} LessIrreflexive(a: string)
    ensures !Less(a, a)
    decreases |a|
  {
    if a != [] {
      LessIrreflexive(a[1..]);
    }
  }

  /** Of two different strings exactly one is less than the other. */
  lemma {:induction false} LessTrichotomy(a: string, b: string)
    ensures a != b ==> (Less(a, b) <==> !Less(b, a))
    ensures a == b ==> !Less(a, b)
    decreases |a|
  {
    if a == b {
      LessIrreflexive(a);
    } else if a != [] && b != [] && a[0] == b[0] {
      LessTrichotomy(a[1..], b[1..]);
      assert a == [a[0]] + a[1..] && b == [b[0]] + b[1..];
    }
  }

  /** An unordered pair of items, its smaller item first. */
  datatype Pair = Pair(lo: string, hi: string)

  /** `[x, y].sort()`. */
  function MakePair(x: string, y: string): (p: Pair)
    ensures (p.lo == x && p.hi == y) || (p.lo == y && p.hi == x)
  {
    if Less(y, x) then Pair(y, x) else Pair(x, y)
  }

  /** The pair of two different items is in order, and every ordered pair
      is the pair of its own items, whichever comes first. */
  lemma MakePairOrdered(x: string, y: string)
    ensures x != y ==> Less(MakePair(x, y).lo, MakePair(x, y).hi)
    ensures Less(x, y) ==> MakePair(x, y) == Pair(x, y) && MakePair(y, x) == Pair(x, y)
  {
    LessTrichotomy(x, y);
  }

  /** A transaction holds both items of `p`, which is in order. */
  predicate Holds(t: seq<string>, p: Pair)
  {
    p.lo in t && p.hi in t && Less(p.lo, p.hi)
  }

  /** The pairs of the inner loop at `i`: item `i` with every later item,
      each combined by `mk`. */
  function PairRow<T, P>(u: seq<T>, i: nat, mk: (T, T) -> P): (row: seq<P>)
    requires i < |u|
    ensures |row| == |u| - i - 1
  {
    seq(|u| - i - 1, k requires 0 <= k < |u| - i - 1 => mk(u[i], u[i + 1 + k]))
  }

  /** The pairs of the first `a` rounds of the outer loop. */
  function PairsUpTo<T, P>(u: seq<T>, a: nat, mk: (T, T) -> P): seq<P>
    requires a <= |u|
  {
    if a == 0 then [] else PairsUpTo(u, a - 1, mk) + PairRow(u, a - 1, mk)
  }

  /** The pairs of a transaction, in the order the nested loops visit them. */
  function TxPairs(t: seq<string>): seq<Pair>
  {
    var u := Seqs.Distinct(t);
    PairsUpTo(u, |u|, MakePair)
  }

  /** The number of pairs among `k` items, `k * (k - 1) / 2`. */
  function Triangle(k: nat): nat
  {
    if k == 0 then 0 else Triangle(k - 1) + (k - 1)
  }

  lemma {:induction false} TriangleClosed(k: nat)
    ensures 2 * Triangle(k) == k * (k - 1)
  {
    if k > 0 {
      TriangleClosed(k - 1);
    }
  }

  lemma {:induction false} PairsUpToLength<T, P>(u: seq<T>, a: nat, mk: (T, T) -> P)
    requires a <= |u|
    ensures |PairsUpTo(u, a, mk)| == Triangle(|u|) - Triangle(|u| - a)
  {
    if a > 0 {
      PairsUpToLength(u, a - 1, mk);
      assert Triangle(|u| - a + 1) == Triangle(|u| - a) + (|u| - a);
    }
  }

  /** A transaction with `k` different items yields `k * (k - 1) / 2` pairs. */
  lemma TxPairsCount(t: seq<string>)
    ensures 2 * |TxPairs(t)| == |Seqs.Distinct(t)| * (|Seqs.Distinct(t)| - 1)
  {
    var u := Seqs.Distinct(t);
    PairsUpToLength(u, |u|, MakePair);
    TriangleClosed(|u|);
  }

  /** The first `a` rounds combine item `i < a` with a later item `j`. */
  ghost predicate Visited<T, P>(u: seq<T>, a: nat, mk: (T, T) -> P, p: P)
  {
    exists i, j :: 0 <= i < a && i < j < |u| && p == mk(u[i], u[j])
  }

  lemma {:induction false} PairsUpToMembers<T, P>(u: seq<T>, a: nat, mk: (T, T) -> P, p: P)
    requires a <= |u|
    ensures p in PairsUpTo(u, a, mk) <==> Visited(u, a, mk, p)
  {
    if a > 0 {
      PairsUpToMembers(u, a - 1, mk, p);
      RowMembers(u, a - 1, mk, p);
      VisitedStep(u, a, mk, p);
      assert PairsUpTo(u, a, mk) == PairsUpTo(u, a - 1, mk) + PairRow(u, a - 1, mk);
    }
  }

  /** Round `i` yields the pairs of item `i` with each later item. */
  lemma RowMembers<T, P>(u: seq<T>, i: nat, mk: (T, T) -> P, p: P)
    requires i < |u|
    ensures p in PairRow(u, i, mk) <==> exists j :: i < j < |u| && p == mk(u[i], u[j])
  {
    var row := PairRow(u, i, mk);
    if p in row {
      var k :| 0 <= k < |row| && row[k] == p;
      assert p == mk(u[i], u[i + 1 + k]);
    }
    if exists j :: i < j < |u| && p == mk(u[i], u[j]) {
      var j :| i < j < |u| && p == mk(u[i], u[j]);
      assert row[j - i - 1] == p;
    }
  }

  /** The first `a` rounds visit what the first `a - 1` rounds visit and
      the pairs of round `a - 1`. */
  lemma VisitedStep<T, P>(u: seq<T>, a: nat, mk: (T, T) -> P, p: P)
    requires 0 < a <= |u|
    ensures Visited(u, a, mk, p) <==> Visited(u, a - 1, mk, p) || exists j :: a - 1 < j < |u| && p == mk(u[a - 1], u[j])
  {
    if Visited(u, a, mk, p) {
      var i, j :| 0 <= i < a && i < j < |u| && p == mk(u[i], u[j]);
      if i < a - 1 {
        assert Visited(u, a - 1, mk, p);
      }
    }
    if Visited(u, a - 1, mk, p) {
      var i, j :| 0 <= i < a - 1 && i < j < |u| && p == mk(u[i], u[j]);
      assert 0 <= i < a;
    }
    if exists j :: a - 1 < j < |u| && p == mk(u[a - 1], u[j]) {
      var j :| a - 1 < j < |u| && p == mk(u[a - 1], u[j]);
      assert 0 <= a - 1 < a;
    }
  }

  /** `mk` determines its two arguments up to order. */
  ghost predicate Unordered<T(!new), P>(mk: (T, T) -> P)
  {
    forall x, y, x', y' :: mk(x, y) == mk(x', y') ==> (x == x' && y == y') || (x == y' && y == x')
  }

  lemma MakePairUnordered()
    ensures Unordered(MakePair)
  {
  }

  /** No pair is visited twice when the items are distinct. */
  lemma {:induction false} PairsUpToUnique<T(!new), P>(u: seq<T>, a: nat, mk: (T, T) -> P)
    requires a <= |u| && Seqs.NoDuplicates(u) && Unordered(mk)
    ensures Seqs.NoDuplicates(PairsUpTo(u, a, mk))
  {
    if a > 0 {
      PairsUpToUnique(u, a - 1, mk);
      var prev, row := PairsUpTo(u, a - 1, mk), PairRow(u, a - 1, mk);
      var all := prev + row;
      forall x, y | 0 <= x < y < |all|
        ensures all[x] != all[y]
      {
        if x >= |prev| {
          assert all[x] == mk(u[a - 1], u[a + x - |prev|]);
          assert all[y] == mk(u[a - 1], u[a + y - |prev|]);
        } else if y >= |prev| {
          assert all[x] in prev;
          PairsUpToMembers(u, a - 1, mk, all[x]);
          assert all[y] == mk(u[a - 1], u[a + y - |prev|]);
          RowNotEarlier(u, a, mk, y - |prev|);
        } else {
          assert all[x] == prev[x] && all[y] == prev[y];
        }
      }
    }
  }

  /** A pair of the round at `a - 1` was not visited in an earlier round. */
  lemma RowNotEarlier<T(!new), P>(u: seq<T>, a: nat, mk: (T, T) -> P, k: nat)
    requires 0 < a && a + k < |u| && Seqs.NoDuplicates(u) && Unordered(mk)
    ensures !Visited(u, a - 1, mk, mk(u[a - 1], u[a + k]))
  {
    forall i, j | 0 <= i < a - 1 && i < j < |u|
      ensures mk(u[a - 1], u[a + k]) != mk(u[i], u[j])
    {
      assert u[i] != u[a - 1] && u[i] != u[a + k];
    }
  }

  /** Among distinct items, the pairs visited are exactly the ordered pairs
      of two of the items. */
  lemma PairsOfItems(u: seq<string>, p: Pair)
    requires Seqs.NoDuplicates(u)
    ensures p in PairsUpTo(u, |u|, MakePair) <==> p.lo in u && p.hi in u && Less(p.lo, p.hi)
  {
    PairsUpToMembers(u, |u|, MakePair, p);
    if p in PairsUpTo(u, |u|, MakePair) {
      var i, j :| 0 <= i < |u| && i < j < |u| && p == MakePair(u[i], u[j]);
      MakePairOrdered(u[i], u[j]);
    }
    if p.lo in u && p.hi in u && Less(p.lo, p.hi) {
      var i :| 0 <= i < |u| && u[i] == p.lo;
      var j :| 0 <= j < |u| && u[j] == p.hi;
      MakePairOrdered(p.lo, p.hi);
      LessTrichotomy(p.lo, p.hi);
      if i < j {
        assert p == MakePair(u[i], u[j]);
      } else {
        assert p == MakePair(u[j], u[i]);
      }
    }
  }

  /** The pairs a transaction yields are exactly the ordered pairs of items
      it holds. */
  lemma TxPairsMembers(t: seq<string>, p: Pair)
    ensures p in TxPairs(t) <==> Holds(t, p)
  {
    var u := Seqs.Distinct(t);
    Seqs.DistinctSpec(t);
    PairsOfItems(u, p);
    assert p.lo in u <==> p.lo in t;
    assert p.hi in u <==> p.hi in t;
  }

  lemma TxPairsUnique(t: seq<string>)
    ensures Seqs.NoDuplicates(TxPairs(t))
  {
    var u := Seqs.Distinct(t);
    Seqs.DistinctSpec(t);
    MakePairUnordered();
    PairsUpToUnique(u, |u|, MakePair);
  }

  /** Each line's items: `l.split(',').map(i => i.trim()).filter(Boolean)`. */
  function Transactions(lines: seq<string>): (txs: seq<seq<string>>)
    ensures |txs| == |lines|
  {
    seq(|lines|, i requires 0 <= i < |lines| => Text.NonEmpty(Text.Fields(lines[i])))
  }

  /** Every pair visited, transaction after transaction. */
  function PairKeys(txs: seq<seq<string>>): seq<Pair>
  {
    if txs == [] then [] else PairKeys(txs[..|txs| - 1]) + TxPairs(txs[|txs| - 1])
  }

  /** The support of `p`: how many transactions hold both of its items. */
  function Support(txs: seq<seq<string>>, p: Pair): (n: nat)
    ensures n <= |txs|
  {
    if txs == [] then 0 else Support(txs[..|txs| - 1], p) + (if Holds(txs[|txs| - 1], p) then 1 else 0)
  }

  /** A pair occurs among the visited pairs once per transaction holding it. */
  lemma {:induction false} PairKeysOccurrences(txs: seq<seq<string>>, p: Pair)
    ensures Tally.Occurrences(PairKeys(txs), p) == Support(txs, p)
  {
    if txs != [] {
      var t := txs[|txs| - 1];
      PairKeysOccurrences(txs[..|txs| - 1], p);
      Tally.OccurrencesAppend(PairKeys(txs[..|txs| - 1]), TxPairs(t), p);
      TxPairsUnique(t);
      Tally.OccurrencesAtMostOnce(TxPairs(t), p);
      TxPairsMembers(t, p);
    }
  }

  /** The count of every pair: first-seen order of the pairs, each with its
      support. */
  lemma CountIsSupport(txs: seq<seq<string>>)
    ensures var counts := Tally.Count(PairKeys(txs));
      && Tally.Keys(counts) == Seqs.Distinct(PairKeys(txs))
      && (forall i :: 0 <= i < |counts| ==> counts[i].count == Support(txs, counts[i].key))
  {
    var counts := Tally.Count(PairKeys(txs));
    Tally.CountKeys(PairKeys(txs));
    Tally.CountCounts(PairKeys(txs));
    forall i | 0 <= i < |counts|
      ensures counts[i].count == Support(txs, counts[i].key)
    {
      PairKeysOccurrences(txs, counts[i].key);
    }
  }

  /** The inner loop of the source at `a`: item `a` paired with every later
      item, each pair bumping the counter. */
  method CountRow<T, K(==)>(counts0: seq<Tally.Entry<K>>, ghost pre: seq<K>, u: seq<T>, a: nat, mk: (T, T) -> K)
    returns (counts: seq<Tally.Entry<K>>)
    requires a < |u| && counts0 == Tally.Count(pre)
    ensures counts == Tally.Count(pre + PairRow(u, a, mk))
  {
    counts := counts0;
    ghost var done := pre;
    TakeBounds(pre, PairRow(u, a, mk));
    for b := a + 1 to |u|
      invariant counts == Tally.Count(done)
      invariant done == pre + PairRow(u, a, mk)[..b - a - 1]
    {
      ghost var next := done + [mk(u[a], u[b])];
      counts := Tally.BumpCount(counts, done, next, mk(u[a], u[b]));
      RowPrefixNext(pre, u, a, b, mk, done, next);
      done := next;
    }
  }

  /** The nested loops of the source over one transaction's distinct
      items `u`: every pair visited bumps the counter. */
  method CountRounds<T, K(==)>(counts0: seq<Tally.Entry<K>>, ghost base: seq<K>, u: seq<T>, mk: (T, T) -> K)
    returns (counts: seq<Tally.Entry<K>>)
    requires counts0 == Tally.Count(base)
    ensures counts == Tally.Count(base + PairsUpTo(u, |u|, mk))
  {
    counts := counts0;
    NoPairsYet(base, u, mk);
    for a := 0 to |u|
      invariant counts == Tally.Count(base + PairsUpTo(u, a, mk))
    {
      counts := CountRound(counts, base, u, a, mk);
    }
  }

  /** One round of the outer loop. */
  method CountRound<T, K(==)>(counts0: seq<Tally.Entry<K>>, ghost base: seq<K>, u: seq<T>, a: nat, mk: (T, T) -> K)
    returns (counts: seq<Tally.Entry<K>>)
    requires a < |u| && counts0 == Tally.Count(base + PairsUpTo(u, a, mk))
    ensures counts == Tally.Count(base + PairsUpTo(u, a + 1, mk))
  {
    counts := CountRow(counts0, base + PairsUpTo(u, a, mk), u, a, mk);
    PairsUpToStep(base, u, a, mk);
  }

  lemma NoPairsYet<T, K>(base: seq<K>, u: seq<T>, mk: (T, T) -> K)
    ensures base + PairsUpTo(u, 0, mk) == base
  {
  }

  lemma PairsUpToStep<T, K>(base: seq<K>, u: seq<T>, a: nat, mk: (T, T) -> K)
    requires a < |u|
    ensures base + PairsUpTo(u, a, mk) + PairRow(u, a, mk) == base + PairsUpTo(u, a + 1, mk)
  {
  }

  lemma TakeBounds<K>(pre: seq<K>, row: seq<K>)
    ensures pre + row[..0] == pre && row[..|row|] == row
  {
  }

  /** The pairs of round `a` up to item `b` are those up to the item
      before and the pair of items `a` and `b`. */
  lemma RowPrefixNext<T, K>(pre: seq<K>, u: seq<T>, a: nat, b: nat, mk: (T, T) -> K, done: seq<K>, next: seq<K>)
    requires a < b < |u|
    requires done == pre + PairRow(u, a, mk)[..b - a - 1] && next == done + [mk(u[a], u[b])]
    ensures next == pre + PairRow(u, a, mk)[..b - a]
  {
    PairRowAt(u, a, b, mk);
    PrefixStep(pre, PairRow(u, a, mk), b - a);
  }

  lemma PairRowAt<T, P>(u: seq<T>, a: nat, b: nat, mk: (T, T) -> P)
    requires a < b < |u|
    ensures PairRow(u, a, mk)[b - a - 1] == mk(u[a], u[b])
  {
  }

  /** A prefix one longer is the shorter prefix and the next element. */
  lemma PrefixStep<K>(pre: seq<K>, row: seq<K>, j: nat)
    requires 0 < j <= |row|
    ensures pre + row[..j - 1] + [row[j - 1]] == pre + row[..j]
  {
    assert row[..j] == row[..j - 1] + [row[j - 1]];
  }

  /** `counts` after all transactions. */
  method CountPairs(txs: seq<seq<string>>) returns (counts: seq<Tally.Entry<Pair>>)
    ensures counts == Tally.Count(PairKeys(txs))
    ensures Tally.Keys(counts) == Seqs.Distinct(PairKeys(txs))
    ensures forall i :: 0 <= i < |counts| ==> counts[i].count == Support(txs, counts[i].key)
  {
    counts := [];
    for i := 0 to |txs|
      invariant counts == Tally.Count(PairKeys(txs[..i]))
    {
      counts := CountRounds(counts, PairKeys(txs[..i]), Seqs.Distinct(txs[i]), MakePair);
      assert txs[..i + 1][..i] == txs[..i];
    }
    assert txs[..|txs|] == txs;
    CountIsSupport(txs);
  }

  function CountOf(e: Tally.Entry<Pair>): real { e.count as real }

  /** `computeMarketBasket(lines)`: every pair some transaction holds, once,
      with its support, the most frequent first; pairs of equal support in
      the order they were first seen. */
  method ComputeMarketBasket(lines: seq<string>) returns (ranking: seq<Tally.Entry<Pair>>)
    ensures var txs := Transactions(lines);
      && multiset(ranking) == multiset(Tally.Count(PairKeys(txs)))
      && (forall i :: 0 <= i < |ranking| ==> 1 <= ranking[i].count == Support(txs, ranking[i].key) <= |lines|)
      && (forall i, k :: 0 <= i < k < |ranking| ==> ranking[i].count >= ranking[k].count)
      && Sorting.Stable(Tally.Count(PairKeys(txs)), ranking, CountOf)
  {
    var txs := Transactions(lines);
    var counts := CountPairs(txs);
    Sorting.DescendingIsTotal();
    ranking := Sorting.SortBy(counts, CountOf, Sorting.Descending);
    assert Sorting.Sorted(ranking, CountOf, Sorting.Descending);
    forall i | 0 <= i < |ranking|
      ensures 1 <= ranking[i].count == Support(txs, ranking[i].key)
    {
      assert ranking[i] in multiset(counts);
      var j :| 0 <= j < |counts| && counts[j] == ranking[i];
      Tally.CountPositive(PairKeys(txs), j);
    }
  }

  /** The label of a ranked pair, `'lo, hi'`. */
  function Label(p: Pair): string
  {
    p.lo + ", " + p.hi
  }

  /* The counter of the source is keyed by the joined string
     `lo + '|' + hi`, not by the pair itself. When an item name contains
     `'|'`, two different pairs of one transaction can share a key, and
     that key is then counted more than once for the transaction. The
     members below model the string-keyed counter as written; the ranking
     above keys the counter by the pair. */

  /** `[x, y].sort().join('|')`. */
  function AsWrittenKey(p: Pair): (key: string)
    ensures |key| == |p.lo| + 1 + |p.hi| && key[|p.lo|] == '|'
  {
    p.lo + "|" + p.hi
  }

  function AsWrittenKeys(ps: seq<Pair>): (keys: seq<string>)
    ensures |keys| == |ps|
    ensures forall i :: 0 <= i < |ps| ==> keys[i] == AsWrittenKey(ps[i])
  {
    if ps == [] then [] else AsWrittenKeys(ps[..|ps| - 1]) + [AsWrittenKey(ps[|ps| - 1])]
  }

  /** The string-keyed counter of the source. */
  function AsWrittenCounts(txs: seq<seq<string>>): seq<Tally.Entry<string>>
  {
    Tally.Count(AsWrittenKeys(PairKeys(txs)))
  }

  /** `k.replace('|', ', ')`: only the first `'|'` is replaced. */
  function AsWrittenLabel(key: string): (shown: string)
    ensures '|' !in key ==> shown == key
  {
    if key == [] then []
    else if key[0] == '|' then ", " + key[1..]
    else [key[0]] + AsWrittenLabel(key[1..])
  }

  /** An element seen at two positions occurs at least twice. */
  lemma OccurrencesTwice<K>(s: seq<K>, i: nat, j: nat)
    requires i < j < |s| && s[i] == s[j]
    ensures Tally.Occurrences(s, s[i]) >= 2
  {
    assert s == s[..j] + s[j..];
    Tally.OccurrencesAppend(s[..j], s[j..], s[i]);
    assert s[..j][i] == s[i];
    Tally.OccurrencesPositive(s[..j], s[i]);
    assert s[j..][0] == s[i];
    Tally.OccurrencesPositive(s[j..], s[i]);
  }

  /** A key seen at two positions has a count of at least two. */
  lemma CountedTwice<K>(keys: seq<K>, i: nat, j: nat) returns (k: nat)
    requires i < |keys| && j < |keys| && i != j && keys[i] == keys[j]
    ensures k < |Tally.Count(keys)| && Tally.Count(keys)[k].key == keys[i] && Tally.Count(keys)[k].count >= 2
  {
    if i < j {
      OccurrencesTwice(keys, i, j);
    } else {
      OccurrencesTwice(keys, j, i);
    }
    Tally.CountListsPresent(keys, keys[i]);
    Tally.CountCounts(keys);
    var counts := Tally.Count(keys);
    k :| 0 <= k < |counts| && Tally.Keys(counts)[k] == keys[i];
    assert counts[k].key == keys[i];
  }

  /** Two different pairs held by one transaction and sharing a key make
      the source count that key at least twice for the transaction. */
  lemma SharedKeyCountedTwice(t: seq<string>, p: Pair, q: Pair)
    requires p != q && Holds(t, p) && Holds(t, q) && AsWrittenKey(p) == AsWrittenKey(q)
    ensures exists k :: (0 <= k < |AsWrittenCounts([t])|
      && AsWrittenCounts([t])[k].key == AsWrittenKey(p) && AsWrittenCounts([t])[k].count >= 2)
  {
    SingleTransaction(t);
    var ps := TxPairs(t);
    var i := PositionOf(t, p);
    var j := PositionOf(t, q);
    var keys := AsWrittenKeys(ps);
    assert keys[i] == AsWrittenKey(p) && keys[j] == AsWrittenKey(q);
    var k := CountedTwice(keys, i, j);
  }

  /** A pair the transaction holds has a position among its pairs. */
  lemma PositionOf(t: seq<string>, p: Pair) returns (i: nat)
    requires Holds(t, p)
    ensures i < |TxPairs(t)| && TxPairs(t)[i] == p
  {
    TxPairsMembers(t, p);
    i :| 0 <= i < |TxPairs(t)| && TxPairs(t)[i] == p;
  }

  lemma SingleTransaction(t: seq<string>)
    ensures PairKeys([t]) == TxPairs(t)
    ensures AsWrittenCounts([t]) == Tally.Count(AsWrittenKeys(TxPairs(t)))
  {
    assert [t][..0] == [];
  }

  /** A single transaction `a|b, c, a, b|c` holds the two different pairs
      `(a|b, c)` and `(a, b|c)`; both are keyed `a|b|c`, so the source
      reports that key with a frequency above the number of transactions. */
  lemma AsWrittenKeyCollision()
    ensures exists k :: (0 <= k < |AsWrittenCounts([["a|b", "c", "a", "b|c"]])|
      && AsWrittenCounts([["a|b", "c", "a", "b|c"]])[k].key == "a|b|c"
      && AsWrittenCounts([["a|b", "c", "a", "b|c"]])[k].count >= 2)
  {
    var t := ["a|b", "c", "a", "b|c"];
    var p, q := Pair("a|b", "c"), Pair("a", "b|c");
    assert Less("a|b", "c") && Less("a", "b|c");
    assert AsWrittenKey(p) == "a|b|c" == AsWrittenKey(q);
    SharedKeyCountedTwice(t, p, q);
  }

  /** No item of any transaction contains `'|'`. */
  ghost predicate BarFree(txs: seq<seq<string>>)
  {
    forall n, m :: 0 <= n < |txs| && 0 <= m < |txs[n]| ==> '|' !in txs[n][m]
  }

  /** Without `'|'` in the smaller item, the joined key determines the pair. */
  lemma AsWrittenKeyInjective(p: Pair, q: Pair)
    requires '|' !in p.lo && '|' !in q.lo
    ensures AsWrittenKey(p) == AsWrittenKey(q) <==> p == q
  {
    var kp, kq := AsWrittenKey(p), AsWrittenKey(q);
    if kp == kq {
      assert |p.lo| == |q.lo|;
      assert p.lo == kp[..|p.lo|] && q.lo == kq[..|q.lo|];
      assert p.hi == kp[|p.lo| + 1..] && q.hi == kq[|q.lo| + 1..];
    }
  }

  /** Without `'|'` in the smaller item, the label the source shows for
      the key is the label of the pair. */
  lemma {:induction false} AsWrittenLabelOfKey(p: Pair)
    requires '|' !in p.lo
    ensures AsWrittenLabel(AsWrittenKey(p)) == Label(p)
    decreases |p.lo|
  {
    if p.lo != [] {
      var rest := Pair(p.lo[1..], p.hi);
      AsWrittenLabelOfKey(rest);
      KeyAndLabelStep(p);
    } else {
      assert AsWrittenKey(p) == "|" + p.hi;
    }
  }

  /** Key and label both begin with the first character of the smaller
      item, followed by the key and label of the rest. */
  lemma KeyAndLabelStep(p: Pair)
    requires p.lo != [] && p.lo[0] != '|'
    ensures var rest := Pair(p.lo[1..], p.hi);
      && AsWrittenLabel(AsWrittenKey(p)) == [p.lo[0]] + AsWrittenLabel(AsWrittenKey(rest))
      && Label(p) == [p.lo[0]] + Label(rest)
  {
    var rest := Pair(p.lo[1..], p.hi);
    var key := AsWrittenKey(p);
    assert key[0] == p.lo[0];
    assert key[1..] == AsWrittenKey(rest);
  }

  /** Every visited pair has its items in some transaction. */
  lemma {:induction false} PairKeysHeld(txs: seq<seq<string>>, i: nat)
    requires i < |PairKeys(txs)|
    ensures exists n :: 0 <= n < |txs| && Holds(txs[n], PairKeys(txs)[i])
  {
    var init := txs[..|txs| - 1];
    var prev := PairKeys(init);
    var p := PairKeys(txs)[i];
    if i < |prev| {
      PairKeysHeld(init, i);
      var n :| 0 <= n < |init| && Holds(init[n], prev[i]);
      assert txs[n] == init[n];
    } else {
      assert p in TxPairs(txs[|txs| - 1]);
      TxPairsMembers(txs[|txs| - 1], p);
    }
  }

  /** With injective keys, a key occurs as often as its pair. */
  lemma {:induction false} KeyOccurrences(ps: seq<Pair>, p: Pair)
    requires '|' !in p.lo && forall i :: 0 <= i < |ps| ==> '|' !in ps[i].lo
    ensures Tally.Occurrences(AsWrittenKeys(ps), AsWrittenKey(p)) == Tally.Occurrences(ps, p)
  {
    if ps != [] {
      var init := ps[..|ps| - 1];
      KeyOccurrences(init, p);
      assert AsWrittenKeys(ps)[..|ps| - 1] == AsWrittenKeys(init);
      AsWrittenKeyInjective(ps[|ps| - 1], p);
    }
  }

  /** When no item contains `'|'`, the source's string-keyed count of a
      pair is its support, as in the ranking above. */
  lemma AsWrittenAgrees(txs: seq<seq<string>>, p: Pair)
    requires BarFree(txs) && '|' !in p.lo
    ensures forall k :: 0 <= k < |AsWrittenCounts(txs)| && AsWrittenCounts(txs)[k].key == AsWrittenKey(p) ==>
      AsWrittenCounts(txs)[k].count == Support(txs, p)
  {
    var ps := PairKeys(txs);
    forall i | 0 <= i < |ps|
      ensures '|' !in ps[i].lo
    {
      PairKeysHeld(txs, i);
      var n :| 0 <= n < |txs| && Holds(txs[n], ps[i]);
      var m :| 0 <= m < |txs[n]| && txs[n][m] == ps[i].lo;
    }
    KeyOccurrences(ps, p);
    PairKeysOccurrences(txs, p);
    Tally.CountCounts(AsWrittenKeys(ps));
  }
}
