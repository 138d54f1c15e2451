/** `computeProfileMatching`: every candidate's attribute values are
    compared with the ideal profile on the first line; the similarity of
    one attribute is `1 - |ideal - actual| / max(ideal, 1)`, a candidate's
    total is the mean similarity, and candidates are ranked by descending
    total. */
module Profile {
  import opened Wrappers
  import Text
  import Numbers
  import Seqs
  import Sorting

  datatype Ranked = Ranked(name: string, total: real)

  function TotalOf(r: Ranked): real { r.total }

  /** The input the calculation is defined on: an ideal line with numeric
      values, and every candidate line with at least one and at most as
      many numeric values as the ideal. */
  predicate WellFormed(lines: seq<string>)
  {
    && |lines| > 0
    && Numbers.AllNumbers(Numbers.Cells(lines[0]))
    && forall i :: 1 <= i < |lines| ==>
         && Numbers.AllNumbers(Numbers.Cells(lines[i]))
         && 0 < |Numbers.Cells(lines[i])| <= |Numbers.Cells(lines[0])|
  }

  /** `1 - Math.abs(ideal - s) / Math.max(ideal, 1)`: at most 1, and 1
      exactly on the ideal value. */
  function Similarity(ideal: real, s: real): (r: real)
    ensures r <= 1.0
    ensures r == 1.0 <==> s == ideal
  {
    var scale := if ideal >= 1.0 then ideal else 1.0;
    1.0 - Numbers.Abs(ideal - s) / scale
  }

  /** A value closer to the ideal is at least as similar. */
  lemma SimilarityMonotone(ideal: real, s: real, t: real)
    ensures Numbers.Abs(ideal - s) <= Numbers.Abs(ideal - t) <==> Similarity(ideal, s) >= Similarity(ideal, t)
  {
    var scale := if ideal >= 1.0 then ideal else 1.0;
    Numbers.DivideMonotone(Numbers.Abs(ideal - s), Numbers.Abs(ideal - t), scale);
  }

  /** The similarity is not clamped at 0: a value far above the ideal
      gives a negative similarity. */
  lemma SimilarityUnclamped()
    ensures Similarity(1.0, 5.0) == -3.0
  {
  }

  /** `scores.map((s, j) => similarity(ideal[j], s))`. */
  function Similarities(ideal: seq<real>, scores: seq<real>): (sims: seq<real>)
    requires |scores| <= |ideal|
    ensures |sims| == |scores|
    ensures forall j :: 0 <= j < |scores| ==> sims[j] == Similarity(ideal[j], scores[j])
  {
    seq(|scores|, j requires 0 <= j < |scores| => Similarity(ideal[j], scores[j]))
  }

  /** A candidate's total: the mean similarity over its attributes. It is
      at most 1, and exactly 1 when every attribute meets the ideal. */
  function Total(ideal: seq<real>, scores: seq<real>): (t: real)
    requires 0 < |scores| <= |ideal|
    ensures t <= 1.0
    ensures t == 1.0 <==> forall j :: 0 <= j < |scores| ==> scores[j] == ideal[j]
  {
    var sims := Similarities(ideal, scores);
    Seqs.MeanAtBound(sims, 1.0);
    SimilaritiesOne(ideal, scores);
    Seqs.Mean(sims)
  }

  /** Every similarity is 1 exactly when every value meets the ideal. */
  lemma SimilaritiesOne(ideal: seq<real>, scores: seq<real>)
    requires |scores| <= |ideal|
    ensures var sims := Similarities(ideal, scores);
      (forall j :: 0 <= j < |sims| ==> sims[j] == 1.0) <==> forall j :: 0 <= j < |scores| ==> scores[j] == ideal[j]
  {
  }

  /** The ideal values, `parsed[0].slice(1).map(Number)`. */
  function Ideal(lines: seq<string>): (ideal: seq<real>)
    requires WellFormed(lines)
  {
    Numbers.Values(Numbers.Cells(lines[0]))
  }

  /** The result of candidate line `i`: its name and total. */
  function Result(lines: seq<string>, i: nat): Ranked
    requires WellFormed(lines) && 1 <= i < |lines|
  {
    Ranked(Text.Fields(lines[i])[0], Total(Ideal(lines), Numbers.Values(Numbers.Cells(lines[i]))))
  }

  /** The results in input order, one per candidate line. */
  function Results(lines: seq<string>): (rs: seq<Ranked>)
    requires WellFormed(lines)
    ensures |rs| == |lines| - 1
  {
    seq(|lines| - 1, i requires 0 <= i < |lines| - 1 => Result(lines, i + 1))
  }

  /** The inner `scores.map(...)` of one candidate. */
  method SimilarityRow(ideal: seq<real>, scores: seq<real>) returns (sims: seq<real>)
    requires |scores| <= |ideal|
    ensures sims == Similarities(ideal, scores)
  {
    sims := [];
    for j := 0 to |scores|
      invariant sims == Similarities(ideal, scores)[..j]
    {
      sims := sims + [Similarity(ideal[j], scores[j])];
    }
  }

  /** The candidate loop: one result per line after the first. */
  method ResultRows(lines: seq<string>) returns (results: seq<Ranked>)
    requires WellFormed(lines)
    ensures results == Results(lines)
  {
    ghost var all := Results(lines);
    results := [];
    for i := 1 to |lines|
      invariant results == all[..i - 1]
    {
      var r := CandidateResult(lines, i);
      assert all[i - 1] == r;
      PrefixStep(all, i);
      results := results + [r];
    }
    assert all[..|lines| - 1] == all;
  }

  lemma PrefixStep<T>(s: seq<T>, i: nat)
    requires 0 < i <= |s|
    ensures s[..i] == s[..i - 1] + [s[i - 1]]
  {
  }

  /** One iteration of the candidate loop. */
  method CandidateResult(lines: seq<string>, i: nat) returns (r: Ranked)
    requires WellFormed(lines) && 1 <= i < |lines|
    ensures r == Result(lines, i)
  {
    var ideal := Numbers.Values(Numbers.Cells(lines[0]));
    var scores := Numbers.Values(Numbers.Cells(lines[i]));
    var sims := SimilarityRow(ideal, scores);
    r := Ranked(Text.Fields(lines[i])[0], Seqs.Sum(sims) / |sims| as real);
  }

  /** `computeProfileMatching(lines)`: every candidate once, the highest
      total first, candidates of equal total in input order. */
  method ComputeProfileMatching(lines: seq<string>) returns (ranking: seq<Ranked>)
    requires WellFormed(lines)
    ensures multiset(ranking) == multiset(Results(lines))
    ensures forall i, k :: 0 <= i < k < |ranking| ==> ranking[i].total >= ranking[k].total
    ensures Sorting.Stable(Results(lines), ranking, TotalOf)
  {
    var results := ResultRows(lines);
    Sorting.DescendingIsTotal();
    ranking := Sorting.SortBy(results, TotalOf, Sorting.Descending);
    assert Sorting.Sorted(ranking, TotalOf, Sorting.Descending);
  }

  /** A candidate meeting the ideal on every attribute has total 1. */
  lemma IdealCandidate(lines: seq<string>, i: nat)
    requires WellFormed(lines) && 1 <= i < |lines|
    requires Numbers.Values(Numbers.Cells(lines[i])) == Ideal(lines)[..|Numbers.Cells(lines[i])|]
    ensures Result(lines, i).total == 1.0
  {
    var scores := Numbers.Values(Numbers.Cells(lines[i]));
    assert forall j :: 0 <= j < |scores| ==> scores[j] == Ideal(lines)[j];
  }

  /** A ranking by descending total puts a candidate of total 1 first. */
  lemma IdealRanksFirst(results: seq<Ranked>, ranking: seq<Ranked>, i: nat)
    requires i < |results| && results[i].total == 1.0
    requires forall k :: 0 <= k < |results| ==> results[k].total <= 1.0
    requires multiset(ranking) == multiset(results)
    requires forall a, b :: 0 <= a < b < |ranking| ==> ranking[a].total >= ranking[b].total
    ensures |ranking| > 0 && ranking[0].total == 1.0
  {
    assert results[i] in multiset(ranking);
    var k :| 0 <= k < |ranking| && ranking[k] == results[i];
    assert ranking[0] in multiset(results);
  }

  /** The example line pair `Ideal,5,5,5` and `Budi,4,5,3`: similarities
      0.8, 1 and 0.6, total 0.8. */
  lemma Example()
    ensures Total([5.0, 5.0, 5.0], [4.0, 5.0, 3.0]) == 0.8
  {
    var sims := Similarities([5.0, 5.0, 5.0], [4.0, 5.0, 3.0]);
    assert sims == [0.8, 1.0, 0.6];
    assert Seqs.Sum(sims) == 2.4;
  }
}
