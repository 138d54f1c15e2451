/** `computeSAW`: simple additive weighting. Every criterion is a benefit
    criterion, normalised by its column maximum; an alternative's score is
    the weighted sum of its normalised values, and the alternatives are
    ranked by descending score. */
module Saw {
  import opened Wrappers
  import Text
  import Numbers
  import Seqs
  import Sorting

  datatype Alternative = Alternative(name: string, values: seq<real>)

  datatype Scored = Scored(name: string, score: real)

  /** `weightLine.split(',').map(w => Number(w.trim()))`; `None` is `NaN`. */
  function ParseWeights(line: string): (ws: seq<Option<real>>)
    ensures |ws| == |Text.Split(line, ',')|
  {
    var parts := Text.Split(line, ',');
    seq(|parts|, i requires 0 <= i < |parts| => Numbers.JsNumber(Text.Trim(parts[i])))
  }

  /** `weights[j] || 0`: a missing or non-numeric weight counts as 0. */
  function Weight(ws: seq<Option<real>>, j: nat): real
  {
    if j < |ws| then Numbers.OrZero(ws[j]) else 0.0
  }

  /** The input the calculation is defined on: at least one line, every
      criterion value a number, and every line as wide as the first. */
  predicate WellFormed(lines: seq<string>)
  {
    && |lines| > 0
    && (forall i :: 0 <= i < |lines| ==> Numbers.AllNumbers(Numbers.Cells(lines[i])))
    && (forall i :: 0 <= i < |lines| ==> |Numbers.Cells(lines[i])| == |Numbers.Cells(lines[0])|)
  }

  function ParseAlternative(line: string): (a: Alternative)
    requires Numbers.AllNumbers(Numbers.Cells(line))
    ensures a.name == Text.Fields(line)[0]
    ensures |a.values| == |Numbers.Cells(line)|
    ensures forall j :: 0 <= j < |a.values| ==> Numbers.Cells(line)[j] == Some(a.values[j])
  {
    Alternative(Text.Fields(line)[0], Numbers.Values(Numbers.Cells(line)))
  }

  /** Alternatives of equal width `n`. */
  predicate Rectangular(data: seq<Alternative>, n: nat)
  {
    forall i :: 0 <= i < |data| ==> |data[i].values| == n
  }

  function ParseData(lines: seq<string>): (data: seq<Alternative>)
    requires WellFormed(lines)
    ensures |data| == |lines|
    ensures Rectangular(data, |Numbers.Cells(lines[0])|)
  {
    seq(|lines|, i requires 0 <= i < |lines| => ParseAlternative(lines[i]))
  }

  function Column(data: seq<Alternative>, n: nat, j: nat): (col: seq<real>)
    requires Rectangular(data, n) && j < n
    ensures |col| == |data|
  {
    seq(|data|, i requires 0 <= i < |data| => data[i].values[j])
  }

  /** `colMax[j] = Math.max(...column j)`. */
  function ColumnMax(data: seq<Alternative>, n: nat, j: nat): (m: real)
    requires |data| > 0 && Rectangular(data, n) && j < n
    ensures exists i :: 0 <= i < |data| && data[i].values[j] == m
    ensures forall i :: 0 <= i < |data| ==> data[i].values[j] <= m
  {
    var col := Column(data, n, j);
    var m := Seqs.Max(col);
    assert forall i :: 0 <= i < |data| ==> col[i] == data[i].values[j];
    m
  }

  /** `colMax[j] || 1`: a zero maximum divides by 1. */
  function Divisor(m: real): (d: real)
    ensures d != 0.0
  {
    if m == 0.0 then 1.0 else m
  }

  /** The weighted sum of the first `k` normalised values, added left to
      right as `reduce` does. */
  function WeightedSum(values: seq<real>, maxes: seq<real>, ws: seq<Option<real>>, k: nat): real
    requires k <= |values| && k <= |maxes|
  {
    if k == 0 then 0.0
    else WeightedSum(values, maxes, ws, k - 1) + values[k - 1] / Divisor(maxes[k - 1]) * Weight(ws, k - 1)
  }

  function ScoreOf(s: Scored): real { s.score }

  /** The column maxima, computed column by column as the source does. */
  method ColumnMaxima(data: seq<Alternative>, n: nat) returns (maxes: seq<real>)
    requires |data| > 0 && Rectangular(data, n)
    ensures |maxes| == n
    ensures forall j :: 0 <= j < n ==> maxes[j] == ColumnMax(data, n, j)
  {
    maxes := [];
    for j := 0 to n
      invariant |maxes| == j
      invariant forall k :: 0 <= k < j ==> maxes[k] == ColumnMax(data, n, k)
    {
      maxes := maxes + [Seqs.Max(Column(data, n, j))];
    }
  }

  /** The score of every alternative, in input order. */
  method ScoreAll(data: seq<Alternative>, n: nat, maxes: seq<real>, ws: seq<Option<real>>) returns (scores: seq<Scored>)
    requires Rectangular(data, n) && |maxes| == n
    ensures |scores| == |data|
    ensures forall i :: 0 <= i < |data| ==>
      scores[i] == Scored(data[i].name, WeightedSum(data[i].values, maxes, ws, n))
  {
    scores := [];
    for i := 0 to |data|
      invariant |scores| == i
      invariant forall k :: 0 <= k < i ==> scores[k] == Scored(data[k].name, WeightedSum(data[k].values, maxes, ws, n))
    {
      var v := data[i].values;
      var s := 0.0;
      for j := 0 to n
        invariant s == WeightedSum(v, maxes, ws, j)
      {
        s := s + v[j] / Divisor(maxes[j]) * Weight(ws, j);
      }
      scores := scores + [Scored(data[i].name, s)];
    }
  }

  /** The alternatives in input order with their scores. */
  function Scores(data: seq<Alternative>, n: nat, ws: seq<Option<real>>): (s: seq<Scored>)
    requires |data| > 0 && Rectangular(data, n)
    ensures |s| == |data|
  {
    var maxes := seq(n, j requires 0 <= j < n => ColumnMax(data, n, j));
    seq(|data|, i requires 0 <= i < |data| => Scored(data[i].name, WeightedSum(data[i].values, maxes, ws, n)))
  }

  /** `computeSAW(lines, weightLine)`: the alternatives with their scores,
      highest score first, alternatives with equal scores in input order. */
  method ComputeSaw(lines: seq<string>, weightLine: string) returns (ranking: seq<Scored>)
    requires WellFormed(lines)
    ensures multiset(ranking) == multiset(Scores(ParseData(lines), |Numbers.Cells(lines[0])|, ParseWeights(weightLine)))
    ensures forall i, k :: 0 <= i < k < |ranking| ==> ranking[i].score >= ranking[k].score
    ensures Sorting.Stable(Scores(ParseData(lines), |Numbers.Cells(lines[0])|, ParseWeights(weightLine)), ranking, ScoreOf)
  {
    var ws := ParseWeights(weightLine);
    var data := ParseData(lines);
    var n := |data[0].values|;
    var maxes := ColumnMaxima(data, n);
    var scores := ScoreAll(data, n, maxes, ws);
    assert maxes == seq(n, j requires 0 <= j < n => ColumnMax(data, n, j));
    assert scores == Scores(data, n, ws);
    Sorting.DescendingIsTotal();
    ranking := Sorting.SortBy(scores, ScoreOf, Sorting.Descending);
    assert Sorting.Sorted(ranking, ScoreOf, Sorting.Descending);
  }

  /** In a column of non-negative values every normalised value lies in
      [0, 1], and the column maximum normalises to exactly 1 unless the
      whole column is 0. */
  lemma NormalisedWithinUnit(data: seq<Alternative>, n: nat, j: nat, i: nat)
    requires |data| > 0 && Rectangular(data, n) && j < n && i < |data|
    requires forall k :: 0 <= k < |data| ==> data[k].values[j] >= 0.0
    ensures 0.0 <= data[i].values[j] / Divisor(ColumnMax(data, n, j)) <= 1.0
    ensures data[i].values[j] == ColumnMax(data, n, j) && ColumnMax(data, n, j) != 0.0 ==>
      data[i].values[j] / Divisor(ColumnMax(data, n, j)) == 1.0
  {
    var m := ColumnMax(data, n, j);
    var v := data[i].values[j];
    if m != 0.0 {
      Numbers.UnitFraction(v, m);
    }
  }

  /** A weighted sum of non-negative values is monotone in every value:
      an alternative at least as good on every criterion scores at least as
      high. */
  lemma {:induction false} Dominance(a: seq<real>, b: seq<real>, maxes: seq<real>, ws: seq<Option<real>>, k: nat)
    requires k <= |a| && k <= |b| && k <= |maxes|
    requires forall j :: 0 <= j < k ==> maxes[j] >= 0.0 && Weight(ws, j) >= 0.0 && a[j] >= b[j]
    ensures WeightedSum(a, maxes, ws, k) >= WeightedSum(b, maxes, ws, k)
  {
    if k > 0 {
      Dominance(a, b, maxes, ws, k - 1);
      var d := Divisor(maxes[k - 1]);
      var w := Weight(ws, k - 1);
      assert d > 0.0;
      assert a[k - 1] / d >= b[k - 1] / d;
      assert (a[k - 1] / d) * w >= (b[k - 1] / d) * w;
    }
  }

  /** With values that normalise into [0, 1] and non-negative weights, a
      score lies between 0 and the sum of the weights. */
  lemma {:induction false} ScoreBounds(values: seq<real>, maxes: seq<real>, ws: seq<Option<real>>, k: nat)
    requires k <= |values| && k <= |maxes|
    requires forall j :: 0 <= j < k ==> Weight(ws, j) >= 0.0 && 0.0 <= values[j] / Divisor(maxes[j]) <= 1.0
    ensures 0.0 <= WeightedSum(values, maxes, ws, k) <= WeightTotal(ws, k)
  {
    if k > 0 {
      ScoreBounds(values, maxes, ws, k - 1);
      var x := values[k - 1] / Divisor(maxes[k - 1]);
      var w := Weight(ws, k - 1);
      assert 0.0 <= x * w <= w by {
        assert 0.0 <= x <= 1.0 && w >= 0.0;
        assert x * w <= 1.0 * w;
      }
      assert WeightedSum(values, maxes, ws, k) == WeightedSum(values, maxes, ws, k - 1) + x * w;
      assert WeightTotal(ws, k) == WeightTotal(ws, k - 1) + w;
    }
  }

  /** The sum of the first `k` weights. */
  function WeightTotal(ws: seq<Option<real>>, k: nat): real
  {
    if k == 0 then 0.0 else WeightTotal(ws, k - 1) + Weight(ws, k - 1)
  }

  /** X (10, 5) and Y (5, 10) with weights 0.5, 0.5 both score 0.75. */
  lemma ExampleScores()
    ensures
      var data := [Alternative("X", [10.0, 5.0]), Alternative("Y", [5.0, 10.0])];
      Scores(data, 2, [Some(0.5), Some(0.5)]) == [Scored("X", 0.75), Scored("Y", 0.75)]
  {
    var data := [Alternative("X", [10.0, 5.0]), Alternative("Y", [5.0, 10.0])];
    assert ColumnMax(data, 2, 0) == 10.0 by {
      assert Column(data, 2, 0) == [10.0, 5.0];
      assert Seqs.Max([10.0, 5.0]) == 10.0 by { assert [10.0, 5.0][1..] == [5.0]; }
    }
    assert ColumnMax(data, 2, 1) == 10.0 by {
      assert Column(data, 2, 1) == [5.0, 10.0];
      assert Seqs.Max([5.0, 10.0]) == 10.0 by { assert [5.0, 10.0][1..] == [10.0]; }
    }
    var maxes := seq(2, j requires 0 <= j < 2 => ColumnMax(data, 2, j));
    var ws := [Some(0.5), Some(0.5)];
    assert maxes == [10.0, 10.0];
    assert WeightedSum([10.0, 5.0], maxes, ws, 1) == 0.5;
    assert WeightedSum([10.0, 5.0], maxes, ws, 2) == 0.75;
    assert WeightedSum([5.0, 10.0], maxes, ws, 1) == 0.25;
    assert WeightedSum([5.0, 10.0], maxes, ws, 2) == 0.75;
  }

  /** Equal scores keep input order: X, listed first, ranks first. */
  lemma ExampleTieKeepsOrder()
    ensures Sorting.SortBy([Scored("X", 0.75), Scored("Y", 0.75)], ScoreOf, Sorting.Descending)
         == [Scored("X", 0.75), Scored("Y", 0.75)]
  {
    Sorting.DescendingIsTotal();
    var s := [Scored("X", 0.75), Scored("Y", 0.75)];
    assert s[1..] == [Scored("Y", 0.75)] && s[1..][1..] == [];
  }
}
