/** `computeMarkov`: a first-order transition matrix. The tokens of all
    lines form one sequence; the states are its distinct tokens in order of
    first occurrence; cell (a, b) counts how often state a is directly
    followed by state b, and each row is normalised to probabilities. */
module Markov {
  import Text
  import Seqs
  import Tally
  import Numbers

  /** `lines.join(',').split(',').map(s => s.trim()).filter(Boolean)`. */
  function Tokens(lines: seq<string>): seq<string>
  {
    Text.NonEmpty(Text.Fields(Text.Join(lines, ',')))
  }

  /** The tokens of every line in turn: a line break separates tokens
      just like a comma. */
  function LineTokens(lines: seq<string>): seq<string>
  {
    if lines == [] then [] else Text.NonEmpty(Text.Fields(lines[0])) + LineTokens(lines[1..])
  }

  lemma {:induction false} TokensPerLine(lines: seq<string>)
    ensures Tokens(lines) == LineTokens(lines)
  {
    if lines == [] {
      Text.NothingToSplit(',');
    } else if |lines| == 1 {
      assert LineTokens(lines[1..]) == [];
    } else {
      TokensPerLine(lines[1..]);
      var a, b := lines[0], Text.Join(lines[1..], ',');
      assert Text.Join(lines, ',') == a + [','] + b;
      Text.SplitConcat(a, b, ',');
      Text.TrimAllAppend(Text.Split(a, ','), Text.Split(b, ','));
      Text.NonEmptyAppend(Text.Fields(a), Text.Fields(b));
    }
  }

  /** How often `x` is directly followed by `y` in `s`. */
  function Transitions<T(==)>(s: seq<T>, x: T, y: T): nat
  {
    if |s| < 2 then 0
    else Transitions(s[..|s| - 1], x, y) + (if s[|s| - 2] == x && s[|s| - 1] == y then 1 else 0)
  }

  lemma TransitionsStep<T>(s: seq<T>, i: nat, x: T, y: T)
    requires 1 <= i < |s|
    ensures Transitions(s[..i + 1], x, y) == Transitions(s[..i], x, y) + (if s[i - 1] == x && s[i] == y then 1 else 0)
  {
    assert s[..i + 1][..i] == s[..i];
  }

  /** How often `x` is followed by some token: its occurrences before the
      last position. */
  function Departures<T(==)>(s: seq<T>, x: T): nat
  {
    if s == [] then 0 else Tally.Occurrences(s[..|s| - 1], x)
  }

  /** The counts of the transitions out of `x`, one per state. */
  function Row<T(==)>(s: seq<T>, x: T, states: seq<T>): (row: seq<nat>)
    ensures |row| == |states|
  {
    seq(|states|, b requires 0 <= b < |states| => Transitions(s, x, states[b]))
  }

  /** `row.reduce((a, b) => a + b, 0)` over counts. */
  function RowTotal(row: seq<nat>): nat
  {
    if row == [] then 0 else row[0] + RowTotal(row[1..])
  }

  /** One for the position of `v`, zero elsewhere. */
  function Indicator<T(==)>(states: seq<T>, v: T): (row: seq<nat>)
    ensures |row| == |states|
  {
    seq(|states|, b requires 0 <= b < |states| => if states[b] == v then 1 else 0)
  }

  function Plus(a: seq<nat>, b: seq<nat>): (r: seq<nat>)
    requires |a| == |b|
    ensures |r| == |a|
  {
    seq(|a|, j requires 0 <= j < |a| => a[j] + b[j])
  }

  lemma {:induction false} RowTotalPlus(a: seq<nat>, b: seq<nat>)
    requires |a| == |b|
    ensures RowTotal(Plus(a, b)) == RowTotal(a) + RowTotal(b)
  {
    if a != [] {
      RowTotalPlus(a[1..], b[1..]);
      assert Plus(a, b)[1..] == Plus(a[1..], b[1..]);
    }
  }

  /** Without duplicate states, the indicator of `v` adds up to one exactly
      when `v` is a state. */
  lemma {:induction false} RowTotalIndicator<T>(states: seq<T>, v: T)
    requires Seqs.NoDuplicates(states)
    ensures RowTotal(Indicator(states, v)) == if v in states then 1 else 0
  {
    if states != [] {
      var rest := states[1..];
      RowTotalIndicator(rest, v);
      assert Indicator(states, v)[1..] == Indicator(rest, v);
      if states[0] == v {
        assert v !in rest by {
          forall k | 0 <= k < |rest|
            ensures rest[k] != v
          {
            assert rest[k] == states[k + 1];
          }
        }
      }
      assert states == [states[0]] + rest;
    }
  }

  /** Appending a token adds one transition out of the previous last token,
      into the new one. */
  lemma RowStep<T>(s: seq<T>, x: T, states: seq<T>)
    requires |s| >= 2
    ensures Row(s, x, states) ==
      if s[|s| - 2] == x then Plus(Row(s[..|s| - 1], x, states), Indicator(states, s[|s| - 1]))
      else Row(s[..|s| - 1], x, states)
  {
  }

  lemma {:induction false} RowTotalZero(row: seq<nat>)
    ensures RowTotal(row) == 0 <==> forall j :: 0 <= j < |row| ==> row[j] == 0
  {
    if row != [] {
      RowTotalZero(row[1..]);
      assert forall j :: 1 <= j < |row| ==> row[j] == row[1..][j - 1];
    }
  }

  /** The transitions out of `x` add up to the number of times `x` is
      followed by a token. */
  lemma {:induction false} RowTotalIsDepartures<T>(s: seq<T>, x: T, states: seq<T>)
    requires Seqs.NoDuplicates(states)
    requires forall i :: 0 <= i < |s| ==> s[i] in states
    ensures RowTotal(Row(s, x, states)) == Departures(s, x)
  {
    if |s| < 2 {
      RowTotalZero(Row(s, x, states));
      if |s| == 1 {
        assert s[..0] == [];
      }
    } else {
      var init := s[..|s| - 1];
      RowTotalIsDepartures(init, x, states);
      RowStep(s, x, states);
      assert init[..|init| - 1] == s[..|s| - 2];
      if s[|s| - 2] == x {
        RowTotalPlus(Row(init, x, states), Indicator(states, s[|s| - 1]));
        RowTotalIndicator(states, s[|s| - 1]);
      }
    }
  }

  /** Cell (a, b) of `mat` counts the transitions from `states[a]` to
      `states[b]` in `s`. */
  ghost predicate CountsOf<T>(mat: seq<seq<nat>>, states: seq<T>, s: seq<T>)
  {
    && |mat| == |states|
    && (forall a :: 0 <= a < |states| ==> mat[a] == Row(s, states[a], states))
  }

  /** `mat[a][b] += 1`. */
  function Increment(mat: seq<seq<nat>>, a: nat, b: nat): (r: seq<seq<nat>>)
    requires a < |mat| && b < |mat[a]|
    ensures |r| == |mat| && |r[a]| == |mat[a]|
    ensures r[a][b] == mat[a][b] + 1
    ensures forall k :: 0 <= k < |mat| && k != a ==> r[k] == mat[k]
    ensures forall l :: 0 <= l < |mat[a]| && l != b ==> r[a][l] == mat[a][l]
  {
    mat[a := mat[a][b := mat[a][b] + 1]]
  }

  /** Counting the transition into token `i` keeps the matrix in step with
      the prefix read so far. */
  lemma IncrementStep<T>(mat: seq<seq<nat>>, states: seq<T>, s: seq<T>, i: nat, a: nat, b: nat)
    requires 1 <= i < |s| && a < |states| && b < |states| && states[a] == s[i - 1] && states[b] == s[i]
    requires Seqs.NoDuplicates(states) && CountsOf(mat, states, s[..i])
    ensures CountsOf(Increment(mat, a, b), states, s[..i + 1])
  {
    var r := Increment(mat, a, b);
    forall k | 0 <= k < |states|
      ensures r[k] == Row(s[..i + 1], states[k], states)
    {
      forall l | 0 <= l < |states|
        ensures r[k][l] == Row(s[..i + 1], states[k], states)[l]
      {
        TransitionsStep(s, i, states[k], states[l]);
        if k == a && l != b {
          assert states[l] != s[i];
        } else if k != a {
          assert states[k] != s[i - 1];
        }
      }
    }
  }

  /** The count matrix of `tokens` over `states`, built as the source does:
      one increment per adjacent pair of tokens. */
  method CountMatrix<T(==)>(tokens: seq<T>, states: seq<T>) returns (mat: seq<seq<nat>>)
    requires states == Seqs.Distinct(tokens)
    ensures CountsOf(mat, states, tokens)
  {
    Seqs.DistinctSpec(tokens);
    mat := CountTransitions(tokens, states);
  }

  /** The counting loop, over any list of distinct states that holds every token. */
  method CountTransitions<T(==)>(tokens: seq<T>, states: seq<T>) returns (mat: seq<seq<nat>>)
    requires Seqs.NoDuplicates(states)
    requires forall i :: 0 <= i < |tokens| ==> tokens[i] in states
    ensures CountsOf(mat, states, tokens)
  {
    var n := |states|;
    mat := seq(n, _ => seq(n, _ => 0));
    if |tokens| > 0 {
      NoTransitionsYet(mat, states, tokens);
      for i := 1 to |tokens|
        invariant CountsOf(mat, states, tokens[..i])
      {
        var a := Seqs.FirstIndex(states, tokens[i - 1]);
        var b := Seqs.FirstIndex(states, tokens[i]);
        IncrementStep(mat, states, tokens, i, a, b);
        mat := Increment(mat, a, b);
      }
      assert tokens[..|tokens|] == tokens;
    }
  }

  /** Before any pair is read, the zero matrix counts the first token alone. */
  lemma NoTransitionsYet<T>(mat: seq<seq<nat>>, states: seq<T>, tokens: seq<T>)
    requires tokens != [] && mat == seq(|states|, _ => seq(|states|, _ => 0))
    ensures CountsOf(mat, states, tokens[..1])
  {
    forall a | 0 <= a < |states|
      ensures mat[a] == Row(tokens[..1], states[a], states)
    {
    }
  }

  /** A row of counts as probabilities: each count over the row total, or
      all zeros when the row is empty (`toFixed(3)` strings in the source). */
  function Normalise(row: seq<nat>): (p: seq<real>)
    ensures |p| == |row|
    ensures RowTotal(row) == 0 ==> forall j :: 0 <= j < |row| ==> p[j] == 0.0
    ensures forall j :: 0 <= j < |row| ==> p[j] * RowTotal(row) as real == row[j] as real
  {
    var s := RowTotal(row);
    if s == 0 then
      RowTotalZero(row);
      seq(|row|, _ => 0.0)
    else
      seq(|row|, j requires 0 <= j < |row| => row[j] as real / s as real)
  }

  /** Every probability lies in [0, 1]. */
  lemma NormaliseWithinUnit(row: seq<nat>, j: nat)
    requires j < |row|
    ensures 0.0 <= Normalise(row)[j] <= 1.0
  {
    var s := RowTotal(row);
    if s > 0 {
      RowTotalBound(row, j);
      Numbers.UnitFraction(row[j] as real, s as real);
    }
  }

  lemma {:induction false} RowTotalBound(row: seq<nat>, j: nat)
    requires j < |row|
    ensures row[j] <= RowTotal(row)
  {
    if j > 0 {
      RowTotalBound(row[1..], j - 1);
    }
  }

  lemma {:induction false} SumOverTotal(row: seq<nat>, t: real)
    requires t > 0.0
    ensures Seqs.Sum(seq(|row|, j requires 0 <= j < |row| => row[j] as real / t)) == RowTotal(row) as real / t
  {
    if row != [] {
      var q := seq(|row|, j requires 0 <= j < |row| => row[j] as real / t);
      SumOverTotal(row[1..], t);
      assert q[1..] == seq(|row[1..]|, j requires 0 <= j < |row[1..]| => row[1..][j] as real / t);
      assert row[0] as real / t + RowTotal(row[1..]) as real / t == (row[0] + RowTotal(row[1..])) as real / t;
    }
  }

  /** A normalised row is a probability distribution, unless the state is
      never followed by another, in which case it is all zeros. */
  lemma NormaliseSum(row: seq<nat>)
    ensures Seqs.Sum(Normalise(row)) == if RowTotal(row) > 0 then 1.0 else 0.0
  {
    var t := RowTotal(row);
    if t > 0 {
      SumOverTotal(row, t as real);
      assert Normalise(row) == seq(|row|, j requires 0 <= j < |row| => row[j] as real / t as real);
      Numbers.DivideSelf(t as real);
    } else {
      Seqs.SumConstant(Normalise(row), 0.0);
    }
  }

  /** `computeMarkov(lines)`: the states in order of first occurrence and,
      for each, its row of transition probabilities. */
  method ComputeMarkov(lines: seq<string>) returns (states: seq<string>, prob: seq<seq<real>>)
    ensures states == Seqs.Distinct(Tokens(lines))
    ensures |prob| == |states|
    ensures forall a :: 0 <= a < |states| ==> prob[a] == Normalise(Row(Tokens(lines), states[a], states))
  {
    var tokens := Tokens(lines);
    states := Seqs.Distinct(tokens);
    var mat := CountMatrix(tokens, states);
    prob := NormaliseRows(mat);
  }

  /** `mat.map(row => ...)`: every row normalised. */
  method NormaliseRows(mat: seq<seq<nat>>) returns (prob: seq<seq<real>>)
    ensures |prob| == |mat|
    ensures forall a :: 0 <= a < |mat| ==> prob[a] == Normalise(mat[a])
  {
    prob := [];
    for a := 0 to |mat|
      invariant |prob| == a
      invariant forall k :: 0 <= k < a ==> prob[k] == Normalise(mat[k])
    {
      prob := prob + [Normalise(mat[a])];
    }
  }

  /** Row `a` is a probability distribution exactly when state `a` occurs
      before the last token; otherwise it is all zeros. */
  lemma RowDistribution(tokens: seq<string>, a: nat)
    requires a < |Seqs.Distinct(tokens)|
    ensures var states := Seqs.Distinct(tokens);
      var p := Normalise(Row(tokens, states[a], states));
      && (Seqs.Sum(p) == 1.0 <==> states[a] in tokens[..|tokens| - 1])
      && (states[a] !in tokens[..|tokens| - 1] ==> forall b :: 0 <= b < |p| ==> p[b] == 0.0)
  {
    var states := Seqs.Distinct(tokens);
    var row := Row(tokens, states[a], states);
    Seqs.DistinctSpec(tokens);
    RowTotalIsDepartures(tokens, states[a], states);
    Tally.OccurrencesPositive(tokens[..|tokens| - 1], states[a]);
    NormaliseSum(row);
  }

  /** The occurrences of each state in `s`, one per state. */
  function OccurrenceRow<T(==)>(s: seq<T>, states: seq<T>): (row: seq<nat>)
    ensures |row| == |states|
  {
    seq(|states|, a requires 0 <= a < |states| => Tally.Occurrences(s, states[a]))
  }

  /** Every token of `s` is one state's occurrence. */
  lemma {:induction false} OccurrenceRowTotal<T>(s: seq<T>, states: seq<T>)
    requires Seqs.NoDuplicates(states)
    requires forall i :: 0 <= i < |s| ==> s[i] in states
    ensures RowTotal(OccurrenceRow(s, states)) == |s|
  {
    if s == [] {
      RowTotalZero(OccurrenceRow(s, states));
    } else {
      var init, last := s[..|s| - 1], s[|s| - 1];
      OccurrenceRowTotal(init, states);
      assert OccurrenceRow(s, states) == Plus(OccurrenceRow(init, states), Indicator(states, last));
      RowTotalPlus(OccurrenceRow(init, states), Indicator(states, last));
      RowTotalIndicator(states, last);
    }
  }

  /** The row totals of a matrix. */
  function Totals(mat: seq<seq<nat>>): (ts: seq<nat>)
    ensures |ts| == |mat|
    ensures forall a :: 0 <= a < |mat| ==> ts[a] == RowTotal(mat[a])
  {
    seq(|mat|, a requires 0 <= a < |mat| => RowTotal(mat[a]))
  }

  /** The matrix holds every transition once: its counts add up to one less
      than the number of tokens. */
  lemma MatrixTotal<T>(tokens: seq<T>, states: seq<T>, mat: seq<seq<nat>>)
    requires |tokens| > 0 && Seqs.NoDuplicates(states)
    requires forall i :: 0 <= i < |tokens| ==> tokens[i] in states
    requires CountsOf(mat, states, tokens)
    ensures RowTotal(Totals(mat)) == |tokens| - 1
  {
    var init := tokens[..|tokens| - 1];
    var ts, occ := Totals(mat), OccurrenceRow(init, states);
    forall a | 0 <= a < |states|
      ensures ts[a] == occ[a]
    {
      RowTotalIsDepartures(tokens, states[a], states);
    }
    assert ts == occ;
    OccurrenceRowTotal(init, states);
  }

  /** `A,B,A,B`, and any two alternating tokens: the states are the two
      tokens in order. */
  lemma ExampleStates<T>(x: T, y: T)
    requires x != y
    ensures Seqs.Distinct([x, y, x, y]) == [x, y]
  {
    var s := [x, y, x, y];
    assert Seqs.NoDuplicates([x, y]);
    Seqs.DistinctOfUnique([x, y]);
    Seqs.DistinctLast([x, y, x]);
    assert [x, y, x][..2] == [x, y];
    Seqs.DistinctLast(s);
    assert s[..3] == [x, y, x];
  }

  /** `A,B,A,B`: A is always followed by B, and B by A. */
  lemma ExampleRows()
    ensures Normalise(Row(["A", "B", "A", "B"], "A", ["A", "B"])) == [0.0, 1.0]
    ensures Normalise(Row(["A", "B", "A", "B"], "B", ["A", "B"])) == [1.0, 0.0]
  {
    var s := ["A", "B", "A", "B"];
    assert s[..3] == ["A", "B", "A"];
    assert ["A", "B", "A"][..2] == ["A", "B"];
    assert ["A", "B"][..1] == ["A"];
    assert Row(s, "A", ["A", "B"]) == [0, 2];
    assert Row(s, "B", ["A", "B"]) == [1, 0];
    assert RowTotal([0, 2]) == 2 && RowTotal([1, 0]) == 1;
  }
}
