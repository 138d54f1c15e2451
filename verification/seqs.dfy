/** Sequence helpers shared by the calculators: sums, means, extrema,
    first-occurrence de-duplication (`Array.from(new Set(xs))`). */
module Seqs {

  /** Sum of a sequence of reals, the value of `xs.reduce((a, b) => a + b, 0)`.
      Over exact reals the association order of the additions is irrelevant. */
  function Sum(s: seq<real>): real
  {
    if s == [] then 0.0 else s[0] + Sum(s[1..])
  }

  lemma {:induction false} SumAppend(a: seq<real>, b: seq<real>)
    ensures Sum(a + b) == Sum(a) + Sum(b)
  {
    if a != [] {
      assert (a + b)[1..] == a[1..] + b;
      SumAppend(a[1..], b);
    } else {
      assert a + b == b;
    }
  }

  /** Sum of the first `k` elements plus the `k`-th is the sum of the first `k + 1`. */
  lemma SumPrefixStep(s: seq<real>, k: nat)
    requires k < |s|
    ensures Sum(s[..k + 1]) == Sum(s[..k]) + s[k]
  {
    assert s[..k + 1] == s[..k] + [s[k]];
    SumAppend(s[..k], [s[k]]);
  }

  /** Every element within [lo, hi] bounds the sum by |s| * lo and |s| * hi. */
  lemma {:induction false} SumBounds(s: seq<real>, lo: real, hi: real)
    requires forall i :: 0 <= i < |s| ==> lo <= s[i] <= hi
    ensures |s| as real * lo <= Sum(s) <= |s| as real * hi
  {
    if s != [] {
      SumBounds(s[1..], lo, hi);
      Distribute(|s| - 1, lo);
      Distribute(|s| - 1, hi);
    }
  }

  /** Every element equal to `c` makes the sum |s| * c. */
  lemma {:induction false} SumConstant(s: seq<real>, c: real)
    requires forall i :: 0 <= i < |s| ==> s[i] == c
    ensures Sum(s) == |s| as real * c
  {
    if s != [] {
      SumConstant(s[1..], c);
      Distribute(|s| - 1, c);
    }
  }

  /** Below a common bound the sum is at most |s| * hi, and reaches it
      exactly when every element is `hi`. */
  lemma {:induction false} SumAtBound(s: seq<real>, hi: real)
    requires forall i :: 0 <= i < |s| ==> s[i] <= hi
    ensures Sum(s) <= |s| as real * hi
    ensures Sum(s) == |s| as real * hi <==> forall i :: 0 <= i < |s| ==> s[i] == hi
  {
    if s != [] {
      var rest := s[1..];
      SumAtBound(rest, hi);
      Distribute(|rest|, hi);
      if Sum(s) == |s| as real * hi {
        assert s[0] == hi && Sum(rest) == |rest| as real * hi;
        forall i | 0 <= i < |s|
          ensures s[i] == hi
        {
          if i > 0 {
            assert s[i] == rest[i - 1];
          }
        }
      }
      if forall i :: 0 <= i < |s| ==> s[i] == hi {
        forall i | 0 <= i < |rest|
          ensures rest[i] == hi
        {
          assert rest[i] == s[i + 1];
        }
      }
    }
  }

  /** `(n + 1) * x == n * x + x`. */
  lemma Distribute(n: nat, x: real)
    ensures (n + 1) as real * x == n as real * x + x
  {
  }

  /** Arithmetic mean; the callers divide by the length they summed. */
  function Mean(s: seq<real>): real
    requires |s| > 0
  {
    Sum(s) / |s| as real
  }

  /** Dividing by a positive `n` a total at most `hi * n` gives at most
      `hi`, and exactly `hi` when the total is `hi * n`. */
  lemma DivideAtMost(a: real, n: real, hi: real)
    requires n > 0.0 && a <= hi * n
    ensures a / n <= hi
    ensures a / n == hi <==> a == hi * n
  {
    var q := a / n;
    assert q * n == a;
    assert (hi - q) * n == hi * n - a;
  }

  /** Dividing by a positive `n` a total at least `lo * n` gives at least `lo`. */
  lemma DivideAtLeast(a: real, n: real, lo: real)
    requires n > 0.0 && lo * n <= a
    ensures lo <= a / n
  {
    var q := a / n;
    assert q * n == a;
    assert (q - lo) * n == a - lo * n;
  }

  /** The mean of values within [lo, hi] lies within [lo, hi]. */
  lemma MeanBounds(s: seq<real>, lo: real, hi: real)
    requires |s| > 0
    requires forall i :: 0 <= i < |s| ==> lo <= s[i] <= hi
    ensures lo <= Mean(s) <= hi
  {
    SumBounds(s, lo, hi);
    var n := |s| as real;
    DivideAtLeast(Sum(s), n, lo);
    DivideAtMost(Sum(s), n, hi);
  }

  /** The mean of values at most `hi` is at most `hi`, and equals it
      exactly when every value does. */
  lemma MeanAtBound(s: seq<real>, hi: real)
    requires |s| > 0
    requires forall i :: 0 <= i < |s| ==> s[i] <= hi
    ensures Mean(s) <= hi
    ensures Mean(s) == hi <==> forall i :: 0 <= i < |s| ==> s[i] == hi
  {
    SumAtBound(s, hi);
    DivideAtMost(Sum(s), |s| as real, hi);
  }

  /** `Math.max(...s)` for a non-empty sequence. */
  function Max(s: seq<real>): (m: real)
    requires |s| > 0
    ensures m in s
    ensures forall i :: 0 <= i < |s| ==> s[i] <= m
  {
    if |s| == 1 then s[0]
    else
      var rest := Max(s[1..]);
      if s[0] >= rest then s[0] else rest
  }

  /** `Math.min(...s)` for a non-empty sequence. */
  function Min(s: seq<real>): (m: real)
    requires |s| > 0
    ensures m in s
    ensures forall i :: 0 <= i < |s| ==> m <= s[i]
  {
    if |s| == 1 then s[0]
    else
      var rest := Min(s[1..]);
      if s[0] <= rest then s[0] else rest
  }

  predicate NoDuplicates<T(==)>(s: seq<T>)
  {
    forall i, j :: 0 <= i < j < |s| ==> s[i] != s[j]
  }

  /** Position of the first occurrence of `x` in `s`. */
  function FirstIndex<T(==)>(s: seq<T>, x: T): (k: nat)
    requires x in s
    ensures k < |s| && s[k] == x
    ensures forall i :: 0 <= i < k ==> s[i] != x
  {
    if s[0] == x then 0 else 1 + FirstIndex(s[1..], x)
  }

  lemma FirstIndexAppend<T>(s: seq<T>, y: T, x: T)
    requires x in s
    ensures FirstIndex(s + [y], x) == FirstIndex(s, x)
  {
    var k := FirstIndex(s, x);
    assert (s + [y])[k] == x;
  }

  ghost predicate DistinctOf<T>(s: seq<T>, r: seq<T>)
  {
    && NoDuplicates(r)
    && (forall i :: 0 <= i < |r| ==> r[i] in s)
    && (forall i :: 0 <= i < |s| ==> s[i] in r)
    && (forall i, j :: 0 <= i < j < |r| ==> FirstIndex(s, r[i]) < FirstIndex(s, r[j]))
  }

  /** One step of `Distinct`: appending `last` keeps the properties. */
  lemma DistinctStep<T>(init: seq<T>, last: T, d: seq<T>)
    requires DistinctOf(init, d)
    ensures last in d ==> DistinctOf(init + [last], d)
    ensures last !in d ==> DistinctOf(init + [last], d + [last])
  {
    FirstIndicesKept(init, last, d);
    if last in d {
      DistinctStepSeen(init, last, d);
    } else {
      DistinctStepNew(init, last, d);
    }
  }

  /** Appending keeps the first position of every element already present. */
  lemma FirstIndicesKept<T>(init: seq<T>, last: T, d: seq<T>)
    requires forall i :: 0 <= i < |d| ==> d[i] in init
    ensures forall i :: 0 <= i < |d| ==> FirstIndex(init + [last], d[i]) == FirstIndex(init, d[i])
  {
    forall i | 0 <= i < |d|
      ensures FirstIndex(init + [last], d[i]) == FirstIndex(init, d[i])
    {
      FirstIndexAppend(init, last, d[i]);
    }
  }

  lemma DistinctStepSeen<T>(init: seq<T>, last: T, d: seq<T>)
    requires DistinctOf(init, d) && last in d
    requires forall i :: 0 <= i < |d| ==> FirstIndex(init + [last], d[i]) == FirstIndex(init, d[i])
    ensures DistinctOf(init + [last], d)
  {
    var s := init + [last];
    forall i | 0 <= i < |s|
      ensures s[i] in d
    {
      if i < |init| {
        assert s[i] == init[i];
      }
    }
  }

  lemma DistinctStepNew<T>(init: seq<T>, last: T, d: seq<T>)
    requires DistinctOf(init, d) && last !in d
    requires forall i :: 0 <= i < |d| ==> FirstIndex(init + [last], d[i]) == FirstIndex(init, d[i])
    ensures DistinctOf(init + [last], d + [last])
  {
    var s := init + [last];
    assert last !in init;
    assert FirstIndex(s, last) == |init|;
    var r := d + [last];
    forall i, j | 0 <= i < j < |r|
      ensures FirstIndex(s, r[i]) < FirstIndex(s, r[j])
    {
      assert r[i] == d[i];
      if j < |d| {
        assert r[j] == d[j];
      }
    }
    forall i | 0 <= i < |s|
      ensures s[i] in r
    {
      if i < |init| {
        assert s[i] == init[i];
      }
    }
  }

  /** The distinct elements of `s` in order of first occurrence: the order in
      which a JavaScript `Set` built from `s` enumerates them. */
  function Distinct<T(==)>(s: seq<T>): seq<T>
  {
    if s == [] then []
    else
      var d := Distinct(s[..|s| - 1]);
      if s[|s| - 1] in d then d else d + [s[|s| - 1]]
  }

  /** `Distinct` holds every element of `s` exactly once, and lists them in
      order of first occurrence. */
  lemma {:induction false} DistinctSpec<T>(s: seq<T>)
    ensures NoDuplicates(Distinct(s))
    ensures forall i :: 0 <= i < |Distinct(s)| ==> Distinct(s)[i] in s
    ensures forall i :: 0 <= i < |s| ==> s[i] in Distinct(s)
    ensures forall i, j :: 0 <= i < j < |Distinct(s)| ==> FirstIndex(s, Distinct(s)[i]) < FirstIndex(s, Distinct(s)[j])
  {
    if s != [] {
      var init, last := s[..|s| - 1], s[|s| - 1];
      DistinctSpec(init);
      DistinctStep(init, last, Distinct(init));
      assert s == init + [last];
    }
  }

  /** De-duplicating one more element keeps it only if it is new. */
  lemma DistinctLast<T>(s: seq<T>)
    requires s != []
    ensures var init, last := s[..|s| - 1], s[|s| - 1];
      Distinct(s) == if last in Distinct(init) then Distinct(init) else Distinct(init) + [last]
  {
  }

  /** A sequence without duplicates is its own de-duplication. */
  lemma {:induction false} DistinctOfUnique<T>(s: seq<T>)
    requires NoDuplicates(s)
    ensures Distinct(s) == s
  {
    if s != [] {
      var init := s[..|s| - 1];
      DistinctOfUnique(init);
      assert s[|s| - 1] !in init;
      assert s == init + [s[|s| - 1]];
    }
  }
}
