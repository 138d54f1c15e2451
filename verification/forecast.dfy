/** `computeForecast`: simple moving average over a numeric series, with
    in-sample forecasts for every period past the first window and an
    iterative projection of further periods that feeds each forecast back
    into the window. */
module Forecast {
  import opened Wrappers
  import Numbers
  import Seqs

  /** The default window and horizon of `computeForecast`. */
  const DefaultWindow: nat := 3
  const DefaultHorizon: nat := 3

  const ShortSeriesMessage: string := "Data kurang untuk window yang dipilih."

  /** One table row: the 1-based period, the actual value (absent for
      projected periods) and the forecast (absent for the first window). */
  datatype Row = Row(period: nat, actual: Option<real>, forecast: Option<real>)

  datatype Table = Table(rows: seq<Row>, next: seq<real>)

  /** The numbers among `xs`, in order: `filter(v => !isNaN(v))`. */
  function Present(xs: seq<Option<real>>): (nums: seq<real>)
    ensures |nums| <= |xs|
  {
    if xs == [] then []
    else
      Present(xs[..|xs| - 1]) +
        match xs[|xs| - 1]
        case Some(v) => [v]
        case None => []
  }

  lemma {:induction false} PresentAppend(a: seq<Option<real>>, b: seq<Option<real>>)
    ensures Present(a + b) == Present(a) + Present(b)
    decreases |b|
  {
    if b == [] {
      assert a + b == a;
    } else {
      var init := b[..|b| - 1];
      assert (a + b)[..|a + b| - 1] == a + init;
      PresentAppend(a, init);
    }
  }

  /** A `NaN` is dropped and nothing else changes. */
  lemma PresentSkipsNaN(a: seq<Option<real>>, b: seq<Option<real>>)
    ensures Present(a + [None] + b) == Present(a) + Present(b)
  {
    var one: seq<Option<real>> := [None];
    assert Present(a + one) == Present(a) by {
      assert one[..0] == [];
      PresentAppend(a, one);
    }
    PresentAppend(a + one, b);
  }

  /** A number is kept, in place. */
  lemma PresentKeepsNumber(a: seq<Option<real>>, v: real, b: seq<Option<real>>)
    ensures Present(a + [Some(v)] + b) == Present(a) + [v] + Present(b)
  {
    PresentAppend(a + [Some(v)], b);
    PresentAppend(a, [Some(v)]);
    assert [Some(v)][..0] == [];
  }

  /** A series of numbers only is kept whole. */
  lemma {:induction false} PresentAll(nums: seq<real>)
    ensures Present(seq(|nums|, i requires 0 <= i < |nums| => Some(nums[i]))) == nums
  {
    if nums != [] {
      var xs := seq(|nums|, i requires 0 <= i < |nums| => Some(nums[i]));
      var init := nums[..|nums| - 1];
      assert xs[..|xs| - 1] == seq(|init|, i requires 0 <= i < |init| => Some(init[i]));
      PresentAll(init);
    }
  }

  /** `series.map(Number).filter(v => !isNaN(v))`. */
  function Numeric(series: seq<string>): seq<real>
  {
    Present(seq(|series|, i requires 0 <= i < |series| => Numbers.JsNumber(series[i])))
  }

  /** The in-sample forecast of the period at 0-based index `i`: the mean
      of the `window` actual values before it, none for the first window. */
  function InSample(nums: seq<real>, window: nat, i: nat): (f: Option<real>)
    requires 1 <= window && i < |nums|
    ensures f.Some? <==> i >= window
  {
    if i >= window then Some(Seqs.Mean(nums[i - window..i])) else None
  }

  /** Each projected value `p[k]` is the mean of the `window` values that
      precede it in the series extended by the earlier projections. */
  predicate MovingAverages(nums: seq<real>, window: nat, p: seq<real>)
    requires 1 <= window <= |nums|
  {
    forall k :: 0 <= k < |p| ==> p[k] == Seqs.Mean((nums + p)[|nums| + k - window..|nums| + k])
  }

  /** The window ending at position `|nums| + k` reads the same values
      whether or not later projections have been appended. */
  lemma WindowUnaffectedByLater(nums: seq<real>, p: seq<real>, q: seq<real>, lo: nat, hi: nat)
    requires lo <= hi <= |nums| + |p|
    ensures (nums + p + q)[lo..hi] == (nums + p)[lo..hi]
  {
  }

  /** The projection of `h` further periods: the moving-average recurrence. */
  function Projection(nums: seq<real>, window: nat, h: nat): (p: seq<real>)
    requires 1 <= window <= |nums|
    ensures |p| == h
  {
    if h == 0 then []
    else
      var prev := Projection(nums, window, h - 1);
      var ext := nums + prev;
      prev + [Seqs.Mean(ext[|ext| - window..])]
  }

  /** The projection has one value per future period, each the mean of
      the `window` values before it in the extended series. */
  lemma {:induction false} ProjectionRecurrence(nums: seq<real>, window: nat, h: nat)
    requires 1 <= window <= |nums|
    ensures MovingAverages(nums, window, Projection(nums, window, h))
  {
    if h > 0 {
      ProjectionRecurrence(nums, window, h - 1);
      ProjectionLast(nums, window, h);
      var prev := Projection(nums, window, h - 1);
      MovingAveragesStep(nums, window, prev, Seqs.Mean((nums + prev)[|nums + prev| - window..]));
    }
  }

  /** Appending the mean of the last `window` values keeps the recurrence. */
  lemma MovingAveragesStep(nums: seq<real>, window: nat, p: seq<real>, f: real)
    requires 1 <= window <= |nums|
    requires MovingAverages(nums, window, p)
    requires f == Seqs.Mean((nums + p)[|nums + p| - window..])
    ensures MovingAverages(nums, window, p + [f])
  {
    var q := p + [f];
    assert nums + q == nums + p + [f];
    forall k | 0 <= k < |q|
      ensures q[k] == Seqs.Mean((nums + q)[|nums| + k - window..|nums| + k])
    {
      WindowUnaffectedByLater(nums, p, [f], |nums| + k - window, |nums| + k);
    }
  }

  /** The recurrence determines the projection: any sequence that satisfies
      it is the projection of its length. */
  lemma {:induction false} MovingAveragesUnique(nums: seq<real>, window: nat, p: seq<real>)
    requires 1 <= window <= |nums|
    requires MovingAverages(nums, window, p)
    ensures p == Projection(nums, window, |p|)
  {
    if p != [] {
      var init := p[..|p| - 1];
      assert nums + p == nums + init + [p[|p| - 1]];
      forall k | 0 <= k < |init|
        ensures init[k] == Seqs.Mean((nums + init)[|nums| + k - window..|nums| + k])
      {
        WindowUnaffectedByLater(nums, init, [p[|p| - 1]], |nums| + k - window, |nums| + k);
      }
      MovingAveragesUnique(nums, window, init);
    }
  }

  /** The in-sample rows, one per actual value. */
  method InSampleRows(nums: seq<real>, window: nat) returns (rows: seq<Row>)
    requires window >= 1
    ensures |rows| == |nums|
    ensures forall i :: 0 <= i < |nums| ==> rows[i] == Row(i + 1, Some(nums[i]), InSample(nums, window, i))
  {
    rows := [];
    for i := 0 to |nums|
      invariant |rows| == i
      invariant forall j :: 0 <= j < i ==> rows[j] == Row(j + 1, Some(nums[j]), InSample(nums, window, j))
    {
      var f: Option<real> := None;
      if i >= window {
        var w := nums[i - window..i];
        f := Some(Seqs.Sum(w) / window as real);
        assert f == InSample(nums, window, i) by {
          assert |w| == window;
        }
      }
      rows := rows + [Row(i + 1, Some(nums[i]), f)];
    }
  }

  /** The iterative projection: each step averages the last `window`
      values of the series extended so far and appends the result. */
  method Project(nums: seq<real>, window: nat, future: nat) returns (next: seq<real>)
    requires 1 <= window <= |nums|
    ensures |next| == future
    ensures MovingAverages(nums, window, next)
  {
    var n := |nums|;
    var extended := nums;
    next := [];
    for h := 1 to future + 1
      invariant |next| == h - 1
      invariant extended == nums + next
      invariant MovingAverages(nums, window, next)
    {
      var lastWindow := extended[|extended| - window..];
      var f := Seqs.Sum(lastWindow) / window as real;
      assert |lastWindow| == window;
      MovingAveragesStep(nums, window, next, f);
      next := next + [f];
      extended := extended + [f];
    }
  }

  /** `computeForecast(series, window, future)`: the in-sample table rows,
      then one row per projected period, and the projected values. */
  method ComputeForecast(series: seq<string>, window: nat, future: nat) returns (r: Result<Table>)
    requires window >= 1
    ensures r.Failure? <==> |Numeric(series)| < window
    ensures r.Failure? ==> r.error == ShortSeriesMessage
    ensures r.Success? ==>
      var nums := Numeric(series);
      var n := |nums|;
      && |r.value.rows| == n + future
      && |r.value.next| == future
      && (forall i :: 0 <= i < n ==> r.value.rows[i] == Row(i + 1, Some(nums[i]), InSample(nums, window, i)))
      && (forall k :: 0 <= k < future ==> r.value.rows[n + k] == Row(n + k + 1, None, Some(r.value.next[k])))
      && MovingAverages(nums, window, r.value.next)
  {
    var nums := Numeric(series);
    var n := |nums|;
    if n < window {
      return Failure(ShortSeriesMessage);
    }
    var rows := InSampleRows(nums, window);
    var next := Project(nums, window, future);
    var projected := seq(future, k requires 0 <= k < future => Row(n + k + 1, None, Some(next[k])));
    r := Success(Table(rows + projected, next));
  }

  /** Every in-sample forecast lies between the smallest and the largest
      actual value. */
  lemma InSampleWithinRange(nums: seq<real>, window: nat, i: nat)
    requires 1 <= window && i < |nums| && i >= window
    ensures Seqs.Min(nums) <= InSample(nums, window, i).value <= Seqs.Max(nums)
  {
    var w := nums[i - window..i];
    assert forall j :: 0 <= j < |w| ==> w[j] == nums[i - window + j];
    Seqs.MeanBounds(w, Seqs.Min(nums), Seqs.Max(nums));
  }

  /** Projections never leave the range of the actual values: each is a
      mean of values already within it. */
  lemma {:induction false} ProjectionWithinRange(nums: seq<real>, window: nat, h: nat)
    requires 1 <= window <= |nums|
    ensures forall k :: 0 <= k < h ==> Seqs.Min(nums) <= Projection(nums, window, h)[k] <= Seqs.Max(nums)
  {
    if h > 0 {
      ProjectionWithinRange(nums, window, h - 1);
      var prev := Projection(nums, window, h - 1);
      var lo, hi := Seqs.Min(nums), Seqs.Max(nums);
      ExtendedWithin(nums, prev, lo, hi);
      TailMeanWithin(nums + prev, window, lo, hi);
      ProjectionLast(nums, window, h);
      AppendWithin(prev, Seqs.Mean((nums + prev)[|nums + prev| - window..]), lo, hi);
    }
  }

  /** One more period appends the mean of the last `window` values. */
  lemma ProjectionLast(nums: seq<real>, window: nat, h: nat)
    requires 1 <= window <= |nums| && h > 0
    ensures var prev := Projection(nums, window, h - 1);
      Projection(nums, window, h) == prev + [Seqs.Mean((nums + prev)[|nums + prev| - window..])]
  {
  }

  lemma AppendWithin(p: seq<real>, f: real, lo: real, hi: real)
    requires forall k :: 0 <= k < |p| ==> lo <= p[k] <= hi
    requires lo <= f <= hi
    ensures forall k :: 0 <= k < |p + [f]| ==> lo <= (p + [f])[k] <= hi
  {
  }

  /** The series extended by projections within [lo, hi] stays within it. */
  lemma ExtendedWithin(nums: seq<real>, prev: seq<real>, lo: real, hi: real)
    requires forall j :: 0 <= j < |nums| ==> lo <= nums[j] <= hi
    requires forall k :: 0 <= k < |prev| ==> lo <= prev[k] <= hi
    ensures forall j :: 0 <= j < |nums + prev| ==> lo <= (nums + prev)[j] <= hi
  {
    var ext := nums + prev;
    forall j | 0 <= j < |ext|
      ensures lo <= ext[j] <= hi
    {
      if j >= |nums| {
        assert ext[j] == prev[j - |nums|];
      }
    }
  }

  /** The mean of the last `window` values of a sequence within [lo, hi]
      lies within it. */
  lemma TailMeanWithin(ext: seq<real>, window: nat, lo: real, hi: real)
    requires 1 <= window <= |ext|
    requires forall j :: 0 <= j < |ext| ==> lo <= ext[j] <= hi
    ensures lo <= Seqs.Mean(ext[|ext| - window..]) <= hi
  {
    var w := ext[|ext| - window..];
    assert forall j :: 0 <= j < |w| ==> w[j] == ext[|ext| - window + j];
    Seqs.MeanBounds(w, lo, hi);
  }

  /** A constant series is forecast as that constant, in sample and beyond. */
  lemma ConstantSeries(nums: seq<real>, window: nat, h: nat, c: real)
    requires 1 <= window <= |nums|
    requires forall i :: 0 <= i < |nums| ==> nums[i] == c
    ensures forall i :: window <= i < |nums| ==> InSample(nums, window, i) == Some(c)
    ensures forall k :: 0 <= k < h ==> Projection(nums, window, h)[k] == c
  {
    assert Seqs.Min(nums) == c && Seqs.Max(nums) == c;
    forall i | window <= i < |nums|
      ensures InSample(nums, window, i) == Some(c)
    {
      InSampleWithinRange(nums, window, i);
    }
    ProjectionWithinRange(nums, window, h);
  }

  /** The series 10, 20, 30, 40, 50 with window 3: period 4 is forecast as
      20, period 5 as 30, and the first projected period as 40. */
  lemma Example()
    ensures InSample([10.0, 20.0, 30.0, 40.0, 50.0], 3, 3) == Some(20.0)
    ensures InSample([10.0, 20.0, 30.0, 40.0, 50.0], 3, 4) == Some(30.0)
    ensures Projection([10.0, 20.0, 30.0, 40.0, 50.0], 3, 1) == [40.0]
  {
    var nums := [10.0, 20.0, 30.0, 40.0, 50.0];
    assert nums[0..3] == [10.0, 20.0, 30.0];
    assert nums[1..4] == [20.0, 30.0, 40.0];
    assert nums[2..5] == [30.0, 40.0, 50.0];
    assert Seqs.Sum([30.0, 40.0, 50.0]) == 120.0;
    assert Seqs.Sum([20.0, 30.0, 40.0]) == 90.0;
    assert Seqs.Sum([10.0, 20.0, 30.0]) == 60.0;
    assert Projection(nums, 3, 0) == [];
    assert (nums + [])[|nums| - 3..] == [30.0, 40.0, 50.0];
  }
}
