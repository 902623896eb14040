/** `QuantAnalytics` and `is_plot_safe`: statistics over timestamped price series, as pandas,
    NumPy and SciPy compute them. Series are sequences of points (timestamp in
    milliseconds, float value); NaN and infinities are explicit. The mean, the OLS fit and the
    spread are computed exactly over the reals. The statistics that need square roots, and the
    ADF test, come from a `Numerics` value whose functions are not interpreted. */
module Analytics {
  import opened Wrappers
  import opened Values
  import opened RealAlgebra

  datatype Point = Point(ts: int, v: Value)

  /** One row of two series joined on their timestamps. */
  datatype Pair = Pair(ts: int, v1: Value, v2: Value)

  /** An exception raised by a library call, with its message. */
  datatype Raised = ValueError(message: string)

  /** The outcome of `statsmodels.adfuller`: it raises, or it returns the statistic, the
      p-value, the lag used, the observation count and the 1%, 5% and 10% critical values. */
  datatype AdfOutcome =
    | AdfFailed(message: string)
    | AdfFit(statistic: Value, pValue: Value, usedLag: int, nObs: int, crit1: Value, crit5: Value, crit10: Value)

  /** The library numerics the model does not interpret: the sample standard deviation of a
      series, the standard deviation of its `pct_change()`, the standard deviation and the
      Pearson correlation of one rolling window, the ADF test and the float `np.sqrt(252)`. */
  datatype Numerics = Numerics(
    std: seq<Value> -> Value,
    pctChangeStd: seq<Value> -> Value,
    windowStd: seq<Value> -> Value,
    windowCorr: (seq<Value>, seq<Value>) -> Value,
    adf: seq<Value> -> AdfOutcome,
    sqrt252: real)

  function ValuesOf(s: seq<Point>): (vs: seq<Value>)
    ensures |vs| == |s| && forall i :: 0 <= i < |s| ==> vs[i] == s[i].v
  {
    seq(|s|, i requires 0 <= i < |s| => s[i].v)
  }

  // ---------------------------------------------------------------------------
  // is_plot_safe

  /** `Series.nunique()`: the number of distinct values, NaN not counted. */
  function NUnique(xs: seq<Value>): nat
  {
    |set v | v in xs && !v.NaN?|
  }

  /** `is_plot_safe(series, min_points)`. */
  predicate IsPlotSafe(xs: seq<Value>, minPoints: int)
    ensures IsPlotSafe(xs, minPoints) ==> |xs| >= minPoints && AllFinite(xs) && NUnique(xs) >= 2
  {
    if |xs| < minPoints then false
    else if exists i :: 0 <= i < |xs| && IsNanOrInf(xs[i]) then false
    else if NUnique(xs) <= 1 then false
    else true
  }

  /** A series is plot-safe exactly when it has at least `minPoints` values, all of them
      finite, and two of them differ. */
  lemma IsPlotSafeIff(xs: seq<Value>, minPoints: int)
    ensures IsPlotSafe(xs, minPoints) <==>
      && |xs| >= minPoints
      && AllFinite(xs)
      && exists i, j :: 0 <= i < |xs| && 0 <= j < |xs| && xs[i] != xs[j]
  {
    var distinct := set v | v in xs && !v.NaN?;
    if exists i, j :: 0 <= i < |xs| && 0 <= j < |xs| && xs[i] != xs[j] {
      var i, j :| 0 <= i < |xs| && 0 <= j < |xs| && xs[i] != xs[j];
      if AllFinite(xs) {
        assert {xs[i], xs[j]} <= distinct;
        assert |{xs[i], xs[j]}| == 2;
        SubsetCard({xs[i], xs[j]}, distinct);
      }
    } else if |xs| > 0 {
      assert distinct <= {xs[0]} by {
        forall v | v in distinct ensures v == xs[0] {
          var k :| 0 <= k < |xs| && xs[k] == v;
        }
      }
      SubsetCard(distinct, {xs[0]});
    }
  }

  lemma SubsetCard<T>(a: set<T>, b: set<T>)
    requires a <= b
    ensures |a| <= |b|
  {
    if a != {} {
      var x :| x in a;
      SubsetCard(a - {x}, b - {x});
    }
  }

  // ---------------------------------------------------------------------------
  // NaN-skipping reductions

  /** The values that are not NaN, in order. */
  function NonNaN(xs: seq<Value>): (r: seq<Value>)
    ensures |r| <= |xs|
    ensures forall i :: 0 <= i < |r| ==> !r[i].NaN?
  {
    if xs == [] then []
    else if xs[0].NaN? then NonNaN(xs[1..])
    else [xs[0]] + NonNaN(xs[1..])
  }

  lemma {:induction false} NonNaNOfFinite(xs: seq<Value>)
    requires AllFinite(xs)
    ensures NonNaN(xs) == xs
  {
    if xs != [] {
      assert AllFinite(xs[1..]) by { assert forall i :: 0 <= i < |xs[1..]| ==> xs[1..][i] == xs[i + 1]; }
      NonNaNOfFinite(xs[1..]);
      assert xs == [xs[0]] + xs[1..];
    }
  }

  /** The IEEE sum of the values in order. */
  function SumValues(xs: seq<Value>): (r: Value)
    ensures AllFinite(xs) ==> r.Finite?
  {
    if xs == [] then Finite(0.0)
    else
      assert AllFinite(xs) ==> AllFinite(xs[1..]) by {
        assert forall i :: 0 <= i < |xs[1..]| ==> xs[1..][i] == xs[i + 1];
      }
      Add(xs[0], SumValues(xs[1..]))
  }

  /** The mean of a window, NaN as soon as one value is NaN (a rolling mean with
      `min_periods` equal to the window). */
  function WindowMean(xs: seq<Value>): Value
  {
    Div(SumValues(xs), Finite(|xs| as real))
  }

  /** `Series.mean()`, which skips NaN; an all-NaN series has mean NaN. */
  function Mean(xs: seq<Value>): Value
  {
    WindowMean(NonNaN(xs))
  }

  /** The least value of a non-empty NaN-free sequence. */
  function Least(xs: seq<Value>): (r: Value)
    requires xs != [] && forall i :: 0 <= i < |xs| ==> !xs[i].NaN?
    ensures !r.NaN? && r in xs && forall i :: 0 <= i < |xs| ==> Le(r, xs[i])
  {
    if |xs| == 1 then xs[0]
    else
      assert forall i :: 1 <= i < |xs| ==> xs[i] == xs[1..][i - 1];
      Min2(xs[0], Least(xs[1..]))
  }

  /** The greatest value of a non-empty NaN-free sequence. */
  function Greatest(xs: seq<Value>): (r: Value)
    requires xs != [] && forall i :: 0 <= i < |xs| ==> !xs[i].NaN?
    ensures !r.NaN? && r in xs && forall i :: 0 <= i < |xs| ==> Le(xs[i], r)
  {
    if |xs| == 1 then xs[0]
    else
      assert forall i :: 1 <= i < |xs| ==> xs[i] == xs[1..][i - 1];
      Max2(xs[0], Greatest(xs[1..]))
  }

  /** `Series.min()`, skipping NaN; NaN when every value is NaN. */
  function MinSkipNaN(xs: seq<Value>): Value
  {
    var ys := NonNaN(xs);
    if ys == [] then NaN else Least(ys)
  }

  /** `Series.max()`, skipping NaN; NaN when every value is NaN. */
  function MaxSkipNaN(xs: seq<Value>): Value
  {
    var ys := NonNaN(xs);
    if ys == [] then NaN else Greatest(ys)
  }

  /** A sum of `n` values between `lo` and `hi` lies between `n * lo` and `n * hi`. */
  lemma {:induction false} SumBetween(xs: seq<Value>, lo: real, hi: real)
    requires AllFinite(xs)
    requires forall i :: 0 <= i < |xs| ==> lo <= xs[i].r <= hi
    ensures ScaledBetween(|xs| as real, lo, SumValues(xs).r, hi)
  {
    if xs != [] {
      var rest := xs[1..];
      assert forall i :: 0 <= i < |rest| ==> rest[i] == xs[i + 1];
      SumBetween(rest, lo, hi);
      ScaledBetweenStep(|rest| as real, lo, SumValues(rest).r, hi, xs[0].r);
      assert SumValues(xs).r == xs[0].r + SumValues(rest).r;
      assert |xs| as real == |rest| as real + 1.0;
    }
  }

  /** The mean of finite values lies between their least and greatest value. */
  lemma MeanBetween(xs: seq<Value>)
    requires xs != [] && AllFinite(xs)
    ensures Least(xs).Finite? && Greatest(xs).Finite? && WindowMean(xs).Finite?
    ensures Least(xs).r <= WindowMean(xs).r <= Greatest(xs).r
  {
    var lo, hi := Least(xs), Greatest(xs);
    var n := |xs| as real;
    assert lo.Finite? && hi.Finite?;
    assert forall i :: 0 <= i < |xs| ==> lo.r <= xs[i].r <= hi.r by {
      forall i | 0 <= i < |xs| ensures lo.r <= xs[i].r <= hi.r {
        assert Le(lo, xs[i]) && Le(xs[i], hi);
      }
    }
    SumBetween(xs, lo.r, hi.r);
    var s := SumValues(xs).r;
    assert WindowMean(xs) == Finite(s / n);
    DivBetween(s, n, lo.r, hi.r);
  }

  // ---------------------------------------------------------------------------
  // compute_basic_stats

  datatype Stats = Stats(mean: Value, std: Value, min: Value, max: Value, last: Value, volatility: Value)

  /** `compute_basic_stats`: nothing for fewer than two prices. The volatility is the
      annualised standard deviation of the returns, or 0.0 when that is NaN or infinite. */
  function BasicStats(prices: seq<Value>, num: Numerics): (r: Option<Stats>)
    ensures r.None? <==> |prices| < 2
    ensures r.Some? ==> r.value.last == prices[|prices| - 1] && r.value.volatility.Finite?
    ensures r.Some? && num.pctChangeStd(prices).Finite? ==>
      r.value.volatility.r == num.pctChangeStd(prices).r * num.sqrt252
    ensures r.Some? && !num.pctChangeStd(prices).Finite? ==> r.value.volatility == Finite(0.0)
  {
    if |prices| < 2 then None
    else
      var vol := num.pctChangeStd(prices);
      var volatility := if vol.Finite? then Finite(vol.r * num.sqrt252) else Finite(0.0);
      Some(Stats(Mean(prices), num.std(prices), MinSkipNaN(prices), MaxSkipNaN(prices),
                 prices[|prices| - 1], volatility))
  }

  /** For finite prices the mean lies between the minimum and the maximum, and every price
      between the two. */
  lemma BasicStatsOrdered(prices: seq<Value>, num: Numerics)
    requires |prices| >= 2 && AllFinite(prices)
    ensures var s := BasicStats(prices, num).value;
      && s.min.Finite? && s.mean.Finite? && s.max.Finite?
      && s.min.r <= s.mean.r <= s.max.r
      && forall i :: 0 <= i < |prices| ==> s.min.r <= prices[i].r <= s.max.r
  {
    NonNaNOfFinite(prices);
    MeanBetween(prices);
  }

  // ---------------------------------------------------------------------------
  // Alignment: `pd.DataFrame({'p1': s1, 'p2': s2}).dropna()`

  /** The value at timestamp `ts`, if the series has one. */
  function Lookup(s: seq<Point>, ts: int): (r: Option<Value>)
    ensures r.Some? ==> Point(ts, r.value) in s
    ensures r.None? ==> forall i :: 0 <= i < |s| ==> s[i].ts != ts
  {
    if s == [] then None
    else if s[0].ts == ts then Some(s[0].v)
    else
      var r := Lookup(s[1..], ts);
      assert forall i :: 1 <= i < |s| ==> s[i] == s[1..][i - 1];
      r
  }

  /** The timestamps of `s1` that `s2` also has, with both values, where neither is NaN.
      For series with unique increasing timestamps this is pandas' outer join on the index
      followed by `dropna()`. */
  function Align(s1: seq<Point>, s2: seq<Point>): (r: seq<Pair>)
    ensures |r| <= |s1|
    ensures forall i :: 0 <= i < |r| ==> !r[i].v1.NaN? && !r[i].v2.NaN?
  {
    if s1 == [] then []
    else
      var rest := Align(s1[1..], s2);
      match Lookup(s2, s1[0].ts)
      case Some(v2) =>
        if !s1[0].v.NaN? && !v2.NaN? then [Pair(s1[0].ts, s1[0].v, v2)] + rest else rest
      case None => rest
  }

  predicate UniqueTimes(s: seq<Point>)
  {
    forall i, j :: 0 <= i < j < |s| ==> s[i].ts != s[j].ts
  }

  lemma {:induction false} LookupUnique(s: seq<Point>, ts: int, v: Value)
    requires UniqueTimes(s)
    ensures Lookup(s, ts) == Some(v) <==> Point(ts, v) in s
  {
    if s != [] {
      var rest := s[1..];
      assert UniqueTimes(rest) by {
        assert forall i :: 0 <= i < |rest| ==> rest[i] == s[i + 1];
      }
      LookupUnique(rest, ts, v);
    }
  }

  /** The aligned rows are exactly the timestamps present in both series with neither value
      missing (NaN). */
  lemma {:induction false} AlignExactly(s1: seq<Point>, s2: seq<Point>, p: Pair)
    requires UniqueTimes(s2)
    ensures p in Align(s1, s2) <==>
      Point(p.ts, p.v1) in s1 && Point(p.ts, p.v2) in s2 && !p.v1.NaN? && !p.v2.NaN?
  {
    AlignMembers(s1, s2, p);
    LookupUnique(s2, p.ts, p.v2);
  }

  lemma {:induction false} AlignMembers(s1: seq<Point>, s2: seq<Point>, p: Pair)
    ensures p in Align(s1, s2) <==>
      Point(p.ts, p.v1) in s1 && Lookup(s2, p.ts) == Some(p.v2) && !p.v1.NaN? && !p.v2.NaN?
  {
    if s1 != [] {
      AlignMembers(s1[1..], s2, p);
      assert s1 == [s1[0]] + s1[1..];
    }
  }

  function Firsts(pairs: seq<Pair>): (s: seq<Point>)
    ensures |s| == |pairs| && forall i :: 0 <= i < |s| ==> s[i] == Point(pairs[i].ts, pairs[i].v1)
  {
    seq(|pairs|, i requires 0 <= i < |pairs| => Point(pairs[i].ts, pairs[i].v1))
  }

  function Seconds(pairs: seq<Pair>): (s: seq<Point>)
    ensures |s| == |pairs| && forall i :: 0 <= i < |s| ==> s[i] == Point(pairs[i].ts, pairs[i].v2)
  {
    seq(|pairs|, i requires 0 <= i < |pairs| => Point(pairs[i].ts, pairs[i].v2))
  }

  // ---------------------------------------------------------------------------
  // Filters `replace([inf, -inf], nan).dropna()` and `dropna()`

  /** The points whose value is finite, in order. */
  function KeepFinite(ps: seq<Point>): (r: seq<Point>)
    ensures |r| <= |ps|
    ensures forall i :: 0 <= i < |r| ==> r[i].v.Finite?
  {
    if ps == [] then []
    else
      var rest := KeepFinite(ps[1..]);
      if ps[0].v.Finite? then [ps[0]] + rest else rest
  }

  /** The points whose value is not NaN, in order. */
  function DropNaN(ps: seq<Point>): (r: seq<Point>)
    ensures |r| <= |ps|
    ensures forall i :: 0 <= i < |r| ==> !r[i].v.NaN?
  {
    if ps == [] then []
    else
      var rest := DropNaN(ps[1..]);
      if !ps[0].v.NaN? then [ps[0]] + rest else rest
  }

  lemma {:induction false} KeepFiniteMembers(ps: seq<Point>, p: Point)
    ensures p in KeepFinite(ps) <==> p in ps && p.v.Finite?
  {
    if ps != [] {
      KeepFiniteMembers(ps[1..], p);
      assert ps == [ps[0]] + ps[1..];
    }
  }

  lemma {:induction false} KeepFiniteOfFinite(ps: seq<Point>)
    requires forall i :: 0 <= i < |ps| ==> ps[i].v.Finite?
    ensures KeepFinite(ps) == ps
  {
    if ps != [] {
      assert forall i :: 0 <= i < |ps[1..]| ==> ps[1..][i] == ps[i + 1];
      KeepFiniteOfFinite(ps[1..]);
      assert ps == [ps[0]] + ps[1..];
    }
  }

  lemma {:induction false} DropNaNMembers(ps: seq<Point>, p: Point)
    ensures p in DropNaN(ps) <==> p in ps && !p.v.NaN?
  {
    if ps != [] {
      DropNaNMembers(ps[1..], p);
      assert ps == [ps[0]] + ps[1..];
    }
  }

  /** Timestamps strictly increase along the series. */
  predicate IncreasingTimes(ps: seq<Point>)
  {
    forall i, j :: 0 <= i < j < |ps| ==> ps[i].ts < ps[j].ts
  }

  /** `KeepFinite` keeps the order of its input. */
  lemma {:induction false} KeepFiniteIncreasing(ps: seq<Point>)
    requires IncreasingTimes(ps)
    ensures IncreasingTimes(KeepFinite(ps))
  {
    if ps != [] {
      var rest := KeepFinite(ps[1..]);
      KeepFiniteIncreasing(ps[1..]);
      forall q | q in rest ensures ps[0].ts < q.ts {
        KeepFiniteMembers(ps[1..], q);
      }
    }
  }

  /** `DropNaN` keeps the order of its input. */
  lemma {:induction false} DropNaNIncreasing(ps: seq<Point>)
    requires IncreasingTimes(ps)
    ensures IncreasingTimes(DropNaN(ps))
  {
    if ps != [] {
      var rest := DropNaN(ps[1..]);
      DropNaNIncreasing(ps[1..]);
      forall q | q in rest ensures ps[0].ts < q.ts {
        DropNaNMembers(ps[1..], q);
      }
    }
  }

  // ---------------------------------------------------------------------------
  // OLS over the reals: `scipy.stats.linregress`

  function Sum(xs: seq<real>): real
  {
    if xs == [] then 0.0 else Sum(xs[..|xs| - 1]) + xs[|xs| - 1]
  }

  function SumSq(xs: seq<real>): real
  {
    if xs == [] then 0.0 else SumSq(xs[..|xs| - 1]) + Square(xs[|xs| - 1])
  }

  function SumProd(xs: seq<real>, ys: seq<real>): real
    requires |xs| == |ys|
  {
    if xs == [] then 0.0
    else SumProd(xs[..|xs| - 1], ys[..|ys| - 1]) + Product(xs[|xs| - 1], ys[|ys| - 1])
  }

  /** `n² · cov(x, y)` with the biased covariance, from raw sums. */
  function Sxy(xs: seq<real>, ys: seq<real>): real
    requires |xs| == |ys|
  {
    (|xs| as real) * SumProd(xs, ys) - Sum(xs) * Sum(ys)
  }

  /** `n² · var(x)`. */
  function Sxx(xs: seq<real>): real
  {
    Spread2(|xs| as real, Sum(xs), SumSq(xs))
  }

  /** The sum of the squared deviations of the values from `a`. */
  function SqDev(xs: seq<real>, a: real): real
  {
    if xs == [] then 0.0
    else SqDev(xs[..|xs| - 1], a) + Square(xs[|xs| - 1] - a)
  }

  // One-step unfoldings of the sums, each proved on its own.

  lemma SumsLast(xs: seq<real>)
    requires xs != []
    ensures var init, x := xs[..|xs| - 1], xs[|xs| - 1];
      && Sum(xs) == Sum(init) + x && SumSq(xs) == SumSq(init) + Square(x)
      && |xs| as real == |init| as real + 1.0
  {
  }

  lemma SqDevLast(xs: seq<real>, a: real)
    requires xs != []
    ensures var init, x := xs[..|xs| - 1], xs[|xs| - 1];
      SqDev(xs, a) == SqDev(init, a) + Square(x - a)
  {
  }

  lemma SumProdLast(xs: seq<real>, ys: seq<real>)
    requires |xs| == |ys| && xs != []
    ensures SumProd(xs, ys) == SumProd(xs[..|xs| - 1], ys[..|ys| - 1]) + Product(xs[|xs| - 1], ys[|ys| - 1])
  {
  }

  lemma SnocParts(xs: seq<real>, x: real)
    ensures var ys := xs + [x]; ys != [] && ys[..|ys| - 1] == xs && ys[|ys| - 1] == x
  {
    var ys := xs + [x];
    assert ys[..|ys| - 1] == xs;
  }

  /** The squared deviations from `a`, expanded into the raw sums. */
  lemma {:induction false} SqDevExpand(xs: seq<real>, a: real)
    ensures DeviationExpansion(SqDev(xs, a), SumSq(xs), Sum(xs), |xs| as real, a)
  {
    if xs != [] {
      var init, x := xs[..|xs| - 1], xs[|xs| - 1];
      SqDevExpand(init, a);
      DeviationStep(|init| as real, Sum(init), SumSq(init), SqDev(init, a), x, a);
      assert SqDev(xs, a) == SqDev(init, a) + Square(x - a);
      assert Sum(xs) == Sum(init) + x;
      assert SumSq(xs) == SumSq(init) + Square(x);
      assert |xs| as real == |init| as real + 1.0;
    }
  }

  lemma {:induction false} SqDevNonnegative(xs: seq<real>, a: real)
    ensures SqDev(xs, a) >= 0.0
  {
    if xs != [] {
      var init, x := xs[..|xs| - 1], xs[|xs| - 1];
      SqDevNonnegative(init, a);
      SqDevLast(xs, a);
      SquareNonnegative(x - a);
    }
  }

  /** The squared deviations from `a` are zero exactly when every value is `a`. */
  lemma {:induction false} SqDevZero(xs: seq<real>, a: real)
    ensures SqDev(xs, a) == 0.0 <==> forall i :: 0 <= i < |xs| ==> xs[i] == a
  {
    if xs != [] {
      var init, x := xs[..|xs| - 1], xs[|xs| - 1];
      SqDevZero(init, a);
      SqDevNonnegative(init, a);
      assert forall i :: 0 <= i < |init| ==> init[i] == xs[i];
      SqDevLast(xs, a);
      SquareNonnegative(x - a);
      SquareZero(x - a);
      assert (forall i :: 0 <= i < |xs| ==> xs[i] == a) <==>
        (forall i :: 0 <= i < |init| ==> init[i] == a) && x == a;
    }
  }

  /** Lagrange's identity, one step: appending `a` adds the squared deviations from `a`. */
  lemma SxxStep(xs: seq<real>, a: real)
    ensures Sxx(xs + [a]) == Sxx(xs) + SqDev(xs, a)
  {
    SnocParts(xs, a);
    SumsLast(xs + [a]);
    SqDevExpand(xs, a);
    LagrangeStep(|xs| as real, Sum(xs), SumSq(xs), SqDev(xs, a), a);
  }

  /** `n² · var(x)` is never negative, and it is zero exactly when the values are all equal. */
  lemma {:induction false} SxxZero(xs: seq<real>)
    ensures Sxx(xs) >= 0.0
    ensures Sxx(xs) == 0.0 <==> forall i, j :: 0 <= i < |xs| && 0 <= j < |xs| ==> xs[i] == xs[j]
  {
    if xs == [] {
    } else {
      var init, a := xs[..|xs| - 1], xs[|xs| - 1];
      SxxZero(init);
      assert init + [a] == xs;
      SxxStep(init, a);
      SqDevZero(init, a);
      SqDevNonnegative(init, a);
      assert forall i :: 0 <= i < |init| ==> init[i] == xs[i];
      if Sxx(xs) == 0.0 {
        forall i, j | 0 <= i < |xs| && 0 <= j < |xs| ensures xs[i] == xs[j] {
          assert xs[i] == a && xs[j] == a;
        }
      }
      if forall i, j :: 0 <= i < |xs| && 0 <= j < |xs| ==> xs[i] == xs[j] {
        forall i | 0 <= i < |init| ensures init[i] == a { assert xs[i] == xs[|xs| - 1]; }
      }
    }
  }

  /** The slope and `r_value ** 2` of a fit. */
  datatype Fit = Fit(slope: Value, rSquared: Value)

  /** Every value equals the first. */
  predicate AllSame(xs: seq<Value>)
  {
    forall i :: 0 <= i < |xs| ==> xs[i] == xs[0]
  }

  /** `linregress(x, y)` reduced to the slope and `r_value ** 2`. It raises for empty input and
      for identical x values; identical NaN values do not count, since `amax(x) == amin(x)`
      is false for NaN. With any NaN or infinity in the data NumPy's covariances are NaN, and
      then so are the slope and r, except that r is 0 when the y values are finite and
      constant. */
  function LinRegress(xs: seq<Value>, ys: seq<Value>): (r: Result<Fit, Raised>)
    requires |xs| == |ys|
    ensures r.Err? <==> |xs| == 0 || (|xs| > 1 && AllSame(xs) && !xs[0].NaN?)
    ensures r.Ok? && !(AllFinite(xs) && AllFinite(ys)) ==> r.value.slope.NaN?
  {
    if |xs| == 0 then Err(ValueError("Inputs must not be empty."))
    else if |xs| > 1 && AllSame(xs) && !xs[0].NaN? then
      Err(ValueError("Cannot calculate a linear regression if all x values are identical"))
    else if AllFinite(xs) && AllFinite(ys) then
      var x, y := Reals(xs), Reals(ys);
      var sxx, sxy, syy := Sxx(x), Sxy(x, y), Sxx(y);
      Ok(Fit(Div(Finite(sxy), Finite(sxx)), Finite(RSquared(sxy, sxx, syy))))
    else
      var flatY := AllFinite(ys) && Sxx(Reals(ys)) == 0.0;
      Ok(Fit(NaN, if flatY then Finite(0.0) else NaN))
  }

  /** Finite x values that are not all equal give a positive `var(x)`, so the slope is the
      exact OLS slope. */
  lemma LinRegressSlope(xs: seq<Value>, ys: seq<Value>)
    requires |xs| == |ys| >= 2 && AllFinite(xs) && AllFinite(ys) && !AllSame(xs)
    ensures Sxx(Reals(xs)) > 0.0
    ensures LinRegress(xs, ys) == Ok(Fit(Finite(Sxy(Reals(xs), Reals(ys)) / Sxx(Reals(xs))),
                                         LinRegress(xs, ys).value.rSquared))
  {
    var x := Reals(xs);
    SxxZero(x);
    var k :| 0 <= k < |xs| && xs[k] != xs[0];
    assert x[k] != x[0];
  }

  function Affine(xs: seq<real>, a: real, b: real): (ys: seq<real>)
    ensures |ys| == |xs| && forall i :: 0 <= i < |xs| ==> ys[i] == a * xs[i] + b
  {
    seq(|xs|, i requires 0 <= i < |xs| => a * xs[i] + b)
  }

  /** The line of all but the last value. */
  lemma AffineInit(xs: seq<real>, a: real, b: real)
    requires xs != []
    ensures var ys := Affine(xs, a, b); ys[..|ys| - 1] == Affine(xs[..|xs| - 1], a, b)
  {
    var ys, yinit := Affine(xs, a, b), Affine(xs[..|xs| - 1], a, b);
    assert forall k :: 0 <= k < |yinit| ==> ys[..|ys| - 1][k] == yinit[k];
  }

  /** The raw sums of y = a·x + b in terms of those of x. */
  lemma {:induction false} AffineSums(xs: seq<real>, a: real, b: real)
    ensures var ys := Affine(xs, a, b);
      AffineSumsHold(|xs| as real, Sum(xs), SumSq(xs), Sum(ys), SumProd(xs, ys), SumSq(ys), a, b)
  {
    if xs != [] {
      var init, x := xs[..|xs| - 1], xs[|xs| - 1];
      var ys, yinit := Affine(xs, a, b), Affine(init, a, b);
      var y := ys[|ys| - 1];
      AffineInit(xs, a, b);
      SumsLast(xs);
      SumsLast(ys);
      SumProdLast(xs, ys);
      AffineSums(init, a, b);
      assert y == a * x + b;
      AffineSumsStep(|init| as real, Sum(init), SumSq(init), Sum(yinit), SumProd(init, yinit), SumSq(yinit), a, b, x, y,
                     |xs| as real, Sum(xs), SumSq(xs), Sum(ys), SumProd(xs, ys), SumSq(ys));
    }
  }

  /** For y = a·x + b the covariance terms scale: `Sxy = a·Sxx` and `Syy = a²·Sxx`. */
  lemma LineMoments(xs: seq<real>, a: real, b: real)
    ensures var ys := Affine(xs, a, b); OnLine(a, Sxx(xs), Sxy(xs, ys), Sxx(ys))
  {
    var ys := Affine(xs, a, b);
    AffineSums(xs, a, b);
    AffineMoments(|xs| as real, Sum(xs), SumSq(xs), Sum(ys), SumProd(xs, ys), SumSq(ys), a, b,
                  Sxx(xs), Sxy(xs, ys), Sxx(ys));
  }

  /** Regressing y = a·x + b on x values that are not all equal returns slope `a`, with
      r² = 1 when `a != 0` and r² = 0 when y is constant. */
  lemma LinRegressAffine(xs: seq<real>, a: real, b: real)
    requires exists i, j :: 0 <= i < |xs| && 0 <= j < |xs| && xs[i] != xs[j]
    ensures LinRegress(Finites(xs), Finites(Affine(xs, a, b)))
      == Ok(Fit(Finite(a), Finite(if a == 0.0 then 0.0 else 1.0)))
  {
    var ys := Affine(xs, a, b);
    var vx, vy := Finites(xs), Finites(ys);
    var i, j :| 0 <= i < |xs| && 0 <= j < |xs| && xs[i] != xs[j];
    assert !AllSame(vx) by {
      assert vx[i] != vx[0] || vx[j] != vx[0];
    }
    SxxZero(xs);
    var sxx := Sxx(xs);
    assert sxx != 0.0;
    LineMoments(xs, a, b);
    LineFit(a, sxx, Sxy(xs, ys), Sxx(ys));
    assert Reals(vx) == xs && Reals(vy) == ys;
    assert Div(Finite(Sxy(xs, ys)), Finite(sxx)) == Finite(a);
  }

  // ---------------------------------------------------------------------------
  // compute_ols_hedge_ratio

  /** `compute_ols_hedge_ratio(prices1, prices2)`: (0, 0) when either series or their
      alignment has fewer than 10 points, otherwise the fit of prices1 on prices2. */
  function HedgeRatio(p1: seq<Point>, p2: seq<Point>): (r: Result<Fit, Raised>)
    ensures |Align(p1, p2)| < 10 || |p2| < 10 ==> r == Ok(Fit(Finite(0.0), Finite(0.0)))
    ensures |p1| >= 10 && |p2| >= 10 && |Align(p1, p2)| >= 10 ==>
      r == LinRegress(ValuesOf(Seconds(Align(p1, p2))), ValuesOf(Firsts(Align(p1, p2))))
  {
    if |p1| < 10 || |p2| < 10 then Ok(Fit(Finite(0.0), Finite(0.0)))
    else
      var aligned := Align(p1, p2);
      if |aligned| < 10 then Ok(Fit(Finite(0.0), Finite(0.0)))
      else LinRegress(ValuesOf(Seconds(aligned)), ValuesOf(Firsts(aligned)))
  }

  // ---------------------------------------------------------------------------
  // compute_spread

  /** `p1 - h * p2` on every aligned row. */
  function SpreadRows(pairs: seq<Pair>, h: Value): (rows: seq<Point>)
    ensures |rows| == |pairs|
    ensures forall i :: 0 <= i < |pairs| ==> rows[i] == Point(pairs[i].ts, Sub(pairs[i].v1, Mul(h, pairs[i].v2)))
  {
    seq(|pairs|, i requires 0 <= i < |pairs| => Point(pairs[i].ts, Sub(pairs[i].v1, Mul(h, pairs[i].v2))))
  }

  /** The spread rows with the non-finite values removed. */
  function SpreadOf(pairs: seq<Pair>, h: Value): seq<Point>
  {
    KeepFinite(SpreadRows(pairs, h))
  }

  /** `compute_spread(prices1, prices2, hedge_ratio)`: at most one finite point per row of the
      first series. */
  function Spread(p1: seq<Point>, p2: seq<Point>, h: Value): (r: seq<Point>)
    ensures |r| <= |p1|
    ensures forall i :: 0 <= i < |r| ==> r[i].v.Finite?
  {
    SpreadOf(Align(p1, p2), h)
  }

  /** A spread point is an aligned timestamp whose value `p1 - h * p2` is finite. */
  lemma SpreadMembers(pairs: seq<Pair>, h: Value, p: Point)
    ensures p in SpreadOf(pairs, h) <==>
      p.v.Finite? && exists i :: 0 <= i < |pairs| && p == Point(pairs[i].ts, Sub(pairs[i].v1, Mul(h, pairs[i].v2)))
  {
    KeepFiniteMembers(SpreadRows(pairs, h), p);
  }

  /** With a finite hedge ratio and finite prices nothing is removed: one point per aligned
      row, equal to `p1 - h * p2`. */
  lemma SpreadOfFinite(pairs: seq<Pair>, h: Value)
    requires h.Finite? && forall i :: 0 <= i < |pairs| ==> pairs[i].v1.Finite? && pairs[i].v2.Finite?
    ensures var s := SpreadOf(pairs, h);
      |s| == |pairs| && forall i :: 0 <= i < |pairs| ==>
        s[i] == Point(pairs[i].ts, Finite(pairs[i].v1.r - h.r * pairs[i].v2.r))
  {
    var rows := SpreadRows(pairs, h);
    forall i | 0 <= i < |pairs| ensures rows[i] == Point(pairs[i].ts, Finite(pairs[i].v1.r - h.r * pairs[i].v2.r)) {
      FiniteSpreadValue(pairs[i].v1, pairs[i].v2, h);
    }
    KeepFiniteOfFinite(rows);
  }

  lemma FiniteSpreadValue(v1: Value, v2: Value, h: Value)
    requires v1.Finite? && v2.Finite? && h.Finite?
    ensures Sub(v1, Mul(h, v2)) == Finite(v1.r - h.r * v2.r)
  {
    assert Mul(h, v2) == Finite(h.r * v2.r);
  }

  // ---------------------------------------------------------------------------
  // compute_rolling_zscore

  /** The `window` values ending at position `i`. */
  function Window(xs: seq<Value>, window: int, i: int): (w: seq<Value>)
    requires 1 <= window && window - 1 <= i < |xs|
    ensures |w| == window
  {
    xs[i - window + 1..i + 1]
  }

  /** The exception pandas raises for a negative rolling window. */
  const WindowError := ValueError("window must be an integer 0 or greater")

  /** The z-score at position `i`: NaN before a full window exists, NaN for a window of 0 (an
      empty window has no mean), and NaN where the window's standard deviation is 0 (replaced
      by NaN before dividing). */
  function ZAt(s: seq<Point>, window: nat, i: int, num: Numerics): (z: Value)
    requires 0 <= i < |s|
    ensures window == 0 || i < window - 1 ==> z.NaN?
    ensures window >= 1 && i >= window - 1 && num.windowStd(Window(ValuesOf(s), window, i)) == Finite(0.0) ==> z.NaN?
  {
    if window == 0 || i < window - 1 then NaN
    else
      var w := Window(ValuesOf(s), window, i);
      var sd := num.windowStd(w);
      var sd' := if sd == Finite(0.0) then NaN else sd;
      Div(Sub(s[i].v, WindowMean(w)), sd')
  }

  function ZScores(s: seq<Point>, window: nat, num: Numerics): (r: seq<Point>)
    ensures |r| == |s| && forall i :: 0 <= i < |s| ==> r[i].ts == s[i].ts
  {
    seq(|s|, i requires 0 <= i < |s| => Point(s[i].ts, ZAt(s, window, i, num)))
  }

  /** `compute_rolling_zscore(series, window)`: nothing for a series shorter than the window,
      the `ValueError` of `rolling` for a negative window, and otherwise the finite z-scores. */
  function RollingZScore(s: seq<Point>, window: int, num: Numerics): (r: Result<seq<Point>, Raised>)
    ensures r.Err? <==> window < 0
    ensures r.Err? ==> r.error == WindowError
    ensures |s| < window ==> r == Ok([])
  {
    if |s| < window then Ok([])
    else if window < 0 then Err(WindowError)
    else Ok(KeepFinite(ZScores(s, window, num)))
  }

  /** Every z-score point belongs to a position with a full window and a nonzero standard
      deviation, carries that position's timestamp and is finite. */
  lemma RollingZScoreMembers(s: seq<Point>, window: int, num: Numerics, p: Point)
    requires RollingZScore(s, window, num).Ok? && p in RollingZScore(s, window, num).value
    ensures window >= 1 && p.v.Finite?
    ensures exists i :: (window - 1 <= i < |s| && p.ts == s[i].ts && p.v == ZAt(s, window, i, num)
      && num.windowStd(Window(ValuesOf(s), window, i)) != Finite(0.0))
  {
    KeepFiniteMembers(ZScores(s, window, num), p);
    var i :| 0 <= i < |s| && ZScores(s, window, num)[i] == p;
  }

  /** Conversely, every position with a finite z-score is in the result. */
  lemma RollingZScoreComplete(s: seq<Point>, window: int, num: Numerics, i: int)
    requires window >= 0 && 0 <= i < |s| && ZAt(s, window, i, num).Finite?
    ensures RollingZScore(s, window, num).Ok?
    ensures Point(s[i].ts, ZAt(s, window, i, num)) in RollingZScore(s, window, num).value
  {
    var zs := ZScores(s, window, num);
    assert zs[i] == Point(s[i].ts, ZAt(s, window, i, num));
    KeepFiniteMembers(zs, zs[i]);
  }

  /** The z-scores keep the order of the series: increasing timestamps stay increasing. */
  lemma RollingZScoreOrdered(s: seq<Point>, window: int, num: Numerics)
    requires IncreasingTimes(s) && RollingZScore(s, window, num).Ok?
    ensures IncreasingTimes(RollingZScore(s, window, num).value)
  {
    if |s| >= window {
      KeepFiniteIncreasing(ZScores(s, window, num));
    }
  }

  /** A window of 0 gives only NaN, so both rolling results are empty. */
  lemma RollingZeroWindow(s: seq<Point>, pairs: seq<Pair>, num: Numerics)
    ensures RollingZScore(s, 0, num) == Ok([])
    ensures RollingCorrOf(pairs, 0, num) == Ok([])
  {
    var z := RollingZScore(s, 0, num).value;
    if z != [] {
      RollingZScoreMembers(s, 0, num, z[0]);
      assert false;
    }
    var c := RollingCorrOf(pairs, 0, num).value;
    if c != [] {
      RollingCorrMembers(pairs, 0, num, c[0]);
      assert false;
    }
  }

  /** On a finite window with a finite nonzero standard deviation the z-score is
      `(v - mean) / std` exactly. */
  lemma ZAtExact(s: seq<Point>, window: nat, i: int, num: Numerics)
    requires 1 <= window && window - 1 <= i < |s|
    requires AllFinite(Window(ValuesOf(s), window, i))
    requires var sd := num.windowStd(Window(ValuesOf(s), window, i)); sd.Finite? && sd.r != 0.0
    ensures var w := Window(ValuesOf(s), window, i);
      ZAt(s, window, i, num) == Finite((s[i].v.r - WindowMean(w).r) / num.windowStd(w).r)
  {
    var w := Window(ValuesOf(s), window, i);
    assert w[window - 1] == s[i].v;
    assert WindowMean(w).Finite?;
  }

  // ---------------------------------------------------------------------------
  // compute_rolling_correlation

  /** The correlation of the windows ending at row `i`: NaN before a full window exists and
      for a window of 0. */
  function CorrAt(pairs: seq<Pair>, window: nat, i: int, num: Numerics): (c: Value)
    requires 0 <= i < |pairs|
    ensures window == 0 || i < window - 1 ==> c.NaN?
  {
    if window == 0 || i < window - 1 then NaN
    else
      num.windowCorr(Window(ValuesOf(Firsts(pairs)), window, i), Window(ValuesOf(Seconds(pairs)), window, i))
  }

  function Correlations(pairs: seq<Pair>, window: nat, num: Numerics): (r: seq<Point>)
    ensures |r| == |pairs| && forall i :: 0 <= i < |pairs| ==> r[i].ts == pairs[i].ts
  {
    seq(|pairs|, i requires 0 <= i < |pairs| => Point(pairs[i].ts, CorrAt(pairs, window, i, num)))
  }

  /** The rolling correlation of aligned rows with NaN dropped: nothing below `window` rows,
      the `ValueError` of `rolling` for a negative window. */
  function RollingCorrOf(pairs: seq<Pair>, window: int, num: Numerics): (r: Result<seq<Point>, Raised>)
    ensures r.Err? <==> window < 0
    ensures r.Err? ==> r.error == WindowError
    ensures |pairs| < window ==> r == Ok([])
  {
    if |pairs| < window then Ok([])
    else if window < 0 then Err(WindowError)
    else Ok(DropNaN(Correlations(pairs, window, num)))
  }

  /** `compute_rolling_correlation(prices1, prices2, window)`: the rolling correlation of the
      aligned rows. */
  function RollingCorrelation(p1: seq<Point>, p2: seq<Point>, window: int, num: Numerics): (r: Result<seq<Point>, Raised>)
    ensures r.Err? <==> window < 0
    ensures |Align(p1, p2)| < window ==> r == Ok([])
    ensures r.Ok? ==> forall i :: 0 <= i < |r.value| ==> !r.value[i].v.NaN?
  {
    RollingCorrOf(Align(p1, p2), window, num)
  }

  /** Every correlation point belongs to an aligned row with a full window and is not NaN. */
  lemma RollingCorrMembers(pairs: seq<Pair>, window: int, num: Numerics, p: Point)
    requires RollingCorrOf(pairs, window, num).Ok? && p in RollingCorrOf(pairs, window, num).value
    ensures window >= 1 && !p.v.NaN?
    ensures exists i :: (window - 1 <= i < |pairs| && p.ts == pairs[i].ts && p.v == CorrAt(pairs, window, i, num))
  {
    DropNaNMembers(Correlations(pairs, window, num), p);
    var i :| 0 <= i < |pairs| && Correlations(pairs, window, num)[i] == p;
  }

  /** Conversely, every row whose correlation is not NaN is in the result. */
  lemma RollingCorrComplete(pairs: seq<Pair>, window: int, num: Numerics, i: int)
    requires window >= 0 && 0 <= i < |pairs| && !CorrAt(pairs, window, i, num).NaN?
    ensures RollingCorrOf(pairs, window, num).Ok?
    ensures Point(pairs[i].ts, CorrAt(pairs, window, i, num)) in RollingCorrOf(pairs, window, num).value
  {
    var cs := Correlations(pairs, window, num);
    assert cs[i] == Point(pairs[i].ts, CorrAt(pairs, window, i, num));
    DropNaNMembers(cs, cs[i]);
  }

  /** The correlations keep the order of the rows: increasing timestamps stay increasing. */
  lemma RollingCorrOrdered(pairs: seq<Pair>, window: int, num: Numerics)
    requires (forall i, j :: 0 <= i < j < |pairs| ==> pairs[i].ts < pairs[j].ts)
    requires RollingCorrOf(pairs, window, num).Ok?
    ensures IncreasingTimes(RollingCorrOf(pairs, window, num).value)
  {
    if |pairs| >= window {
      DropNaNIncreasing(Correlations(pairs, window, num));
    }
  }

  // ---------------------------------------------------------------------------
  // augmented_dickey_fuller_test

  datatype AdfResult =
    | AdfError(message: string)
    | AdfReport(statistic: Value, pValue: Value, usedLag: int, nObs: int,
                crit1: Value, crit5: Value, crit10: Value, isStationary: bool)

  /** `augmented_dickey_fuller_test(series)`: an error for fewer than 12 values (counted
      before NaN is dropped) or when the test raises; otherwise the test's figures, stationary
      exactly when the p-value is below 0.05. */
  function AdfTest(series: seq<Value>, num: Numerics): (r: AdfResult)
    ensures |series| < 12 ==> r == AdfError("Insufficient data for ADF test")
    ensures r.AdfReport? ==> |series| >= 12 && (r.isStationary <==> LessThan(r.pValue, 0.05))
    ensures r.AdfReport? && r.pValue.NaN? ==> !r.isStationary
  {
    if |series| < 12 then AdfError("Insufficient data for ADF test")
    else
      match num.adf(NonNaN(series))
      case AdfFailed(message) => AdfError(message)
      case AdfFit(stat, p, lag, nobs, c1, c5, c10) => AdfReport(stat, p, lag, nobs, c1, c5, c10, LessThan(p, 0.05))
  }
}
