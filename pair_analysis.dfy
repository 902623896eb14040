/** `PairAnalysis.analyze_pair`: the alignment and size gates, the hedge ratio, spread,
    z-score, correlation, statistics and ADF test of an aligned pair, and the safety layer
    that turns them into the JSON report: `sanitize_value`, the recursive `sanitize_dict`
    and the plot-safe series conversion `series_to_list_safe`. */
module PairAnalysis {
  import opened Wrappers
  import opened Values
  import opened Analytics

  /** The Python values a report is built from. `JTime` is a timestamp in milliseconds as
      `isoformat()` renders it; `JDict` keeps its entries in insertion order. */
  datatype Json =
    | JNone
    | JBool(b: bool)
    | JInt(i: int)
    | JFloat(f: Value)
    | JStr(s: string)
    | JTime(ms: int)
    | JList(items: seq<Json>)
    | JDict(entries: seq<(string, Json)>)

  // ---------------------------------------------------------------------------
  // Dictionaries

  /** `d.get(key)`. */
  function Get(entries: seq<(string, Json)>, key: string): (r: Option<Json>)
    ensures r.None? <==> forall i :: 0 <= i < |entries| ==> entries[i].0 != key
    ensures r.Some? ==> exists i :: 0 <= i < |entries| && entries[i] == (key, r.value)
  {
    if entries == [] then None
    else if entries[0].0 == key then Some(entries[0].1)
    else
      var r := Get(entries[1..], key);
      assert forall i :: 1 <= i < |entries| ==> entries[i] == entries[1..][i - 1];
      r
  }

  /** The first entry with the key is the one `get` finds. */
  lemma {:induction false} GetAt(entries: seq<(string, Json)>, i: nat, key: string)
    requires i < |entries| && entries[i].0 == key
    requires forall j :: 0 <= j < i ==> entries[j].0 != key
    ensures Get(entries, key) == Some(entries[i].1)
  {
    if i > 0 {
      var rest := entries[1..];
      assert rest[i - 1] == entries[i];
      assert forall j :: 0 <= j < i - 1 ==> rest[j] == entries[j + 1];
      GetAt(rest, i - 1, key);
    }
  }

  /** The value under `key` of a dictionary, `None` for anything else. */
  function Field(j: Json, key: string): Option<Json>
  {
    if j.JDict? then Get(j.entries, key) else None
  }

  predicate DistinctKeys(entries: seq<(string, Json)>)
  {
    forall i, j :: 0 <= i < j < |entries| ==> entries[i].0 != entries[j].0
  }

  /** `d[key] = value` in a dictionary literal: a key seen before keeps its position and
      takes the new value, a new key goes to the end. */
  function Put(entries: seq<(string, Json)>, key: string, value: Json): (r: seq<(string, Json)>)
    ensures |r| == if Get(entries, key).Some? then |entries| else |entries| + 1
  {
    if entries == [] then [(key, value)]
    else if entries[0].0 == key then [(key, value)] + entries[1..]
    else [entries[0]] + Put(entries[1..], key, value)
  }

  /** After `d[key] = value` the key holds the value, every other key keeps its own, and the
      keys stay distinct. */
  lemma PutLookup(entries: seq<(string, Json)>, key: string, value: Json, other: string)
    requires DistinctKeys(entries)
    ensures DistinctKeys(Put(entries, key, value))
    ensures Get(Put(entries, key, value), key) == Some(value)
    ensures other != key ==> Get(Put(entries, key, value), other) == Get(entries, other)
  {
    PutDistinct(entries, key, value);
    PutGet(entries, key, value, other);
  }

  lemma {:induction false} PutGet(entries: seq<(string, Json)>, key: string, value: Json, other: string)
    ensures Get(Put(entries, key, value), key) == Some(value)
    ensures other != key ==> Get(Put(entries, key, value), other) == Get(entries, other)
  {
    if entries != [] && entries[0].0 != key {
      PutGet(entries[1..], key, value, other);
    }
  }

  lemma {:induction false} PutDistinct(entries: seq<(string, Json)>, key: string, value: Json)
    requires DistinctKeys(entries)
    ensures DistinctKeys(Put(entries, key, value))
  {
    if entries != [] && entries[0].0 != key {
      var rest := entries[1..];
      assert DistinctKeys(rest) by {
        assert forall i :: 0 <= i < |rest| ==> rest[i] == entries[i + 1];
      }
      PutDistinct(rest, key, value);
      PutKeys(rest, key, value, entries[0].0);
      var r := Put(entries, key, value);
      assert r == [entries[0]] + Put(rest, key, value);
      forall i, j | 0 <= i < j < |r| ensures r[i].0 != r[j].0 {
        if i == 0 {
          assert r[j] == Put(rest, key, value)[j - 1];
        }
      }
    } else if entries != [] {
      var r := Put(entries, key, value);
      forall i, j | 0 <= i < j < |r| ensures r[i].0 != r[j].0 {
        assert r[j] == entries[j];
        if i > 0 { assert r[i] == entries[i]; }
      }
    }
  }

  /** A key absent from the entries and different from `key` is absent after the `Put`. */
  lemma {:induction false} PutKeys(entries: seq<(string, Json)>, key: string, value: Json, absent: string)
    requires absent != key && forall i :: 0 <= i < |entries| ==> entries[i].0 != absent
    ensures forall i :: 0 <= i < |Put(entries, key, value)| ==> Put(entries, key, value)[i].0 != absent
  {
    if entries != [] && entries[0].0 != key {
      var rest := entries[1..];
      PutKeys(rest, key, value, absent);
      assert forall i :: 0 <= i < |rest| ==> rest[i] == entries[i + 1];
    }
  }

  // ---------------------------------------------------------------------------
  // sanitize_value and sanitize_dict

  /** `sanitize_value(v)`: NaN and the infinities become `None`; every other value, a
      finite float, an integer, a bool, a string, a list or a dictionary, is returned as it is
      (NumPy scalars become the Python scalar of the same value). */
  function SanitizeValue(v: Json): (r: Json)
    ensures r.JNone? <==> v.JNone? || (v.JFloat? && !v.f.Finite?)
    ensures !r.JNone? ==> r == v
  {
    if v.JFloat? && IsNanOrInf(v.f) then JNone else v
  }

  /** `sanitize_dict(d)`: a value that is not a dictionary is sanitized as a value; a
      dictionary keeps its keys in order, and each of its values is sanitized, recursively
      where it is itself a dictionary. Lists are values, and they are not looked into. */
  function SanitizeDict(d: Json): (r: Json)
    ensures d.JDict? <==> r.JDict?
    ensures d.JDict? ==>
      (|r.entries| == |d.entries| && forall i :: 0 <= i < |d.entries| ==> r.entries[i].0 == d.entries[i].0)
  {
    match d
    case JDict(entries) =>
      JDict(seq(|entries|, i requires 0 <= i < |entries| =>
        (entries[i].0, if entries[i].1.JDict? then SanitizeDict(entries[i].1) else SanitizeValue(entries[i].1))))
    case _ => SanitizeValue(d)
  }

  /** No NaN or infinity anywhere: what `json.dumps` can write as standard JSON. */
  predicate Safe(j: Json)
  {
    match j
    case JFloat(v) => v.Finite?
    case JList(items) => forall k :: 0 <= k < |items| ==> Safe(items[k])
    case JDict(entries) => forall k :: 0 <= k < |entries| ==> Safe(entries[k].1)
    case _ => true
  }

  /** No NaN or infinity outside lists, which are not inspected. */
  predicate SafeOutsideLists(j: Json)
  {
    match j
    case JFloat(v) => v.Finite?
    case JDict(entries) => forall k :: 0 <= k < |entries| ==> SafeOutsideLists(entries[k].1)
    case _ => true
  }

  /** No list anywhere inside. */
  predicate NoLists(j: Json)
  {
    match j
    case JList(_) => false
    case JDict(entries) => forall k :: 0 <= k < |entries| ==> NoLists(entries[k].1)
    case _ => true
  }

  /** Outside lists, a sanitized value has no NaN or infinity left; where nothing holds a
      list, it has none at all. */
  lemma {:induction false} SanitizeDictSafe(d: Json)
    ensures SafeOutsideLists(SanitizeDict(d))
    ensures NoLists(d) ==> NoLists(SanitizeDict(d)) && Safe(SanitizeDict(d))
  {
    if d.JDict? {
      var r := SanitizeDict(d);
      forall k | 0 <= k < |d.entries|
        ensures SafeOutsideLists(r.entries[k].1)
        ensures NoLists(d.entries[k].1) ==> NoLists(r.entries[k].1) && Safe(r.entries[k].1)
      {
        SanitizeDictSafe(d.entries[k].1);
      }
    }
  }

  /** A value with no NaN or infinity outside lists, such as a sanitized one, is left as it
      is: finite floats and all other values are unchanged. */
  lemma {:induction false} SanitizeDictFixes(d: Json)
    requires SafeOutsideLists(d)
    ensures SanitizeDict(d) == d
  {
    if d.JDict? {
      var r := SanitizeDict(d);
      forall k | 0 <= k < |d.entries| ensures r.entries[k] == d.entries[k] {
        SanitizeDictFixes(d.entries[k].1);
      }
    }
  }

  /** Sanitizing twice is sanitizing once. */
  lemma SanitizeDictIdempotent(d: Json)
    ensures SanitizeDict(SanitizeDict(d)) == SanitizeDict(d)
  {
    SanitizeDictSafe(d);
    SanitizeDictFixes(SanitizeDict(d));
  }

  /** A list inside a dictionary passes through `sanitize_dict` untouched, whatever floats it
      holds. */
  lemma SanitizeDictKeepsLists(entries: seq<(string, Json)>, k: nat)
    requires k < |entries| && entries[k].1.JList?
    ensures SanitizeDict(JDict(entries)).entries[k] == entries[k]
  {
  }

  // ---------------------------------------------------------------------------
  // series_to_list_safe

  /** `[timestamp_str, float(v)]`. */
  function Row(p: Point): Json
  {
    JList([JTime(p.ts), JFloat(p.v)])
  }

  /** The rows of the points that are neither NaN nor infinite, in order: the result list
      of the loop of `series_to_list_safe`. */
  function FiniteRows(s: seq<Point>): (rows: seq<Json>)
    ensures |rows| <= |s|
  {
    if s == [] then []
    else
      var last := s[|s| - 1];
      FiniteRows(s[..|s| - 1]) + if IsNanOrInf(last.v) then [] else [Row(last)]
  }

  /** `series_to_list_safe(s)`: no rows unless the series is plot-safe (at least 3 points),
      and none unless at least 2 finite rows result. */
  function SafeList(s: seq<Point>): seq<Json>
  {
    if !IsPlotSafe(ValuesOf(s), 3) then []
    else
      var rows := FiniteRows(s);
      if |rows| < 2 then [] else rows
  }

  method SeriesToListSafe(s: seq<Point>) returns (result: seq<Json>)
    ensures result == SafeList(s)
  {
    if !IsPlotSafe(ValuesOf(s), 3) {
      return [];
    }
    result := [];
    for i := 0 to |s|
      invariant result == FiniteRows(s[..i])
    {
      assert s[..i + 1][..i] == s[..i];
      var p := s[i];
      if IsNanOrInf(p.v) {
        continue;
      }
      result := result + [Row(p)];
    }
    assert s[..|s|] == s;
    if |result| < 2 {
      return [];
    }
  }

  /** Of finite points every point gives its row. */
  lemma {:induction false} FiniteRowsOfFinite(s: seq<Point>)
    requires AllFinite(ValuesOf(s))
    ensures FiniteRows(s) == seq(|s|, i requires 0 <= i < |s| => Row(s[i]))
  {
    if s != [] {
      var init := s[..|s| - 1];
      assert AllFinite(ValuesOf(init)) by {
        assert forall i :: 0 <= i < |init| ==> ValuesOf(init)[i] == ValuesOf(s)[i];
      }
      FiniteRowsOfFinite(init);
      assert ValuesOf(s)[|s| - 1].Finite?;
    }
  }

  /** `series_to_list_safe` gives rows exactly for a plot-safe series, and then one row per
      point, in order; the final length check never removes anything. */
  lemma SafeListRows(s: seq<Point>)
    ensures SafeList(s) != [] <==> IsPlotSafe(ValuesOf(s), 3)
    ensures SafeList(s) != [] ==> SafeList(s) == seq(|s|, i requires 0 <= i < |s| => Row(s[i]))
  {
    IsPlotSafeIff(ValuesOf(s), 3);
    if IsPlotSafe(ValuesOf(s), 3) {
      FiniteRowsOfFinite(s);
    }
  }

  /** The rows hold no NaN or infinity. */
  lemma SafeListSafe(s: seq<Point>)
    ensures Safe(JList(SafeList(s)))
  {
    SafeListRows(s);
    var rows := SafeList(s);
    if rows != [] {
      forall k | 0 <= k < |rows| ensures Safe(rows[k]) {
        assert ValuesOf(s)[k] == s[k].v;
        assert rows[k] == Row(s[k]);
      }
    }
  }

  // ---------------------------------------------------------------------------
  // Decimal rendering for the error message

  function Digit(d: nat): char
    requires d < 10
  {
    ('0' as int + d) as char
  }

  predicate IsDigits(s: string)
  {
    forall i :: 0 <= i < |s| ==> '0' <= s[i] <= '9'
  }

  /** The decimal digits of `n`, without leading zeros: Python's `f"{n}"`. */
  function NatToString(n: nat): (s: string)
    ensures |s| >= 1 && IsDigits(s)
    ensures n >= 10 ==> s[0] != '0'
  {
    if n < 10 then [Digit(n)] else NatToString(n / 10) + [Digit(n % 10)]
  }

  /** The number a string of decimal digits denotes. */
  function ParseNat(s: string): nat
    requires IsDigits(s)
  {
    if s == [] then 0
    else ParseNat(s[..|s| - 1]) * 10 + (s[|s| - 1] as int - '0' as int)
  }

  /** Reading the digits back gives the number, so different counts give different messages. */
  lemma {:induction false} ParseNatToString(n: nat)
    ensures ParseNat(NatToString(n)) == n
  {
    if n >= 10 {
      var s := NatToString(n);
      assert s[..|s| - 1] == NatToString(n / 10);
      ParseNatToString(n / 10);
    }
  }

  // ---------------------------------------------------------------------------
  // analyze_pair

  function Max(a: int, b: int): int { if a >= b then a else b }

  /** `max(5, window)`: the number of aligned points a pair analysis needs. */
  function MinRequired(window: int): (m: nat)
    ensures m >= 5 && m >= window && (m == 5 || m == window)
  {
    Max(5, window)
  }

  /** `{'error': 'Insufficient aligned data: {n} points, need at least {m}'}`. */
  function InsufficientReport(n: nat, m: nat): Json
  {
    JDict([("error", JStr("Insufficient aligned data: " + NatToString(n) + " points, need at least " + NatToString(m)))])
  }

  /** The report is the error dictionary. */
  predicate IsError(j: Json)
  {
    Field(j, "error").Some?
  }

  /** The hedge ratio and `r_value ** 2`: 1.0 and 0.0 below 10 aligned points, otherwise the
      OLS fit of the first prices on the second, which raises for identical second prices. */
  function HedgeFit(aligned: seq<Pair>): (r: Result<Fit, Raised>)
    ensures |aligned| < 10 ==> r == Ok(Fit(Finite(1.0), Finite(0.0)))
    ensures |aligned| >= 10 ==>
      (r.Err? <==> AllSame(ValuesOf(Seconds(aligned))) && !ValuesOf(Seconds(aligned))[0].NaN?)
  {
    if |aligned| < 10 then Ok(Fit(Finite(1.0), Finite(0.0)))
    else LinRegress(ValuesOf(Seconds(aligned)), ValuesOf(Firsts(aligned)))
  }

  /** Everything `analyze_pair` computes from the aligned rows before building its report. */
  datatype Analysis = Analysis(
    hedgeRatio: Value, rSquared: Value, spread: seq<Point>, zscore: seq<Point>,
    correlation: seq<Point>, stats1: Option<Stats>, stats2: Option<Stats>,
    spreadStats: Option<Stats>, adf: AdfResult)

  /** The analytics of the aligned rows: the spread `p1 - h * p2` with non-finite values
      dropped, its rolling z-score (none below `window` points), the rolling correlation of the
      aligned prices (none below `window` rows), the statistics of both price columns and of
      the spread, and the ADF test of the spread. The regression raises first; after it, a
      negative window makes the rolling z-score raise. */
  function Analyse(aligned: seq<Pair>, window: int, num: Numerics): (r: Result<Analysis, Raised>)
    ensures r.Err? <==> HedgeFit(aligned).Err? || window < 0
    ensures r.Err? && HedgeFit(aligned).Ok? ==> r.error == WindowError
  {
    match HedgeFit(aligned)
    case Err(e) => Err(e)
    case Ok(fit) =>
      var spread := SpreadOf(aligned, fit.slope);
      match RollingZScore(spread, window, num)
      case Err(e) => Err(e)
      case Ok(zscore) =>
        match RollingCorrOf(aligned, window, num)
        case Err(e) => Err(e)
        case Ok(correlation) =>
          Ok(Analysis(fit.slope, fit.rSquared, spread, zscore, correlation,
                      BasicStats(ValuesOf(Firsts(aligned)), num), BasicStats(ValuesOf(Seconds(aligned)), num),
                      BasicStats(ValuesOf(spread), num), AdfTest(ValuesOf(spread), num)))
  }

  /** The parts of a successful analysis: the fit succeeded, the window is not negative, and
      the z-scores, correlations and ADF result are those of the spread and the aligned rows. */
  lemma AnalyseParts(aligned: seq<Pair>, window: int, num: Numerics)
    requires Analyse(aligned, window, num).Ok?
    ensures var a := Analyse(aligned, window, num).value;
      && window >= 0 && HedgeFit(aligned).Ok?
      && a.spread == SpreadOf(aligned, HedgeFit(aligned).value.slope)
      && a.zscore == RollingZScore(a.spread, window, num).value
      && a.correlation == RollingCorrOf(aligned, window, num).value
      && a.adf == AdfTest(ValuesOf(a.spread), num)
  {
  }

  /** `series.iloc[-1] if len(series) > 0 else None`. */
  function Latest(s: seq<Point>): Json
  {
    if |s| > 0 then JFloat(s[|s| - 1].v) else JNone
  }

  /** The dictionary `compute_basic_stats` returns, `{}` for too few prices. */
  function StatsJson(s: Option<Stats>): (j: Json)
    ensures NoLists(j)
  {
    match s
    case None => JDict([])
    case Some(st) =>
      JDict([("mean", JFloat(st.mean)), ("std", JFloat(st.std)), ("min", JFloat(st.min)),
             ("max", JFloat(st.max)), ("last", JFloat(st.last)), ("volatility", JFloat(st.volatility))])
  }

  /** The dictionary `augmented_dickey_fuller_test` returns. */
  function AdfJson(a: AdfResult): (j: Json)
    ensures NoLists(j)
  {
    match a
    case AdfError(message) => JDict([("error", JStr(message))])
    case AdfReport(stat, p, lag, nobs, c1, c5, c10, stationary) =>
      var critical := JDict([("1%", JFloat(c1)), ("5%", JFloat(c5)), ("10%", JFloat(c10))]);
      assert NoLists(critical);
      JDict([("adf_statistic", JFloat(stat)), ("p_value", JFloat(p)), ("used_lag", JInt(lag)),
             ("n_observations", JInt(nobs)), ("critical_values", critical), ("is_stationary", JBool(stationary))])
  }

  /** The `'stats'` literal `{symbol1: …, symbol2: …, 'spread': …}`: a repeated key keeps its
      first position and its last value. */
  function StatsEntries(symbol1: string, symbol2: string, s1: Json, s2: Json, spread: Json): seq<(string, Json)>
  {
    Put(Put([(symbol1, s1)], symbol2, s2), "spread", spread)
  }

  /** `'spread'` always holds the spread's statistics; `symbol2` holds its own unless it is
      `'spread'`; `symbol1` holds its own unless another key overwrote it. */
  lemma StatsKeys(symbol1: string, symbol2: string, s1: Json, s2: Json, spread: Json)
    ensures var e := StatsEntries(symbol1, symbol2, s1, s2, spread);
      && DistinctKeys(e)
      && Get(e, "spread") == Some(spread)
      && (symbol2 != "spread" ==> Get(e, symbol2) == Some(s2))
      && (symbol1 != symbol2 && symbol1 != "spread" ==> Get(e, symbol1) == Some(s1))
      && (forall i :: 0 <= i < |e| ==> e[i].0 in {symbol1, symbol2, "spread"})
  {
    ThreePuts(symbol1, symbol2, "spread", s1, s2, spread);
  }

  /** The literal `{k1: v1, k2: v2, k3: v3}`. */
  lemma ThreePuts(k1: string, k2: string, k3: string, v1: Json, v2: Json, v3: Json)
    ensures var e := Put(Put([(k1, v1)], k2, v2), k3, v3);
      && DistinctKeys(e)
      && Get(e, k3) == Some(v3)
      && (k2 != k3 ==> Get(e, k2) == Some(v2))
      && (k1 != k2 && k1 != k3 ==> Get(e, k1) == Some(v1))
      && (forall i :: 0 <= i < |e| ==> e[i].0 in {k1, k2, k3})
  {
    var one := [(k1, v1)];
    var two := Put(one, k2, v2);
    assert DistinctKeys(two) && Get(two, k2) == Some(v2) && (k1 != k2 ==> Get(two, k1) == Some(v1)) by {
      PutLookup(one, k2, v2, k1);
    }
    PutLookup(two, k3, v3, k1);
    PutLookup(two, k3, v3, k2);
    ThreePutsKeys(k1, k2, k3, v1, v2, v3);
  }

  lemma ThreePutsKeys(k1: string, k2: string, k3: string, v1: Json, v2: Json, v3: Json)
    ensures var e := Put(Put([(k1, v1)], k2, v2), k3, v3);
      forall i :: 0 <= i < |e| ==> e[i].0 in {k1, k2, k3}
  {
    var one := [(k1, v1)];
    PutKeyRange(one, k2, v2, {k1, k2, k3});
    PutKeyRange(Put(one, k2, v2), k3, v3, {k1, k2, k3});
  }

  /** A `Put` adds no key but its own. */
  lemma {:induction false} PutKeyRange(entries: seq<(string, Json)>, key: string, value: Json, keys: set<string>)
    requires key in keys && forall i :: 0 <= i < |entries| ==> entries[i].0 in keys
    ensures forall i :: 0 <= i < |Put(entries, key, value)| ==> Put(entries, key, value)[i].0 in keys
  {
    if entries != [] && entries[0].0 != key {
      var rest := entries[1..];
      assert forall i :: 0 <= i < |rest| ==> rest[i] == entries[i + 1];
      PutKeyRange(rest, key, value, keys);
    }
  }

  /** The keys of a report, in order. */
  const ReportKeys: seq<string> := ["symbol1", "symbol2", "hedge_ratio", "r_squared", "current_spread",
    "current_zscore", "current_correlation", "stats", "adf_test", "series"]

  /** The dictionary literal `{keys[0]: values[0], …}` of distinct keys. */
  function Entries(keys: seq<string>, values: seq<Json>): (e: seq<(string, Json)>)
    requires |keys| == |values|
    ensures |e| == |keys| && forall i :: 0 <= i < |e| ==> e[i] == (keys[i], values[i])
  {
    seq(|keys|, i requires 0 <= i < |keys| => (keys[i], values[i]))
  }

  /** The `'series'` dictionary of the three converted series. */
  function SeriesJson(spreadRows: seq<Json>, zRows: seq<Json>, corrRows: seq<Json>): Json
  {
    JDict([("spread", JList(spreadRows)), ("zscore", JList(zRows)), ("correlation", JList(corrRows))])
  }

  /** The `'stats'` dictionary: the sanitized statistics of both price columns and of the
      spread. */
  function StatsValue(symbol1: string, symbol2: string, a: Analysis): Json
  {
    JDict(StatsEntries(symbol1, symbol2, SanitizeDict(StatsJson(a.stats1)),
                       SanitizeDict(StatsJson(a.stats2)), SanitizeDict(StatsJson(a.spreadStats))))
  }

  /** The values of a report, in the order of `ReportKeys`. */
  function ReportValues(symbol1: string, symbol2: string, a: Analysis,
                        spreadRows: seq<Json>, zRows: seq<Json>, corrRows: seq<Json>): (vs: seq<Json>)
    ensures |vs| == |ReportKeys|
  {
    [ JStr(symbol1),
      JStr(symbol2),
      SanitizeValue(JFloat(a.hedgeRatio)),
      SanitizeValue(JFloat(a.rSquared)),
      SanitizeValue(Latest(a.spread)),
      SanitizeValue(Latest(a.zscore)),
      SanitizeValue(Latest(a.correlation)),
      StatsValue(symbol1, symbol2, a),
      SanitizeDict(AdfJson(a.adf)),
      SeriesJson(spreadRows, zRows, corrRows) ]
  }

  /** The report of an analysis, given the three converted series. */
  function Report(symbol1: string, symbol2: string, a: Analysis,
                  spreadRows: seq<Json>, zRows: seq<Json>, corrRows: seq<Json>): Json
  {
    JDict(Entries(ReportKeys, ReportValues(symbol1, symbol2, a, spreadRows, zRows, corrRows)))
  }

  /** `analyze_pair(symbol1, symbol2, prices1, prices2, window)`: the error dictionary below
      `max(5, window)` aligned points, the exception of the regression when it raises, and the
      report otherwise. */
  function PairReport(symbol1: string, symbol2: string, p1: seq<Point>, p2: seq<Point>,
                      window: int, num: Numerics): (r: Result<Json, Raised>)
    ensures window < 0 && |Align(p1, p2)| >= 5 ==> r.Err?
  {
    var aligned := Align(p1, p2);
    if |aligned| < MinRequired(window) then Ok(InsufficientReport(|aligned|, MinRequired(window)))
    else
      match Analyse(aligned, window, num)
      case Err(e) => Err(e)
      case Ok(a) => Ok(Report(symbol1, symbol2, a, SafeList(a.spread), SafeList(a.zscore), SafeList(a.correlation)))
  }

  method AnalyzePair(symbol1: string, symbol2: string, p1: seq<Point>, p2: seq<Point>,
                     window: int, num: Numerics) returns (r: Result<Json, Raised>)
    ensures r == PairReport(symbol1, symbol2, p1, p2, window, num)
  {
    var aligned := Align(p1, p2);
    var minRequired := MinRequired(window);
    if |aligned| < minRequired {
      return Ok(InsufficientReport(|aligned|, minRequired));
    }
    var analysis := Analyse(aligned, window, num);
    if analysis.Err? {
      return Err(analysis.error);
    }
    var a := analysis.value;
    var spreadRows := SeriesToListSafe(a.spread);
    var zRows := SeriesToListSafe(a.zscore);
    var corrRows := SeriesToListSafe(a.correlation);
    return Ok(Report(symbol1, symbol2, a, spreadRows, zRows, corrRows));
  }

  // ---------------------------------------------------------------------------
  // Properties of the report

  /** The report is the error dictionary exactly when fewer than `max(5, window)` points
      align. Past that gate it raises exactly when at least 10 points align and the second
      prices are all equal (the regression's identical-x error), or when the window is
      negative (the error of `rolling`). */
  lemma PairReportOutcome(symbol1: string, symbol2: string, p1: seq<Point>, p2: seq<Point>,
                          window: int, num: Numerics)
    ensures var r := PairReport(symbol1, symbol2, p1, p2, window, num);
      var n := |Align(p1, p2)|;
      var identical := n >= 10 && AllSame(ValuesOf(Seconds(Align(p1, p2))));
      && (r.Ok? && IsError(r.value) <==> n < Max(5, window))
      && (r.Err? <==> n >= Max(5, window) && (identical || window < 0))
      && (r.Err? && !identical ==> r.error == WindowError)
  {
    var aligned := Align(p1, p2);
    if |aligned| >= 10 {
      assert !ValuesOf(Seconds(aligned))[0].NaN?;
    }
    if |aligned| >= MinRequired(window) {
      var an := Analyse(aligned, window, num);
      if an.Ok? {
        var rep := Report(symbol1, symbol2, an.value, SafeList(an.value.spread), SafeList(an.value.zscore),
                          SafeList(an.value.correlation));
        ReportHasNoError(symbol1, symbol2, an.value, SafeList(an.value.spread), SafeList(an.value.zscore),
                         SafeList(an.value.correlation));
      }
    }
  }

  lemma ReportHasNoError(symbol1: string, symbol2: string, a: Analysis,
                         spreadRows: seq<Json>, zRows: seq<Json>, corrRows: seq<Json>)
    ensures !IsError(Report(symbol1, symbol2, a, spreadRows, zRows, corrRows))
  {
    var e := Report(symbol1, symbol2, a, spreadRows, zRows, corrRows).entries;
    forall i | 0 <= i < |e| ensures e[i].0 != "error" {
      assert e[i].0 in ["symbol1", "symbol2", "hedge_ratio", "r_squared", "current_spread", "current_zscore",
                        "current_correlation", "stats", "adf_test", "series"];
    }
  }

  /** The analysis behind a report: that of the aligned rows. */
  function AnalysisOf(p1: seq<Point>, p2: seq<Point>, window: int, num: Numerics): Result<Analysis, Raised>
  {
    Analyse(Align(p1, p2), window, num)
  }

  lemma ReportKeysDistinct()
    ensures forall i, j :: 0 <= i < j < |ReportKeys| ==> ReportKeys[i] != ReportKeys[j]
  {
  }

  /** The value under the `i`-th key of a report is its `i`-th value. */
  lemma ReportField(values: seq<Json>, i: nat)
    requires |values| == |ReportKeys| && i < |ReportKeys|
    ensures Field(JDict(Entries(ReportKeys, values)), ReportKeys[i]) == Some(values[i])
  {
    var e := Entries(ReportKeys, values);
    ReportKeysDistinct();
    GetAt(e, i, ReportKeys[i]);
  }

  /** The hedge ratio and r² entries of a report. */
  lemma ReportFit(symbol1: string, symbol2: string, a: Analysis,
                  spreadRows: seq<Json>, zRows: seq<Json>, corrRows: seq<Json>)
    ensures var r := Report(symbol1, symbol2, a, spreadRows, zRows, corrRows);
      && Field(r, "hedge_ratio") == Some(SanitizeValue(JFloat(a.hedgeRatio)))
      && Field(r, "r_squared") == Some(SanitizeValue(JFloat(a.rSquared)))
  {
    var vs := ReportValues(symbol1, symbol2, a, spreadRows, zRows, corrRows);
    ReportField(vs, 2);
    ReportField(vs, 3);
  }

  /** The current z-score entry of a report. */
  lemma ReportCurrentZScore(symbol1: string, symbol2: string, a: Analysis,
                            spreadRows: seq<Json>, zRows: seq<Json>, corrRows: seq<Json>)
    ensures Field(Report(symbol1, symbol2, a, spreadRows, zRows, corrRows), "current_zscore")
      == Some(SanitizeValue(Latest(a.zscore)))
  {
    ReportField(ReportValues(symbol1, symbol2, a, spreadRows, zRows, corrRows), 5);
  }

  /** The ADF entry of a report. */
  lemma ReportAdf(symbol1: string, symbol2: string, a: Analysis,
                  spreadRows: seq<Json>, zRows: seq<Json>, corrRows: seq<Json>)
    ensures Field(Report(symbol1, symbol2, a, spreadRows, zRows, corrRows), "adf_test")
      == Some(SanitizeDict(AdfJson(a.adf)))
  {
    ReportField(ReportValues(symbol1, symbol2, a, spreadRows, zRows, corrRows), 8);
  }

  /** The z-score series of a report. */
  lemma ReportZScoreSeries(symbol1: string, symbol2: string, a: Analysis,
                           spreadRows: seq<Json>, zRows: seq<Json>, corrRows: seq<Json>)
    ensures var series := Field(Report(symbol1, symbol2, a, spreadRows, zRows, corrRows), "series");
      series == Some(SeriesJson(spreadRows, zRows, corrRows)) && Field(series.value, "zscore") == Some(JList(zRows))
  {
    ReportField(ReportValues(symbol1, symbol2, a, spreadRows, zRows, corrRows), 9);
    GetAt(SeriesJson(spreadRows, zRows, corrRows).entries, 1, "zscore");
  }

  /** Between `max(5, window)` and 9 aligned points the hedge ratio is 1.0 and r² is 0.0, and
      the spread is `p1 - p2` on the aligned rows; a negative window still raises. */
  lemma PairReportSmallSample(symbol1: string, symbol2: string, p1: seq<Point>, p2: seq<Point>,
                              window: int, num: Numerics)
    requires Max(5, window) <= |Align(p1, p2)| < 10
    ensures window < 0 ==> PairReport(symbol1, symbol2, p1, p2, window, num) == Err(WindowError)
    ensures window >= 0 ==>
      var r := PairReport(symbol1, symbol2, p1, p2, window, num);
      && r.Ok?
      && Field(r.value, "hedge_ratio") == Some(JFloat(Finite(1.0)))
      && Field(r.value, "r_squared") == Some(JFloat(Finite(0.0)))
      && AnalysisOf(p1, p2, window, num).Ok?
      && AnalysisOf(p1, p2, window, num).value.spread == SpreadOf(Align(p1, p2), Finite(1.0))
  {
    if window >= 0 {
      var a := AnalysisOf(p1, p2, window, num).value;
      assert a.hedgeRatio == Finite(1.0) && a.rSquared == Finite(0.0);
      ReportFit(symbol1, symbol2, a, SafeList(a.spread), SafeList(a.zscore), SafeList(a.correlation));
    }
  }

  /** Past the gates: the z-score series and the current z-score are empty when the spread has
      fewer than `window` points, the ADF entry is its error when the spread has fewer than 12,
      and the correlation is never gated, since at least `window` rows are aligned. */
  lemma PairReportGates(symbol1: string, symbol2: string, p1: seq<Point>, p2: seq<Point>,
                        window: int, num: Numerics)
    requires PairReport(symbol1, symbol2, p1, p2, window, num).Ok?
    requires !IsError(PairReport(symbol1, symbol2, p1, p2, window, num).value)
    ensures var r := PairReport(symbol1, symbol2, p1, p2, window, num).value;
      var a := AnalysisOf(p1, p2, window, num);
      && a.Ok?
      && Field(r, "series").Some?
      && (|a.value.spread| < window ==>
            Field(Field(r, "series").value, "zscore") == Some(JList([]))
            && Field(r, "current_zscore") == Some(JNone))
      && (|a.value.spread| < 12 ==>
            Field(r, "adf_test") == Some(JDict([("error", JStr("Insufficient data for ADF test"))])))
      && window >= 0
      && a.value.correlation == DropNaN(Correlations(Align(p1, p2), window, num))
  {
    PairReportIsReport(symbol1, symbol2, p1, p2, window, num);
    AnalyseParts(Align(p1, p2), window, num);
    var a := AnalysisOf(p1, p2, window, num).value;
    var spreadRows, zRows, corrRows := SafeList(a.spread), SafeList(a.zscore), SafeList(a.correlation);
    ReportZScoreSeries(symbol1, symbol2, a, spreadRows, zRows, corrRows);
    if |a.spread| < window {
      assert a.zscore == [];
      ReportEmptyZScore(symbol1, symbol2, a, spreadRows, corrRows);
    }
    if |a.spread| < 12 {
      assert a.adf == AdfError("Insufficient data for ADF test");
      ReportAdf(symbol1, symbol2, a, spreadRows, zRows, corrRows);
      AdfErrorSanitized();
    }
  }

  /** A report that is not the error dictionary is the report of the aligned rows' analysis. */
  lemma PairReportIsReport(symbol1: string, symbol2: string, p1: seq<Point>, p2: seq<Point>,
                           window: int, num: Numerics)
    requires PairReport(symbol1, symbol2, p1, p2, window, num).Ok?
    requires !IsError(PairReport(symbol1, symbol2, p1, p2, window, num).value)
    ensures |Align(p1, p2)| >= Max(5, window)
    ensures var a := AnalysisOf(p1, p2, window, num);
      && a.Ok?
      && PairReport(symbol1, symbol2, p1, p2, window, num).value
         == Report(symbol1, symbol2, a.value, SafeList(a.value.spread), SafeList(a.value.zscore), SafeList(a.value.correlation))
  {
    PairReportOutcome(symbol1, symbol2, p1, p2, window, num);
  }

  /** With no z-scores the report's z-score series and current z-score are empty. */
  lemma ReportEmptyZScore(symbol1: string, symbol2: string, a: Analysis, spreadRows: seq<Json>, corrRows: seq<Json>)
    requires a.zscore == []
    ensures var r := Report(symbol1, symbol2, a, spreadRows, SafeList(a.zscore), corrRows);
      && Field(r, "series").Some?
      && Field(Field(r, "series").value, "zscore") == Some(JList([]))
      && Field(r, "current_zscore") == Some(JNone)
  {
    assert SafeList(a.zscore) == [] by { assert !IsPlotSafe(ValuesOf(a.zscore), 3); }
    ReportCurrentZScore(symbol1, symbol2, a, spreadRows, [], corrRows);
    ReportZScoreSeries(symbol1, symbol2, a, spreadRows, [], corrRows);
  }

  /** With a window of 0 and at least 5 aligned points the report has no z-scores and no
      correlations: an empty z-score series and no current z-score. */
  lemma PairReportZeroWindow(symbol1: string, symbol2: string, p1: seq<Point>, p2: seq<Point>, num: Numerics)
    requires |Align(p1, p2)| >= 5 && PairReport(symbol1, symbol2, p1, p2, 0, num).Ok?
    ensures var r := PairReport(symbol1, symbol2, p1, p2, 0, num).value;
      var a := AnalysisOf(p1, p2, 0, num);
      && a.Ok? && a.value.zscore == [] && a.value.correlation == []
      && Field(r, "series").Some?
      && Field(Field(r, "series").value, "zscore") == Some(JList([]))
      && Field(r, "current_zscore") == Some(JNone)
  {
    PairReportOutcome(symbol1, symbol2, p1, p2, 0, num);
    PairReportIsReport(symbol1, symbol2, p1, p2, 0, num);
    var a := AnalysisOf(p1, p2, 0, num).value;
    RollingZeroWindow(a.spread, Align(p1, p2), num);
    ReportEmptyZScore(symbol1, symbol2, a, SafeList(a.spread), SafeList(a.correlation));
  }

  lemma AdfErrorSanitized()
    ensures SanitizeDict(AdfJson(AdfError("Insufficient data for ADF test")))
      == JDict([("error", JStr("Insufficient data for ADF test"))])
  {
  }

  /** Every report, the error dictionary included, holds no NaN or infinity anywhere. */
  lemma PairReportSafe(symbol1: string, symbol2: string, p1: seq<Point>, p2: seq<Point>,
                       window: int, num: Numerics)
    requires PairReport(symbol1, symbol2, p1, p2, window, num).Ok?
    ensures Safe(PairReport(symbol1, symbol2, p1, p2, window, num).value)
  {
    var aligned := Align(p1, p2);
    if |aligned| >= MinRequired(window) {
      var a := Analyse(aligned, window, num).value;
      ReportSafe(symbol1, symbol2, a);
    }
  }

  lemma ReportSafe(symbol1: string, symbol2: string, a: Analysis)
    ensures Safe(Report(symbol1, symbol2, a, SafeList(a.spread), SafeList(a.zscore), SafeList(a.correlation)))
  {
    var vs := ReportValues(symbol1, symbol2, a, SafeList(a.spread), SafeList(a.zscore), SafeList(a.correlation));
    StatsValueSafe(symbol1, symbol2, a);
    SanitizeDictSafe(AdfJson(a.adf));
    SeriesValueSafe(a);
    assert forall k :: 0 <= k < 7 ==> Safe(vs[k]);
    EntriesSafe(ReportKeys, vs);
  }

  /** The `'stats'` entry is safe. */
  lemma StatsValueSafe(symbol1: string, symbol2: string, a: Analysis)
    ensures Safe(StatsValue(symbol1, symbol2, a))
  {
    SanitizeDictSafe(StatsJson(a.stats1));
    SanitizeDictSafe(StatsJson(a.stats2));
    SanitizeDictSafe(StatsJson(a.spreadStats));
    StatsSafe(symbol1, symbol2, SanitizeDict(StatsJson(a.stats1)), SanitizeDict(StatsJson(a.stats2)),
              SanitizeDict(StatsJson(a.spreadStats)));
  }

  /** The `'series'` entry is safe. */
  lemma SeriesValueSafe(a: Analysis)
    ensures Safe(SeriesJson(SafeList(a.spread), SafeList(a.zscore), SafeList(a.correlation)))
  {
    SafeListSafe(a.spread);
    SafeListSafe(a.zscore);
    SafeListSafe(a.correlation);
    var j := SeriesJson(SafeList(a.spread), SafeList(a.zscore), SafeList(a.correlation));
    assert forall k :: 0 <= k < |j.entries| ==> Safe(j.entries[k].1);
  }

  /** A dictionary literal of safe values is safe. */
  lemma EntriesSafe(keys: seq<string>, values: seq<Json>)
    requires |keys| == |values| && forall k :: 0 <= k < |values| ==> Safe(values[k])
    ensures Safe(JDict(Entries(keys, values)))
  {
  }

  lemma StatsSafe(symbol1: string, symbol2: string, s1: Json, s2: Json, ss: Json)
    requires Safe(s1) && Safe(s2) && Safe(ss)
    ensures Safe(JDict(StatsEntries(symbol1, symbol2, s1, s2, ss)))
  {
    var e := StatsEntries(symbol1, symbol2, s1, s2, ss);
    forall k | 0 <= k < |e| ensures Safe(e[k].1) {
      PutValues([(symbol1, s1)], symbol2, s2, {s1, s2, ss});
      PutValues(Put([(symbol1, s1)], symbol2, s2), "spread", ss, {s1, s2, ss});
    }
  }

  /** A `Put` adds no value but its own. */
  lemma {:induction false} PutValues(entries: seq<(string, Json)>, key: string, value: Json, values: set<Json>)
    requires value in values && forall i :: 0 <= i < |entries| ==> entries[i].1 in values
    ensures forall i :: 0 <= i < |Put(entries, key, value)| ==> Put(entries, key, value)[i].1 in values
  {
    if entries != [] && entries[0].0 != key {
      var rest := entries[1..];
      assert forall i :: 0 <= i < |rest| ==> rest[i] == entries[i + 1];
      PutValues(rest, key, value, values);
    }
  }
}
