# Real-time quantitative analytics: tick storage, OHLCV resampling and pair analysis

This project is a Dafny model of the two stateful and computational parts of a pairs-trading
dashboard's backend:

- **`DataStorage`** (`backend/data_storage.py`) keeps a bounded FIFO buffer of the newest 10,000
  ticks for each symbol. It resamples the newest 1,000 ticks of a symbol into OHLCV bars of a
  given width: every tick goes to the bucket `floor(t / width) * width`, each bucket that holds a
  tick gives one bar (open = first price, high = max, low = min, close = last, volume = sum of
  quantities), and empty buckets are dropped. The bar sequence replaces the in-memory table of
  (symbol, timeframe), and its last 100 bars are upserted into an `ohlcv` table keyed by
  (symbol, timeframe, timestamp).
- **`analytics.py`** holds `is_plot_safe`, the `QuantAnalytics` statistics and
  `PairAnalysis.analyze_pair`. `analyze_pair` aligns two close-price series on their timestamps
  and refuses fewer than `max(5, window)` aligned points. It fits the hedge ratio by OLS (1.0
  below 10 points), forms the spread `p1 - h * p2`, then its rolling z-score, the rolling
  correlation, basic statistics and an ADF test. Finally it passes every value through the
  NaN/Inf-removing sanitisers and the plot-safety gate.

Files and modules:

| file | module | contents |
|---|---|---|
| `wrappers.dfy` | `Wrappers` | `Option` and `Result` |
| `config.dfy` | `Config` | the timeframes `1s`, `1m`, `5m` and the default window 20 |
| `values.dfy` | `Values` | floats as `Finite(real) \| NaN \| PosInf \| NegInf`, with IEEE rules for `+ - * /` |
| `algebra.dfy` | `RealAlgebra` | identities of real arithmetic used by the least-squares proofs |
| `ohlcv.dfy` | `Ohlcv` | ticks, bars, bucketing and the pure `Resample` function |
| `storage.dfy` | `Storage` | the `DataStorage` class: buffers, in-memory bars, the persisted table |
| `analytics.dfy` | `Analytics` | `is_plot_safe`, alignment, basic statistics, OLS, spread, z-score, correlation, ADF gate |
| `pair_analysis.dfy` | `PairAnalysis` | the JSON report of `analyze_pair`, `sanitize_value`, `sanitize_dict`, `series_to_list_safe` |

Modelling choices:

- Timestamps are integer milliseconds. A timeframe of `s` seconds has buckets `s * 1000` ms wide.
  Dafny's `/` by a positive divisor rounds down, so it is the floor.
- Prices, quantities and all finite floats are exact reals. So volume sums, means and the OLS
  slope are exact, and rounding is not modelled.
- The numerics that need square roots or a statistics library are fields of a `Numerics` value
  that every lemma quantifies over. These are the sample standard deviation, the `pct_change`
  volatility, the rolling std, the rolling Pearson correlation, `adfuller` and `np.sqrt(252)`.
  So only their gating and NaN/Inf handling is modelled.
- The pandas resampler forms every bucket from the earliest tick's to the latest tick's, then
  drops the empty ones. `Resample` does the same, so it needs no precondition on tick order. For
  a time-ordered stream, `Ohlcv.ResampleSortedOpenClose` shows that open and close are the
  bucket's first and last tick in arrival order.
- Points of the code that the model keeps as written:
  - bars are recomputed from the buffer on each call, so a late tick changes the bar it falls in;
  - the ADF test needs 12 values;
  - `is_stationary` is `p_value < 0.05`;
  - `analyze_pair` refuses fewer than `max(5, window)` aligned points;
  - below 10 aligned points the hedge ratio is 1.0 and r² is 0.0;
  - identical regressor values make `scipy.stats.linregress` raise. This is modelled as
    `Err(ValueError(...))`;
  - a window of 0 is accepted by pandas' `rolling` and gives only NaN, so no z-scores and no
    correlations; a negative window makes `rolling` raise `ValueError`.

## Model

| member | source | states |
|---|---|---|
| `Storage.DataStorage.constructor` | backend/data_storage.py:16-20 | A new store has no buffers and no resampled bars; the table keeps the rows already in the database. |
| `Storage.DataStorage.AddTick` | backend/data_storage.py:52-55 | The tick goes to the end of its own symbol's buffer, and a full buffer evicts its oldest tick. Every other buffer, the bars and the table are unchanged. A new symbol is added to the symbol list. |
| `Storage.AppendedIsNewest` | backend/data_storage.py:18 | One append to a buffer of at most 10,000 ticks gives the newest 10,000 of the old ticks plus the new one. |
| `Storage.AppendedMembers` | backend/data_storage.py:18 | An append keeps the buffer within 10,000 ticks and adds no tick except the appended one. |
| `Storage.BufferKeepsNewest` | backend/data_storage.py:18 | After any number of appends, the buffer is exactly the last `min(n, 10000)` ticks, in arrival order, oldest evicted first. |
| `Storage.RecentTicks` | backend/data_storage.py:62 | For a positive limit, the result is the last `min(limit, len)` ticks in order. A limit of 0 returns all ticks, and a negative limit drops the first `-limit` ticks. |
| `Storage.DataStorage.Touch` | backend/data_storage.py:18 | The `defaultdict` lookup: an unknown symbol gets an empty buffer and joins the end of the symbol list; a known symbol changes nothing. Bars and table are unchanged. |
| `Storage.DataStorage.GetRecentTicks` | backend/data_storage.py:59-62 | Returns `RecentTicks` of the symbol's buffer. Looking up an unknown symbol creates an empty buffer for it and changes nothing else. |
| `Storage.DataStorage.ResampleToOhlcv` | backend/data_storage.py:64-106 | With fewer than 2 of the newest 1,000 ticks, the result is `None` and neither the bars nor the table change. Otherwise the bars of those ticks are returned and replace the entry for (symbol, timeframe). Their last 100 are upserted. Afterwards, `GetOhlcv` with any limit returns the last bars of that result. |
| `Storage.DataStorage.StoreBars` | backend/data_storage.py:100-104 | The bars replace the in-memory entry for (symbol, timeframe), their last 100 are upserted into the table, and the buffers are untouched. |
| `Storage.DataStorage.PersistOhlcv` | backend/data_storage.py:108-129 | The table becomes the old table with the rows upserted one by one. An empty frame writes nothing. Buffers and bars are unchanged. |
| `Storage.UpsertAll` | backend/data_storage.py:115-124 | The upserts remove no key, every new key belongs to the written (symbol, timeframe), and the rows of other symbols and timeframes are untouched. |
| `Storage.UpsertAllLookup` | backend/data_storage.py:115-124 | After the upserts, a key written by some row holds the last row written for it. Every other key keeps its old row, and no key is removed. |
| `Storage.UpsertAllIdempotent` | backend/data_storage.py:117-124 | Writing the same rows a second time leaves the table unchanged: one row per key. |
| `Storage.UpsertAllStoresEach` | backend/data_storage.py:39 | Bars with distinct starts each land under their own (symbol, timeframe, start) key, holding that bar. |
| `Storage.LastAt` | backend/data_storage.py:117-118 | Finds the last row with a given start exactly when such a row exists. |
| `Storage.Tail` | backend/data_storage.py:135 | pandas `tail(n)`: for positive `n` the last `min(n, len)` bars, none for `n == 0`, and all but the first `-n` for negative `n`. |
| `Storage.TailIncreasing` | backend/data_storage.py:104 | The tail of strictly increasing bars is strictly increasing, so the persisted rows have distinct keys. |
| `Storage.DataStorage.GetOhlcv` | backend/data_storage.py:131-136 | For a non-negative limit, the last `min(limit, n)` bars of the latest resample of (symbol, timeframe); for a negative limit, all but the first `-limit` of them (pandas `tail`); empty if it was never resampled. |
| `Storage.DataStorage.AllSymbols` | backend/data_storage.py:138-140 | Lists exactly the symbols that have a buffer, each once. |
| `Config.TimeframesDivideDay` | backend/config.py:13-17 | Each configured timeframe is positive and divides 86,400 seconds. |
| `Config.BinFromMidnight` | backend/data_storage.py:82 | For each configured timeframe of width `w` ms and any midnight `d * 86400000`, binning `t` from that midnight gives the same start as `floor(t / w) * w`. |
| `Ohlcv.BucketBounds` | backend/data_storage.py:82 | A tick lies in its bucket: `start <= t < start + width`. |
| `Ohlcv.BoundaryOpensBucket` | backend/data_storage.py:82 | Buckets are left-closed: a tick exactly on a boundary opens the new bucket, and one millisecond earlier belongs to the previous bucket. |
| `Ohlcv.IndexMonotone` | backend/data_storage.py:82 | A later tick never falls in an earlier bucket. |
| `Ohlcv.InBucketAtMembers` | backend/data_storage.py:82 | A bucket holds exactly the ticks whose bucket start is its start. |
| `Ohlcv.OpenPrice` | backend/data_storage.py:84 | `first` is the price of a tick with the bucket's least time. |
| `Ohlcv.ClosePrice` | backend/data_storage.py:84 | `last` is the price of a tick with the bucket's greatest time. |
| `Ohlcv.MaxPrice` | backend/data_storage.py:84 | `max` bounds every price from above and is one of them. |
| `Ohlcv.MinPrice` | backend/data_storage.py:84 | `min` bounds every price from below and is one of them. |
| `Ohlcv.AggregateBounds` | backend/data_storage.py:84-89 | A bar has low <= open <= high and low <= close <= high, and every price of its bucket lies between low and high. |
| `Ohlcv.Resample` | backend/data_storage.py:80-92 | The bars are in strictly increasing bucket order, and each is the aggregate (open, high, low, close, volume) of its own non-empty bucket. |
| `Ohlcv.ResampleShape` | backend/data_storage.py:80-92 | The bars are in strictly increasing bucket order. Each is the aggregate of its own non-empty bucket, every tick's bucket has a bar, and ticks give bars exactly when there are ticks. |
| `Ohlcv.ResampleBarsConsistent` | backend/data_storage.py:84-89 | Every resampled bar has low <= open, close <= high, and its volume is the exact sum of its bucket's quantities. |
| `Ohlcv.ResampleConservesVolume` | backend/data_storage.py:85 | The bars' volumes add up exactly to the total quantity of the resampled ticks. |
| `Ohlcv.ResampleSortedOpenClose` | backend/data_storage.py:84 | For time-ordered ticks, each bar opens at its bucket's first tick and closes at its last tick in arrival order. |
| `Ohlcv.SortedOpenClose` | backend/data_storage.py:84 | For time-ordered ticks of one bucket, `first` and `last` are the first and last tick's prices. |
| `Ohlcv.OneSecondScenario` | backend/data_storage.py:80-92 | Prices 100, 101, 99, 102 of quantity 1 within one second give the single bar open 100, high 102, low 99, close 102, volume 4. |
| `Analytics.IsPlotSafe` | backend/analytics.py:12-31 | A plot-safe series has at least `min_points` values, all finite, and at least two distinct values. |
| `Analytics.IsPlotSafeIff` | backend/analytics.py:12-31 | `is_plot_safe(s, m)` holds exactly when `len(s) >= m`, every value is finite and two values differ. |
| `Analytics.BasicStats` | backend/analytics.py:38-54 | No result for fewer than 2 prices. Otherwise `last` is the final price, and the volatility is the returns' std times `sqrt(252)` when that std is finite and 0.0 when it is NaN or infinite. |
| `Analytics.BasicStatsOrdered` | backend/analytics.py:47-52 | For finite prices, min <= mean <= max, and every price lies between min and max. |
| `Analytics.MeanBetween` | backend/analytics.py:48 | The mean of finite values lies between their least and greatest value. |
| `Analytics.Align` | backend/analytics.py:171-177 | Joining two series keeps no more rows than the first has, and no aligned row holds a NaN. |
| `Analytics.AlignExactly` | backend/analytics.py:171-177 | The aligned rows are exactly the timestamps present in both series with neither value NaN. |
| `Analytics.LinRegress` | backend/analytics.py:75 | `linregress` raises exactly for empty input or for more than one x value, all identical and not NaN (`amax(x) == amin(x)` is false for NaN). A NaN or infinite input gives a NaN slope. |
| `Analytics.SxxZero` | backend/analytics.py:75 | The regressor's variance term is never negative, and it is zero exactly when all x values are equal. |
| `Analytics.LinRegressSlope` | backend/analytics.py:75 | For finite x values that are not all equal, the slope is the exact OLS slope `Cov(x, y) / Var(x)`. |
| `Analytics.LinRegressAffine` | backend/analytics.py:74-77 | Regressing y = a·x + b on non-constant x gives slope `a`, with r² = 1 (or 0 when a = 0). |
| `Analytics.HedgeRatio` | backend/analytics.py:57-77 | Returns (0.0, 0.0) when either input or their alignment has fewer than 10 points. Otherwise it is the regression of prices1 on prices2 over the aligned rows. |
| `Analytics.Spread` | backend/analytics.py:80-88 | `compute_spread` keeps at most one point per row of the first series, and every kept value is finite. |
| `Analytics.SpreadMembers` | backend/analytics.py:84-88 | A spread point is exactly an aligned timestamp whose value `p1 - h * p2` is finite. |
| `Analytics.SpreadOfFinite` | backend/analytics.py:84-88 | With a finite hedge ratio and finite prices, nothing is dropped: entry `i` is `p1_i - h * p2_i` exactly. |
| `Analytics.KeepFiniteMembers` | backend/analytics.py:87 | Replacing ±Inf by NaN and dropping NaN keeps exactly the finite points, in order. |
| `Analytics.DropNaNMembers` | backend/analytics.py:116 | `dropna` keeps exactly the points that are not NaN. |
| `Analytics.ZAt` | backend/analytics.py:96-102 | The z-score is NaN for a window of 0, before index window-1, and where the rolling std is 0. |
| `Analytics.ZAtExact` | backend/analytics.py:102 | On a finite window with a finite nonzero std, the z-score is `(v - mean) / std` exactly. |
| `Analytics.RollingZScore` | backend/analytics.py:91-105 | Raises `ValueError` exactly for a negative window; empty when the series is shorter than the window. |
| `Analytics.RollingZScoreMembers` | backend/analytics.py:96-105 | Every output point is finite, the window is at least 1, and the point comes from an index at or after window-1, with that index's timestamp and a window std that is not 0. |
| `Analytics.RollingZScoreComplete` | backend/analytics.py:96-105 | Conversely, every index whose z-score is finite appears in the output with its timestamp. |
| `Analytics.RollingZScoreOrdered` | backend/analytics.py:105 | Increasing timestamps in the series stay increasing in the output, so the output keeps index order. |
| `Analytics.RollingZeroWindow` | backend/analytics.py:91-116 | A window of 0 gives an empty z-score series and an empty correlation series. |
| `Analytics.CorrAt` | backend/analytics.py:115 | The rolling correlation is NaN for a window of 0 and before a full window exists. |
| `Analytics.RollingCorrOf` | backend/analytics.py:110-116 | Raises `ValueError` exactly for a negative window; empty when fewer aligned rows than the window exist. |
| `Analytics.RollingCorrelation` | backend/analytics.py:107-116 | `compute_rolling_correlation` on the aligned rows: raises exactly for a negative window, is empty below `window` aligned rows, and holds no NaN. |
| `Analytics.RollingCorrMembers` | backend/analytics.py:115-116 | Every output point is non-NaN, the window is at least 1, and the point comes from an aligned row at or after index window-1, with that row's timestamp. |
| `Analytics.RollingCorrComplete` | backend/analytics.py:115-116 | Conversely, every row whose correlation is not NaN appears in the output with its timestamp. |
| `Analytics.RollingCorrOrdered` | backend/analytics.py:116 | Rows with increasing timestamps give correlations with increasing timestamps. |
| `Analytics.AdfTest` | backend/analytics.py:118-144 | The ADF result is the insufficient-data error for fewer than 12 values. A report is stationary exactly when its p-value is below 0.05, and a NaN p-value is never stationary. |
| `Values.Add` | backend/analytics.py:102 | IEEE addition: finite exactly when both operands are, exact on finite values, NaN absorbing. |
| `Values.Mul` | backend/analytics.py:85 | IEEE multiplication: finite exactly when both operands are, exact on finite values. |
| `Values.Div` | backend/analytics.py:102 | IEEE division: exact for a nonzero finite divisor, NaN when either operand is NaN. |
| `PairAnalysis.SanitizeValue` | backend/analytics.py:262-274 | The result is `None` exactly for `None`, NaN and ±Inf. Every other value is returned unchanged. |
| `PairAnalysis.SanitizeDict` | backend/analytics.py:276-281 | A dictionary keeps its keys in order, and a non-dictionary is sanitised as a value. |
| `PairAnalysis.SanitizeDictSafe` | backend/analytics.py:276-281 | After sanitising, no NaN or ±Inf is left outside lists, and none at all where there are no lists. |
| `PairAnalysis.SanitizeDictFixes` | backend/analytics.py:276-281 | A value with no NaN or ±Inf outside lists is left unchanged. |
| `PairAnalysis.SanitizeDictIdempotent` | backend/analytics.py:276-281 | Sanitising twice is the same as sanitising once. |
| `PairAnalysis.SanitizeDictKeepsLists` | backend/analytics.py:280 | A list inside a dictionary passes through unchanged. |
| `PairAnalysis.SeriesToListSafe` | backend/analytics.py:238-260 | The loop's result equals `SafeList`: nothing unless the series is plot-safe with at least 3 points, then the rows of the finite points, and nothing if fewer than 2 rows result. |
| `PairAnalysis.SafeListRows` | backend/analytics.py:243-260 | Rows are returned exactly for a plot-safe series, one `[timestamp, value]` row per point in order. |
| `PairAnalysis.SafeListSafe` | backend/analytics.py:248-254 | The returned rows hold no NaN or ±Inf. |
| `PairAnalysis.ParseNatToString` | backend/analytics.py:184 | The counts in the error message read back as the numbers they render. |
| `PairAnalysis.MinRequired` | backend/analytics.py:180 | `max(5, window)`: at least 5 and at least the window, and equal to one of the two. |
| `PairAnalysis.HedgeFit` | backend/analytics.py:196-205 | Below 10 aligned points the fit is (1.0, 0.0). From 10 points on, it raises exactly when all second prices are equal and not NaN. |
| `PairAnalysis.Analyse` | backend/analytics.py:194-234 | The analysis raises exactly when the regression raises or the window is negative; past a successful regression, the error is the negative-window `ValueError` of `rolling`. |
| `PairAnalysis.PairReport` | backend/analytics.py:153-309 | A negative window raises once at least 5 points align. |
| `PairAnalysis.PutLookup` | backend/analytics.py:292-296 | In a dictionary literal, a repeated key holds the last value given for it, every other key keeps its own, and keys stay distinct. |
| `PairAnalysis.StatsKeys` | backend/analytics.py:292-296 | `'spread'` always holds the spread's statistics. `symbol2` holds its own unless it is `'spread'`, and `symbol1` holds its own unless a later key overwrote it. |
| `PairAnalysis.AnalyzePair` | backend/analytics.py:153-309 | Returns the report of `PairReport`: the error dictionary, the exception of the regression or of `rolling`, or the full sanitised report. |
| `PairAnalysis.PairReportOutcome` | backend/analytics.py:180-213 | The result is the error dictionary exactly when fewer than `max(5, window)` points align. Past that gate it raises exactly when at least 10 align with all second prices equal, or the window is negative; in the second case alone the error is the `rolling` `ValueError`. |
| `PairAnalysis.ReportHasNoError` | backend/analytics.py:284-303 | A full report has no `'error'` key. |
| `PairAnalysis.ReportFit` | backend/analytics.py:287-288 | The report's `hedge_ratio` and `r_squared` are the sanitised fit. |
| `PairAnalysis.PairReportSmallSample` | backend/analytics.py:196-213 | With `max(5, window)` to 9 aligned points and a non-negative window, the report has hedge ratio 1.0 and r² 0.0, and the spread is `p1 - 1.0 * p2` on the aligned rows; a negative window raises the `rolling` `ValueError`. |
| `PairAnalysis.PairReportZeroWindow` | backend/analytics.py:211-227 | With a window of 0 and at least 5 aligned points, the report has no z-scores and no correlations: an empty z-score series and a `None` current z-score. |
| `PairAnalysis.PairReportGates` | backend/analytics.py:211-234 | In a full report, a spread shorter than the window gives an empty z-score series and a `None` current z-score. A spread of fewer than 12 values gives the ADF insufficient-data error. The correlation is the NaN-dropped rolling correlation of the aligned rows. |
| `PairAnalysis.PairReportSafe` | backend/analytics.py:283-303 | Every report, including the error dictionary, holds no NaN or ±Inf anywhere, so it is valid JSON. |

## Left out

- Network ingestion (`backend/data_ingestion.py`) is not part of this model: the websocket
  subscription, the reconnect loop with its 2-second sleep, and JSON and float parsing. A tick
  enters the model already normalised (symbol, time in ms, price, quantity).
- The serving layer (`backend/main.py`) is not part of this model: FastAPI routing, CORS, the
  websocket broadcast, alerts and CSV export. The periodic `resampling_loop` is concurrency; the
  model has single calls of `ResampleToOhlcv`.
- SQLite mechanics are not modelled: `_init_database`, the index, the autoincrement `id`,
  connect, commit and close. The table is a map from (symbol, timeframe, start) to bar.
  Exceptions swallowed per row are not modelled, and the timestamp is the bar start in ms rather
  than its `isoformat()` text.
- Logging has no behavioural effect and is left out.
- The pandas bin origin (`start_day`, local time) is replaced by `floor(t / T) * T`.
  `Config.BinFromMidnight` shows the two agree for the configured timeframes; calendar and
  time-zone details are not modelled.
- Floating-point rounding and overflow are not modelled: finite floats are exact reals.
- The square-root numerics and the ADF internals (AIC lag selection, p-values, critical values)
  are uninterpreted parameters (`Analytics.Numerics`).
- The DataFrame that `resample_to_ohlcv` returns is shared by reference with the in-memory
  table; the model returns a value.
- `Analytics.Align`: keeps the order of the first series, where pandas sorts the joined index.
  The two agree for the increasing bar timestamps the callers pass. `AlignExactly` assumes the
  second series has unique timestamps.
- `Analytics.LinRegress`: with an infinite input the slope is NaN, and r² is NaN unless the y
  values are finite and constant. This simplifies NumPy's exact propagation of infinities; the
  callers only pass finite close prices.
- `Analytics.ZAt`, `Analytics.CorrAt`: take a non-negative window. A negative window never
  reaches them: `RollingZScore`, `RollingCorrOf` and `Analyse` raise `rolling`'s `ValueError`
  first.
- `PairAnalysis.SanitizeValue`: NumPy integer, bool and float scalars become Python values of the
  same value, which the model does not distinguish.
