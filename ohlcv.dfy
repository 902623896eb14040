/** OHLCV aggregation of ticks into time buckets, as `DataStorage.resample_to_ohlcv` does it
    with pandas: every bucket from the first tick's to the last tick's is formed, each is
    aggregated (first, max, min, last price and summed quantity), and the buckets that hold no
    tick are dropped. Times are integer milliseconds; prices and quantities are exact reals. */
module Ohlcv {

  /** A normalized trade: symbol, event time in milliseconds, price and quantity. */
  datatype Tick = Tick(symbol: string, time: int, price: real, quantity: real)

  /** One resampled row: the bucket's start time and its open, high, low, close and volume. */
  datatype Bar = Bar(start: int, open: real, high: real, low: real, close: real, volume: real)

  /** Bucket width in milliseconds of a timeframe given in seconds. */
  function Width(seconds: int): (w: int)
    requires seconds > 0
    ensures w > 0
  {
    seconds * 1000
  }

  /** The number of the bucket holding `time`: `floor(time / width)` (Dafny's division by a
      positive number rounds down). */
  function BucketIndex(time: int, width: int): int
    requires width > 0
  {
    time / width
  }

  /** The start time of bucket number `k`. */
  function Start(k: int, width: int): int
  {
    k * width
  }

  /** The start of the bucket holding `time`: `floor(time / width) * width`. */
  function Bucket(time: int, width: int): int
    requires width > 0
  {
    Start(BucketIndex(time, width), width)
  }

  lemma BucketBounds(time: int, width: int)
    requires width > 0
    ensures Bucket(time, width) <= time < Bucket(time, width) + width
  {
  }

  lemma MulMonotone(x: int, y: int, width: int)
    requires width > 0 && x <= y
    ensures x * width <= y * width
  {
  }

  /** Bucket `k` is the left-closed interval `[k * width, (k + 1) * width)`. */
  lemma IndexOfInterval(k: int, width: int, time: int)
    requires width > 0 && k * width <= time < k * width + width
    ensures BucketIndex(time, width) == k
  {
    var q := BucketIndex(time, width);
    BucketBounds(time, width);
    if q < k { MulMonotone(q + 1, k, width); }
    if q > k { MulMonotone(k + 1, q, width); }
  }

  /** A tick exactly on a boundary opens the new bucket. */
  lemma {:induction false} BoundaryOpensBucket(k: int, width: int)
    requires width > 0
    ensures BucketIndex(k * width, width) == k && Bucket(k * width, width) == k * width
    ensures Bucket(k * width - 1, width) == (k - 1) * width
  {
    IndexOfInterval(k, width, k * width);
    IndexOfInterval(k - 1, width, k * width - 1);
  }

  /** Bucketing is monotone in time. */
  lemma IndexMonotone(s: int, t: int, width: int)
    requires width > 0 && s <= t
    ensures BucketIndex(s, width) <= BucketIndex(t, width)
  {
    var qs, qt := BucketIndex(s, width), BucketIndex(t, width);
    BucketBounds(s, width);
    BucketBounds(t, width);
    if qt < qs { MulMonotone(qt + 1, qs, width); }
  }

  /** Bucket starts are increasing in the bucket number. */
  lemma StartsOrdered(j: int, k: int, width: int)
    requires width > 0 && j < k
    ensures Start(j, width) < Start(k, width)
  {
    MulMonotone(j + 1, k, width);
  }

  // ---------------------------------------------------------------------------
  // Selecting the ticks of one bucket

  /** The ticks of bucket number `k`, in arrival order. */
  function InBucket(ticks: seq<Tick>, k: int, width: int): seq<Tick>
    requires width > 0
  {
    if ticks == [] then []
    else
      var rest := InBucket(ticks[1..], k, width);
      if BucketIndex(ticks[0].time, width) == k then [ticks[0]] + rest else rest
  }

  /** The ticks whose bucket starts at time `start`, in arrival order. */
  function InBucketAt(ticks: seq<Tick>, start: int, width: int): seq<Tick>
    requires width > 0
  {
    if ticks == [] then []
    else
      var rest := InBucketAt(ticks[1..], start, width);
      if Bucket(ticks[0].time, width) == start then [ticks[0]] + rest else rest
  }

  /** A bucket's ticks are exactly the ticks whose bucket number it is, arrival order kept. */
  lemma {:induction false} InBucketMembers(ticks: seq<Tick>, k: int, width: int, t: Tick)
    requires width > 0
    ensures t in InBucket(ticks, k, width) <==> t in ticks && BucketIndex(t.time, width) == k
  {
    if ticks != [] { InBucketMembers(ticks[1..], k, width, t); }
  }

  lemma {:induction false} InBucketAtMembers(ticks: seq<Tick>, start: int, width: int, t: Tick)
    requires width > 0
    ensures t in InBucketAt(ticks, start, width) <==> t in ticks && Bucket(t.time, width) == start
  {
    if ticks != [] { InBucketAtMembers(ticks[1..], start, width, t); }
  }

  /** A bucket that every tick falls in holds them all. */
  lemma {:induction false} InBucketWhole(ticks: seq<Tick>, k: int, width: int)
    requires width > 0
    requires forall i :: 0 <= i < |ticks| ==> BucketIndex(ticks[i].time, width) == k
    ensures InBucket(ticks, k, width) == ticks
  {
    if ticks != [] {
      assert forall i :: 0 <= i < |ticks[1..]| ==> ticks[1..][i] == ticks[i + 1];
      InBucketWhole(ticks[1..], k, width);
    }
  }

  /** Bucket number `k` and the bucket starting at `k * width` hold the same ticks. */
  lemma {:induction false} InBucketAtStart(ticks: seq<Tick>, k: int, width: int)
    requires width > 0
    ensures InBucketAt(ticks, Start(k, width), width) == InBucket(ticks, k, width)
  {
    if ticks != [] {
      InBucketAtStart(ticks[1..], k, width);
      var q := BucketIndex(ticks[0].time, width);
      if q < k { StartsOrdered(q, k, width); }
      if k < q { StartsOrdered(k, q, width); }
    }
  }

  /** The ticks of the buckets numbered `lo` up to (not including) `stop`, in arrival order. */
  function InRange(ticks: seq<Tick>, width: int, lo: int, stop: int): seq<Tick>
    requires width > 0
  {
    if ticks == [] then []
    else
      var rest := InRange(ticks[1..], width, lo, stop);
      if lo <= BucketIndex(ticks[0].time, width) < stop then [ticks[0]] + rest else rest
  }

  // ---------------------------------------------------------------------------
  // Aggregates of a non-empty bucket

  function MinTime(ticks: seq<Tick>): (m: int)
    requires ticks != []
    ensures forall i :: 0 <= i < |ticks| ==> m <= ticks[i].time
    ensures exists i :: 0 <= i < |ticks| && ticks[i].time == m
  {
    if |ticks| == 1 then ticks[0].time
    else
      var m := MinTime(ticks[1..]);
      assert forall i :: 1 <= i < |ticks| ==> ticks[i] == ticks[1..][i - 1];
      if ticks[0].time <= m then ticks[0].time else m
  }

  function MaxTime(ticks: seq<Tick>): (m: int)
    requires ticks != []
    ensures forall i :: 0 <= i < |ticks| ==> ticks[i].time <= m
    ensures exists i :: 0 <= i < |ticks| && ticks[i].time == m
  {
    if |ticks| == 1 then ticks[0].time
    else
      var m := MaxTime(ticks[1..]);
      assert forall i :: 1 <= i < |ticks| ==> ticks[i] == ticks[1..][i - 1];
      if ticks[0].time >= m then ticks[0].time else m
  }

  /** pandas sorts a non-monotonic index with a stable sort before binning, so the first row of
      a bin is the earliest-arrived tick among those with the bin's least time. */
  function FirstIndexAt(ticks: seq<Tick>, time: int): (k: nat)
    requires exists i :: 0 <= i < |ticks| && ticks[i].time == time
    ensures k < |ticks| && ticks[k].time == time
    ensures forall j :: 0 <= j < k ==> ticks[j].time != time
  {
    if ticks[0].time == time then 0
    else
      assert exists i :: 0 <= i < |ticks[1..]| && ticks[1..][i].time == time by {
        var i :| 0 <= i < |ticks| && ticks[i].time == time;
        assert ticks[1..][i - 1] == ticks[i];
      }
      1 + FirstIndexAt(ticks[1..], time)
  }

  /** The latest-arrived tick among those with the bin's greatest time is its last row. */
  function LastIndexAt(ticks: seq<Tick>, time: int): (k: nat)
    requires exists i :: 0 <= i < |ticks| && ticks[i].time == time
    ensures k < |ticks| && ticks[k].time == time
    ensures forall j :: k < j < |ticks| ==> ticks[j].time != time
  {
    var n := |ticks| - 1;
    if ticks[n].time == time then n
    else
      assert exists i :: 0 <= i < |ticks[..n]| && ticks[..n][i].time == time by {
        var i :| 0 <= i < |ticks| && ticks[i].time == time;
        assert ticks[..n][i] == ticks[i];
      }
      LastIndexAt(ticks[..n], time)
  }

  /** The bin's `first` price. */
  function OpenPrice(ticks: seq<Tick>): (p: real)
    requires ticks != []
    ensures exists i :: 0 <= i < |ticks| && ticks[i].price == p && ticks[i].time == MinTime(ticks)
  {
    ticks[FirstIndexAt(ticks, MinTime(ticks))].price
  }

  /** The bin's `last` price. */
  function ClosePrice(ticks: seq<Tick>): (p: real)
    requires ticks != []
    ensures exists i :: 0 <= i < |ticks| && ticks[i].price == p && ticks[i].time == MaxTime(ticks)
  {
    ticks[LastIndexAt(ticks, MaxTime(ticks))].price
  }

  /** The bin's `max` price: an upper bound attained by some tick. */
  function MaxPrice(ticks: seq<Tick>): (p: real)
    requires ticks != []
    ensures forall i :: 0 <= i < |ticks| ==> ticks[i].price <= p
    ensures exists i :: 0 <= i < |ticks| && ticks[i].price == p
  {
    if |ticks| == 1 then ticks[0].price
    else
      var m := MaxPrice(ticks[1..]);
      assert forall i :: 1 <= i < |ticks| ==> ticks[i] == ticks[1..][i - 1];
      if ticks[0].price >= m then ticks[0].price else m
  }

  /** The bin's `min` price: a lower bound attained by some tick. */
  function MinPrice(ticks: seq<Tick>): (p: real)
    requires ticks != []
    ensures forall i :: 0 <= i < |ticks| ==> p <= ticks[i].price
    ensures exists i :: 0 <= i < |ticks| && ticks[i].price == p
  {
    if |ticks| == 1 then ticks[0].price
    else
      var m := MinPrice(ticks[1..]);
      assert forall i :: 1 <= i < |ticks| ==> ticks[i] == ticks[1..][i - 1];
      if ticks[0].price <= m then ticks[0].price else m
  }

  /** The exact sum of the quantities (the bin's `sum` volume). */
  function SumQuantity(ticks: seq<Tick>): real
  {
    if ticks == [] then 0.0 else ticks[0].quantity + SumQuantity(ticks[1..])
  }

  /** The bar of a non-empty bucket: `first`, `max`, `min`, `last` of the prices and `sum` of
      the quantities. */
  function Aggregate(start: int, ticks: seq<Tick>): Bar
    requires ticks != []
  {
    Bar(start, OpenPrice(ticks), MaxPrice(ticks), MinPrice(ticks), ClosePrice(ticks), SumQuantity(ticks))
  }

  /** A bar's low and high bound every price of its bucket, its open and close among them. */
  lemma AggregateBounds(start: int, ticks: seq<Tick>)
    requires ticks != []
    ensures var bar := Aggregate(start, ticks);
      && bar.low <= bar.open <= bar.high && bar.low <= bar.close <= bar.high
      && (forall i :: 0 <= i < |ticks| ==> bar.low <= ticks[i].price <= bar.high)
  {
  }

  // ---------------------------------------------------------------------------
  // Resampling

  predicate StrictlyIncreasing(bars: seq<Bar>)
  {
    forall i, j :: 0 <= i < j < |bars| ==> bars[i].start < bars[j].start
  }

  /** Each bar starts a bucket that holds ticks and is the aggregate of that bucket's ticks. */
  predicate BarsMatchBuckets(ticks: seq<Tick>, width: int, bars: seq<Bar>)
    requires width > 0
  {
    forall i :: 0 <= i < |bars| ==>
      && InBucketAt(ticks, bars[i].start, width) != []
      && bars[i] == Aggregate(bars[i].start, InBucketAt(ticks, bars[i].start, width))
  }

  /** The bars of the buckets numbered `k` up to `stop`, empty buckets dropped. */
  function BarsFrom(ticks: seq<Tick>, width: int, k: int, stop: int): seq<Bar>
    requires width > 0
    decreases stop - k
  {
    if stop <= k then []
    else
      var inBucket := InBucket(ticks, k, width);
      var rest := BarsFrom(ticks, width, k + 1, stop);
      if inBucket == [] then rest else [Aggregate(Start(k, width), inBucket)] + rest
  }

  /** Every bar starts at `lo` or later. */
  predicate StartAtLeast(bars: seq<Bar>, lo: int)
  {
    forall i :: 0 <= i < |bars| ==> lo <= bars[i].start
  }

  /** The bars of `BarsFrom` start no earlier than bucket `k`. */
  lemma {:induction false} BarsFromAfter(ticks: seq<Tick>, width: int, k: int, stop: int)
    requires width > 0
    ensures StartAtLeast(BarsFrom(ticks, width, k, stop), Start(k, width))
    decreases stop - k
  {
    if k < stop {
      var rest := BarsFrom(ticks, width, k + 1, stop);
      BarsFromAfter(ticks, width, k + 1, stop);
      StartsOrdered(k, k + 1, width);
      StartAtLeastWeaken(rest, Start(k + 1, width), Start(k, width));
      BarsFromStep(ticks, width, k, stop);
      if InBucket(ticks, k, width) != [] {
        StartAtLeastCons(Aggregate(Start(k, width), InBucket(ticks, k, width)), rest, Start(k, width));
      }
    }
  }

  lemma StartAtLeastWeaken(bars: seq<Bar>, lo: int, lower: int)
    requires StartAtLeast(bars, lo) && lower <= lo
    ensures StartAtLeast(bars, lower)
  {
  }

  lemma StartAtLeastCons(head: Bar, rest: seq<Bar>, lo: int)
    requires StartAtLeast(rest, lo) && lo <= head.start
    ensures StartAtLeast([head] + rest, lo)
  {
    var bars := [head] + rest;
    forall i | 0 < i < |bars| ensures lo <= bars[i].start {
      assert bars[i] == rest[i - 1];
    }
  }

  /** The bars of `BarsFrom` are in strictly increasing order, and each is the aggregate of its
      own non-empty bucket. */
  lemma {:induction false} BarsFromShape(ticks: seq<Tick>, width: int, k: int, stop: int)
    requires width > 0
    ensures var bars := BarsFrom(ticks, width, k, stop);
      StrictlyIncreasing(bars) && BarsMatchBuckets(ticks, width, bars)
    decreases stop - k
  {
    if k < stop {
      BarsFromShape(ticks, width, k + 1, stop);
      var inBucket := InBucket(ticks, k, width);
      if inBucket != [] {
        var rest := BarsFrom(ticks, width, k + 1, stop);
        BarsFromAfter(ticks, width, k + 1, stop);
        StartsOrdered(k, k + 1, width);
        InBucketAtStart(ticks, k, width);
        ConsShape(ticks, width, Aggregate(Start(k, width), inBucket), rest);
      }
    }
  }

  /** Putting a bar in front of bars that start later keeps the bars' shape. */
  lemma ConsShape(ticks: seq<Tick>, width: int, head: Bar, rest: seq<Bar>)
    requires width > 0
    requires StrictlyIncreasing(rest) && BarsMatchBuckets(ticks, width, rest)
    requires forall i :: 0 <= i < |rest| ==> head.start < rest[i].start
    requires InBucketAt(ticks, head.start, width) != []
    requires head == Aggregate(head.start, InBucketAt(ticks, head.start, width))
    ensures StrictlyIncreasing([head] + rest) && BarsMatchBuckets(ticks, width, [head] + rest)
  {
    ConsIncreasing(head, rest);
    ConsMatch(ticks, width, head, rest);
  }

  lemma ConsIncreasing(head: Bar, rest: seq<Bar>)
    requires StrictlyIncreasing(rest)
    requires StartAtLeast(rest, head.start + 1)
    ensures StrictlyIncreasing([head] + rest)
  {
    var bars := [head] + rest;
    forall i, j | 0 <= i < j < |bars| ensures bars[i].start < bars[j].start {
      assert bars[j] == rest[j - 1];
      if i > 0 { assert bars[i] == rest[i - 1]; }
    }
  }

  lemma ConsMatch(ticks: seq<Tick>, width: int, head: Bar, rest: seq<Bar>)
    requires width > 0
    requires BarsMatchBuckets(ticks, width, rest)
    requires InBucketAt(ticks, head.start, width) != []
    requires head == Aggregate(head.start, InBucketAt(ticks, head.start, width))
    ensures BarsMatchBuckets(ticks, width, [head] + rest)
  {
    var bars := [head] + rest;
    forall i | 0 <= i < |bars|
      ensures InBucketAt(ticks, bars[i].start, width) != []
      ensures bars[i] == Aggregate(bars[i].start, InBucketAt(ticks, bars[i].start, width))
    {
      if i > 0 { assert bars[i] == rest[i - 1]; }
    }
  }

  /** Some bar starts at `start`. */
  predicate HasBarAt(bars: seq<Bar>, start: int)
  {
    exists i :: 0 <= i < |bars| && bars[i].start == start
  }

  /** Every tick of buckets `k` to `stop - 1` has its bucket among the bars. */
  lemma BarsFromComplete(ticks: seq<Tick>, width: int, k: int, stop: int, t: Tick)
    requires width > 0
    requires t in ticks && k <= BucketIndex(t.time, width) < stop
    ensures HasBarAt(BarsFrom(ticks, width, k, stop), Bucket(t.time, width))
  {
    InBucketMembers(ticks, BucketIndex(t.time, width), width, t);
    BarsFromHasBucket(ticks, width, k, stop, BucketIndex(t.time, width));
  }

  /** Every non-empty bucket from `k` to `stop - 1` has its bar. */
  lemma {:induction false} BarsFromHasBucket(ticks: seq<Tick>, width: int, k: int, stop: int, q: int)
    requires width > 0 && k <= q < stop && InBucket(ticks, q, width) != []
    ensures HasBarAt(BarsFrom(ticks, width, k, stop), Start(q, width))
    decreases stop - k
  {
    if q == k {
      BarsFromHead(ticks, width, k, stop);
    } else {
      BarsFromHasBucket(ticks, width, k + 1, stop, q);
      BarsFromKeepsRest(ticks, width, k, stop, Start(q, width));
    }
  }

  /** One step of `BarsFrom`. */
  lemma BarsFromStep(ticks: seq<Tick>, width: int, k: int, stop: int)
    requires width > 0 && k < stop
    ensures var inBucket := InBucket(ticks, k, width);
      BarsFrom(ticks, width, k, stop) == if inBucket == [] then BarsFrom(ticks, width, k + 1, stop)
        else [Aggregate(Start(k, width), inBucket)] + BarsFrom(ticks, width, k + 1, stop)
  {
  }

  /** A bucket that holds a tick has its bar. */
  lemma BarsFromHead(ticks: seq<Tick>, width: int, k: int, stop: int)
    requires width > 0 && k < stop && InBucket(ticks, k, width) != []
    ensures HasBarAt(BarsFrom(ticks, width, k, stop), Start(k, width))
  {
    BarsFromStep(ticks, width, k, stop);
    assert BarsFrom(ticks, width, k, stop)[0].start == Start(k, width);
  }

  /** The bars of the buckets after `k` are among those from `k` on. */
  lemma BarsFromKeepsRest(ticks: seq<Tick>, width: int, k: int, stop: int, start: int)
    requires width > 0 && k < stop && HasBarAt(BarsFrom(ticks, width, k + 1, stop), start)
    ensures HasBarAt(BarsFrom(ticks, width, k, stop), start)
  {
    BarsFromStep(ticks, width, k, stop);
    var inBucket := InBucket(ticks, k, width);
    if inBucket != [] {
      HasBarCons(Aggregate(Start(k, width), inBucket), BarsFrom(ticks, width, k + 1, stop), start);
    }
  }

  lemma HasBarCons(head: Bar, rest: seq<Bar>, start: int)
    requires HasBarAt(rest, start)
    ensures HasBarAt([head] + rest, start)
  {
    var i :| 0 <= i < |rest| && rest[i].start == start;
    assert ([head] + rest)[i + 1] == rest[i];
  }

  /** `resample_to_ohlcv`'s aggregation of a tick list into bars of `seconds` seconds: bars in
      strictly increasing bucket order, each the aggregate of its own non-empty bucket. */
  function Resample(ticks: seq<Tick>, seconds: int): (bars: seq<Bar>)
    requires seconds > 0
    ensures StrictlyIncreasing(bars) && BarsMatchBuckets(ticks, Width(seconds), bars)
  {
    ResampleWidth(ticks, Width(seconds))
  }

  /** Bars of `width` milliseconds: the buckets from the earliest tick's to the latest tick's,
      empty ones dropped. */
  function ResampleWidth(ticks: seq<Tick>, width: int): (bars: seq<Bar>)
    requires width > 0
    ensures StrictlyIncreasing(bars) && BarsMatchBuckets(ticks, width, bars)
  {
    if ticks == [] then []
    else
      BarsFromShape(ticks, width, FirstBucket(ticks, width), EndBucket(ticks, width));
      BarsFrom(ticks, width, FirstBucket(ticks, width), EndBucket(ticks, width))
  }

  /** The index of the earliest tick's bucket. */
  function FirstBucket(ticks: seq<Tick>, width: int): int
    requires width > 0 && ticks != []
  {
    BucketIndex(MinTime(ticks), width)
  }

  /** One past the index of the latest tick's bucket. */
  function EndBucket(ticks: seq<Tick>, width: int): int
    requires width > 0 && ticks != []
  {
    BucketIndex(MaxTime(ticks), width) + 1
  }

  lemma ResampleUnfold(ticks: seq<Tick>, width: int, lo: int, stop: int)
    requires width > 0 && ticks != []
    requires lo == FirstBucket(ticks, width) && stop == EndBucket(ticks, width)
    ensures ResampleWidth(ticks, width) == BarsFrom(ticks, width, lo, stop)
  {
  }

  /** Every tick's bucket lies between the earliest and the latest tick's buckets. */
  lemma TicksWithinSpan(ticks: seq<Tick>, width: int)
    requires width > 0 && ticks != []
    ensures forall t :: t in ticks ==>
      BucketIndex(MinTime(ticks), width) <= BucketIndex(t.time, width) < BucketIndex(MaxTime(ticks), width) + 1
  {
    forall t | t in ticks
      ensures BucketIndex(MinTime(ticks), width) <= BucketIndex(t.time, width) <= BucketIndex(MaxTime(ticks), width)
    {
      IndexMonotone(MinTime(ticks), t.time, width);
      IndexMonotone(t.time, MaxTime(ticks), width);
    }
  }

  /** The resampled bars are in strictly increasing bucket order, one per bucket that holds a
      tick: each is the aggregate of its own non-empty bucket, and every tick's bucket has a bar.
      So a non-empty tick list always gives at least one bar. */
  lemma ResampleShape(ticks: seq<Tick>, seconds: int)
    requires seconds > 0
    ensures var bars := Resample(ticks, seconds);
      && StrictlyIncreasing(bars)
      && BarsMatchBuckets(ticks, Width(seconds), bars)
      && (forall t :: t in ticks ==> HasBarAt(bars, Bucket(t.time, Width(seconds))))
      && (bars == [] <==> ticks == [])
  {
    if ticks != [] {
      var w := Width(seconds);
      var lo := BucketIndex(MinTime(ticks), w);
      var stop := BucketIndex(MaxTime(ticks), w) + 1;
      var bars := BarsFrom(ticks, w, lo, stop);
      ResampleUnfold(ticks, w, lo, stop);
      BarsFromShape(ticks, w, lo, stop);
      TicksWithinSpan(ticks, w);
      forall t | t in ticks
        ensures HasBarAt(bars, Bucket(t.time, w))
      {
        BarsFromComplete(ticks, w, lo, stop, t);
      }
      assert ticks[0] in ticks;
    }
  }

  /** Every resampled bar has low <= open, close <= high, and its volume is its bucket's
      summed quantity. */
  lemma ResampleBarsConsistent(ticks: seq<Tick>, seconds: int, i: nat)
    requires seconds > 0 && i < |Resample(ticks, seconds)|
    ensures var bar := Resample(ticks, seconds)[i];
      && bar.low <= bar.open <= bar.high && bar.low <= bar.close <= bar.high
      && bar.volume == SumQuantity(InBucketAt(ticks, bar.start, Width(seconds)))
  {
    ResampleShape(ticks, seconds);
    var bar := Resample(ticks, seconds)[i];
    AggregateBounds(bar.start, InBucketAt(ticks, bar.start, Width(seconds)));
  }

  // ---------------------------------------------------------------------------
  // Volume is conserved

  function SumVolume(bars: seq<Bar>): real
  {
    if bars == [] then 0.0 else bars[0].volume + SumVolume(bars[1..])
  }

  lemma {:induction false} SumQuantityAppend(a: seq<Tick>, b: seq<Tick>)
    ensures SumQuantity(a + b) == SumQuantity(a) + SumQuantity(b)
  {
    if a == [] {
      assert a + b == b;
    } else {
      assert (a + b)[0] == a[0] && (a + b)[1..] == a[1..] + b;
      SumQuantityAppend(a[1..], b);
    }
  }

  /** Splitting a range of buckets into its first bucket and the rest splits its volume. */
  lemma {:induction false} RangeSplit(ticks: seq<Tick>, width: int, k: int, stop: int)
    requires width > 0 && k < stop
    ensures SumQuantity(InRange(ticks, width, k, stop))
      == SumQuantity(InBucket(ticks, k, width)) + SumQuantity(InRange(ticks, width, k + 1, stop))
  {
    if ticks != [] { RangeSplit(ticks[1..], width, k, stop); }
  }

  /** A range that covers every tick keeps them all. */
  lemma {:induction false} RangeCoversAll(ticks: seq<Tick>, width: int, lo: int, stop: int)
    requires width > 0
    requires forall t :: t in ticks ==> lo <= BucketIndex(t.time, width) < stop
    ensures InRange(ticks, width, lo, stop) == ticks
  {
    if ticks != [] {
      assert ticks[0] in ticks;
      assert forall t :: t in ticks[1..] ==> t in ticks;
      RangeCoversAll(ticks[1..], width, lo, stop);
    }
  }

  lemma {:induction false} BarsFromVolume(ticks: seq<Tick>, width: int, k: int, stop: int)
    requires width > 0
    ensures SumVolume(BarsFrom(ticks, width, k, stop)) == SumQuantity(InRange(ticks, width, k, stop))
    decreases stop - k
  {
    if k < stop {
      BarsFromVolume(ticks, width, k + 1, stop);
      RangeSplit(ticks, width, k, stop);
      var bars := BarsFrom(ticks, width, k, stop);
      if InBucket(ticks, k, width) != [] {
        assert bars[1..] == BarsFrom(ticks, width, k + 1, stop);
      }
    } else {
      EmptyRange(ticks, width, k, stop);
    }
  }

  lemma {:induction false} EmptyRange(ticks: seq<Tick>, width: int, lo: int, stop: int)
    requires width > 0 && stop <= lo
    ensures InRange(ticks, width, lo, stop) == []
  {
    if ticks != [] { EmptyRange(ticks[1..], width, lo, stop); }
  }

  /** The bars' volumes add up exactly to the quantities of all resampled ticks. */
  lemma ResampleConservesVolume(ticks: seq<Tick>, seconds: int)
    requires seconds > 0
    ensures SumVolume(Resample(ticks, seconds)) == SumQuantity(ticks)
  {
    if ticks != [] {
      var w := Width(seconds);
      var lo := BucketIndex(MinTime(ticks), w);
      var stop := BucketIndex(MaxTime(ticks), w) + 1;
      ResampleUnfold(ticks, w, lo, stop);
      TicksWithinSpan(ticks, w);
      RangeCoversAll(ticks, w, lo, stop);
      BarsFromVolume(ticks, w, lo, stop);
    }
  }

  // ---------------------------------------------------------------------------
  // Open and close in arrival order

  predicate Nondecreasing(ticks: seq<Tick>)
  {
    forall i, j :: 0 <= i < j < |ticks| ==> ticks[i].time <= ticks[j].time
  }

  lemma {:induction false} InBucketAtNondecreasing(ticks: seq<Tick>, start: int, width: int)
    requires width > 0 && Nondecreasing(ticks)
    ensures Nondecreasing(InBucketAt(ticks, start, width))
  {
    if ticks != [] {
      InBucketAtNondecreasing(ticks[1..], start, width);
      var rest := InBucketAt(ticks[1..], start, width);
      if Bucket(ticks[0].time, width) == start {
        var b := [ticks[0]] + rest;
        forall j | 0 < j < |b| ensures ticks[0].time <= b[j].time {
          assert b[j] in rest;
          InBucketAtMembers(ticks[1..], start, width, b[j]);
        }
      }
    }
  }

  /** Time-ordered ticks span from the first tick's time to the last's. */
  lemma SortedSpan(ticks: seq<Tick>)
    requires ticks != [] && Nondecreasing(ticks)
    ensures MinTime(ticks) == ticks[0].time && MaxTime(ticks) == ticks[|ticks| - 1].time
  {
  }

  /** When ticks arrive in time order, as a symbol's trade stream delivers them, the open of a
      bucket is its first tick's price and the close its last tick's price. */
  lemma SortedOpenClose(ticks: seq<Tick>)
    requires ticks != [] && Nondecreasing(ticks)
    ensures OpenPrice(ticks) == ticks[0].price
    ensures ClosePrice(ticks) == ticks[|ticks| - 1].price
  {
    var n := |ticks| - 1;
    SortedSpan(ticks);
    assert FirstIndexAt(ticks, MinTime(ticks)) == 0;
    assert LastIndexAt(ticks, MaxTime(ticks)) == n;
  }

  /** For time-ordered ticks each bar opens at the first and closes at the last tick of its
      bucket in arrival order. */
  lemma ResampleSortedOpenClose(ticks: seq<Tick>, seconds: int, i: nat)
    requires seconds > 0 && Nondecreasing(ticks) && i < |Resample(ticks, seconds)|
    ensures var bar := Resample(ticks, seconds)[i];
      var b := InBucketAt(ticks, bar.start, Width(seconds));
      b != [] && bar.open == b[0].price && bar.close == b[|b| - 1].price
  {
    ResampleBar(ticks, seconds, i);
    BarOpenClose(ticks, Width(seconds), Resample(ticks, seconds)[i]);
  }

  /** In time-ordered ticks the bar of a non-empty bucket opens at the bucket's first and
      closes at its last tick. */
  lemma BarOpenClose(ticks: seq<Tick>, width: int, bar: Bar)
    requires width > 0 && Nondecreasing(ticks)
    requires InBucketAt(ticks, bar.start, width) != []
    requires bar == Aggregate(bar.start, InBucketAt(ticks, bar.start, width))
    ensures var b := InBucketAt(ticks, bar.start, width);
      bar.open == b[0].price && bar.close == b[|b| - 1].price
  {
    InBucketAtNondecreasing(ticks, bar.start, width);
    SortedOpenClose(InBucketAt(ticks, bar.start, width));
  }

  /** The `i`-th bar is the aggregate of its non-empty bucket. */
  lemma ResampleBar(ticks: seq<Tick>, seconds: int, i: nat)
    requires seconds > 0 && i < |Resample(ticks, seconds)|
    ensures var bar := Resample(ticks, seconds)[i];
      var b := InBucketAt(ticks, bar.start, Width(seconds));
      b != [] && bar == Aggregate(bar.start, b)
  {
    ResampleShape(ticks, seconds);
  }

  /** Four ticks of one second: prices 100, 101, 99, 102, one unit each, give a single bar
      open 100, high 102, low 99, close 102, volume 4. */
  lemma OneSecondScenario()
    ensures Resample(ScenarioTicks(), 1) == [Bar(5000, 100.0, 102.0, 99.0, 102.0, 4.0)]
  {
    var ticks := ScenarioTicks();
    ScenarioSpan();
    ResampleUnfold(ticks, 1000, 5, 6);
    ScenarioBucket();
    assert BarsFrom(ticks, 1000, 5, 6) == [Aggregate(5000, ticks)];
    ScenarioAggregate();
  }

  function ScenarioTicks(): seq<Tick>
  {
    [Tick("A", 5000, 100.0, 1.0), Tick("A", 5250, 101.0, 1.0),
     Tick("A", 5500, 99.0, 1.0), Tick("A", 5999, 102.0, 1.0)]
  }

  lemma ScenarioSorted()
    ensures Nondecreasing(ScenarioTicks())
  {
  }

  lemma ScenarioSpan()
    ensures MinTime(ScenarioTicks()) == 5000 && MaxTime(ScenarioTicks()) == 5999
  {
    ScenarioSorted();
    SortedSpan(ScenarioTicks());
  }

  lemma ScenarioBucket()
    ensures InBucket(ScenarioTicks(), 5, 1000) == ScenarioTicks()
  {
    var ticks := ScenarioTicks();
    forall i | 0 <= i < |ticks| ensures BucketIndex(ticks[i].time, 1000) == 5 {
      IndexOfInterval(5, 1000, ticks[i].time);
    }
    InBucketWhole(ticks, 5, 1000);
  }

  lemma ScenarioAggregate()
    ensures Aggregate(5000, ScenarioTicks()) == Bar(5000, 100.0, 102.0, 99.0, 102.0, 4.0)
  {
    var ticks := ScenarioTicks();
    ScenarioSorted();
    SortedOpenClose(ticks);
    ScenarioMaxMin();
    ScenarioVolume();
  }

  lemma ScenarioMaxMin()
    ensures MaxPrice(ScenarioTicks()) == 102.0 && MinPrice(ScenarioTicks()) == 99.0
  {
    var ticks := ScenarioTicks();
    var hi, lo := MaxPrice(ticks), MinPrice(ticks);
    assert hi >= ticks[3].price && lo <= ticks[2].price;
    assert forall i :: 0 <= i < |ticks| ==> 99.0 <= ticks[i].price <= 102.0;
  }

  lemma ScenarioVolume()
    ensures SumQuantity(ScenarioTicks()) == 4.0
  {
    var ticks := ScenarioTicks();
    assert SumQuantity(ticks[3..]) == 1.0 by { assert ticks[3..][1..] == []; }
    assert SumQuantity(ticks[2..]) == 2.0 by { assert ticks[2..][1..] == ticks[3..]; }
    assert SumQuantity(ticks[1..]) == 3.0 by { assert ticks[1..][1..] == ticks[2..]; }
  }
}
