/** `DataStorage`: per-symbol bounded tick buffers, the in-memory table of resampled bars and
    the persisted OHLCV table, keyed by symbol, timeframe and bar start. */
module Storage {
  import opened Wrappers
  import opened Ohlcv

  /** `deque(maxlen=10000)`: the capacity of every symbol's tick buffer. */
  const Capacity: nat := 10000

  /** `get_recent_ticks`'s default limit, the one `resample_to_ohlcv` uses. */
  const RecentLimit: int := 1000

  /** `resample_to_ohlcv` persists the last 100 bars. */
  const PersistTail: int := 100

  /** A row key of the `ohlcv` table, `UNIQUE(symbol, timeframe, timestamp)`. */
  type Key = (string, string, int)

  function Min(a: int, b: int): int { if a <= b then a else b }

  /** The last `min(n, |s|)` elements of `s`, in order. */
  function Newest<T>(s: seq<T>, n: nat): (r: seq<T>)
    ensures |r| == Min(n, |s|)
  {
    s[|s| - Min(n, |s|)..]
  }

  /** `Newest(s, n)` is the suffix of `s` of its length: element `i` of it is element
      `|s| - min(n, |s|) + i` of `s`. */
  lemma NewestIsSuffix<T>(s: seq<T>, n: nat)
    ensures var r := Newest(s, n);
      forall i :: 0 <= i < |r| ==> r[i] == s[|s| - |r| + i]
  {
  }

  /** Python's `s[start:]`: a negative start counts from the end. */
  function SliceFrom<T>(s: seq<T>, start: int): (r: seq<T>)
    ensures start >= 0 ==> r == s[Min(start, |s|)..]
    ensures start < 0 ==> r == Newest(s, -start)
  {
    if start >= 0 then s[Min(start, |s|)..] else s[|s| - Min(-start, |s|)..]
  }

  // ---------------------------------------------------------------------------
  // The bounded buffer

  /** `deque.append` on a buffer of at most `Capacity` ticks: the oldest is evicted when full. */
  function Appended(buf: seq<Tick>, t: Tick): (r: seq<Tick>)
    requires |buf| <= Capacity
  {
    if |buf| < Capacity then buf + [t] else buf[1..] + [t]
  }

  /** The buffer after an append is the newest `Capacity` ticks of the buffer and the tick. */
  lemma AppendedIsNewest(buf: seq<Tick>, t: Tick)
    requires |buf| <= Capacity
    ensures Appended(buf, t) == Newest(buf + [t], Capacity)
  {
  }

  /** An append keeps the buffer within capacity and adds no tick but the new one. */
  lemma AppendedMembers(buf: seq<Tick>, t: Tick)
    requires |buf| <= Capacity
    ensures |Appended(buf, t)| <= Capacity
    ensures forall x :: x in Appended(buf, t) ==> x in buf || x == t
  {
  }

  /** The buffer after appending `ts` one by one. */
  function AppendedAll(buf: seq<Tick>, ts: seq<Tick>): (r: seq<Tick>)
    requires |buf| <= Capacity
    ensures |r| <= Capacity
    decreases |ts|
  {
    if ts == [] then buf else Appended(AppendedAll(buf, ts[..|ts| - 1]), ts[|ts| - 1])
  }

  lemma NewestTwice<T>(s: seq<T>, x: T, n: nat)
    ensures Newest(Newest(s, n) + [x], n) == Newest(s + [x], n)
  {
  }

  /** Whatever is appended, the buffer holds the newest `Capacity` ticks, oldest first:
      after `n` appends to an empty buffer, exactly the last `min(n, 10000)` ticks. */
  lemma {:induction false} BufferKeepsNewest(buf: seq<Tick>, ts: seq<Tick>)
    requires |buf| <= Capacity
    ensures AppendedAll(buf, ts) == Newest(buf + ts, Capacity)
    decreases |ts|
  {
    if ts == [] {
      assert buf + ts == buf;
    } else {
      var init, last := ts[..|ts| - 1], ts[|ts| - 1];
      var prev := AppendedAll(buf, init);
      assert prev == Newest(buf + init, Capacity) by { BufferKeepsNewest(buf, init); }
      assert AppendedAll(buf, ts) == Newest(prev + [last], Capacity) by { AppendedIsNewest(prev, last); }
      assert Newest(prev + [last], Capacity) == Newest((buf + init) + [last], Capacity) by {
        NewestTwice(buf + init, last, Capacity);
      }
      assert buf + ts == (buf + init) + [last];
    }
  }

  // ---------------------------------------------------------------------------
  // Slicing reads

  /** `get_recent_ticks`: `ticks[-limit:] if len(ticks) > limit else ticks`. */
  function RecentTicks(ticks: seq<Tick>, limit: int): (r: seq<Tick>)
    ensures limit > 0 ==> r == Newest(ticks, limit)
    ensures limit == 0 ==> r == ticks
    ensures limit < 0 ==> r == ticks[Min(-limit, |ticks|)..]
  {
    if |ticks| > limit then SliceFrom(ticks, -limit) else ticks
  }

  /** pandas `DataFrame.tail(n)`: the last `n` rows, none for `n == 0`, and all but the first
      `|n|` rows for negative `n`. */
  function Tail(bars: seq<Bar>, n: int): (r: seq<Bar>)
    ensures n > 0 ==> r == Newest(bars, n)
    ensures n == 0 ==> r == []
    ensures n < 0 ==> r == bars[Min(-n, |bars|)..]
  {
    if n == 0 then [] else SliceFrom(bars, -n)
  }

  // ---------------------------------------------------------------------------
  // The persisted table

  function KeyOf(symbol: string, timeframe: string, bar: Bar): Key
  {
    (symbol, timeframe, bar.start)
  }

  /** `INSERT OR REPLACE` of the rows one after the other: no key is removed, new keys belong
      to (symbol, timeframe), and the rows of other symbols and timeframes are untouched. */
  function UpsertAll(table: map<Key, Bar>, symbol: string, timeframe: string, rows: seq<Bar>): (r: map<Key, Bar>)
    ensures table.Keys <= r.Keys
    ensures forall k :: k in r && k !in table ==> k.0 == symbol && k.1 == timeframe
    ensures forall k :: k in table && (k.0 != symbol || k.1 != timeframe) ==> r[k] == table[k]
    decreases |rows|
  {
    if rows == [] then table
    else
      var last := rows[|rows| - 1];
      UpsertAll(table, symbol, timeframe, rows[..|rows| - 1])[KeyOf(symbol, timeframe, last) := last]
  }

  /** The last row among `rows` that starts at `start`, if any. */
  function LastAt(rows: seq<Bar>, start: int): (r: Option<Bar>)
    ensures r.Some? <==> exists i :: 0 <= i < |rows| && rows[i].start == start
    ensures r.Some? ==> r.value in rows && r.value.start == start
    decreases |rows|
  {
    if rows == [] then None
    else if rows[|rows| - 1].start == start then Some(rows[|rows| - 1])
    else
      var r := LastAt(rows[..|rows| - 1], start);
      assert forall i :: 0 <= i < |rows| - 1 ==> rows[..|rows| - 1][i] == rows[i];
      r
  }

  /** After the upserts a key holds the last row written for it, and every other key keeps
      its old row; no key is removed. */
  lemma {:induction false} UpsertAllLookup(table: map<Key, Bar>, symbol: string, timeframe: string,
                                           rows: seq<Bar>, key: Key)
    ensures var t := UpsertAll(table, symbol, timeframe, rows);
      var written := key.0 == symbol && key.1 == timeframe && LastAt(rows, key.2).Some?;
      && (key in t <==> key in table || written)
      && (written ==> t[key] == LastAt(rows, key.2).value)
      && (!written && key in table ==> t[key] == table[key])
    decreases |rows|
  {
    if rows != [] {
      UpsertAllLookup(table, symbol, timeframe, rows[..|rows| - 1], key);
    }
  }

  /** Writing the same rows again changes nothing: one row per key, holding the latest values. */
  lemma UpsertAllIdempotent(table: map<Key, Bar>, symbol: string, timeframe: string, rows: seq<Bar>)
    ensures var t := UpsertAll(table, symbol, timeframe, rows);
      UpsertAll(t, symbol, timeframe, rows) == t
  {
    var t := UpsertAll(table, symbol, timeframe, rows);
    var t2 := UpsertAll(t, symbol, timeframe, rows);
    forall key | true ensures (key in t2 <==> key in t) && (key in t ==> t2[key] == t[key]) {
      UpsertAllLookup(table, symbol, timeframe, rows, key);
      UpsertAllLookup(t, symbol, timeframe, rows, key);
    }
  }

  /** Rows with distinct starts, such as the bars of one resample, each land under their own key. */
  lemma UpsertAllStoresEach(table: map<Key, Bar>, symbol: string, timeframe: string, rows: seq<Bar>, i: nat)
    requires StrictlyIncreasing(rows) && i < |rows|
    ensures var t := UpsertAll(table, symbol, timeframe, rows);
      KeyOf(symbol, timeframe, rows[i]) in t && t[KeyOf(symbol, timeframe, rows[i])] == rows[i]
  {
    UpsertAllLookup(table, symbol, timeframe, rows, KeyOf(symbol, timeframe, rows[i]));
    LastAtDistinct(rows, i);
  }

  lemma {:induction false} LastAtDistinct(rows: seq<Bar>, i: nat)
    requires StrictlyIncreasing(rows) && i < |rows|
    ensures LastAt(rows, rows[i].start) == Some(rows[i])
    decreases |rows|
  {
    if i < |rows| - 1 {
      var init := rows[..|rows| - 1];
      assert init[i] == rows[i];
      assert StrictlyIncreasing(init);
      LastAtDistinct(init, i);
    }
  }

  /** The tail of a strictly increasing bar sequence is strictly increasing. */
  lemma TailIncreasing(bars: seq<Bar>, n: int)
    requires StrictlyIncreasing(bars)
    ensures StrictlyIncreasing(Tail(bars, n))
  {
    var r := Tail(bars, n);
    var d := |bars| - |r|;
    assert r == bars[d..];
    forall i, j | 0 <= i < j < |r| ensures r[i].start < r[j].start {
      assert r[i] == bars[d + i] && r[j] == bars[d + j];
    }
  }

  // ---------------------------------------------------------------------------
  // The storage object

  /** The symbols are listed once each, exactly the symbols with a buffer; every buffer is
      within capacity and holds only its own symbol's ticks. */
  ghost predicate BuffersValid(symbols: seq<string>, buffers: map<string, seq<Tick>>)
  {
    && (forall i, j :: 0 <= i < j < |symbols| ==> symbols[i] != symbols[j])
    && (forall s :: s in buffers <==> s in symbols)
    && (forall s :: s in buffers ==> |buffers[s]| <= Capacity)
    && (forall s, t :: s in buffers && t in buffers[s] ==> t.symbol == s)
  }

  lemma AppendKeepsValid(symbols: seq<string>, buffers: map<string, seq<Tick>>, tick: Tick,
                         after: map<string, seq<Tick>>)
    requires BuffersValid(symbols, buffers) && tick.symbol in buffers
    requires after == buffers[tick.symbol := Appended(buffers[tick.symbol], tick)]
    ensures BuffersValid(symbols, after)
  {
    AppendedMembers(buffers[tick.symbol], tick);
  }

  lemma NewSymbolKeepsValid(symbols: seq<string>, buffers: map<string, seq<Tick>>, symbol: string,
                            symbols': seq<string>, buffers': map<string, seq<Tick>>)
    requires BuffersValid(symbols, buffers) && symbol !in buffers
    requires symbols' == symbols + [symbol] && buffers' == buffers[symbol := []]
    ensures BuffersValid(symbols', buffers')
  {
  }

  class DataStorage {
    /** The symbols of `tick_buffer` in insertion order (a dict keeps that order). */
    var symbols: seq<string>
    /** `tick_buffer`: each symbol's bounded buffer, oldest first. */
    var buffers: map<string, seq<Tick>>
    /** `resampled_data[symbol][timeframe]`. */
    var resampled: map<(string, string), seq<Bar>>
    /** The rows of the `ohlcv` table. */
    var table: map<Key, Bar>

    ghost predicate Valid()
      reads this
    {
      BuffersValid(symbols, buffers)
    }

    /** A fresh store. `CREATE TABLE IF NOT EXISTS` keeps the rows of an existing database. */
    constructor(stored: map<Key, Bar>)
      ensures Valid()
      ensures symbols == [] && buffers == map[] && resampled == map[] && table == stored
    {
      symbols, buffers, resampled, table := [], map[], map[], stored;
    }

    /** The buffer of `symbol`; a missing symbol reads as an empty buffer. */
    function Buffer(symbol: string): (r: seq<Tick>)
      reads this
      ensures symbol !in buffers ==> r == []
    {
      if symbol in buffers then buffers[symbol] else []
    }

    /** `tick_buffer[symbol]`, which inserts an empty buffer for a new symbol. */
    method Touch(symbol: string)
      requires Valid()
      modifies this
      ensures Valid()
      ensures buffers == old(buffers)[symbol := old(Buffer(symbol))]
      ensures symbols == if symbol in old(buffers) then old(symbols) else old(symbols) + [symbol]
      ensures resampled == old(resampled) && table == old(table)
    {
      if symbol !in buffers {
        var symbols', buffers' := symbols + [symbol], buffers[symbol := []];
        NewSymbolKeepsValid(symbols, buffers, symbol, symbols', buffers');
        symbols, buffers := symbols', buffers';
      }
    }

    /** `add_tick`: the tick goes to the end of its own symbol's buffer, the oldest tick of
        a full buffer is evicted, and every other buffer is unchanged. */
    method AddTick(tick: Tick)
      requires Valid()
      modifies this
      ensures Valid()
      ensures buffers == old(buffers)[tick.symbol := Appended(old(Buffer(tick.symbol)), tick)]
      ensures symbols == if tick.symbol in old(buffers) then old(symbols) else old(symbols) + [tick.symbol]
      ensures resampled == old(resampled) && table == old(table)
    {
      Touch(tick.symbol);
      var before := buffers;
      var after := before[tick.symbol := Appended(before[tick.symbol], tick)];
      AppendKeepsValid(symbols, before, tick, after);
      buffers := after;
    }

    /** `get_recent_ticks`: the newest `limit` ticks of the buffer, in order (all of them for
        `limit == 0`). Looking up a new symbol gives it an empty buffer. */
    method GetRecentTicks(symbol: string, limit: int) returns (ticks: seq<Tick>)
      requires Valid()
      modifies this
      ensures Valid()
      ensures ticks == RecentTicks(old(Buffer(symbol)), limit)
      ensures buffers == old(buffers)[symbol := old(Buffer(symbol))]
      ensures symbols == if symbol in old(buffers) then old(symbols) else old(symbols) + [symbol]
      ensures resampled == old(resampled) && table == old(table)
    {
      Touch(symbol);
      ticks := RecentTicks(buffers[symbol], limit);
    }

    /** `_persist_ohlcv`: upserts the rows one by one; an empty frame writes nothing. */
    method PersistOhlcv(symbol: string, timeframe: string, rows: seq<Bar>)
      modifies this
      ensures table == UpsertAll(old(table), symbol, timeframe, rows)
      ensures rows == [] ==> table == old(table)
      ensures symbols == old(symbols) && buffers == old(buffers) && resampled == old(resampled)
    {
      if rows == [] {
        return;
      }
      var i := 0;
      while i < |rows|
        invariant 0 <= i <= |rows|
        invariant table == UpsertAll(old(table), symbol, timeframe, rows[..i])
        invariant symbols == old(symbols) && buffers == old(buffers) && resampled == old(resampled)
      {
        var row := rows[i];
        assert rows[..i + 1][..i] == rows[..i];
        table := table[KeyOf(symbol, timeframe, row) := row];
        i := i + 1;
      }
      assert rows[..i] == rows;
    }

    /** `resample_to_ohlcv`: with fewer than two recent ticks nothing is stored and the result
        is `None`; otherwise the bars of the newest 1000 ticks replace the in-memory table of
        `(symbol, timeframe)` and their last 100 are upserted into the persisted table. */
    method ResampleToOhlcv(symbol: string, timeframe: string, seconds: int) returns (r: Option<seq<Bar>>)
      requires Valid() && seconds > 0
      modifies this
      ensures Valid()
      ensures var ticks := RecentTicks(old(Buffer(symbol)), RecentLimit);
        && (|ticks| < 2 ==> r == None && resampled == old(resampled) && table == old(table))
        && (|ticks| >= 2 ==>
              && r == Some(Resample(ticks, seconds))
              && resampled == old(resampled)[(symbol, timeframe) := Resample(ticks, seconds)]
              && table == UpsertAll(old(table), symbol, timeframe, Tail(Resample(ticks, seconds), PersistTail)))
      ensures r.Some? ==> forall limit: nat :: GetOhlcv(symbol, timeframe, limit) == Newest(r.value, limit)
      ensures buffers == old(buffers)[symbol := old(Buffer(symbol))]
      ensures symbols == if symbol in old(buffers) then old(symbols) else old(symbols) + [symbol]
    {
      var ticks := GetRecentTicks(symbol, RecentLimit);
      if |ticks| < 2 {
        return None;
      }
      var bars := Resample(ticks, seconds);
      StoreBars(symbol, timeframe, bars);
      return Some(bars);
    }

    /** The last two steps of `resample_to_ohlcv`: the bars replace the in-memory table of
        `(symbol, timeframe)` and their last 100 are upserted. */
    method StoreBars(symbol: string, timeframe: string, bars: seq<Bar>)
      requires Valid()
      modifies this
      ensures Valid()
      ensures resampled == old(resampled)[(symbol, timeframe) := bars]
      ensures table == UpsertAll(old(table), symbol, timeframe, Tail(bars, PersistTail))
      ensures forall limit: nat :: GetOhlcv(symbol, timeframe, limit) == Newest(bars, limit)
      ensures buffers == old(buffers) && symbols == old(symbols)
    {
      resampled := resampled[(symbol, timeframe) := bars];
      PersistOhlcv(symbol, timeframe, Tail(bars, PersistTail));
    }

    /** `get_ohlcv`: the last `limit` bars of the latest resample of `(symbol, timeframe)`, and
        nothing when it was never resampled. */
    function GetOhlcv(symbol: string, timeframe: string, limit: int): (r: seq<Bar>)
      reads this
      ensures (symbol, timeframe) !in resampled ==> r == []
      ensures (symbol, timeframe) in resampled && limit >= 0 ==>
        r == Newest(resampled[(symbol, timeframe)], limit)
      ensures (symbol, timeframe) in resampled && limit < 0 ==>
        var bars := resampled[(symbol, timeframe)]; r == bars[Min(-limit, |bars|)..]
    {
      if (symbol, timeframe) in resampled then Tail(resampled[(symbol, timeframe)], limit) else []
    }

    /** `get_all_symbols`: every symbol that has a buffer, once each, in first-seen order. */
    function AllSymbols(): (r: seq<string>)
      requires Valid()
      reads this
      ensures forall s :: s in r <==> s in buffers
      ensures forall i, j :: 0 <= i < j < |r| ==> r[i] != r[j]
    {
      symbols
    }
  }
}
