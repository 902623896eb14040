/** Application constants used by the resampler and the pair analysis. */
module Config {

  /** The resampling timeframes: label and bucket width in seconds. */
  const Timeframes: seq<(string, nat)> := [("1s", 1), ("1m", 60), ("5m", 300)]

  /** The rolling window the serving layer uses when the caller gives none. */
  const DefaultRollingWindow: nat := 20

  /** One day in milliseconds: pandas bins from midnight of the first timestamp's day. */
  const DayMillis: int := 86_400_000

  /** Every configured timeframe has a positive width that divides one day. */
  lemma TimeframesDivideDay()
    ensures forall i :: 0 <= i < |Timeframes| ==> Timeframes[i].1 > 0 && 86400 % Timeframes[i].1 == 0
  {
  }

  /** Shifting by a whole number of widths shifts the quotient by that number. */
  lemma DivShift(t: int, m: int, w: int)
    requires w > 0
    ensures (t - m * w) / w == t / w - m
  {
    var q, r := t / w, t % w;
    assert t == q * w + r && 0 <= r < w;
    assert t - m * w == (q - m) * w + r;
    DivUnique(t - m * w, w, q - m, r);
  }

  /** The Euclidean quotient is the only `q` with `a == q * w + r` and `0 <= r < w`. */
  lemma DivUnique(a: int, w: int, q: int, r: int)
    requires w > 0 && 0 <= r < w && a == q * w + r
    ensures a / w == q
  {
    var q', r' := a / w, a % w;
    assert a == q' * w + r' && 0 <= r' < w;
    if q > q' {
      assert (q - q') * w == q * w - q' * w;
      MulAtLeast(q - q', w);
    } else if q < q' {
      assert (q' - q) * w == q' * w - q * w;
      MulAtLeast(q' - q, w);
    }
  }

  lemma {:induction false} MulAtLeast(d: int, w: int)
    requires d >= 1 && w > 0
    ensures d * w >= w
    decreases d
  {
    if d > 1 {
      MulAtLeast(d - 1, w);
      assert d * w == (d - 1) * w + w;
    }
  }

  /** Binning a timestamp `t` (milliseconds) into a configured timeframe from the midnight of
      any day gives the same bucket start as `floor(t / width) * width`. */
  lemma BinFromMidnight(i: int, day: int, t: int)
    requires 0 <= i < |Timeframes|
    ensures var w := Timeframes[i].1 * 1000;
      var origin := day * DayMillis;
      origin + ((t - origin) / w) * w == (t / w) * w
  {
    var w := Timeframes[i].1 * 1000;
    var perDay := 86400 / Timeframes[i].1;
    assert day * DayMillis == (day * perDay) * w;
    DivShift(t, day * perDay, w);
  }
}
