/** The arithmetic of the indicator service
    (src/infrastructure/indicators/ccxt_service.py) over exact reals: the
    last-closed-candle target, Wilder's RSI series, the simple moving
    average at an index, the SMA-cross rule and the choice of the RSI value
    for a target timestamp. */
module Indicators {

  import opened Wrappers
  import Arith
  import opened Slices

  // ---------------------------------------------------------------------
  // Target candle

  /** Python's `a // b`: the floor of the exact quotient, for either sign
      of a non-zero divisor. */
  function PyFloorDiv(a: int, b: int): (q: int)
    requires b != 0
    ensures b > 0 ==> q * b <= a < q * b + b
    ensures b < 0 ==> q * b >= a > q * b + b
  {
    if b > 0 then a / b else (-a) / (-b)
  }

  /** `((t_ms - 1) // frame_ms) * frame_ms`: the opening time of the candle
      that contains the millisecond just before `tMs`. */
  function TargetMs(tMs: int, frameMs: int): int
    requires frameMs != 0
  {
    PyFloorDiv(tMs - 1, frameMs) * frameMs
  }

  /** For a positive frame the target is on the frame grid and its candle
      `[target, target + frame)` is the last one that has fully closed at
      `tMs`: it ends at or before `tMs` and the next one does not. */
  lemma LastClosedCandle(tMs: int, frameMs: int)
    requires frameMs > 0
    ensures var target := TargetMs(tMs, frameMs);
      && target % frameMs == 0
      && target < tMs <= target + frameMs
  {
    Arith.MultipleMod(PyFloorDiv(tMs - 1, frameMs), frameMs);
  }

  // ---------------------------------------------------------------------
  // Sums and the RSI series

  function Sum(xs: seq<real>): real {
    if |xs| == 0 then 0.0 else xs[0] + Sum(xs[1..])
  }

  predicate AllNonNegative(xs: seq<real>) {
    forall i :: 0 <= i < |xs| ==> xs[i] >= 0.0
  }

  lemma {:induction false} SumNonNegative(xs: seq<real>)
    ensures AllNonNegative(xs) ==> Sum(xs) >= 0.0
    decreases |xs|
  {
    if |xs| > 0 {
      SumNonNegative(xs[1..]);
    }
  }

  lemma {:induction false} SumZero(xs: seq<real>)
    requires forall i :: 0 <= i < |xs| ==> xs[i] == 0.0
    ensures Sum(xs) == 0.0
    decreases |xs|
  {
    if |xs| > 0 {
      SumZero(xs[1..]);
    }
  }

  lemma {:induction false} SumConcat(a: seq<real>, b: seq<real>)
    ensures Sum(a + b) == Sum(a) + Sum(b)
    decreases |a|
  {
    if |a| == 0 {
      assert a + b == b;
    } else {
      assert (a + b)[1..] == a[1..] + b;
      SumConcat(a[1..], b);
    }
  }

  lemma {:induction false} SumConstant(xs: seq<real>, c: real)
    requires forall i :: 0 <= i < |xs| ==> xs[i] == c
    ensures Sum(xs) == |xs| as real * c
    decreases |xs|
  {
    if |xs| > 0 {
      SumConstant(xs[1..], c);
    }
  }

  function Max0(x: real): real {
    if x > 0.0 then x else 0.0
  }

  /** `gains[i] = max(closes[i+1] - closes[i], 0)`. */
  function Gains(closes: seq<real>): (g: seq<real>)
    requires |closes| >= 1
    ensures |g| == |closes| - 1 && AllNonNegative(g)
  {
    seq(|closes| - 1, i requires 0 <= i < |closes| - 1 => Max0(closes[i + 1] - closes[i]))
  }

  /** `losses[i] = max(closes[i] - closes[i+1], 0)`. */
  function Losses(closes: seq<real>): (l: seq<real>)
    requires |closes| >= 1
    ensures |l| == |closes| - 1 && AllNonNegative(l)
  {
    seq(|closes| - 1, i requires 0 <= i < |closes| - 1 => Max0(closes[i] - closes[i + 1]))
  }

  /** Wilder's smoothed average as it stands when the RSI at index `i` is
      computed: the mean of the first `p` values at `i == p`, then
      `(avg * (p - 1) + xs[i - 1]) / p` for each later index. */
  function WilderAvg(xs: seq<real>, p: nat, i: nat): (a: real)
    requires 1 <= p <= i <= |xs|
    ensures AllNonNegative(xs) ==> a >= 0.0
    decreases i
  {
    if i == p then
      SumNonNegative(xs[..p]);
      Sum(xs[..p]) / p as real
    else WilderNext(WilderAvg(xs, p, i - 1), xs[i - 1], p)
  }

  /** `(avg * (period - 1) + x) / period`. */
  function WilderNext(avg: real, x: real, p: nat): (r: real)
    requires p >= 1
    ensures avg >= 0.0 && x >= 0.0 ==> r >= 0.0
    ensures avg > 0.0 && x > 0.0 ==> r > 0.0
    ensures avg == 0.0 && x == 0.0 ==> r == 0.0
  {
    assert avg >= 0.0 ==> avg * (p - 1) as real >= 0.0;
    (avg * (p - 1) as real + x) / p as real
  }

  lemma {:induction false} WilderAvgZero(xs: seq<real>, p: nat, i: nat)
    requires 1 <= p <= i <= |xs|
    requires forall j :: 0 <= j < |xs| ==> xs[j] == 0.0
    ensures WilderAvg(xs, p, i) == 0.0
    decreases i
  {
    if i == p {
      SumZero(xs[..p]);
    } else {
      WilderAvgZero(xs, p, i - 1);
    }
  }

  /** `compute_rsi`: 100 when the average loss is zero, otherwise
      `100 - 100 / (1 + ag / al)`; for non-negative averages it lies in
      [0, 100]. */
  function ComputeRsi(ag: real, al: real): (r: real)
    requires ag >= 0.0 && al >= 0.0
    ensures 0.0 <= r <= 100.0
    ensures al == 0.0 ==> r == 100.0
    ensures ag == 0.0 && al > 0.0 ==> r == 0.0
  {
    if al == 0.0 then 100.0
    else
      var rs := ag / al;
      RatioBounds(ag, al);
      100.0 - 100.0 / (1.0 + rs)
  }

  lemma RatioBounds(ag: real, al: real)
    requires ag >= 0.0 && al > 0.0
    ensures ag / al >= 0.0 && 0.0 < 100.0 / (1.0 + ag / al) <= 100.0
    ensures ag == 0.0 ==> 100.0 / (1.0 + ag / al) == 100.0
  {
    var rs := ag / al;
    assert rs * al == ag;
    assert rs >= 0.0;
    var d := 1.0 + rs;
    assert 100.0 / d * d == 100.0;
  }

  /** The RSI at index `i >= period` of a series with at least
      `period + 1` closes. */
  function RsiAt(closes: seq<real>, period: nat, i: nat): (r: real)
    requires 1 <= period <= i < |closes|
    ensures 0.0 <= r <= 100.0
  {
    ComputeRsi(WilderAvg(Gains(closes), period, i), WilderAvg(Losses(closes), period, i))
  }

  /** The RSI series the closes give, as a closed form: no value before
      index `period` or when there are fewer than `period + 1` closes, and
      at every later index the RSI of the Wilder averages standing there. */
  function RsiSeries(closes: seq<real>, period: nat): (r: seq<Option<real>>)
    requires period >= 1
    ensures |r| == |closes|
  {
    if |closes| < period + 1 then seq(|closes|, i => None)
    else seq(|closes|, i requires 0 <= i < |closes| => if i < period then None else Some(RsiAt(closes, period, i)))
  }

  /** The first RSI value of a long enough series stands at index
      `period`; a short series has none. */
  lemma RsiSeriesFirst(closes: seq<real>, period: nat)
    requires period >= 1
    ensures FirstSome(RsiSeries(closes, period)) == if |closes| >= period + 1 then Some(period) else None
  {
    var r := RsiSeries(closes, period);
    if |closes| >= period + 1 {
      assert r[period].Some?;
      var v := FirstSome(r).value;
      assert r[v].Some?;
    } else {
      assert forall j :: 0 <= j < |r| ==> r[j].None?;
    }
  }

  /** `_rsi_series`, the loop as the source writes it: seed both averages
      with the mean of the first `period` changes, emit the RSI at index
      `period`, then smooth and emit once per further close. */
  method ComputeRsiSeries(closes: seq<real>, period: nat) returns (rsi: seq<Option<real>>)
    requires period >= 1
    ensures rsi == RsiSeries(closes, period)
    ensures |rsi| == |closes|
    ensures forall i :: 0 <= i < |rsi| ==> (rsi[i].Some? <==> |closes| >= period + 1 && i >= period)
    ensures forall i :: 0 <= i < |rsi| && rsi[i].Some? ==> 0.0 <= rsi[i].value <= 100.0
  {
    if |closes| < period + 1 {
      return seq(|closes|, i => None);
    }
    var gains, losses := Gains(closes), Losses(closes);
    var avgGain := Sum(gains[..period]) / period as real;
    var avgLoss := Sum(losses[..period]) / period as real;
    assert avgGain == WilderAvg(gains, period, period);
    assert avgLoss == WilderAvg(losses, period, period);
    rsi := seq(|closes|, i => None);
    rsi := rsi[period := Some(ComputeRsi(avgGain, avgLoss))];
    var i := period + 1;
    while i < |closes|
      invariant period + 1 <= i <= |closes| && |rsi| == |closes|
      invariant avgGain == WilderAvg(gains, period, i - 1)
      invariant avgLoss == WilderAvg(losses, period, i - 1)
      invariant forall j :: 0 <= j < |closes| ==>
        rsi[j] == if j < period || j >= i then None else Some(RsiAt(closes, period, j))
    {
      avgGain := WilderNext(avgGain, gains[i - 1], period);
      avgLoss := WilderNext(avgLoss, losses[i - 1], period);
      rsi := rsi[i := Some(ComputeRsi(avgGain, avgLoss))];
      i := i + 1;
    }
  }

  /** Closes that never fall give no losses, so every RSI value is 100. */
  lemma RsiOfRisingCloses(closes: seq<real>, period: nat, i: int)
    requires 1 <= period <= i < |closes|
    requires forall j :: 0 <= j < |closes| - 1 ==> closes[j] <= closes[j + 1]
    ensures RsiSeries(closes, period)[i] == Some(100.0)
  {
    var losses := Losses(closes);
    assert forall j :: 0 <= j < |losses| ==> losses[j] == 0.0;
    WilderAvgZero(losses, period, i);
  }

  /** Closes that fall at every step give no gains and a positive average
      loss, so every RSI value is 0. */
  lemma RsiOfFallingCloses(closes: seq<real>, period: nat, i: int)
    requires 1 <= period <= i < |closes|
    requires forall j :: 0 <= j < |closes| - 1 ==> closes[j] > closes[j + 1]
    ensures RsiSeries(closes, period)[i] == Some(0.0)
  {
    var gains, losses := Gains(closes), Losses(closes);
    assert forall j :: 0 <= j < |gains| ==> gains[j] == 0.0;
    assert forall j :: 0 <= j < |losses| ==> losses[j] > 0.0;
    WilderAvgZero(gains, period, i);
    WilderAvgPositive(losses, period, i);
  }

  lemma {:induction false} WilderAvgPositive(xs: seq<real>, p: nat, i: nat)
    requires 1 <= p <= i <= |xs|
    requires forall j :: 0 <= j < |xs| ==> xs[j] > 0.0
    ensures WilderAvg(xs, p, i) > 0.0
    decreases i
  {
    if i == p {
      SumPositive(xs[..p]);
    } else {
      WilderAvgPositive(xs, p, i - 1);
    }
  }

  lemma {:induction false} SumPositive(xs: seq<real>)
    requires |xs| > 0 && forall j :: 0 <= j < |xs| ==> xs[j] > 0.0
    ensures Sum(xs) > 0.0
    decreases |xs|
  {
    if |xs| > 1 {
      SumPositive(xs[1..]);
    } else {
      assert xs[1..] == [];
    }
  }

  // ---------------------------------------------------------------------
  // Simple moving average

  /** `_sma_at_index`: no value while fewer than `period` closes end at
      `idx`; otherwise the sum of the `period` closes ending at `idx`
      divided by `period`. */
  function SmaAtIndex(closes: seq<real>, period: nat, idx: int): (r: Option<real>)
    requires period >= 1
    ensures r.None? <==> idx + 1 < period
  {
    if idx + 1 < period then None
    else Some(Sum(PySlice(closes, idx - period + 1, idx + 1)) / period as real)
  }

  /** Only the `period` closes ending at `idx` matter. */
  lemma SmaLocal(a: seq<real>, b: seq<real>, period: nat, idx: int)
    requires period >= 1 && period - 1 <= idx < |a| && idx < |b|
    requires forall j :: idx - period + 1 <= j <= idx ==> a[j] == b[j]
    ensures SmaAtIndex(a, period, idx) == SmaAtIndex(b, period, idx)
  {
    assert a[idx - period + 1..idx + 1] == b[idx - period + 1..idx + 1];
  }

  /** Moving the window one step adds the new close and drops the oldest
      one. */
  lemma SmaSlides(closes: seq<real>, period: nat, idx: int)
    requires period >= 1 && period <= idx < |closes|
    ensures SmaAtIndex(closes, period, idx).value * period as real
         == SmaAtIndex(closes, period, idx - 1).value * period as real
            + closes[idx] - closes[idx - period]
  {
    var lo := idx - period;
    WindowSum(closes, period, idx, lo + 1, idx + 1);
    WindowSum(closes, period, idx - 1, lo, idx);
    SumSlide(closes, lo, idx);
  }

  /** Over a full window `closes[lo..hi]` the average is the window's sum
      divided by the period. */
  lemma SmaWindow(closes: seq<real>, period: nat, idx: int, lo: nat, hi: nat)
    requires period >= 1 && period - 1 <= idx < |closes|
    requires lo == idx - period + 1 && hi == idx + 1
    ensures SmaAtIndex(closes, period, idx) == Some(Sum(closes[lo..hi]) / period as real)
  {
    assert PySlice(closes, lo, hi) == closes[lo..hi];
  }

  /** The average over a full window `closes[lo..hi]`, times the period,
      is the window's sum. */
  lemma WindowSum(closes: seq<real>, period: nat, idx: int, lo: nat, hi: nat)
    requires period >= 1 && period - 1 <= idx < |closes|
    requires lo == idx - period + 1 && hi == idx + 1
    ensures SmaAtIndex(closes, period, idx).value * period as real == Sum(closes[lo..hi])
  {
    assert PySlice(closes, lo, hi) == closes[lo..hi];
    DivTimes(Sum(closes[lo..hi]), period as real);
  }

  /** Sliding a window one step right adds the new element and drops the
      first. */
  lemma SumSlide(xs: seq<real>, lo: nat, hi: nat)
    requires lo < hi < |xs|
    ensures Sum(xs[lo + 1..hi + 1]) == Sum(xs[lo..hi]) + xs[hi] - xs[lo]
  {
    var mid := xs[lo + 1..hi];
    assert xs[lo..hi] == [xs[lo]] + mid;
    assert xs[lo + 1..hi + 1] == mid + [xs[hi]];
    SumConcat([xs[lo]], mid);
    SumConcat(mid, [xs[hi]]);
    assert Sum([xs[hi]]) == xs[hi];
    assert Sum([xs[lo]]) == xs[lo];
  }

  lemma DivTimes(x: real, p: real)
    requires p > 0.0
    ensures (x / p) * p == x
  {
  }

  /** A window of equal closes averages to that close. */
  lemma SmaOfConstant(closes: seq<real>, period: nat, idx: int, c: real)
    requires period >= 1 && period - 1 <= idx < |closes|
    requires forall j :: idx - period + 1 <= j <= idx ==> closes[j] == c
    ensures SmaAtIndex(closes, period, idx) == Some(c)
  {
    var w := closes[idx - period + 1..idx + 1];
    assert PySlice(closes, idx - period + 1, idx + 1) == w;
    SumConstant(w, c);
    assert |w| == period;
    assert Sum(w) == period as real * c;
    assert SmaAtIndex(closes, period, idx) == Some(Sum(w) / period as real);
    assert (period as real * c) / period as real == c;
  }

  // ---------------------------------------------------------------------
  // SMA cross

  datatype Cross = Bullish | Bearish

  /** The cross rule of `get_sma_cross`: bullish when the fast average was
      below the slow one and now is at or above it, bearish when it was
      above and now is at or below, neither otherwise. */
  function CrossOf(fastPrev: real, slowPrev: real, fast: real, slow: real): (c: Option<Cross>)
    ensures c == Some(Bullish) <==> fastPrev < slowPrev && fast >= slow
    ensures c == Some(Bearish) <==> fastPrev > slowPrev && fast <= slow
  {
    if fastPrev < slowPrev && fast >= slow then Some(Bullish)
    else if fastPrev > slowPrev && fast <= slow then Some(Bearish)
    else None
  }

  function Opposite(c: Cross): Cross {
    match c
    case Bullish => Bearish
    case Bearish => Bullish
  }

  /** Exchanging the roles of the two averages turns a bullish cross into
      a bearish one and back. */
  lemma CrossSymmetric(fastPrev: real, slowPrev: real, fast: real, slow: real)
    ensures var c := CrossOf(fastPrev, slowPrev, fast, slow);
      CrossOf(slowPrev, fastPrev, slow, fast) == if c.None? then None else Some(Opposite(c.value))
  {
  }

  /** An average that stays strictly on one side of the other never
      crosses. */
  lemma NoCrossWithoutChange(fastPrev: real, slowPrev: real, fast: real, slow: real)
    requires (fastPrev < slowPrev && fast < slow) || (fastPrev > slowPrev && fast > slow)
    ensures CrossOf(fastPrev, slowPrev, fast, slow).None?
  {
  }

  // ---------------------------------------------------------------------
  // Choosing the RSI value for a target timestamp

  /** `next(i for i, v in enumerate(values) if v is not None)`. */
  function FirstSome<T>(vals: seq<Option<T>>): (i: Option<nat>)
    ensures i.None? <==> forall j :: 0 <= j < |vals| ==> vals[j].None?
    ensures i.Some? ==>
      && i.value < |vals| && vals[i.value].Some?
      && forall j :: 0 <= j < i.value ==> vals[j].None?
  {
    if |vals| == 0 then None
    else if vals[0].Some? then Some(0)
    else match FirstSome(vals[1..])
      case None => None
      case Some(k) => Some(k + 1)
  }

  /** The dict `{ts[i]: vals[i] for i in range(lo, hi) if vals[i] is not
      None}`: a later index overwrites an earlier one with the same
      timestamp. */
  function TsDict(ts: seq<int>, vals: seq<Option<real>>, lo: nat, hi: nat): (m: map<int, real>)
    requires lo <= hi <= |ts| == |vals|
    ensures forall k :: k in m <==> exists i :: lo <= i < hi && ts[i] == k && vals[i].Some?
    ensures forall k :: k in m ==> exists i :: lo <= i < hi && ts[i] == k && vals[i] == Some(m[k])
    decreases hi
  {
    if hi == lo then map[]
    else
      var m := TsDict(ts, vals, lo, hi - 1);
      if vals[hi - 1].Some? then m[ts[hi - 1] := vals[hi - 1].value] else m
  }

  /** Each key of the dict holds the value of the last index carrying it. */
  lemma {:induction false} TsDictLast(ts: seq<int>, vals: seq<Option<real>>, lo: nat, hi: nat, i: nat)
    requires lo <= i < hi <= |ts| == |vals| && vals[i].Some?
    requires forall j :: i < j < hi ==> ts[j] != ts[i] || vals[j].None?
    ensures TsDict(ts, vals, lo, hi)[ts[i]] == vals[i].value
    decreases hi
  {
    if i < hi - 1 {
      TsDictLast(ts, vals, lo, hi - 1, i);
    }
  }

  /** The greatest timestamp at or before `target` among the indices in
      `[lo, hi)` that carry a value. */
  function MaxAtMost(ts: seq<int>, vals: seq<Option<real>>, lo: nat, hi: nat, target: int): (k: Option<int>)
    requires lo <= hi <= |ts| == |vals|
    ensures k.None? <==> forall i :: lo <= i < hi && vals[i].Some? ==> ts[i] > target
    ensures k.Some? ==>
      && (exists i :: lo <= i < hi && vals[i].Some? && ts[i] == k.value)
      && k.value <= target
      && forall i :: lo <= i < hi && vals[i].Some? && ts[i] <= target ==> ts[i] <= k.value
    decreases hi
  {
    if hi == lo then None
    else
      var rest := MaxAtMost(ts, vals, lo, hi - 1, target);
      if vals[hi - 1].None? || ts[hi - 1] > target then rest
      else if rest.Some? && rest.value >= ts[hi - 1] then rest
      else Some(ts[hi - 1])
  }

  /** The tail of `get_rsi`: given the dict `m` built from the timestamps
      and RSI values from index `lo` on, the value stored for the target
      timestamp, or else for the greatest timestamp before it, or an error
      when no value lies at or before the target. */
  function SelectRsi(m: map<int, real>, ts: seq<int>, vals: seq<Option<real>>, lo: nat, target: int): (r: Result<real>)
    requires lo <= |ts| == |vals| && m == TsDict(ts, vals, lo, |ts|)
    ensures r.Err? <==> forall k :: k in m ==> k > target
    ensures r.Err? ==> r.error == Unavailable
    ensures r.Ok? ==> exists k :: IsLatestAtMost(m, target, k) && r.value == m[k]
    ensures r.Ok? ==> exists i :: lo <= i < |ts| && ts[i] <= target && vals[i] == Some(r.value)
    ensures target in m ==> r == Ok(m[target])
  {
    var best := if target in m then Some(target) else MaxAtMost(ts, vals, lo, |ts|, target);
    match best
    case None => Err(Unavailable)
    case Some(k) =>
      assert IsLatestAtMost(m, target, k);
      var i :| lo <= i < |ts| && ts[i] == k && vals[i] == Some(m[k]);
      Ok(m[k])
  }

  /** `k` is the greatest key of `m` at or before `target`. */
  predicate IsLatestAtMost(m: map<int, real>, target: int, k: int) {
    k in m && k <= target && forall k' :: k' in m && k' <= target ==> k' <= k
  }
}
