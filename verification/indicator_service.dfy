/** The three queries of the ccxt indicator service
    (src/infrastructure/indicators/ccxt_service.py): the RSI, the simple
    moving average and the SMA cross of an asset at a UTC instant. The
    exchange is an oracle: its market lists, its timeframe parser and its
    OHLCV endpoint are parameters. */
module IndicatorService {

  import opened Wrappers
  import opened Text
  import opened Time
  import opened Candles
  import opened Indicators

  /** The exchange as the service sees it. `markets` is the cached market
      list and `reloadedMarkets` the list after a forced reload, `None`
      when the reload raises;
      `frameMs(tf)` is `int(parse_timeframe(tf) * 1000)`, `None` when the
      parser raises; `fetchOhlcv(symbol, tf, since, limit)` is the raw rows
      of one request, `None` when the request raises. */
  datatype Exchange = Exchange(
    markets: set<string>,
    reloadedMarkets: Option<set<string>>,
    frameMs: string -> Option<int>,
    fetchOhlcv: (string, string, int, int) -> Option<seq<RawRow>>)

  /** What `get_sma_cross` returns. */
  datatype SmaCross = SmaCross(fast: real, slow: real, prevFast: real, prevSlow: real, crossed: Option<Cross>)

  /** The market symbol: an explicit non-empty `market`, or else
      `BASE/QUOTE` from the stripped, upper-cased asset symbol and quote.
      An asset without a symbol is passed as the empty string. */
  function MarketSymbol(assetSymbol: string, market: Option<string>, quote: string): (s: string)
    ensures market.Some? && market.value != [] ==> s == market.value
    ensures market.None? || market.value == [] ==>
      |s| == |Strip(assetSymbol)| + 1 + |Strip(quote)|
  {
    if market.Some? && market.value != [] then market.value
    else Upper(Strip(assetSymbol)) + "/" + Upper(Strip(quote))
  }

  /** A derived symbol splits at its first '/' back into the upper-cased
      base and quote, provided the asset symbol holds no '/'. */
  lemma MarketSymbolSplits(assetSymbol: string, quote: string)
    requires '/' !in assetSymbol
    ensures PartitionFirst(MarketSymbol(assetSymbol, None, quote), '/')
         == Some((Upper(Strip(assetSymbol)), Upper(Strip(quote))))
  {
    var base := Upper(Strip(assetSymbol));
    assert '/' !in base by {
      forall i | 0 <= i < |base|
        ensures base[i] != '/'
      {
        var s := Strip(assetSymbol);
        assert s[i] in assetSymbol by { StripIsInfix(assetSymbol, i); }
      }
    }
    PartitionJoin(base, '/', Upper(Strip(quote)));
  }

  /** Every character of the stripped text occurs in the text. */
  lemma StripIsInfix(s: string, i: int)
    requires 0 <= i < |Strip(s)|
    ensures Strip(s)[i] in s
  {
    var r := Strip(s);
    var l := LStrip(s);
    assert r == RStrip(l);
    assert r[i] == l[i];
    assert l[i] == s[|s| - |l| + i];
  }

  /** The symbol is on the cached list, or on the list a successful
      reload brings. */
  predicate Listed(ex: Exchange, symbol: string) {
    symbol in ex.markets || (ex.reloadedMarkets.Some? && symbol in ex.reloadedMarkets.value)
  }

  /** The market check: the cached list is tried first; only on a miss
      are the markets reloaded, and a failing reload is an exchange
      failure. */
  function ResolveMarket(ex: Exchange, symbol: string): (r: Result<string>)
    ensures r.Ok? <==> Listed(ex, symbol)
    ensures r.Ok? ==> r.value == symbol
    ensures r == Err(ExchangeFailure) <==> symbol !in ex.markets && ex.reloadedMarkets.None?
    ensures r == Err(UnknownMarket) <==> !Listed(ex, symbol) && ex.reloadedMarkets.Some?
  {
    if symbol in ex.markets then Ok(symbol)
    else if ex.reloadedMarkets.None? then Err(ExchangeFailure)
    else if symbol in ex.reloadedMarkets.value then Ok(symbol)
    else Err(UnknownMarket)
  }

  /** One OHLCV request, normalised. */
  function Fetch(ex: Exchange, symbol: string, timeframe: string, since: int, limit: int): (r: Result<seq<Candle>>)
    ensures r.Err? <==> ex.fetchOhlcv(symbol, timeframe, since, limit).None?
    ensures r.Err? ==> r.error == ExchangeFailure
    ensures r.Ok? ==> r.value == Normalize(ex.fetchOhlcv(symbol, timeframe, since, limit).value)
  {
    match ex.fetchOhlcv(symbol, timeframe, since, limit)
    case None => Err(ExchangeFailure)
    case Some(rows) => Ok(Normalize(rows))
  }

  /** The second request of every query: when the first batch lacks the
      target candle, fetch from the target on and merge the two batches,
      the second winning on equal timestamps; otherwise keep the first
      batch as it is. */
  function Refetch(ex: Exchange, symbol: string, timeframe: string, first: seq<Candle>,
                   target: int, limit: int): (r: Result<seq<Candle>>)
    ensures HasTs(first, target) ==> r == Ok(first)
    ensures !HasTs(first, target) ==>
      (r.Err? <==> ex.fetchOhlcv(symbol, timeframe, target, limit).None?)
    ensures !HasTs(first, target) && r.Ok? ==>
      var extra := Normalize(ex.fetchOhlcv(symbol, timeframe, target, limit).value);
      && StrictlyAscending(r.value)
      && (forall t :: HasTs(r.value, t) <==> HasTs(first, t) || HasTs(extra, t))
      && (HasTs(r.value, target) <==> HasTs(extra, target))
    ensures !HasTs(first, target) && r.Ok? ==>
      r.value == Merge(first, Normalize(ex.fetchOhlcv(symbol, timeframe, target, limit).value))
  {
    if HasTs(first, target) then Ok(first)
    else
      var extra :- Fetch(ex, symbol, timeframe, target, limit);
      Ok(Merge(first, extra))
  }

  function Closes(cs: seq<Candle>): (closes: seq<real>)
    ensures |closes| == |cs|
    ensures forall i :: 0 <= i < |cs| ==> closes[i] == cs[i].close
  {
    seq(|cs|, i requires 0 <= i < |cs| => cs[i].close)
  }

  function Stamps(cs: seq<Candle>): (ts: seq<int>)
    ensures |ts| == |cs|
    ensures forall i :: 0 <= i < |cs| ==> ts[i] == cs[i].tsMs
  {
    seq(|cs|, i requires 0 <= i < |cs| => cs[i].tsMs)
  }

  /** Index `i` is the candle whose RSI `get_rsi` reads for `target`: it
      carries an RSI value, its timestamp is the greatest at or before the
      target among those that do, and no later candle shares it, since the
      timestamp dict keeps the last index written. When the target candle
      itself carries a value, its timestamp is the greatest. */
  predicate IsRsiPick(cs: seq<Candle>, period: nat, target: int, i: int) {
    && period <= i < |cs| && cs[i].tsMs <= target
    && (forall j :: period <= j < |cs| && cs[j].tsMs <= target ==> cs[j].tsMs <= cs[i].tsMs)
    && (forall j :: i < j < |cs| ==> cs[j].tsMs != cs[i].tsMs)
  }

  /** The end of `get_rsi` once the candles are known: the RSI series of
      the closes, mapped to timestamps from its first value on, read at the
      target or at the latest timestamp before it. */
  function RsiFromCandles(cs: seq<Candle>, period: nat, target: int): (r: Result<real>)
    requires period >= 1
    ensures r.Err? ==> r.error == InsufficientData || r.error == Unavailable
    ensures r == Err(InsufficientData) <==> |cs| < period + 1
    ensures r == Err(Unavailable) <==>
      |cs| >= period + 1 && forall i :: period <= i < |cs| ==> cs[i].tsMs > target
    ensures r.Ok? ==> 0.0 <= r.value <= 100.0
    ensures r.Ok? ==> exists i :: IsRsiPick(cs, period, target, i) && r.value == RsiAt(Closes(cs), period, i)
  {
    var closes := Closes(cs);
    var rsi := RsiSeries(closes, period);
    RsiSeriesFirst(closes, period);
    match FirstSome(rsi)
    case None => Err(InsufficientData)
    case Some(first) =>
      var ts := Stamps(cs);
      SelectedIsRsiAt(cs, period, target);
      SelectRsi(TsDict(ts, rsi, period, |ts|), ts, rsi, period, target)
  }

  /** The last index of `[lo, hi)` holding timestamp `k`. */
  function LastIndexOf(ts: seq<int>, k: int, lo: nat, hi: nat): (i: nat)
    requires hi <= |ts| && exists i :: lo <= i < hi && ts[i] == k
    ensures lo <= i < hi && ts[i] == k
    ensures forall j :: i < j < hi ==> ts[j] != k
    decreases hi
  {
    if ts[hi - 1] == k then hi - 1 else LastIndexOf(ts, k, lo, hi - 1)
  }

  /** The selection from the RSI series fails exactly when every candle
      with a value lies after the target; otherwise it returns the RSI of
      the pick. */
  lemma SelectedIsRsiAt(cs: seq<Candle>, period: nat, target: int)
    requires period >= 1 && |cs| >= period + 1
    ensures var closes := Closes(cs);
      var rsi := RsiSeries(closes, period);
      var ts := Stamps(cs);
      var r := SelectRsi(TsDict(ts, rsi, period, |ts|), ts, rsi, period, target);
      && (r.Err? <==> forall i :: period <= i < |cs| ==> cs[i].tsMs > target)
      && (r.Ok? ==> exists i :: IsRsiPick(cs, period, target, i) && r.value == RsiAt(closes, period, i))
  {
    var closes := Closes(cs);
    var rsi := RsiSeries(closes, period);
    var ts := Stamps(cs);
    var m := TsDict(ts, rsi, period, |ts|);
    RsiKeys(cs, period);
    var r := SelectRsi(m, ts, rsi, period, target);
    if r.Ok? {
      SelectedPick(cs, period, target, m);
    }
  }

  /** From index `period` on every candle carries an RSI value, so every
      timestamp there is a key of the dict. */
  lemma RsiKeys(cs: seq<Candle>, period: nat)
    requires period >= 1 && |cs| >= period + 1
    ensures var rsi := RsiSeries(Closes(cs), period);
      var m := TsDict(Stamps(cs), rsi, period, |cs|);
      forall i :: period <= i < |cs| ==> cs[i].tsMs in m && rsi[i] == Some(RsiAt(Closes(cs), period, i))
  {
    var rsi := RsiSeries(Closes(cs), period);
    var ts := Stamps(cs);
    var m := TsDict(ts, rsi, period, |ts|);
    forall i | period <= i < |cs|
      ensures cs[i].tsMs in m
    {
      assert ts[i] == cs[i].tsMs && rsi[i].Some?;
    }
  }

  /** A successful selection is the RSI at the pick: the last index holding
      the greatest key at or before the target. */
  lemma SelectedPick(cs: seq<Candle>, period: nat, target: int, m: map<int, real>)
    requires period >= 1 && |cs| >= period + 1
    requires m == TsDict(Stamps(cs), RsiSeries(Closes(cs), period), period, |cs|)
    requires SelectRsi(m, Stamps(cs), RsiSeries(Closes(cs), period), period, target).Ok?
    ensures exists i ::
      && IsRsiPick(cs, period, target, i)
      && SelectRsi(m, Stamps(cs), RsiSeries(Closes(cs), period), period, target).value == RsiAt(Closes(cs), period, i)
  {
    var rsi := RsiSeries(Closes(cs), period);
    var ts := Stamps(cs);
    var r := SelectRsi(m, ts, rsi, period, target);
    RsiKeys(cs, period);
    var k :| IsLatestAtMost(m, target, k) && r.value == m[k];
    var i := LastIndexOf(ts, k, period, |ts|);
    TsDictLast(ts, rsi, period, |ts|, i);
    assert IsRsiPick(cs, period, target, i);
  }

  /** In a list of candles with distinct timestamps, a target candle with
      an RSI value yields exactly that value. */
  lemma RsiAtTarget(cs: seq<Candle>, period: nat, i: nat)
    requires period >= 1 && period <= i < |cs| && StrictlyAscending(cs)
    ensures RsiFromCandles(cs, period, cs[i].tsMs) == Ok(RsiAt(Closes(cs), period, i))
  {
    var rsi := RsiSeries(Closes(cs), period);
    var ts := Stamps(cs);
    RsiSeriesFirst(Closes(cs), period);
    TsDictLast(ts, rsi, period, |ts|, i);
  }

  /** The end of `get_sma` once the candles are known: the average of the
      `period` closes ending at the first candle of the target, an error
      when there is no such candle or fewer than `period` closes end
      there. */
  function SmaFromCandles(cs: seq<Candle>, period: nat, target: int): (r: Result<real>)
    requires period >= 1
    ensures r.Err? ==> r.error == InsufficientData
    ensures r.Err? <==> IndexOfTs(cs, target).None? || IndexOfTs(cs, target).value + 1 < period
    ensures r.Ok? ==>
      var idx := IndexOfTs(cs, target).value;
      && cs[idx].tsMs == target && period - 1 <= idx < |cs|
      && Some(r.value) == SmaAtIndex(Closes(cs), period, idx)
  {
    match IndexOfTs(cs, target)
    case None => Err(InsufficientData)
    case Some(idx) =>
      if idx + 1 < period then Err(InsufficientData)
      else Ok(SmaAtIndex(Closes(cs), period, idx).value)
  }

  /** The end of `get_sma_cross` once the candles are known: both
      averages at the first candle of the target and one candle earlier,
      and the cross rule applied to them; an error when the target candle
      is missing or has fewer than `slow` candles before it. */
  function SmaCrossFromCandles(cs: seq<Candle>, fast: nat, slow: nat, target: int): (r: Result<SmaCross>)
    requires 0 < fast < slow
    ensures r.Err? ==> r.error == InsufficientData
    ensures r.Err? <==> IndexOfTs(cs, target).None? || IndexOfTs(cs, target).value < slow
    ensures r.Ok? ==>
      var idx := IndexOfTs(cs, target).value;
      && cs[idx].tsMs == target && slow <= idx < |cs|
      && r.value == CrossAt(Closes(cs), fast, slow, idx)
  {
    match IndexOfTs(cs, target)
    case None => Err(InsufficientData)
    case Some(idx) =>
      if idx < slow then Err(InsufficientData)
      else Ok(CrossAt(Closes(cs), fast, slow, idx))
  }

  /** Both averages at `idx` and at `idx - 1`, and the cross rule applied
      to them. */
  function CrossAt(closes: seq<real>, fast: nat, slow: nat, idx: nat): (x: SmaCross)
    requires 0 < fast < slow <= idx < |closes|
    ensures SmaAtIndex(closes, fast, idx) == Some(x.fast)
    ensures SmaAtIndex(closes, slow, idx) == Some(x.slow)
    ensures SmaAtIndex(closes, fast, idx - 1) == Some(x.prevFast)
    ensures SmaAtIndex(closes, slow, idx - 1) == Some(x.prevSlow)
    ensures x.crossed == CrossOf(x.prevFast, x.prevSlow, x.fast, x.slow)
  {
    var fastNow := SmaAtIndex(closes, fast, idx).value;
    var slowNow := SmaAtIndex(closes, slow, idx).value;
    var fastPrev := SmaAtIndex(closes, fast, idx - 1).value;
    var slowPrev := SmaAtIndex(closes, slow, idx - 1).value;
    SmaCross(fastNow, slowNow, fastPrev, slowPrev, CrossOf(fastPrev, slowPrev, fastNow, slowNow))
  }

  /** The candles `get_sma` and `get_sma_cross` work on: one request of
      `limit` candles from `since`, then the target refetch of `limit2`
      candles. Either request failing is an exchange failure. */
  function Gather(ex: Exchange, symbol: string, timeframe: string, since: int, limit: int,
                  target: int, limit2: int): (r: Result<seq<Candle>>)
    ensures r.Err? ==> r.error == ExchangeFailure
    ensures r.Ok? <==>
      && Fetch(ex, symbol, timeframe, since, limit).Ok?
      && Refetch(ex, symbol, timeframe, Fetch(ex, symbol, timeframe, since, limit).value, target, limit2).Ok?
    ensures r.Ok? ==> r == Refetch(ex, symbol, timeframe, Fetch(ex, symbol, timeframe, since, limit).value, target, limit2)
  {
    var first :- Fetch(ex, symbol, timeframe, since, limit);
    Refetch(ex, symbol, timeframe, first, target, limit2)
  }

  /** `get_rsi`. The checks come in the source's order: UTC instant,
      positive period, known market, valid positive timeframe; then a first
      request of `3 * period + 2` candles starting `3 * period` frames
      before the target, an error when it is empty, a second request from
      the target when the target candle is missing, and the selection. */
  function GetRsi(ex: Exchange, assetSymbol: string, at: Instant, timeframe: string := "1h",
                  period: int := 14, market: Option<string> := None, quote: string := "USDT"): (r: Result<real>)
    ensures !IsUtc(at) ==> r == Err(NotUtc)
    ensures IsUtc(at) && period <= 0 ==> r == Err(BadPeriod)
    ensures IsUtc(at) && period > 0 && ResolveMarket(ex, MarketSymbol(assetSymbol, market, quote)).Err?
      ==> r == Err(ResolveMarket(ex, MarketSymbol(assetSymbol, market, quote)).error)
    ensures IsUtc(at) && period > 0 && ResolveMarket(ex, MarketSymbol(assetSymbol, market, quote)).Ok? ==>
      (ex.frameMs(timeframe).None? || ex.frameMs(timeframe).value <= 0 ==> r == Err(BadTimeframe))
    ensures r.Ok? ==>
      && Listed(ex, MarketSymbol(assetSymbol, market, quote))
      && ex.frameMs(timeframe).Some? && ex.frameMs(timeframe).value > 0
      && 0.0 <= r.value <= 100.0
    ensures IsUtc(at) && period > 0 && ResolveMarket(ex, MarketSymbol(assetSymbol, market, quote)).Ok? ==>
      ex.frameMs(timeframe).Some? && ex.frameMs(timeframe).value > 0 ==>
      var frame := ex.frameMs(timeframe).value;
      r == RsiFromExchange(ex, MarketSymbol(assetSymbol, market, quote), timeframe, period,
                           frame, TargetMs(at.seconds * 1000, frame))
  {
    if !IsUtc(at) then Err(NotUtc)
    else if period <= 0 then Err(BadPeriod)
    else
      var symbol :- ResolveMarket(ex, MarketSymbol(assetSymbol, market, quote));
      var frame :- FrameOf(ex, timeframe);
      if frame <= 0 then Err(BadTimeframe)
      else RsiFromExchange(ex, symbol, timeframe, period, frame, TargetMs(at.seconds * 1000, frame))
  }

  /** The exchange part of `get_rsi` for a known market and frame: a
      first request of `3 * period + 2` candles starting `3 * period`
      frames before the target, then the rest from its candles. */
  function RsiFromExchange(ex: Exchange, symbol: string, timeframe: string, period: nat,
                           frame: int, target: int): (r: Result<real>)
    requires period >= 1
    ensures var first := Fetch(ex, symbol, timeframe, target - period * 3 * frame, period * 3 + 2);
      && (first.Err? ==> r == Err(ExchangeFailure))
      && (first.Ok? ==> r == RsiFromFirst(ex, symbol, timeframe, period, first.value, target))
  {
    var first := Fetch(ex, symbol, timeframe, target - period * 3 * frame, period * 3 + 2);
    if first.Err? then Err(ExchangeFailure)
    else RsiFromFirst(ex, symbol, timeframe, period, first.value, target)
  }

  /** The rest of `get_rsi` once the first batch is in: an error when it
      is empty, the target refetch of `period + 2`, and the selection from
      the merged candles. */
  function RsiFromFirst(ex: Exchange, symbol: string, timeframe: string, period: nat,
                        first: seq<Candle>, target: int): (r: Result<real>)
    requires period >= 1
    ensures first == [] ==> r == Err(NoOhlcv)
    ensures first != [] ==>
      var ohlcv := Refetch(ex, symbol, timeframe, first, target, period + 2);
      && (ohlcv.Err? ==> r == Err(ExchangeFailure))
      && (ohlcv.Ok? ==> r == RsiFromCandles(ohlcv.value, period, target))
  {
    if |first| == 0 then Err(NoOhlcv)
    else
      var ohlcv := Refetch(ex, symbol, timeframe, first, target, period + 2);
      if ohlcv.Err? then Err(ExchangeFailure) else RsiFromCandles(ohlcv.value, period, target)
  }

  /** The timeframe parser; a parser failure is an invalid timeframe. */
  function FrameOf(ex: Exchange, timeframe: string): (r: Result<int>)
    ensures r.Ok? <==> ex.frameMs(timeframe).Some?
    ensures r.Ok? ==> r.value == ex.frameMs(timeframe).value
    ensures r.Err? ==> r.error == BadTimeframe
  {
    match ex.frameMs(timeframe)
    case None => Err(BadTimeframe)
    case Some(f) => Ok(f)
  }

  /** The exchange part of `get_sma` for a known market and frame: a
      first request of `period + 2` candles starting `period - 1` frames
      before the target, the target refetch of `period + 2`, and the
      average read off the merged candles. */
  function SmaFromExchange(ex: Exchange, symbol: string, timeframe: string, period: nat,
                           frame: int, target: int): (r: Result<real>)
    requires period >= 1
    ensures var ohlcv := Gather(ex, symbol, timeframe, target - (period - 1) * frame, period + 2, target, period + 2);
      && (ohlcv.Err? ==> r == Err(ExchangeFailure))
      && (ohlcv.Ok? ==> r == SmaFromCandles(ohlcv.value, period, target))
  {
    var ohlcv :- Gather(ex, symbol, timeframe, target - (period - 1) * frame, period + 2, target, period + 2);
    SmaFromCandles(ohlcv, period, target)
  }

  /** `get_sma`. Unlike `get_rsi` it does not check the sign of the frame:
      a zero frame fails in the floor division, a negative one is used as
      it is. The target candle must exist and have `period` closes up to
      it. */
  function GetSma(ex: Exchange, assetSymbol: string, at: Instant, timeframe: string := "1h",
                  period: int := 14, market: Option<string> := None, quote: string := "USDT"): (r: Result<real>)
    ensures !IsUtc(at) ==> r == Err(NotUtc)
    ensures IsUtc(at) && period <= 0 ==> r == Err(BadPeriod)
    ensures IsUtc(at) && period > 0 && ResolveMarket(ex, MarketSymbol(assetSymbol, market, quote)).Err?
      ==> r == Err(ResolveMarket(ex, MarketSymbol(assetSymbol, market, quote)).error)
    ensures IsUtc(at) && period > 0 && ResolveMarket(ex, MarketSymbol(assetSymbol, market, quote)).Ok? ==>
      && (ex.frameMs(timeframe).None? ==> r == Err(BadTimeframe))
      && (ex.frameMs(timeframe) == Some(0) ==> r == Err(ZeroStep))
    ensures r.Ok? ==>
      && IsUtc(at) && period > 0 && Listed(ex, MarketSymbol(assetSymbol, market, quote))
      && ex.frameMs(timeframe).Some? && ex.frameMs(timeframe).value != 0
    ensures IsUtc(at) && period > 0 && ResolveMarket(ex, MarketSymbol(assetSymbol, market, quote)).Ok? ==>
      ex.frameMs(timeframe).Some? && ex.frameMs(timeframe).value != 0 ==>
      var frame := ex.frameMs(timeframe).value;
      r == SmaFromExchange(ex, MarketSymbol(assetSymbol, market, quote), timeframe, period,
                           frame, TargetMs(at.seconds * 1000, frame))
  {
    if !IsUtc(at) then Err(NotUtc)
    else if period <= 0 then Err(BadPeriod)
    else
      var symbol :- ResolveMarket(ex, MarketSymbol(assetSymbol, market, quote));
      var frame :- FrameOf(ex, timeframe);
      if frame == 0 then Err(ZeroStep)
      else
        SmaFromExchange(ex, symbol, timeframe, period, frame, TargetMs(at.seconds * 1000, frame))
  }

  /** The exchange part of `get_sma_cross` for a known market and frame:
      `slow + 1` candles wanted, so a first request of `slow + 4` candles
      starting `slow` frames before the target, the target refetch of
      `slow + 3`, and the cross read off the merged candles. */
  function CrossFromExchange(ex: Exchange, symbol: string, timeframe: string, fast: nat, slow: nat,
                             frame: int, target: int): (r: Result<SmaCross>)
    requires 0 < fast < slow
    ensures var ohlcv := Gather(ex, symbol, timeframe, target - slow * frame, slow + 4, target, slow + 3);
      && (ohlcv.Err? ==> r == Err(ExchangeFailure))
      && (ohlcv.Ok? ==> r == SmaCrossFromCandles(ohlcv.value, fast, slow, target))
  {
    var ohlcv :- Gather(ex, symbol, timeframe, target - slow * frame, slow + 4, target, slow + 3);
    SmaCrossFromCandles(ohlcv, fast, slow, target)
  }

  /** `get_sma_cross`. Both periods must be positive and the fast one
      shorter, all before the market is looked up; the target candle must
      have at least `slow` candles before it, so that both averages exist
      at the target and one candle earlier. */
  function GetSmaCross(ex: Exchange, assetSymbol: string, at: Instant, timeframe: string := "1h",
                       fast: int := 50, slow: int := 200, market: Option<string> := None,
                       quote: string := "USDT"): (r: Result<SmaCross>)
    ensures !IsUtc(at) ==> r == Err(NotUtc)
    ensures IsUtc(at) && (fast <= 0 || slow <= 0) ==> r == Err(BadPeriod)
    ensures IsUtc(at) && 0 < slow <= fast ==> r == Err(BadPeriodOrder)
    ensures IsUtc(at) && 0 < fast < slow && ResolveMarket(ex, MarketSymbol(assetSymbol, market, quote)).Err?
      ==> r == Err(ResolveMarket(ex, MarketSymbol(assetSymbol, market, quote)).error)
    ensures IsUtc(at) && 0 < fast < slow && ResolveMarket(ex, MarketSymbol(assetSymbol, market, quote)).Ok? ==>
      && (ex.frameMs(timeframe).None? ==> r == Err(BadTimeframe))
      && (ex.frameMs(timeframe) == Some(0) ==> r == Err(ZeroStep))
    ensures r.Ok? ==>
      && IsUtc(at) && 0 < fast < slow
      && Listed(ex, MarketSymbol(assetSymbol, market, quote))
      && ex.frameMs(timeframe).Some? && ex.frameMs(timeframe).value != 0
    ensures IsUtc(at) && 0 < fast < slow && ResolveMarket(ex, MarketSymbol(assetSymbol, market, quote)).Ok? ==>
      ex.frameMs(timeframe).Some? && ex.frameMs(timeframe).value != 0 ==>
      var frame := ex.frameMs(timeframe).value;
      r == CrossFromExchange(ex, MarketSymbol(assetSymbol, market, quote), timeframe, fast, slow,
                             frame, TargetMs(at.seconds * 1000, frame))
  {
    if !IsUtc(at) then Err(NotUtc)
    else if fast <= 0 || slow <= 0 then Err(BadPeriod)
    else if fast >= slow then Err(BadPeriodOrder)
    else
      var symbol :- ResolveMarket(ex, MarketSymbol(assetSymbol, market, quote));
      var frame :- FrameOf(ex, timeframe);
      if frame == 0 then Err(ZeroStep)
      else
        CrossFromExchange(ex, symbol, timeframe, fast, slow, frame, TargetMs(at.seconds * 1000, frame))
  }

  /** The period checks of all three queries happen before the exchange is
      consulted: two exchanges give the same answer to a query whose
      periods are rejected. */
  lemma PeriodChecksPrecedeExchange(ex1: Exchange, ex2: Exchange, assetSymbol: string, at: Instant,
                                    timeframe: string, period: int, fast: int, slow: int,
                                    market: Option<string>, quote: string)
    ensures period <= 0 ==>
      && GetRsi(ex1, assetSymbol, at, timeframe, period, market, quote)
         == GetRsi(ex2, assetSymbol, at, timeframe, period, market, quote)
      && GetSma(ex1, assetSymbol, at, timeframe, period, market, quote)
         == GetSma(ex2, assetSymbol, at, timeframe, period, market, quote)
    ensures fast <= 0 || slow <= 0 || fast >= slow ==>
      GetSmaCross(ex1, assetSymbol, at, timeframe, fast, slow, market, quote)
      == GetSmaCross(ex2, assetSymbol, at, timeframe, fast, slow, market, quote)
  {
  }
}
