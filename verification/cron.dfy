/** The half-hourly scheduler (examples/cron_backfill_loop.py). A tick
    reads the minute of the current UTC time: at :00 it backfills recent
    rounds, at :30 it ingests events up to the half hour and generates
    observations for the half-hour window, otherwise it does nothing. Every
    step runs in its own exception handler, so a failure is logged and the
    tick carries on. Between ticks the loop sleeps until the next
    half-hour mark, plus a small jitter. */
module Cron {

  import opened Wrappers
  import opened Text
  import opened Time
  import opened Config
  import Arith

  const TickFreq: string := "30m"
  const HalfHour: nat := 1800

  /** The frequency of the loop is thirty minutes. */
  lemma TickFreqSeconds()
    ensures ParseFreq(TickFreq) == Ok(HalfHour)
  {
    assert AllDigits("30") && DigitsValue("30") == 30 by {
      assert "30"[..1] == "3";
      assert "3"[..0] == "";
    }
    ParseFreqAccepts("", "30", "", 'm', "");
    assert "" + "30" + "" + ['m'] + "" == TickFreq;
  }

  /** `datetime.minute` of a UTC instant. */
  function MinuteOf(now: Instant): (m: nat)
    ensures m < 60
  {
    (now.seconds % 3600) / 60
  }

  /** The use-case calls a tick makes, with their arguments: for the
      backfill, those of `run` followed by those of the constructor; for
      the generator, the indicator settings of its snapshot builder
      followed by those of `run`. The per-agent limit and the categories
      are passed on as read, without conversion. */
  datatype Call =
    | Backfill(n: int, timeframe: string, ingestLimit: int, quote: string,
               perAgentLimit: Value, maxTokens: int, categories: Value, indTimeframe: string,
               rsiPeriod: int, smaFast: int, smaSlow: int, minEvents: int)
    | Ingest(limit: int, categories: Value, until: Instant)
    | Generate(indTimeframe: string, rsiPeriod: int, smaFast: int, smaSlow: int,
               start: Instant, end: Instant, perAgentLimit: Value, maxTokens: int)

  /** One log line: the call made and whether it raised. */
  datatype Entry = Entry(call: Call, raised: bool)

  /** `str(v)`; text stays as it is, any other value is rendered by
      `render`. */
  function StrOf(v: Value, render: Value -> string): string {
    if v.VStr? then v.s else render(v)
  }

  /** The settings a tick reads, each already converted the way the
      source converts it: `None` where `int(...)` raises, `str(...)` for
      text, the value as read where the source does not convert. */
  datatype Settings = Settings(
    maxTokens: Option<int>,
    rsiPeriod: Option<int>,
    smaFast: Option<int>,
    smaSlow: Option<int>,
    minEvents: Option<int>,
    nRounds: Option<int>,
    ingestLimit: Option<int>,
    timeframe: string,
    indTimeframe: string,
    quote: string,
    perAgentLimit: Value,
    categories: Value)

  /** Reading the settings, with the source's paths and defaults. */
  function ReadSettings(conf: Option<map<string, Value>>, render: Value -> string): Settings {
    Settings(
      IntOf(ConfGet(conf, "generation.max_tokens", ConfGet(conf, "llm.max_tokens", VInt(256)))),
      IntSetting(conf, "indicators.rsi_period", 14),
      IntSetting(conf, "indicators.sma_fast", 50),
      IntSetting(conf, "indicators.sma_slow", 200),
      IntSetting(conf, "backfill.min_events_per_round", 0),
      IntSetting(conf, "backfill.n_rounds", 2),
      IntSetting(conf, "backfill.ingest_limit", 500),
      StrOf(ConfGet(conf, "backfill.timeframe", VStr("1h")), render),
      StrOf(ConfGet(conf, "indicators.timeframe", VStr("1h")), render),
      StrOf(ConfGet(conf, "backfill.quote", VStr("USDT")), render),
      ConfGet(conf, "generation.per_agent_limit", VNone),
      ConfGet(conf, "news.categories", VList([])))
  }

  /** With no configuration every setting takes its default. */
  lemma DefaultSettings(render: Value -> string)
    ensures ReadSettings(None, render)
         == Settings(Some(256), Some(14), Some(50), Some(200), Some(0), Some(2), Some(500), "1h", "1h", "USDT", VNone, VList([]))
  {
  }

  /** The indicator settings and token budget of the observation
      generator, when all convert. */
  predicate GeneratorReady(st: Settings) {
    st.maxTokens.Some? && st.rsiPeriod.Some? && st.smaFast.Some? && st.smaSlow.Some?
  }

  /** The backfill call of a :00 tick, or `None` when converting one of
      its settings raises (which the handler catches). */
  function BackfillCall(st: Settings): (c: Option<Call>)
    ensures c.Some? <==> GeneratorReady(st) && st.minEvents.Some? && st.nRounds.Some? && st.ingestLimit.Some?
    ensures c.Some? ==> c.value.Backfill?
    ensures c.Some? ==>
      && Some(c.value.n) == st.nRounds && c.value.timeframe == st.timeframe
      && Some(c.value.ingestLimit) == st.ingestLimit && c.value.quote == st.quote
    ensures c.Some? ==>
      && c.value.perAgentLimit == st.perAgentLimit && Some(c.value.maxTokens) == st.maxTokens
      && c.value.categories == st.categories && c.value.indTimeframe == st.indTimeframe
      && Some(c.value.rsiPeriod) == st.rsiPeriod && Some(c.value.smaFast) == st.smaFast
      && Some(c.value.smaSlow) == st.smaSlow && Some(c.value.minEvents) == st.minEvents
  {
    if GeneratorReady(st) && st.minEvents.Some? && st.nRounds.Some? && st.ingestLimit.Some? then
      Some(Backfill(st.nRounds.value, st.timeframe, st.ingestLimit.value, st.quote,
                    st.perAgentLimit, st.maxTokens.value, st.categories, st.indTimeframe,
                    st.rsiPeriod.value, st.smaFast.value, st.smaSlow.value, st.minEvents.value))
    else None
  }

  /** The half-hour window of a :30 tick: its end is `now` floored to
      thirty minutes and its start thirty minutes earlier. */
  function HalfHourWindow(now: Instant): (w: (Instant, Instant))
    ensures IsUtc(w.0) && IsUtc(w.1)
    ensures w.1.seconds % HalfHour == 0 && w.1.seconds <= now.seconds < w.1.seconds + HalfHour
    ensures w.1.seconds - w.0.seconds == HalfHour
  {
    var end := Utc(FloorTo(now.seconds, HalfHour));
    (Utc(end.seconds - HalfHour), end)
  }

  /** The window end is `snap_to_interval(now, "30m", "floor")`. */
  lemma WindowEndIsSnap(now: Instant)
    ensures Snap(now, TickFreq, "floor") == Ok(HalfHourWindow(now).1)
  {
    TickFreqSeconds();
    SnapWithStep(now, TickFreq, HalfHour);
  }

  /** `run_tick` at the instant `now` (UTC) with the settings read from
      the configuration; `raises` says which calls raise. Each call runs
      in its own handler, so which calls are made never depends on
      `raises`: a failing ingestion is still followed by generation. */
  function RunTick(now: Instant, st: Settings, raises: Call -> bool): (log: seq<Entry>)
    ensures MinuteOf(now) == 0 ==> forall i :: 0 <= i < |log| ==> log[i].call.Backfill?
    ensures MinuteOf(now) == 0 ==> |log| == if BackfillCall(st).Some? then 1 else 0
    ensures MinuteOf(now) == 0 ==>
      log == if BackfillCall(st).Some? then [Entry(BackfillCall(st).value, raises(BackfillCall(st).value))] else []
    ensures MinuteOf(now) == 30 ==> |log| <= 2 && forall i :: 0 <= i < |log| ==> !log[i].call.Backfill?
    ensures MinuteOf(now) == 30 ==> forall i, j :: 0 <= i < j < |log| ==> log[i].call.Ingest? && log[j].call.Generate?
    ensures MinuteOf(now) == 30 ==> (GeneratorReady(st) <==> |log| > 0 && log[|log| - 1].call.Generate?)
    ensures MinuteOf(now) == 30 ==> (st.ingestLimit.Some? <==> |log| > 0 && log[0].call.Ingest?)
    ensures MinuteOf(now) != 0 && MinuteOf(now) != 30 ==> log == []
    ensures forall i :: 0 <= i < |log| ==> log[i].raised == raises(log[i].call)
  {
    var minute := MinuteOf(now);
    if minute == 0 then
      match BackfillCall(st)
      case None => []
      case Some(c) => [Entry(c, raises(c))]
    else if minute == 30 then
      var (start, end) := HalfHourWindow(now);
      var ingest := match st.ingestLimit
        case None => []
        case Some(limit) => [Entry(Ingest(limit, st.categories, end), raises(Ingest(limit, st.categories, end)))];
      var generate := if GeneratorReady(st) then
          var c := Generate(st.indTimeframe, st.rsiPeriod.value, st.smaFast.value, st.smaSlow.value,
                            start, end, st.perAgentLimit, st.maxTokens.value);
          [Entry(c, raises(c))]
        else [];
      ingest + generate
    else []
  }

  /** At :30 the generate step covers exactly the half hour just ended:
      from the full hour to the half hour, with ingestion capped at its
      end. */
  lemma HalfHourTick(now: Instant, st: Settings, raises: Call -> bool)
    requires MinuteOf(now) == 30
    requires st.ingestLimit.Some? && GeneratorReady(st)
    ensures var log := RunTick(now, st, raises);
      && |log| == 2
      && log[0].call.Ingest? && log[1].call.Generate?
      && log[0].call.until == log[1].call.end
      && log[1].call.end.seconds % 3600 == 1800
      && log[1].call.start.seconds % 3600 == 0
      && log[1].call.start.seconds < log[1].call.end.seconds <= now.seconds
  {
    var (start, end) := HalfHourWindow(now);
    var s := now.seconds;
    var q := s / 3600;
    var r := s % 3600;
    assert 1800 <= r < 1860;
    Arith.DivModUnique(s, HalfHour, 2 * q + 1, r - 1800);
    assert end.seconds == q * 3600 + 1800;
    Arith.DivModUnique(end.seconds, 3600, q, 1800);
    Arith.DivModUnique(start.seconds, 3600, q, 0);
  }

  /** At :30 each call carries the settings read, whether or not the
      other call is made: ingestion gets the ingest limit and categories
      and runs up to the window end; generation gets the indicator
      settings, the per-agent limit and the token budget, and covers the
      half-hour window. */
  lemma HalfHourArguments(now: Instant, st: Settings, raises: Call -> bool)
    requires MinuteOf(now) == 30
    ensures var log := RunTick(now, st, raises);
      st.ingestLimit.Some? ==>
        && |log| > 0 && log[0].call.Ingest?
        && Some(log[0].call.limit) == st.ingestLimit && log[0].call.categories == st.categories
        && log[0].call.until == HalfHourWindow(now).1
    ensures var log := RunTick(now, st, raises);
      GeneratorReady(st) ==>
        && |log| > 0 && log[|log| - 1].call.Generate?
        && log[|log| - 1].call.indTimeframe == st.indTimeframe
        && log[|log| - 1].call.perAgentLimit == st.perAgentLimit
        && Some(log[|log| - 1].call.rsiPeriod) == st.rsiPeriod && Some(log[|log| - 1].call.smaFast) == st.smaFast
        && Some(log[|log| - 1].call.smaSlow) == st.smaSlow && Some(log[|log| - 1].call.maxTokens) == st.maxTokens
        && log[|log| - 1].call.start == HalfHourWindow(now).0 && log[|log| - 1].call.end == HalfHourWindow(now).1
  {
  }

  /** `bool(conf_get(conf, "cron.eager_first_run", True))`: whether one
      tick runs before the loop starts. */
  function EagerFirstRun(conf: Option<map<string, Value>>): bool {
    Truthy(ConfGet(conf, "cron.eager_first_run", VBool(true)))
  }

  /** `int(conf_get(conf, "cron.jitter_seconds", 0) or 0)`; a value that
      does not convert stops the program before the first tick. */
  function Jitter(conf: Option<map<string, Value>>): (r: Result<int>)
    ensures r.Err? ==> r.error == BadSetting
  {
    var v := ConfGet(conf, "cron.jitter_seconds", VInt(0));
    match IntOf(if Truthy(v) then v else VInt(0))
    case None => Err(BadSetting)
    case Some(j) => Ok(j)
  }

  /** The seconds slept before the next tick: the whole seconds until the
      next half-hour mark at or after `now`, plus `min(jitter, 5)` for a
      positive jitter. */
  function SleepSeconds(now: Instant, jitter: int): (sleep: nat)
    ensures var extra := if jitter > 0 then (if jitter < 5 then jitter else 5) else 0;
      && 0 <= extra <= 5
      && sleep >= extra
      && (now.seconds + (sleep - extra)) % HalfHour == 0
      && sleep - extra < HalfHour
      && (now.seconds % HalfHour == 0 ==> sleep == extra)
  {
    var wait := CeilTo(now.seconds, HalfHour) - now.seconds;
    wait + (if jitter > 0 then (if jitter < 5 then jitter else 5) else 0)
  }

  /** The next tick is `snap_to_interval(now, "30m", "ceil")`. */
  lemma NextTickIsSnap(now: Instant)
    ensures Snap(now, TickFreq, "ceil") == Ok(Utc(CeilTo(now.seconds, HalfHour)))
  {
    TickFreqSeconds();
    SnapWithStep(now, TickFreq, HalfHour);
  }

  /** The start of the program: the settings it reads, the tick it runs
      at once (at `tickNow`) when eager, and the pause before the first
      scheduled tick (computed at `loopNow`). A jitter that does not
      convert stops the program before any tick. The endless loop itself
      repeats the sleep and the tick. */
  function Start(tickNow: Instant, loopNow: Instant, conf: Option<map<string, Value>>, render: Value -> string, raises: Call -> bool): (r: Result<(seq<Entry>, nat)>)
    ensures r.Err? <==> Jitter(conf).Err?
    ensures r.Ok? && EagerFirstRun(conf) ==> r.value.0 == RunTick(tickNow, ReadSettings(conf, render), raises)
    ensures r.Ok? && !EagerFirstRun(conf) ==> r.value.0 == []
    ensures r.Ok? ==> r.value.1 == SleepSeconds(loopNow, Jitter(conf).value)
  {
    match Jitter(conf)
    case Err(e) => Err(e)
    case Ok(jitter) =>
      var first := if EagerFirstRun(conf) then RunTick(tickNow, ReadSettings(conf, render), raises) else [];
      Ok((first, SleepSeconds(loopNow, jitter)))
  }

  /** Without a configuration the program ticks at once and adds no
      jitter. */
  lemma DefaultStart(tickNow: Instant, loopNow: Instant, render: Value -> string, raises: Call -> bool)
    ensures Start(tickNow, loopNow, None, render, raises) == Ok((RunTick(tickNow, ReadSettings(None, render), raises), SleepSeconds(loopNow, 0)))
  {
  }
}
