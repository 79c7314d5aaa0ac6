/** Backfilling the most recent rounds
    (src/application/use_cases/backfill_recent_rounds.py): lay out `n`
    back-to-back windows of one timeframe ending at the floor of `now`,
    skip the windows whose round key is already stored, and for every other
    window ingest events (unless enough are already there), generate
    observations and evaluate the round. The sub-use-cases only have side
    effects whose failures are logged and swallowed, so they appear here as
    a log of actions. */
module Backfill {

  import opened Wrappers
  import opened Time
  import opened Rounds
  import Arith
  import Slices

  datatype BackfillResult = BackfillResult(requested: nat, existing: nat, processed: nat, skipped: nat)

  /** The options `BackfillRecentRounds` is constructed with that reach
      its calls: the per-agent limit and token budget of the observation
      generator, the news categories (`None` for the missing list) and the
      minimum number of events a round should hold. */
  datatype Tuning = Tuning(perAgentLimit: Option<int>, maxTokens: int, categories: Option<seq<string>>, minEvents: Option<int>)

  /** The constructor's defaults. */
  const DefaultTuning: Tuning := Tuning(None, 256, None, None)

  /** Everything the calls of one run are made from: the tuning and the
      arguments of `run`. */
  datatype Job = Job(tuning: Tuning, ingestLimit: int, quote: string, timeframe: string)

  /** A use-case call made for one window, with its arguments, in the
      order it is started. */
  datatype Action =
    | Ingest(key: string, limit: int, categories: Option<seq<string>>, until: Instant)
    | Generate(key: string, start: Instant, end: Instant, perAgentLimit: Option<int>, maxTokens: int)
    | Evaluate(key: string, round: Round, quote: string, timeframe: string)

  /** The collaborators. `keyOf` turns window bounds into a round key (the
      source formats both bounds to the minute); `existingKeys` is the
      round repository's answer for a list of keys, `None` when it raises;
      `countInWindow` is the
      event repository's count of events with assets in a window, `None`
      when it raises. */
  datatype Repos = Repos(
    keyOf: (Instant, Instant) -> string,
    existingKeys: seq<string> -> Option<set<string>>,
    countInWindow: (Instant, Instant) -> Option<nat>)

  /** Window `i`, counted back from the anchor. */
  function WindowAt(anchor: int, step: nat, i: nat, keyOf: (Instant, Instant) -> string): Round {
    var end := Utc(anchor - i * step);
    var start := Utc(anchor - i * step - step);
    Round(keyOf(start, end), start, end)
  }

  /** The `n` windows, newest first. */
  function Windows(anchor: int, step: nat, n: nat, keyOf: (Instant, Instant) -> string): (ws: seq<Round>)
    ensures |ws| == n
    ensures forall i :: 0 <= i < n ==> ws[i] == WindowAt(anchor, step, i, keyOf)
  {
    seq(n, i requires 0 <= i < n => WindowAt(anchor, step, i, keyOf))
  }

  /** Every window is one step long and UTC-aware, the first one ends at
      the anchor and each later one ends where the previous one starts. */
  lemma WindowsTile(anchor: int, step: nat, n: nat, keyOf: (Instant, Instant) -> string)
    ensures var ws := Windows(anchor, step, n, keyOf);
      && (forall i :: 0 <= i < n ==>
            && IsUtc(ws[i].windowStart) && IsUtc(ws[i].windowEnd)
            && ws[i].windowEnd.seconds - ws[i].windowStart.seconds == step)
      && (n > 0 ==> ws[0].windowEnd == Utc(anchor))
      && (forall i :: 0 <= i < n - 1 ==> ws[i + 1].windowEnd == ws[i].windowStart)
  {
    var ws := Windows(anchor, step, n, keyOf);
    forall i | 0 <= i < n - 1
      ensures ws[i + 1].windowEnd == ws[i].windowStart
    {
      assert anchor - (i + 1) * step == anchor - i * step - step;
    }
  }

  /** With the anchor on the grid of the step, so is every bound. */
  lemma WindowsOnGrid(anchor: int, step: nat, n: nat, keyOf: (Instant, Instant) -> string)
    requires step > 0 && anchor % step == 0
    ensures var ws := Windows(anchor, step, n, keyOf);
      forall i :: 0 <= i < n ==> ws[i].windowStart.seconds % step == 0 && ws[i].windowEnd.seconds % step == 0
  {
    var ws := Windows(anchor, step, n, keyOf);
    forall i | 0 <= i < n
      ensures ws[i].windowStart.seconds % step == 0 && ws[i].windowEnd.seconds % step == 0
    {
      var q := anchor / step;
      assert anchor == q * step;
      assert anchor - i * step == (q - i) * step;
      assert anchor - i * step - step == (q - i - 1) * step;
      Arith.MultipleMod(q - i, step);
      Arith.MultipleMod(q - i - 1, step);
    }
  }

  function Keys(ws: seq<Round>): (ks: seq<string>)
    ensures |ks| == |ws|
    ensures forall i :: 0 <= i < |ws| ==> ks[i] == ws[i].key
  {
    seq(|ws|, i requires 0 <= i < |ws| => ws[i].key)
  }

  /** Ingestion is skipped only when a positive minimum is configured and
      the window already holds at least that many events. */
  predicate ShouldIngest(minEvents: Option<int>, existing: nat) {
    !(minEvents.Some? && minEvents.value > 0) || existing < minEvents.value
  }

  /** The event count used for the decision; a failing count reads as 0. */
  function EventCount(repos: Repos, w: Round): nat {
    match repos.countInWindow(w.windowStart, w.windowEnd)
    case None => 0
    case Some(c) => c
  }

  /** The categories handed to ingestion: the constructor keeps
      `ingest_categories or []` and passes `... or None`, so a missing or
      empty list becomes `None`. */
  function IngestCategories(t: Tuning): (c: Option<seq<string>>)
    ensures c.None? <==> t.categories.None? || t.categories.value == []
    ensures c.Some? ==> c == t.categories
  {
    var kept := if t.categories.None? then [] else t.categories.value;
    if kept == [] then None else Some(kept)
  }

  /** The calls for a window that is not skipped: ingestion up to the
      window end with the run's limit, when asked for; generation over
      the window with the generator's tuning; evaluation of the window
      with the run's quote and timeframe. */
  function WindowActions(w: Round, ingest: bool, job: Job): (acts: seq<Action>)
    ensures |acts| == if ingest then 3 else 2
    ensures forall a :: a in acts ==> a.key == w.key
    ensures acts[|acts| - 1] == Evaluate(w.key, w, job.quote, job.timeframe)
    ensures acts[|acts| - 2] == Generate(w.key, w.windowStart, w.windowEnd, job.tuning.perAgentLimit, job.tuning.maxTokens)
    ensures ingest ==> acts[0] == Ingest(w.key, job.ingestLimit, IngestCategories(job.tuning), w.windowEnd)
  {
    var t := job.tuning;
    (if ingest then [Ingest(w.key, job.ingestLimit, IngestCategories(t), w.windowEnd)] else [])
      + [Generate(w.key, w.windowStart, w.windowEnd, t.perAgentLimit, t.maxTokens),
         Evaluate(w.key, w, job.quote, job.timeframe)]
  }

  /** The actions for one window, given the stored keys: none when its
      key is stored. */
  function WindowStep(w: Round, have: set<string>, repos: Repos, job: Job): seq<Action> {
    if w.key in have then [] else WindowActions(w, ShouldIngest(job.tuning.minEvents, EventCount(repos, w)), job)
  }

  /** The action log of the windows `ws`, given the stored keys. */
  function Plan(ws: seq<Round>, have: set<string>, repos: Repos, job: Job): seq<Action> {
    if |ws| == 0 then []
    else Plan(ws[..|ws| - 1], have, repos, job) + WindowStep(ws[|ws| - 1], have, repos, job)
  }

  /** The log grows by the actions of the window added last. */
  lemma PlanSnoc(init: seq<Round>, last: Round, have: set<string>, repos: Repos, job: Job)
    ensures Plan(init + [last], have, repos, job) == Plan(init, have, repos, job) + WindowStep(last, have, repos, job)
  {
    assert (init + [last])[..|init|] == init;
  }

  /** How many of the windows `ws` are skipped. */
  function SkippedCount(ws: seq<Round>, have: set<string>): (k: nat)
    ensures k <= |ws|
  {
    if |ws| == 0 then 0
    else SkippedCount(ws[..|ws| - 1], have) + (if ws[|ws| - 1].key in have then 1 else 0)
  }

  /** `BackfillRecentRounds.run`, with the source's defaults for its
      keyword arguments. A non-positive `n` returns zeros at once.
      Otherwise `now` is floored to the timeframe (so a malformed or zero
      timeframe fails here, before any collaborator is called), the
      windows are laid out, the repository is asked once for the stored
      keys (a failure there propagates), and the windows are processed
      newest first. */
  method Run(repos: Repos, tuning: Tuning, now: Instant, n: int := 10, timeframe: string := "1h",
             ingestLimit: int := 500, quote: string := "USDT")
    returns (r: Result<BackfillResult>, actions: seq<Action>)
    ensures n <= 0 ==> r == Ok(BackfillResult(0, 0, 0, 0)) && actions == []
    ensures n > 0 && Snap(now, timeframe, "floor").Err? ==>
      r == Err(Snap(now, timeframe, "floor").error) && actions == []
    ensures n > 0 && Snap(now, timeframe, "floor").Ok? ==>
      var ws := Windows(Snap(now, timeframe, "floor").value.seconds, ParseFreq(timeframe).value, n, repos.keyOf);
      && (repos.existingKeys(Keys(ws)).None? ==> r == Err(RepositoryFailure) && actions == [])
      && (repos.existingKeys(Keys(ws)).Some? ==>
            var have := repos.existingKeys(Keys(ws)).value;
            && r.Ok?
            && r.value.requested == n
            && r.value.existing == |have|
            && r.value.skipped == SkippedCount(ws, have)
            && r.value.processed + r.value.skipped == n
            && actions == Plan(ws, have, repos, Job(tuning, ingestLimit, quote, timeframe)))
  {
    actions := [];
    if n <= 0 {
      return Ok(BackfillResult(0, 0, 0, 0)), actions;
    }
    var anchor := Snap(now, timeframe, "floor");
    if anchor.Err? {
      return Err(anchor.error), actions;
    }
    var step := ParseFreq(timeframe).value;
    var ws := Windows(anchor.value.seconds, step, n, repos.keyOf);
    var listed := repos.existingKeys(Keys(ws));
    if listed.None? {
      return Err(RepositoryFailure), actions;
    }
    var have := listed.value;
    var job := Job(tuning, ingestLimit, quote, timeframe);
    var processed, skipped := 0, 0;
    var i := 0;
    while i < n
      invariant 0 <= i <= n
      invariant skipped == SkippedCount(ws[..i], have)
      invariant processed + skipped == i
      invariant actions == Plan(ws[..i], have, repos, job)
    {
      Slices.TakeSnoc(ws, i);
      processed, skipped, actions := ProcessWindow(ws[..i], ws[i], have, repos, job, processed, skipped, actions);
      i := i + 1;
    }
    assert ws[..i] == ws;
    r := Ok(BackfillResult(n, |have|, processed, skipped));
  }

  /** One pass of the loop of `run`: a stored window is skipped; otherwise
      its events are counted, ingestion runs when the minimum-events rule
      asks for it, and the window is generated and evaluated. */
  method ProcessWindow(prefix: seq<Round>, w: Round, have: set<string>, repos: Repos, job: Job,
                       processed: nat, skipped: nat, actions: seq<Action>)
    returns (processed': nat, skipped': nat, actions': seq<Action>)
    requires skipped == SkippedCount(prefix, have) && processed + skipped == |prefix|
    requires actions == Plan(prefix, have, repos, job)
    ensures skipped' == SkippedCount(prefix + [w], have) && processed' + skipped' == |prefix| + 1
    ensures actions' == Plan(prefix + [w], have, repos, job)
  {
    assert (prefix + [w])[..|prefix|] == prefix;
    PlanSnoc(prefix, w, have, repos, job);
    processed', skipped', actions' := processed, skipped, actions;
    if w.key in have {
      skipped' := skipped + 1;
    } else {
      var existing := EventCount(repos, w);
      var ingest := true;
      var minEvents := job.tuning.minEvents;
      if minEvents.Some? && minEvents.value > 0 {
        ingest := existing < minEvents.value;
      }
      actions' := actions + WindowActions(w, ingest, job);
      processed' := processed + 1;
    }
  }

  /** Nothing is done for a window whose key is stored: every action in
      the log belongs to a window with a fresh key. */
  lemma {:induction false} PlanSkipsStored(ws: seq<Round>, have: set<string>, repos: Repos, job: Job)
    ensures forall a :: a in Plan(ws, have, repos, job) ==>
      exists w :: w in ws && w.key == a.key && w.key !in have
    decreases |ws|
  {
    if |ws| > 0 {
      var init := ws[..|ws| - 1];
      PlanSkipsStored(init, have, repos, job);
      forall w | w in init ensures w in ws { }
    }
  }

  /** Every window with a fresh key is evaluated, and only those are. */
  lemma {:induction false} PlanEvaluates(ws: seq<Round>, have: set<string>, repos: Repos, job: Job, w: Round)
    ensures Evaluate(w.key, w, job.quote, job.timeframe) in Plan(ws, have, repos, job) <==> w in ws && w.key !in have
    decreases |ws|
  {
    if |ws| > 0 {
      var init := ws[..|ws| - 1];
      var last := ws[|ws| - 1];
      Slices.InitLast(ws);
      PlanSnoc(init, last, have, repos, job);
      PlanEvaluates(init, have, repos, job, w);
      EvaluateInStep(last, have, repos, job, w);
    }
  }

  /** A window's actions evaluate exactly that window, and only when its
      key is fresh. */
  lemma EvaluateInStep(last: Round, have: set<string>, repos: Repos, job: Job, w: Round)
    ensures Evaluate(w.key, w, job.quote, job.timeframe) in WindowStep(last, have, repos, job) <==> w == last && w.key !in have
  {
  }

  /** A window's actions ingest only for that window, and exactly when
      its key is fresh and the minimum-events rule asks for it. */
  lemma IngestInStep(last: Round, have: set<string>, repos: Repos, job: Job, k: string, u: Instant)
    ensures Ingest(k, job.ingestLimit, IngestCategories(job.tuning), u) in WindowStep(last, have, repos, job)
        <==> k == last.key && u == last.windowEnd && last.key !in have
             && ShouldIngest(job.tuning.minEvents, EventCount(repos, last))
  {
  }

  /** A window is ingested for exactly when it is processed and the
      minimum-events rule asks for it. */
  lemma {:induction false} PlanIngests(ws: seq<Round>, have: set<string>, repos: Repos, job: Job, w: Round)
    requires forall i, j :: 0 <= i < j < |ws| ==> ws[i].key != ws[j].key
    requires w in ws
    ensures Ingest(w.key, job.ingestLimit, IngestCategories(job.tuning), w.windowEnd) in Plan(ws, have, repos, job)
        <==> w.key !in have && ShouldIngest(job.tuning.minEvents, EventCount(repos, w))
    decreases |ws|
  {
    var init := ws[..|ws| - 1];
    var last := ws[|ws| - 1];
    Slices.InitLast(ws);
    PlanSnoc(init, last, have, repos, job);
    IngestInStep(last, have, repos, job, w.key, w.windowEnd);
    if w == last {
      forall i | 0 <= i < |init|
        ensures init[i].key != w.key
      {
        assert init[i] == ws[i];
      }
      PlanIngestsAbsent(init, have, repos, job, w.key);
    } else {
      var j :| 0 <= j < |init| && init[j] == w;
      assert ws[j] == w && w.key != last.key;
      forall i, i' | 0 <= i < i' < |init|
        ensures init[i].key != init[i'].key
      {
        assert init[i] == ws[i] && init[i'] == ws[i'];
      }
      PlanIngests(init, have, repos, job, w);
    }
  }

  /** No call in the log of windows that all lack the key `k` has that
      key. */
  lemma {:induction false} PlanIngestsAbsent(ws: seq<Round>, have: set<string>, repos: Repos, job: Job, k: string)
    requires forall i :: 0 <= i < |ws| ==> ws[i].key != k
    ensures forall a :: a in Plan(ws, have, repos, job) ==> a.key != k
    decreases |ws|
  {
    if |ws| > 0 {
      PlanIngestsAbsent(ws[..|ws| - 1], have, repos, job, k);
    }
  }

  /** Every call in the log carries the arguments the source passes:
      ingestion the run's limit and the tuned categories, generation the
      generator's per-agent limit and token budget, evaluation the run's
      quote and timeframe. */
  lemma {:induction false} PlanArguments(ws: seq<Round>, have: set<string>, repos: Repos, job: Job)
    ensures forall a :: a in Plan(ws, have, repos, job) ==>
      && (a.Ingest? ==> a.limit == job.ingestLimit && a.categories == IngestCategories(job.tuning))
      && (a.Generate? ==> a.perAgentLimit == job.tuning.perAgentLimit && a.maxTokens == job.tuning.maxTokens)
      && (a.Evaluate? ==> a.quote == job.quote && a.timeframe == job.timeframe)
    decreases |ws|
  {
    if |ws| > 0 {
      PlanArguments(ws[..|ws| - 1], have, repos, job);
    }
  }
}
