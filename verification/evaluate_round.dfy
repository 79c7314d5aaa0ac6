/** The round evaluation use case
    (src/application/use_cases/evaluate_round.py): validate and floor-snap
    the round window, ask the price-change oracle once per normalised asset
    symbol, score every agent by the sum of its price-weighted z-scores,
    count each agent's usable observations and sort the agents by score. */
module EvaluateRound {

  import opened Wrappers
  import opened Text
  import opened Time
  import opened Rounds
  import StableSort

  /** An agent's observation about an event (src/domain/observations.py). */
  datatype Observation = Observation(agentId: string, eventId: string, assetSymbol: Option<string>,
                                     factor: string, ziScore: Option<int>)

  /** The relative price change of a symbol over the snapped window, or
      `None` when the indicator service raises for it. The window, the
      timeframe and the quote are fixed for one evaluation, so the oracle
      takes the symbol only. */
  type PriceChange = string -> Option<real>

  /** `(o.asset_symbol or "").strip()`. */
  function SymbolText(o: Observation): string {
    if o.assetSymbol.Some? then Strip(o.assetSymbol.value) else []
  }

  /** What the evaluation reads from an observation: its agent, its
      normalised symbol (stripped, then upper-cased) and its z-score. */
  datatype View = View(agentId: string, sym: string, ziScore: Option<int>)

  /** Upper-casing keeps the length, so the normalised symbol is blank
      exactly when the stripped one is: the scoring loop's test and the
      counting loop's test agree. */
  function ViewOf(o: Observation): (v: View)
    ensures v.agentId == o.agentId && v.ziScore == o.ziScore
    ensures |v.sym| == |SymbolText(o)|
  {
    View(o.agentId, Upper(SymbolText(o)), o.ziScore)
  }

  function Views(obs: seq<Observation>): (vs: seq<View>)
    ensures |vs| == |obs|
    ensures forall i :: 0 <= i < |obs| ==> vs[i] == ViewOf(obs[i])
  {
    seq(|obs|, i requires 0 <= i < |obs| => ViewOf(obs[i]))
  }

  /** An observation is usable when its symbol is not blank and it carries a
      z-score. */
  predicate Usable(o: View) {
    o.sym != [] && o.ziScore.Some?
  }

  /** A usable observation whose symbol has a price change adds to its
      agent's score. */
  predicate Contributes(o: View, pc: PriceChange) {
    Usable(o) && pc(o.sym).Some?
  }

  function Contribution(o: View, pc: PriceChange): real
    requires Contributes(o, pc)
  {
    pc(o.sym).value * o.ziScore.value as real
  }

  // ---------------------------------------------------------------------
  // Reference definitions, one observation at a time from the end

  /** The sum of the contributions of agent `a`'s observations. */
  function AgentTotal(obs: seq<View>, a: string, pc: PriceChange): real {
    if |obs| == 0 then 0.0
    else
      var o := obs[|obs| - 1];
      AgentTotal(obs[..|obs| - 1], a, pc) + (if o.agentId == a && Contributes(o, pc) then Contribution(o, pc) else 0.0)
  }

  /** The number of agent `a`'s usable observations, whether or not their
      symbol has a price change. */
  function CountOf(obs: seq<View>, a: string): (n: nat)
    ensures n <= |obs|
  {
    if |obs| == 0 then 0
    else
      var o := obs[|obs| - 1];
      CountOf(obs[..|obs| - 1], a) + (if o.agentId == a && Usable(o) then 1 else 0)
  }

  predicate Distinct<T(==)>(s: seq<T>) {
    forall i, j :: 0 <= i < j < |s| ==> s[i] != s[j]
  }

  /** Agent `a` has a contributing observation in `obs`. */
  predicate HasContribution(obs: seq<View>, a: string, pc: PriceChange) {
    exists i :: 0 <= i < |obs| && obs[i].agentId == a && Contributes(obs[i], pc)
  }

  /** Some usable observation of `obs` has normalised symbol `x`. */
  predicate HasSymbol(obs: seq<View>, x: string) {
    exists i :: 0 <= i < |obs| && Usable(obs[i]) && obs[i].sym == x
  }

  lemma HasContributionSnoc(obs: seq<View>, o: View, a: string, pc: PriceChange)
    ensures HasContribution(obs + [o], a, pc) <==> HasContribution(obs, a, pc) || (o.agentId == a && Contributes(o, pc))
  {
    var s := obs + [o];
    if HasContribution(s, a, pc) && !(o.agentId == a && Contributes(o, pc)) {
      var i :| 0 <= i < |s| && s[i].agentId == a && Contributes(s[i], pc);
      assert i < |obs| && obs[i] == s[i];
    }
    if HasContribution(obs, a, pc) {
      var i :| 0 <= i < |obs| && obs[i].agentId == a && Contributes(obs[i], pc);
      assert s[i] == obs[i];
    }
    if o.agentId == a && Contributes(o, pc) {
      assert s[|obs|] == o;
    }
  }

  lemma HasSymbolSnoc(obs: seq<View>, o: View, x: string)
    ensures HasSymbol(obs + [o], x) <==> HasSymbol(obs, x) || (Usable(o) && o.sym == x)
  {
    var s := obs + [o];
    if HasSymbol(s, x) && !(Usable(o) && o.sym == x) {
      var i :| 0 <= i < |s| && Usable(s[i]) && s[i].sym == x;
      assert i < |obs| && obs[i] == s[i];
    }
    if HasSymbol(obs, x) {
      var i :| 0 <= i < |obs| && Usable(obs[i]) && obs[i].sym == x;
      assert s[i] == obs[i];
    }
    if Usable(o) && o.sym == x {
      assert s[|obs|] == o;
    }
  }

  /** An agent without contributions has a zero total. */
  lemma {:induction false} TotalWithoutContribution(obs: seq<View>, a: string, pc: PriceChange)
    requires !HasContribution(obs, a, pc)
    ensures AgentTotal(obs, a, pc) == 0.0
    decreases |obs|
  {
    if |obs| > 0 {
      var init := obs[..|obs| - 1];
      HasContributionSnoc(init, obs[|obs| - 1], a, pc);
      assert init + [obs[|obs| - 1]] == obs;
      TotalWithoutContribution(init, a, pc);
    }
  }

  /** The agents with at least one contribution, in the order of their
      first contribution: the key order of the score dict. */
  function AgentOrder(obs: seq<View>, pc: PriceChange): (order: seq<string>)
    ensures Distinct(order)
    ensures forall a :: a in order <==> HasContribution(obs, a, pc)
  {
    if |obs| == 0 then []
    else
      var init := obs[..|obs| - 1];
      var o := obs[|obs| - 1];
      var rest := AgentOrder(init, pc);
      assert init + [o] == obs;
      forall a
        ensures HasContribution(obs, a, pc) <==> HasContribution(init, a, pc) || (o.agentId == a && Contributes(o, pc))
      {
        HasContributionSnoc(init, o, a, pc);
      }
      if Contributes(o, pc) && o.agentId !in rest then
        var order := rest + [o.agentId];
        assert forall k :: 0 <= k < |rest| ==> order[k] == rest[k] != o.agentId;
        order
      else rest
  }

  /** The symbols the price-change oracle is asked about, in order: every
      normalised symbol of a usable observation, once, at its first
      occurrence, whatever the answer. */
  function Queries(obs: seq<View>): (q: seq<string>)
    ensures Distinct(q)
    ensures forall x :: x in q <==> HasSymbol(obs, x)
  {
    if |obs| == 0 then []
    else
      var init := obs[..|obs| - 1];
      var o := obs[|obs| - 1];
      var rest := Queries(init);
      assert init + [o] == obs;
      forall x
        ensures HasSymbol(obs, x) <==> HasSymbol(init, x) || (Usable(o) && o.sym == x)
      {
        HasSymbolSnoc(init, o, x);
      }
      if Usable(o) && o.sym !in rest then rest + [o.sym] else rest
  }

  /** The score lines in dict order, before sorting. */
  function Entries(obs: seq<View>, pc: PriceChange): (es: seq<RoundAgentScore>)
    ensures |es| == |AgentOrder(obs, pc)|
    ensures forall j :: 0 <= j < |es| ==>
      es[j] == RoundAgentScore(AgentOrder(obs, pc)[j], AgentTotal(obs, AgentOrder(obs, pc)[j], pc),
                               CountOf(obs, AgentOrder(obs, pc)[j]))
  {
    var order := AgentOrder(obs, pc);
    seq(|order|, j requires 0 <= j < |order| => RoundAgentScore(order[j], AgentTotal(obs, order[j], pc), CountOf(obs, order[j])))
  }

  /** `reverse=True` on a stable sort by score is an ascending stable sort
      by the negated score. */
  function NegScore(s: RoundAgentScore): real {
    -s.score
  }

  function CountIn(counts: map<string, nat>, a: string): nat {
    if a in counts then counts[a] else 0
  }

  // ---------------------------------------------------------------------
  // The use case

  /** How the reference definitions grow by one observation. */
  lemma SnocStep(prefix: seq<View>, o: View, pc: PriceChange)
    ensures AgentOrder(prefix + [o], pc)
         == (if Contributes(o, pc) && o.agentId !in AgentOrder(prefix, pc)
             then AgentOrder(prefix, pc) + [o.agentId] else AgentOrder(prefix, pc))
    ensures Queries(prefix + [o])
         == (if Usable(o) && o.sym !in Queries(prefix) then Queries(prefix) + [o.sym] else Queries(prefix))
    ensures forall a :: (AgentTotal(prefix + [o], a, pc)
      == AgentTotal(prefix, a, pc) + (if o.agentId == a && Contributes(o, pc) then Contribution(o, pc) else 0.0))
  {
    assert (prefix + [o])[..|prefix|] == prefix;
  }

  /** The oracle side of the scoring loop after the observations
      `prefix`: the query log is the reference one, the cache holds the
      answers received and the failed set the symbols that got none. */
  ghost predicate OracleState(prefix: seq<View>, pc: PriceChange, queried: seq<string>,
                              cache: map<string, real>, failed: set<string>) {
    && queried == Queries(prefix)
    && (forall x :: x in cache <==> x in queried && pc(x).Some?)
    && (forall x :: x in cache ==> cache[x] == pc(x).value)
    && (forall x :: x in failed <==> x in queried && pc(x).None?)
  }

  /** The score side: the agent order and the running totals agree with
      the reference definitions. */
  ghost predicate ScoreState(prefix: seq<View>, pc: PriceChange, order: seq<string>, scores: map<string, real>) {
    && order == AgentOrder(prefix, pc)
    && (forall a :: a in scores <==> a in order)
    && (forall a :: a in scores ==> scores[a] == AgentTotal(prefix, a, pc))
  }

  /** The price-change lookup of one observation: skip an unusable one or
      a failed symbol, use a cached answer, and otherwise ask the oracle
      and remember the answer or the failure. */
  method Lookup(prefix: seq<View>, o: View, pc: PriceChange,
                queried: seq<string>, cache: map<string, real>, failed: set<string>)
    returns (price: Option<real>, queried': seq<string>, cache': map<string, real>, failed': set<string>)
    requires OracleState(prefix, pc, queried, cache, failed)
    ensures OracleState(prefix + [o], pc, queried', cache', failed')
    ensures price == if Usable(o) then pc(o.sym) else None
  {
    SnocStep(prefix, o, pc);
    price, queried', cache', failed' := None, queried, cache, failed;
    var sym := o.sym;
    if sym != [] && o.ziScore.Some? && sym !in failed {
      if sym !in cache {
        queried' := queried + [sym];
        match pc(sym)
        case None => failed' := failed + {sym};
        case Some(p) => cache' := cache[sym := p];
      }
      if sym in cache' {
        price := Some(cache'[sym]);
      }
    }
  }

  /** Adding one observation's contribution to its agent's total. */
  method Accumulate(prefix: seq<View>, o: View, pc: PriceChange, price: Option<real>,
                    order: seq<string>, scores: map<string, real>)
    returns (order': seq<string>, scores': map<string, real>)
    requires price == if Usable(o) then pc(o.sym) else None
    requires ScoreState(prefix, pc, order, scores)
    ensures ScoreState(prefix + [o], pc, order', scores')
  {
    if price.None? {
      SkipKeepsScores(prefix, o, pc, order, scores);
      order', scores' := order, scores;
    } else {
      assert Usable(o) && price == pc(o.sym);
      var contribution := price.value * o.ziScore.value as real;
      assert contribution == Contribution(o, pc);
      var known := o.agentId in scores;
      order' := if known then order else order + [o.agentId];
      scores' := scores[o.agentId := (if known then scores[o.agentId] else 0.0) + contribution];
      AddKeepsScores(prefix, o, pc, order, scores);
    }
  }

  /** An observation that contributes nothing leaves the scores as they
      are. */
  lemma SkipKeepsScores(prefix: seq<View>, o: View, pc: PriceChange, order: seq<string>, scores: map<string, real>)
    requires ScoreState(prefix, pc, order, scores) && !Contributes(o, pc)
    ensures ScoreState(prefix + [o], pc, order, scores)
  {
    SnocStep(prefix, o, pc);
  }

  /** A contributing observation adds its contribution to its agent's
      score, entering the agent at the end of the order when new. */
  lemma AddKeepsScores(prefix: seq<View>, o: View, pc: PriceChange, order: seq<string>, scores: map<string, real>)
    requires ScoreState(prefix, pc, order, scores) && Contributes(o, pc)
    ensures var known := o.agentId in scores;
      ScoreState(prefix + [o], pc, if known then order else order + [o.agentId],
                 scores[o.agentId := (if known then scores[o.agentId] else 0.0) + Contribution(o, pc)])
  {
    AddOrder(prefix, o, pc, order, scores);
    if o.agentId !in scores {
      TotalWithoutContribution(prefix, o.agentId, pc);
    }
    AddTotals(prefix, o, pc, scores);
  }

  /** The order after a contributing observation. */
  lemma AddOrder(prefix: seq<View>, o: View, pc: PriceChange, order: seq<string>, scores: map<string, real>)
    requires ScoreState(prefix, pc, order, scores) && Contributes(o, pc)
    ensures (if o.agentId in scores then order else order + [o.agentId]) == AgentOrder(prefix + [o], pc)
  {
    SnocStep(prefix, o, pc);
  }

  /** The totals after a contributing observation. */
  lemma AddTotals(prefix: seq<View>, o: View, pc: PriceChange, scores: map<string, real>)
    requires forall a :: a in scores ==> scores[a] == AgentTotal(prefix, a, pc)
    requires o.agentId !in scores ==> AgentTotal(prefix, o.agentId, pc) == 0.0
    requires Contributes(o, pc)
    ensures var known := o.agentId in scores;
      var scores' := scores[o.agentId := (if known then scores[o.agentId] else 0.0) + Contribution(o, pc)];
      forall a :: a in scores' ==> scores'[a] == AgentTotal(prefix + [o], a, pc)
  {
    var known := o.agentId in scores;
    var scores' := scores[o.agentId := (if known then scores[o.agentId] else 0.0) + Contribution(o, pc)];
    forall a | a in scores'
      ensures scores'[a] == AgentTotal(prefix + [o], a, pc)
    {
      TotalSnoc(prefix, o, a, pc);
    }
  }

  /** The total of agent `a` grows by the contribution of its own
      observation. */
  lemma TotalSnoc(prefix: seq<View>, o: View, a: string, pc: PriceChange)
    ensures AgentTotal(prefix + [o], a, pc)
         == AgentTotal(prefix, a, pc) + (if o.agentId == a && Contributes(o, pc) then Contribution(o, pc) else 0.0)
  {
    assert (prefix + [o])[..|prefix|] == prefix;
  }

  /** The scoring loop of `run`: each usable observation's symbol is looked
      up in the cache of answers, then in the set of failed symbols, and
      only when it is in neither is the oracle asked. */
  method Tally(obs: seq<View>, pc: PriceChange)
    returns (order: seq<string>, scores: map<string, real>, queried: seq<string>)
    ensures order == AgentOrder(obs, pc) && queried == Queries(obs)
    ensures forall a :: a in scores <==> a in order
    ensures forall a :: a in scores ==> scores[a] == AgentTotal(obs, a, pc)
  {
    scores, order, queried := map[], [], [];
    var cache: map<string, real> := map[];
    var failed: set<string> := {};
    var i := 0;
    while i < |obs|
      invariant 0 <= i <= |obs|
      invariant OracleState(obs[..i], pc, queried, cache, failed)
      invariant ScoreState(obs[..i], pc, order, scores)
    {
      assert obs[..i + 1] == obs[..i] + [obs[i]];
      var price;
      price, queried, cache, failed := Lookup(obs[..i], obs[i], pc, queried, cache, failed);
      order, scores := Accumulate(obs[..i], obs[i], pc, price, order, scores);
      i := i + 1;
    }
    assert obs[..i] == obs;
  }

  /** The counting loop of `run`, which tests the stripped symbol rather
      than the normalised one. */
  method CountUsable(obs: seq<Observation>) returns (counts: map<string, nat>)
    ensures forall a :: CountIn(counts, a) == CountOf(Views(obs), a)
  {
    counts := map[];
    var vs := Views(obs);
    var j := 0;
    while j < |obs|
      invariant 0 <= j <= |obs|
      invariant forall a :: CountIn(counts, a) == CountOf(vs[..j], a)
    {
      var o := obs[j];
      var keep := CountTest(o);
      ViewsSnoc(obs, j);
      counts := CountStep(vs[..j], o, keep, counts);
      j := j + 1;
    }
    assert vs[..j] == vs;
  }

  /** The counting loop's test, on the stripped symbol; it agrees with
      the usability of the observation's view. */
  method CountTest(o: Observation) returns (keep: bool)
    ensures keep <==> Usable(ViewOf(o))
  {
    keep := SymbolText(o) != [] && o.ziScore.Some?;
  }

  lemma ViewsSnoc(obs: seq<Observation>, j: nat)
    requires j < |obs|
    ensures Views(obs)[..j + 1] == Views(obs)[..j] + [ViewOf(obs[j])]
  {
    var vs := Views(obs);
    var a, b := vs[..j + 1], vs[..j] + [ViewOf(obs[j])];
    assert |a| == |b|;
    forall i | 0 <= i < |a|
      ensures a[i] == b[i]
    {
      if i == j {
        assert a[i] == vs[j];
      }
    }
  }

  /** One step of the counting loop. */
  method CountStep(prefix: seq<View>, o: Observation, keep: bool, counts: map<string, nat>)
    returns (counts': map<string, nat>)
    requires keep == Usable(ViewOf(o))
    requires forall a :: CountIn(counts, a) == CountOf(prefix, a)
    ensures forall a :: CountIn(counts', a) == CountOf(prefix + [ViewOf(o)], a)
  {
    counts' := if keep then counts[o.agentId := CountIn(counts, o.agentId) + 1] else counts;
    forall a
      ensures CountIn(counts', a) == CountOf(prefix + [ViewOf(o)], a)
    {
      assert (prefix + [ViewOf(o)])[..|prefix|] == prefix;
    }
  }

  /** `EvaluateRound.run`. Both bounds must be UTC-aware; both are snapped
      down to the timeframe; the snapped window must be non-empty and must
      not end after `nowSeconds`. Then the observations in the snapped
      window are listed (a failing repository call propagates) and scored,
      and the evaluation, carrying the caller's round as given, is
      returned. `queried` lists the symbols the oracle was asked
      about, in order. Persisting the evaluation cannot change the result,
      since its failures are swallowed. */
  method Run(round: Round, nowSeconds: int, listInWindow: (Instant, Instant) -> Option<seq<Observation>>,
             pc: PriceChange, timeframe: string := "1h")
    returns (r: Result<RoundEvaluation>, queried: seq<string>)
    ensures !IsUtc(round.windowStart) || !IsUtc(round.windowEnd) ==> r == Err(NotUtc)
    ensures IsUtc(round.windowStart) && IsUtc(round.windowEnd) ==>
      (Snap(round.windowStart, timeframe, "floor").Err? ==> r == Err(Snap(round.windowStart, timeframe, "floor").error))
    ensures r.Ok? ==>
      && Snap(round.windowStart, timeframe, "floor").Ok? && Snap(round.windowEnd, timeframe, "floor").Ok?
      && var start := Snap(round.windowStart, timeframe, "floor").value;
      && var end := Snap(round.windowEnd, timeframe, "floor").value;
      && start.seconds < end.seconds <= nowSeconds
      && listInWindow(start, end).Some?
      && var obs := Views(listInWindow(start, end).value);
      && r.value.round == round
      && r.value.agentScores == StableSort.Sort(Entries(obs, pc), NegScore)
      && queried == Queries(obs)
    ensures IsUtc(round.windowStart) && IsUtc(round.windowEnd) && Snap(round.windowStart, timeframe, "floor").Ok?
            && Snap(round.windowEnd, timeframe, "floor").Ok? ==>
      var start := Snap(round.windowStart, timeframe, "floor").value;
      var end := Snap(round.windowEnd, timeframe, "floor").value;
      && (end.seconds <= start.seconds ==> r == Err(InvalidWindow))
      && (start.seconds < end.seconds && end.seconds > nowSeconds ==> r == Err(FutureWindow))
      && (start.seconds < end.seconds <= nowSeconds ==>
            (listInWindow(start, end).None? ==> r == Err(RepositoryFailure))
            && (listInWindow(start, end).Some? ==> r.Ok?))
    ensures r.Err? ==> queried == []
  {
    queried := [];
    if !IsUtc(round.windowStart) || !IsUtc(round.windowEnd) {
      return Err(NotUtc), queried;
    }
    var s := Snap(round.windowStart, timeframe, "floor");
    if s.Err? {
      return Err(s.error), queried;
    }
    var e := Snap(round.windowEnd, timeframe, "floor");
    var start, end := s.value, e.value;
    if end.seconds <= start.seconds {
      return Err(InvalidWindow), queried;
    }
    if end.seconds > nowSeconds {
      return Err(FutureWindow), queried;
    }
    var listed := listInWindow(start, end);
    if listed.None? {
      return Err(RepositoryFailure), queried;
    }
    var obs := listed.value;
    var order, scores;
    order, scores, queried := Tally(Views(obs), pc);
    var counts := CountUsable(obs);
    var entries := seq(|order|, k requires 0 <= k < |order| =>
      RoundAgentScore(order[k], scores[order[k]], CountIn(counts, order[k])));
    assert entries == Entries(Views(obs), pc);
    r := Ok(RoundEvaluation(round, StableSort.Sort(entries, NegScore)));
  }

  // ---------------------------------------------------------------------
  // Properties of the evaluation

  /** The agent lines come out with scores non-increasing. */
  lemma EvaluationSorted(obs: seq<View>, pc: PriceChange)
    ensures var out := StableSort.Sort(Entries(obs, pc), NegScore);
      forall i, j :: 0 <= i < j < |out| ==> out[i].score >= out[j].score
  {
    StableSort.SortSorted(Entries(obs, pc), NegScore);
  }

  /** There is exactly one line per contributing agent, holding its total
      and its count of usable observations. */
  lemma EvaluationLines(obs: seq<View>, pc: PriceChange, s: RoundAgentScore)
    ensures s in StableSort.Sort(Entries(obs, pc), NegScore) <==>
      && HasContribution(obs, s.agentId, pc)
      && s.score == AgentTotal(obs, s.agentId, pc)
      && s.observationsCount == CountOf(obs, s.agentId)
  {
    var es := Entries(obs, pc);
    var order := AgentOrder(obs, pc);
    assert s in StableSort.Sort(es, NegScore) <==> s in multiset(StableSort.Sort(es, NegScore));
    assert s in es <==> s in multiset(es);
    if s.agentId in order {
      var k :| 0 <= k < |order| && order[k] == s.agentId;
      assert es[k].agentId == s.agentId;
    }
  }

  /** Agents with equal scores keep the order of their first contribution. */
  lemma EvaluationTiesKeepOrder(obs: seq<View>, pc: PriceChange, score: real)
    ensures StableSort.WithKey(StableSort.Sort(Entries(obs, pc), NegScore), NegScore, -score)
         == StableSort.WithKey(Entries(obs, pc), NegScore, -score)
  {
    StableSort.SortStable(Entries(obs, pc), NegScore, -score);
  }

  /** A usable observation counts for its agent even when its symbol has no
      price change, while its contribution is nothing. */
  lemma {:induction false} FailedSymbolStillCounted(obs: seq<View>, o: View, pc: PriceChange)
    requires Usable(o) && pc(o.sym).None?
    ensures CountOf(obs + [o], o.agentId) == CountOf(obs, o.agentId) + 1
    ensures forall a :: AgentTotal(obs + [o], a, pc) == AgentTotal(obs, a, pc)
  {
    assert (obs + [o])[..|obs|] == obs;
  }
}
