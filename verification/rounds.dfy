/** The round value objects (src/domain/rounds.py): a keyed evaluation
    window, its grid-snapped copy, and the scored result of evaluating it. */
module Rounds {

  import opened Wrappers
  import opened Time
  import Arith

  /** An evaluation window `[windowStart, windowEnd]` named by `key`. */
  datatype Round = Round(key: string, windowStart: Instant, windowEnd: Instant)

  /** One agent's line in an evaluation: its summed score and how many of
      its observations were eligible. */
  datatype RoundAgentScore = RoundAgentScore(agentId: string, score: real, observationsCount: nat)

  datatype RoundEvaluation = RoundEvaluation(round: Round, agentScores: seq<RoundAgentScore>)

  /** `Round.snapped`: each bound is snapped on its own, with its own mode;
      the key is kept and no ordering between the bounds is checked. A
      failure snapping the start is reported before the end is looked at. */
  function Snapped(r: Round, timeframe: string := "1h", startMode: string := "floor",
                   endMode: string := "floor"): (s: Result<Round>)
    ensures s.Ok? <==> Snap(r.windowStart, timeframe, startMode).Ok? && Snap(r.windowEnd, timeframe, endMode).Ok?
    ensures Snap(r.windowStart, timeframe, startMode).Err? ==> s == Err(Snap(r.windowStart, timeframe, startMode).error)
    ensures Snap(r.windowStart, timeframe, startMode).Ok? && Snap(r.windowEnd, timeframe, endMode).Err?
      ==> s == Err(Snap(r.windowEnd, timeframe, endMode).error)
    ensures s.Ok? ==>
      && s.value.key == r.key
      && s.value.windowStart == Snap(r.windowStart, timeframe, startMode).value
      && s.value.windowEnd == Snap(r.windowEnd, timeframe, endMode).value
  {
    var start :- Snap(r.windowStart, timeframe, startMode);
    var end :- Snap(r.windowEnd, timeframe, endMode);
    Ok(Round(r.key, start, end))
  }

  /** With the default floor modes each bound lands on the grid, no later
      than the original bound and less than one step before it. */
  lemma SnappedFloorBounds(r: Round, timeframe: string)
    requires ParseFreq(timeframe).Ok? && ParseFreq(timeframe).value > 0
    ensures var step := ParseFreq(timeframe).value;
      && Snapped(r, timeframe).Ok?
      && var s := Snapped(r, timeframe).value;
      && s.key == r.key && IsUtc(s.windowStart) && IsUtc(s.windowEnd)
      && s.windowStart.seconds % step == 0
      && s.windowStart.seconds <= r.windowStart.seconds < s.windowStart.seconds + step
      && s.windowEnd.seconds % step == 0
      && s.windowEnd.seconds <= r.windowEnd.seconds < s.windowEnd.seconds + step
  {
    SnapFloor(r.windowStart, timeframe);
    SnapFloor(r.windowEnd, timeframe);
  }

  /** Snapping a snapped round again with the same arguments changes
      nothing. */
  lemma SnappedIdempotent(r: Round, timeframe: string, startMode: string, endMode: string)
    requires Snapped(r, timeframe, startMode, endMode).Ok?
    ensures Snapped(Snapped(r, timeframe, startMode, endMode).value, timeframe, startMode, endMode)
         == Snapped(r, timeframe, startMode, endMode)
  {
    SnapIdempotent(r.windowStart, timeframe, startMode);
    SnapIdempotent(r.windowEnd, timeframe, endMode);
  }

  /** No ordering check: a window that sits inside one grid step collapses
      to an empty window under floor snapping. */
  lemma SnappedMayCollapse(r: Round, timeframe: string)
    requires ParseFreq(timeframe).Ok? && ParseFreq(timeframe).value > 0
    requires var step := ParseFreq(timeframe).value;
      r.windowStart.seconds <= r.windowEnd.seconds < FloorTo(r.windowStart.seconds, step) + step
    ensures Snapped(r, timeframe).Ok?
    ensures Snapped(r, timeframe).value.windowStart == Snapped(r, timeframe).value.windowEnd
  {
    var step := ParseFreq(timeframe).value;
    SnapFloor(r.windowStart, timeframe);
    SnapFloor(r.windowEnd, timeframe);
    var a := Snap(r.windowStart, timeframe, "floor").value.seconds;
    var b := Snap(r.windowEnd, timeframe, "floor").value.seconds;
    assert a == FloorTo(r.windowStart.seconds, step);
    if b < a {
      Arith.GridGap(b, a, step);
    } else if a < b {
      Arith.GridGap(a, b, step);
    }
  }

}
