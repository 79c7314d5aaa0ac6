/** OHLCV candles as the indicator service handles them
    (src/infrastructure/indicators/ccxt_service.py): turning the exchange's
    raw rows into candles, merging two candle lists by timestamp, and
    finding the candle of a timestamp. */
module Candles {

  import opened Wrappers
  import StableSort

  /** One candle; `tsMs` is its opening time in integer milliseconds. */
  datatype Candle = Candle(tsMs: int, open: real, high: real, low: real, close: real, volume: real)

  /** A raw exchange row. Each field is a number, or `None` for a value the
      conversion to `int`/`float` rejects. */
  type RawRow = seq<Option<real>>

  /** Python's `int()` of a float: truncation toward zero. */
  function TruncToInt(x: real): (n: int)
    ensures x >= 0.0 ==> n as real <= x < n as real + 1.0
    ensures x < 0.0 ==> n as real - 1.0 < x <= n as real
  {
    if x >= 0.0 then x.Floor else -((-x).Floor)
  }

  /** A row becomes a candle when it has at least six fields and its first
      six all convert; fields past the sixth are ignored. */
  function ParseRow(r: RawRow): (c: Option<Candle>)
    ensures c.Some? <==> |r| >= 6 && forall i :: 0 <= i < 6 ==> r[i].Some?
    ensures c.Some? ==> c.value == Candle(TruncToInt(r[0].value), r[1].value, r[2].value,
                                          r[3].value, r[4].value, r[5].value)
  {
    if |r| < 6 || r[0].None? || r[1].None? || r[2].None? || r[3].None? || r[4].None? || r[5].None? then None
    else Some(Candle(TruncToInt(r[0].value), r[1].value, r[2].value, r[3].value, r[4].value, r[5].value))
  }

  /** The candles of the convertible rows, in row order. */
  function ParsedRows(rows: seq<RawRow>): (cs: seq<Candle>)
    ensures |cs| <= |rows|
    ensures forall c :: c in cs <==> exists r :: r in rows && ParseRow(r) == Some(c)
  {
    if |rows| == 0 then []
    else
      var rest := ParsedRows(rows[1..]);
      assert forall r :: r in rows <==> r == rows[0] || r in rows[1..];
      match ParseRow(rows[0])
      case None => rest
      case Some(c) => [c] + rest
  }

  function TsKey(c: Candle): real {
    c.tsMs as real
  }

  /** `_normalize_ohlcv`: keep the convertible rows and sort them by
      timestamp with a stable sort; duplicates are kept. */
  function Normalize(rows: seq<RawRow>): (cs: seq<Candle>)
    ensures multiset(cs) == multiset(ParsedRows(rows))
    ensures |cs| <= |rows|
    ensures forall i, j :: 0 <= i < j < |cs| ==> cs[i].tsMs <= cs[j].tsMs
  {
    var cs := StableSort.Sort(ParsedRows(rows), TsKey);
    StableSort.SortSorted(ParsedRows(rows), TsKey);
    assert forall i, j :: 0 <= i < j < |cs| ==> TsKey(cs[i]) <= TsKey(cs[j]);
    cs
  }

  /** Candles with one timestamp come out of `Normalize` in row order. */
  lemma NormalizeStable(rows: seq<RawRow>, t: int)
    ensures StableSort.WithKey(Normalize(rows), TsKey, t as real)
         == StableSort.WithKey(ParsedRows(rows), TsKey, t as real)
  {
    StableSort.SortStable(ParsedRows(rows), TsKey, t as real);
  }

  /** A candle is in the normalised list exactly when some row converts
      to it. */
  lemma NormalizeMembers(rows: seq<RawRow>, c: Candle)
    ensures c in Normalize(rows) <==> exists r :: r in rows && ParseRow(r) == Some(c)
  {
    assert c in Normalize(rows) <==> c in multiset(Normalize(rows));
    assert c in ParsedRows(rows) <==> c in multiset(ParsedRows(rows));
  }

  predicate StrictlyAscending(cs: seq<Candle>) {
    forall i, j :: 0 <= i < j < |cs| ==> cs[i].tsMs < cs[j].tsMs
  }

  predicate HasTs(cs: seq<Candle>, t: int) {
    exists i :: 0 <= i < |cs| && cs[i].tsMs == t
  }

  /** The first candle with timestamp `t`; in a strictly ascending list,
      the only one. */
  function Lookup(cs: seq<Candle>, t: int): (r: Option<Candle>)
    ensures r.Some? <==> HasTs(cs, t)
    ensures r.Some? ==> r.value.tsMs == t && r.value in cs
  {
    if |cs| == 0 then None
    else if cs[0].tsMs == t then Some(cs[0])
    else
      var r := Lookup(cs[1..], t);
      assert HasTs(cs, t) ==> HasTs(cs[1..], t) by {
        if HasTs(cs, t) {
          var i :| 0 <= i < |cs| && cs[i].tsMs == t;
          assert cs[1..][i - 1].tsMs == t;
        }
      }
      r
  }

  /** The last candle with timestamp `t`: the one a dict keyed by
      timestamp keeps when it is filled in list order. */
  function LastWith(cs: seq<Candle>, t: int): (r: Option<Candle>)
    ensures r.Some? <==> HasTs(cs, t)
    ensures r.Some? ==> r.value.tsMs == t && r.value in cs
  {
    if |cs| == 0 then None
    else
      var rest := LastWith(cs[1..], t);
      assert HasTs(cs, t) <==> cs[0].tsMs == t || HasTs(cs[1..], t) by {
        if HasTs(cs, t) && cs[0].tsMs != t {
          var i :| 0 <= i < |cs| && cs[i].tsMs == t;
          assert cs[1..][i - 1].tsMs == t;
        }
        if HasTs(cs[1..], t) {
          var i :| 0 <= i < |cs[1..]| && cs[1..][i].tsMs == t;
          assert cs[i + 1].tsMs == t;
        }
      }
      if rest.Some? then rest
      else if cs[0].tsMs == t then Some(cs[0])
      else None
  }

  /** Stores `c` under its timestamp in an ascending list: it replaces the
      candle with the same timestamp or is inserted in order. */
  function Upsert(m: seq<Candle>, c: Candle): (r: seq<Candle>)
    ensures |r| > 0 && (r[0].tsMs == c.tsMs || (|m| > 0 && r[0].tsMs == m[0].tsMs))
    ensures StrictlyAscending(m) ==> StrictlyAscending(r)
  {
    if |m| == 0 || c.tsMs < m[0].tsMs then [c] + m
    else if c.tsMs == m[0].tsMs then [c] + m[1..]
    else [m[0]] + Upsert(m[1..], c)
  }

  lemma {:induction false} UpsertLookup(m: seq<Candle>, c: Candle, t: int)
    ensures Lookup(Upsert(m, c), t) == if t == c.tsMs then Some(c) else Lookup(m, t)
    decreases |m|
  {
    if |m| == 0 || c.tsMs < m[0].tsMs {
      assert ([c] + m)[1..] == m;
    } else if c.tsMs == m[0].tsMs {
      assert ([c] + m[1..])[1..] == m[1..];
    } else {
      assert ([m[0]] + Upsert(m[1..], c))[1..] == Upsert(m[1..], c);
      UpsertLookup(m[1..], c, t);
    }
  }

  /** Upserts every candle of `b` in order. */
  function UpsertAll(m: seq<Candle>, b: seq<Candle>): (r: seq<Candle>)
    ensures StrictlyAscending(m) ==> StrictlyAscending(r)
    decreases |b|
  {
    if |b| == 0 then m else UpsertAll(Upsert(m, b[0]), b[1..])
  }

  /** After upserting `b`, a timestamp maps to the last candle of `b` that
      carries it, and otherwise to what it mapped to before. */
  lemma {:induction false} UpsertAllLookup(m: seq<Candle>, b: seq<Candle>, t: int)
    ensures Lookup(UpsertAll(m, b), t) == if LastWith(b, t).Some? then LastWith(b, t) else Lookup(m, t)
    decreases |b|
  {
    if |b| > 0 {
      UpsertAllLookup(Upsert(m, b[0]), b[1..], t);
      UpsertLookup(m, b[0], t);
    }
  }

  /** `_merge_ohlcv(a, b)` (and the inline copy in `get_rsi`): one candle
      per timestamp occurring in either list, in strictly ascending order;
      a timestamp present in `b` takes `b`'s last candle for it, any other
      takes `a`'s last candle for it. */
  function Merge(a: seq<Candle>, b: seq<Candle>): (r: seq<Candle>)
    ensures StrictlyAscending(r)
    ensures forall t :: HasTs(r, t) <==> HasTs(a, t) || HasTs(b, t)
    ensures forall t :: Lookup(r, t) == if HasTs(b, t) then LastWith(b, t) else LastWith(a, t)
  {
    var r := UpsertAll(UpsertAll([], a), b);
    forall t
      ensures Lookup(r, t) == if HasTs(b, t) then LastWith(b, t) else LastWith(a, t)
      ensures HasTs(r, t) <==> HasTs(a, t) || HasTs(b, t)
    {
      UpsertAllLookup(UpsertAll([], a), b, t);
      UpsertAllLookup([], a, t);
      assert Lookup(r, t).Some? <==> HasTs(r, t);
    }
    r
  }

  /** Every merged candle is the one the lookup rule picks for its
      timestamp, so the merged list is fully determined by `a` and `b`. */
  lemma MergeElements(a: seq<Candle>, b: seq<Candle>, i: int)
    requires 0 <= i < |Merge(a, b)|
    ensures var c := Merge(a, b)[i];
      c == if HasTs(b, c.tsMs) then LastWith(b, c.tsMs).value else LastWith(a, c.tsMs).value
  {
    var r := Merge(a, b);
    var c := r[i];
    if i > 0 {
      assert r[0].tsMs < c.tsMs;
    }
    LookupAscending(r, i);
  }

  lemma {:induction false} LookupAscending(cs: seq<Candle>, i: int)
    requires StrictlyAscending(cs) && 0 <= i < |cs|
    ensures Lookup(cs, cs[i].tsMs) == Some(cs[i])
    decreases i
  {
    if i > 0 {
      assert cs[0].tsMs < cs[i].tsMs;
      assert cs[1..][i - 1] == cs[i];
      LookupAscending(cs[1..], i - 1);
    }
  }

  /** `_index_of_ts`: the position of the first candle with timestamp `t`,
      or `None` when no candle has it. */
  function IndexOfTs(cs: seq<Candle>, t: int): (idx: Option<nat>)
    ensures idx.None? <==> !HasTs(cs, t)
    ensures idx.Some? ==>
      && idx.value < |cs| && cs[idx.value].tsMs == t
      && forall j :: 0 <= j < idx.value ==> cs[j].tsMs != t
  {
    if |cs| == 0 then None
    else if cs[0].tsMs == t then Some(0)
    else
      var rest := IndexOfTs(cs[1..], t);
      assert HasTs(cs, t) ==> HasTs(cs[1..], t) by {
        if HasTs(cs, t) {
          var i :| 0 <= i < |cs| && cs[i].tsMs == t;
          assert cs[1..][i - 1].tsMs == t;
        }
      }
      match rest
      case None => None
      case Some(i) => Some(i + 1)
  }
}
