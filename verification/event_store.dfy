/** The in-memory event repository
    (src/infrastructure/repositories/inmemory/events.py). It keeps events by
    id and, for ids of the form `<source>:<external id>` with both parts
    non-empty, a second index from that pair to the id. The main result
    here: with the indexes consistent, an upsert is exactly a map update by
    id, and it counts as an update exactly when the id is already stored. */
module EventStore {

  import opened Wrappers
  import opened Text
  import opened Events

  datatype Store = Store(byId: map<string, Event>, bySrcExt: map<(string, string), string>)

  datatype UpsertResult = UpsertResult(inserted: nat, updated: nat, events: seq<Event>)

  function Empty(): (s: Store)
    ensures Consistent(s) && |s.byId| == 0
  {
    Store(map[], map[])
  }

  /** The `(source, external id)` key of an id: the parts around its
      first ':', when both are non-empty. */
  function SrcExtKey(id: string): (k: Option<(string, string)>)
    ensures k.Some? ==> k.value.0 != [] && k.value.1 != [] && id == k.value.0 + ":" + k.value.1
    ensures ':' !in id || id[0] == ':' ==> k.None?
  {
    match PartitionFirst(id, ':')
    case None => None
    case Some(p) => if p.0 != [] && p.1 != [] then Some(p) else None
  }

  /** Every pair in the second index names the id it was split from, that
      id is stored, and every stored id with a key is indexed. */
  ghost predicate Consistent(s: Store) {
    && (forall k :: k in s.bySrcExt ==> s.bySrcExt[k] in s.byId && SrcExtKey(s.bySrcExt[k]) == Some(k))
    && (forall id :: id in s.byId && SrcExtKey(id).Some? ==> SrcExtKey(id).value in s.bySrcExt)
  }

  /** One step of `upsert_many`, following its three branches; the flag
      says whether the event counted as an update. */
  function UpsertOne(s: Store, ev: Event): (Store, bool) {
    match SrcExtKey(ev.eventId)
    case Some(key) =>
      if key in s.bySrcExt then (Store(s.byId[s.bySrcExt[key] := ev], s.bySrcExt), true)
      else (Store(s.byId[ev.eventId := ev], s.bySrcExt[key := ev.eventId]), false)
    case None =>
      (Store(s.byId[ev.eventId := ev], s.bySrcExt), ev.eventId in s.byId)
  }

  /** An id built from a colon-free source and an external id, both
      non-empty, is indexed under exactly that pair. */
  lemma SrcExtKeyOfEventId(source: string, externalId: string)
    requires source != [] && externalId != [] && ':' !in source
    ensures SrcExtKey(EventId(source, externalId)) == Some((source, externalId))
  {
    EventIdSplits(source, externalId);
  }

  /** A pair determines the id it was split from. */
  lemma KeyDeterminesId(a: string, b: string)
    requires SrcExtKey(a).Some? && SrcExtKey(a) == SrcExtKey(b)
    ensures a == b
  {
  }

  /** On a consistent store an upsert writes the event under its own id,
      is an update exactly when that id is already there, and keeps the
      store consistent. */
  lemma UpsertOneById(s: Store, ev: Event)
    requires Consistent(s)
    ensures var (s', updated) := UpsertOne(s, ev);
      && Consistent(s')
      && s'.byId == s.byId[ev.eventId := ev]
      && (updated <==> ev.eventId in s.byId)
      && |s'.byId| == |s.byId| + (if updated then 0 else 1)
  {
    CountAfterWrite(s.byId, ev);
    match SrcExtKey(ev.eventId)
    case Some(key) =>
      if key in s.bySrcExt {
        UpsertIndexed(s, ev, key);
      } else {
        UpsertNewKey(s, ev, key);
      }
    case None =>
  }

  /** The update branch: the indexed id is the event's own. */
  lemma UpsertIndexed(s: Store, ev: Event, key: (string, string))
    requires Consistent(s) && SrcExtKey(ev.eventId) == Some(key) && key in s.bySrcExt
    ensures s.bySrcExt[key] == ev.eventId && ev.eventId in s.byId
  {
    KeyDeterminesId(s.bySrcExt[key], ev.eventId);
  }

  /** The insert branch of a keyed id: the id was not stored, and adding
      it with its key keeps the store consistent. */
  lemma UpsertNewKey(s: Store, ev: Event, key: (string, string))
    requires Consistent(s) && SrcExtKey(ev.eventId) == Some(key) && key !in s.bySrcExt
    ensures ev.eventId !in s.byId
    ensures Consistent(Store(s.byId[ev.eventId := ev], s.bySrcExt[key := ev.eventId]))
  {
    var s' := Store(s.byId[ev.eventId := ev], s.bySrcExt[key := ev.eventId]);
    forall k | k in s'.bySrcExt
      ensures s'.bySrcExt[k] in s'.byId && SrcExtKey(s'.bySrcExt[k]) == Some(k)
    {
    }
  }

  /** Writing under an id grows the map by one exactly when the id is
      new. */
  lemma CountAfterWrite(m: map<string, Event>, ev: Event)
    ensures |m[ev.eventId := ev]| == |m| + (if ev.eventId in m then 0 else 1)
  {
    if ev.eventId !in m {
      assert m[ev.eventId := ev].Keys == m.Keys + {ev.eventId};
    }
  }

  /** `upsert_many`: the events are applied in order; the result lists
      them all and splits them into inserts and updates. */
  method UpsertMany(s: Store, events: seq<Event>) returns (s': Store, res: UpsertResult)
    requires Consistent(s)
    ensures Consistent(s')
    ensures s'.byId == ApplyAll(s.byId, events)
    ensures res.events == events
    ensures res.inserted + res.updated == |events|
    ensures |s'.byId| == |s.byId| + res.inserted
    ensures Count(s') == Count(s) + res.inserted
  {
    s' := s;
    var inserted, updated := 0, 0;
    var out := [];
    var i := 0;
    while i < |events|
      invariant 0 <= i <= |events|
      invariant Consistent(s')
      invariant s'.byId == ApplyAll(s.byId, events[..i])
      invariant out == events[..i]
      invariant inserted + updated == i
      invariant |s'.byId| == |s.byId| + inserted
    {
      var ev := events[i];
      UpsertOneById(s', ev);
      var step := UpsertOne(s', ev);
      if step.1 {
        updated := updated + 1;
      } else {
        inserted := inserted + 1;
      }
      assert events[..i + 1][..i] == events[..i];
      s' := step.0;
      out := out + [ev];
      i := i + 1;
    }
    assert events[..i] == events;
    res := UpsertResult(inserted, updated, out);
  }

  /** The reference: write every event under its id, in order. */
  function ApplyAll(m: map<string, Event>, events: seq<Event>): map<string, Event> {
    if |events| == 0 then m
    else ApplyAll(m, events[..|events| - 1])[events[|events| - 1].eventId := events[|events| - 1]]
  }

  /** `get`. */
  function Get(s: Store, id: string): (r: Option<Event>)
    ensures r.Some? <==> id in s.byId
    ensures r.Some? ==> r.value == s.byId[id]
  {
    if id in s.byId then Some(s.byId[id]) else None
  }

  /** `count`: the number of stored events. On a consistent store every
      indexed pair names its own stored id, so there are at least as many
      events as indexed pairs. */
  function Count(s: Store): (n: nat)
    ensures Consistent(s) ==> |s.bySrcExt| <= n
  {
    IndexedAtMostStored(s);
    |s.byId|
  }

  /** The key of an id, or a placeholder for ids without one. */
  function KeyOrNone(id: string): (string, string) {
    match SrcExtKey(id)
    case Some(k) => k
    case None => ([], [])
  }

  /** The keys of a set of ids. */
  ghost function KeysOf(ids: set<string>): set<(string, string)> {
    set id | id in ids :: KeyOrNone(id)
  }

  lemma IndexedAtMostStored(s: Store)
    ensures Consistent(s) ==> |s.bySrcExt| <= |s.byId|
  {
    if Consistent(s) {
      IndexedKeysStored(s);
      KeysOfAtMost(s.byId.Keys);
      SubsetAtMost(s.bySrcExt.Keys, KeysOf(s.byId.Keys));
    }
  }

  /** Every indexed pair is the key of a stored id. */
  lemma IndexedKeysStored(s: Store)
    requires Consistent(s)
    ensures s.bySrcExt.Keys <= KeysOf(s.byId.Keys)
  {
    forall k | k in s.bySrcExt.Keys
      ensures k in KeysOf(s.byId.Keys)
    {
      assert KeyOrNone(s.bySrcExt[k]) == k;
    }
  }

  /** A set of ids has at most as many keys as ids. */
  lemma {:induction false} KeysOfAtMost(ids: set<string>)
    ensures |KeysOf(ids)| <= |ids|
    decreases |ids|
  {
    if ids != {} {
      var x :| x in ids;
      var rest := ids - {x};
      KeysOfAtMost(rest);
      assert KeysOf(ids) == KeysOf(rest) + {KeyOrNone(x)};
    }
  }

  lemma SubsetAtMost<A>(a: set<A>, b: set<A>)
    requires a <= b
    ensures |a| <= |b|
  {
    assert b == a + (b - a);
  }

  /** The last event of `events` with the given id. */
  function LastWithId(events: seq<Event>, id: string): Option<Event> {
    if |events| == 0 then None
    else if events[|events| - 1].eventId == id then Some(events[|events| - 1])
    else LastWithId(events[..|events| - 1], id)
  }

  /** After an upsert, `get` returns the batch's last event with that id,
      or what was stored before when the batch has none. */
  lemma {:induction false} GetAfterApply(m: map<string, Event>, events: seq<Event>, id: string)
    ensures var m' := ApplyAll(m, events);
      match LastWithId(events, id)
      case Some(ev) => id in m' && m'[id] == ev
      case None => (id in m' <==> id in m) && (id in m ==> m'[id] == m[id])
    decreases |events|
  {
    if |events| > 0 {
      GetAfterApply(m, events[..|events| - 1], id);
    }
  }

  /** Upserting the same batch twice stores what upserting it once does. */
  lemma {:induction false} ApplyTwice(m: map<string, Event>, events: seq<Event>)
    ensures ApplyAll(ApplyAll(m, events), events) == ApplyAll(m, events)
  {
    var once := ApplyAll(m, events);
    var twice := ApplyAll(once, events);
    forall id | true
      ensures (id in twice <==> id in once) && (id in twice ==> twice[id] == once[id])
    {
      GetAfterApply(m, events, id);
      GetAfterApply(once, events, id);
    }
  }
}
