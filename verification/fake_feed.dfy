/** The canned news feed of the examples (examples/_fake_feed.py): a fixed
    list of three CoinDesk items relative to a reference instant, and a
    `fetch` that keeps the items published before `until` and returns at
    most `limit` of them, in list order. */
module FakeFeed {

  import opened Wrappers
  import opened Time
  import opened Slices

  datatype NewsItem = NewsItem(
    externalId: string,
    externalUrl: string,
    publishedAt: Instant,
    title: string,
    content: string,
    source: string)

  /** Python can order two datetimes only when both are naive or both are
      aware; aware ones compare by their POSIX time. */
  predicate Comparable(a: Instant, b: Instant) {
    a.zone.Naive? == b.zone.Naive?
  }

  /** The positions of the items published strictly before `until`. */
  ghost function Passing(items: seq<NewsItem>, until: Instant): set<int> {
    set i | 0 <= i < |items| && items[i].publishedAt.seconds < until.seconds
  }

  /** The items published strictly before `until`, in list order. */
  function Filter(items: seq<NewsItem>, until: Instant): (r: seq<NewsItem>)
    ensures |r| <= |items|
    ensures forall k :: 0 <= k < |r| ==> r[k] in items && r[k].publishedAt.seconds < until.seconds
    ensures forall i :: 0 <= i < |items| && items[i].publishedAt.seconds < until.seconds ==> items[i] in r
  {
    if |items| == 0 then []
    else
      var init := Filter(items[..|items| - 1], until);
      var last := items[|items| - 1];
      assert forall i :: 0 <= i < |items| - 1 ==> items[..|items| - 1][i] == items[i];
      if last.publishedAt.seconds < until.seconds then init + [last] else init
  }

  /** The filter has one entry per passing position, so duplicates are
      kept. */
  lemma {:induction false} FilterCount(items: seq<NewsItem>, until: Instant)
    ensures |Filter(items, until)| == |Passing(items, until)|
    decreases |items|
  {
    if |items| == 0 {
      assert Passing(items, until) == {};
    } else {
      FilterCount(items[..|items| - 1], until);
      PassingSnoc(items, until);
    }
  }

  /** The passing positions of a list are those of its initial part, plus
      the last position when the last item passes. */
  lemma PassingSnoc(items: seq<NewsItem>, until: Instant)
    requires |items| > 0
    ensures var n := |items| - 1;
      var before := Passing(items[..n], until);
      && n !in before
      && Passing(items, until) == if items[n].publishedAt.seconds < until.seconds then before + {n} else before
  {
  }

  /** Filtering keeps the list order: filtering a prefix gives a prefix. */
  lemma {:induction false} FilterPrefix(items: seq<NewsItem>, until: Instant, k: nat)
    requires k <= |items|
    ensures var f := Filter(items, until); var g := Filter(items[..k], until); |g| <= |f| && g == f[..|g|]
    decreases |items|
  {
    if k < |items| {
      var init := items[..|items| - 1];
      assert init[..k] == items[..k];
      FilterPrefix(init, until, k);
    } else {
      assert items[..k] == items;
    }
  }

  /** `FakeFeed.fetch`; `categories` is ignored. Comparing a naive and an
      aware instant raises. */
  function Fetch(items: seq<NewsItem>, limit: int, until: Option<Instant>): (r: Result<seq<NewsItem>>)
    ensures r.Err? <==> until.Some? && exists i :: 0 <= i < |items| && !Comparable(items[i].publishedAt, until.value)
    ensures r.Err? ==> r.error == MixedAwareness
    ensures r.Ok? && limit >= 0 ==> |r.value| <= limit
    ensures r.Ok? && until.Some? ==> forall k :: 0 <= k < |r.value| ==> r.value[k].publishedAt.seconds < until.value.seconds
    ensures r.Ok? && until.Some? ==> var f := Filter(items, until.value); |r.value| <= |f| && r.value == f[..|r.value|]
    ensures r.Ok? && until.Some? && 0 <= limit ==>
      var f := Filter(items, until.value); |r.value| == if limit < |f| then limit else |f|
    ensures r.Ok? && until.None? ==> |r.value| <= |items| && r.value == items[..|r.value|]
    ensures r.Ok? && until.None? && 0 <= limit ==> |r.value| == if limit < |items| then limit else |items|
  {
    if until.Some? && exists i :: 0 <= i < |items| && !Comparable(items[i].publishedAt, until.value) then
      Err(MixedAwareness)
    else
      var out := if until.None? then items else Filter(items, until.value);
      PrefixSlice(out, limit);
      Ok(PySlice(out, 0, limit))
  }

  /** `now or <the clock, truncated to the minute, in UTC>`. */
  function Reference(now: Option<Instant>, clockSeconds: int): (t: Instant)
    ensures now.Some? ==> t == now.value
    ensures now.None? ==> IsUtc(t) && t.seconds % 60 == 0 && t.seconds <= clockSeconds < t.seconds + 60
  {
    if now.Some? then now.value else Utc(clockSeconds - clockSeconds % 60)
  }

  /** The reference instant moved back by some minutes, zone kept. */
  function MinutesBefore(t: Instant, minutes: nat): (u: Instant)
    ensures u.zone == t.zone && u.seconds == t.seconds - minutes * 60
  {
    Instant(t.seconds - minutes * 60, t.zone)
  }

  /** A headline and its body text. */
  datatype Story = Story(title: string, content: string)

  datatype Stories = Stories(first: Story, second: Story, third: Story)

  /** The texts of the three canned items. */
  const FakeStories: Stories := Stories(
    Story(
      "Buyers Appear to Control Market, DOGE May Test $0.219 Resistance Amid Falling Volume",
      "DOGE price is trading at $0.2183, up 1.55% in the last 24 hours, with buyers controlling the market. Short-term outlook favors sideways trading between $0.2150 and $0.22 as volume declines"),
    Story(
      "Michael Saylor Says \U{201C}Need More Orange Dots\U{201D} \U{2014} MicroStrategy Poised to Add More Bitcoin Ahead of Holdings Disclosure",
      "Strategy founder Michael Saylor reiterated details about the Bitcoin Tracker, succinctly noting \U{201C}Need more orange dots.\U{201D} This communication aligns with Strategy\U{2019}s established reporting"),
    Story(
      "Strategy Expands Bitcoin Holdings with Bold New Purchases",
      "Strategy recently purchased 1,955 Bitcoin, boosting its holdings significantly. The company uses a diverse financial structure to support its Bitcoin acquisitions. Continue Reading: Strategy Expands Bitcoin Holdings with Bold New Purchases"))

  /** `make_fake_items`: three CoinDesk items published 50, 20 and 10
      minutes before the reference instant, in its zone. */
  function MakeFakeItems(now: Option<Instant>, clockSeconds: int): (items: seq<NewsItem>)
    ensures var t := Reference(now, clockSeconds);
      && |items| == 3
      && items[0].publishedAt == MinutesBefore(t, 50)
      && items[1].publishedAt == MinutesBefore(t, 20)
      && items[2].publishedAt == MinutesBefore(t, 10)
      && (forall i :: 0 <= i < 3 ==> items[i].source == "coindesk")
  {
    var t := Reference(now, clockSeconds);
    var stories := FakeStories;
    [
      NewsItem("51339571", "https://coindesk.example/1001", MinutesBefore(t, 50), stories.first.title, stories.first.content, "coindesk"),
      NewsItem("51340570", "https://coindesk.example/1002", MinutesBefore(t, 20), stories.second.title, stories.second.content, "coindesk"),
      NewsItem("51390394", "https://coindesk.example/1002", MinutesBefore(t, 10), stories.third.title, stories.third.content, "coindesk")
    ]
  }

  /** The timeline of the fake items: strictly ascending and all strictly
      before the reference instant, in its zone. */
  lemma FakeItemsTimeline(now: Option<Instant>, clockSeconds: int)
    ensures var t := Reference(now, clockSeconds);
      var items := MakeFakeItems(now, clockSeconds);
      && (forall i :: 0 <= i < |items| ==> items[i].publishedAt.zone == t.zone && items[i].publishedAt.seconds < t.seconds)
      && (forall i, j :: 0 <= i < j < |items| ==> items[i].publishedAt.seconds < items[j].publishedAt.seconds)
  {
    var t := Reference(now, clockSeconds);
    var items := MakeFakeItems(now, clockSeconds);
    var ats := [items[0].publishedAt, items[1].publishedAt, items[2].publishedAt];
    assert forall i :: 0 <= i < 3 ==> items[i].publishedAt == ats[i];
  }

  /** Fetching the fake items up to their own reference instant returns
      all three when the limit allows, and only the oldest `limit`
      otherwise. */
  lemma FetchFakeUntilReference(now: Instant, limit: int)
    ensures var items := MakeFakeItems(Some(now), 0);
      && Fetch(items, limit, Some(now)).Ok?
      && Fetch(items, limit, Some(now)).value == PySlice(items, 0, limit)
  {
    var items := MakeFakeItems(Some(now), 0);
    FakeItemsTimeline(Some(now), 0);
    FilterAllBefore(items, now);
  }

  /** When every item is before `until`, filtering keeps them all. */
  lemma {:induction false} FilterAllBefore(items: seq<NewsItem>, until: Instant)
    requires forall i :: 0 <= i < |items| ==> items[i].publishedAt.seconds < until.seconds
    ensures Filter(items, until) == items
    decreases |items|
  {
    if |items| > 0 {
      FilterAllBefore(items[..|items| - 1], until);
      assert items[..|items| - 1] + [items[|items| - 1]] == items;
    }
  }
}
