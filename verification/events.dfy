/** News events (src/domain/events.py): an event is identified by
    `<source>:<external id>`, happens at a UTC instant and carries a
    stripped, non-blank title and stripped content. */
module Events {

  import opened Wrappers
  import opened Text
  import opened Time

  datatype Event = Event(eventId: string, occurredAt: Instant, title: string, content: string)

  /** The identifier the source builds from a feed item. */
  function EventId(source: string, externalId: string): (id: string)
    ensures |id| == |source| + 1 + |externalId|
    ensures id[|source|] == ':'
    ensures id[..|source|] == source && id[|source| + 1..] == externalId
  {
    source + ":" + externalId
  }

  /** `Event.from_dto`. A missing title or content reads as empty text.
      The instant must be UTC-aware (checked first); the title must be
      non-blank once stripped. */
  function FromDto(externalId: string, publishedAt: Instant, title: Option<string>, content: Option<string>, source: string): (r: Result<Event>)
    ensures r.Err? <==> !IsUtc(publishedAt) || title.None? || Strip(title.value) == []
    ensures !IsUtc(publishedAt) ==> r == Err(NotUtc)
    ensures r.Err? && IsUtc(publishedAt) ==> r == Err(EmptyTitle)
    ensures r.Ok? ==>
      && title.Some?
      && r.value.eventId == EventId(source, externalId)
      && r.value.occurredAt == publishedAt
      && r.value.title == Strip(title.value)
      && r.value.content == (if content.None? then [] else Strip(content.value))
  {
    if !IsUtc(publishedAt) then Err(NotUtc)
    else
      var t := Strip(if title.None? then [] else title.value);
      if t == [] then Err(EmptyTitle)
      else Ok(Event(EventId(source, externalId), publishedAt, t, Strip(if content.None? then [] else content.value)))
  }

  /** An accepted event's title and content carry no surrounding
      whitespace, so stripping them again changes nothing. */
  lemma FromDtoStripped(externalId: string, publishedAt: Instant, title: Option<string>, content: Option<string>, source: string)
    requires FromDto(externalId, publishedAt, title, content, source).Ok?
    ensures var e := FromDto(externalId, publishedAt, title, content, source).value;
      e.title != [] && Strip(e.title) == e.title && Strip(e.content) == e.content
  {
    var e := FromDto(externalId, publishedAt, title, content, source).value;
    StrippedFixed(e.title);
    StrippedFixed(e.content);
  }

  /** Text with no whitespace at either end is its own stripping. */
  lemma StrippedFixed(x: string)
    requires x == [] || (!IsSpace(x[0]) && !IsSpace(x[|x| - 1]))
    ensures Strip(x) == x
  {
    StripPadded([], x, []);
    assert [] + x + [] == x;
  }

  /** Splitting the identifier at its first ':' gives back the source and
      the external id whenever the source itself has no ':'. */
  lemma EventIdSplits(source: string, externalId: string)
    requires ':' !in source
    ensures PartitionFirst(EventId(source, externalId), ':') == Some((source, externalId))
  {
    PartitionJoin(source, ':', externalId);
  }
}
