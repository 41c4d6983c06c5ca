/** The stream ingestor: filter one `recentchange` payload into an edit event, or drop it. */
module Ingestion {
  import opened Machine
  import opened Text
  import opened Timestamps

  datatype TimestampValue = Numeric(value: i64) | Textual(text: string)

  datatype Revision = Revision(newRevId: Option<u64>, oldRevId: Option<u64>)
  datatype Length = Length(newLength: i32, oldLength: Option<i32>)

  /** The fields of a payload after JSON decoding. */
  datatype RawEvent = RawEvent(
    wiki: string, namespace: i32, title: string, user: string, timestamp: TimestampValue,
    bot: bool, minor: bool, changeType: string, comment: Option<string>, tags: seq<string>,
    revision: Option<Revision>, length: Option<Length>)

  datatype Payload = NotJson | Json(raw: RawEvent)

  /** The editor is kept as the raw user name; its classification needs an IP-address parser. */
  datatype EditEvent = EditEvent(
    wikiId: string, title: string, namespace: i32, revId: u64, oldRevId: Option<u64>, user: string,
    timestampMs: i64, isBot: bool, isMinor: bool, isNewPage: bool, tags: seq<string>,
    comment: Option<string>, byteDelta: i32)

  datatype IngestError = InvalidJson | RevisionMissing | NewRevisionMissing | UnsupportedTimestamp

  datatype Ingestor = Ingestor(
    wikiId: string, namespaceAllowlist: set<i32>, ignoreBots: bool, ignoreMinor: bool,
    allowedChangeTypes: set<string>)

  function TimestampMs(t: TimestampValue): Option<i64>
  {
    match t
    case Numeric(n) => Some(NormalizeUnixMs(n))
    case Textual(text) => ParseTimestampText(text)
  }

  function ByteDelta(length: Option<Length>): i32
  {
    match length
    case None => 0
    case Some(l) => Clamp(I32_MIN, I32_MAX, l.newLength - if l.oldLength.Some? then l.oldLength.value else 0)
  }

  predicate AllowedChangeType(ing: Ingestor, changeType: string)
  {
    (changeType == "edit" || changeType == "new") && changeType in ing.allowedChangeTypes
  }

  function Ingest(ing: Ingestor, payload: Payload): Result<Option<EditEvent>, IngestError>
  {
    if payload.NotJson? then Err(InvalidJson)
    else
      var raw := payload.raw;
      if raw.wiki != ing.wikiId then Ok(None)
      else if !AllowedChangeType(ing, raw.changeType) then Ok(None)
      else if ing.ignoreBots && raw.bot then Ok(None)
      else if ing.ignoreMinor && raw.minor then Ok(None)
      else if ing.namespaceAllowlist != {} && raw.namespace !in ing.namespaceAllowlist then Ok(None)
      else if raw.revision.None? then Err(RevisionMissing)
      else if raw.revision.value.newRevId.None? then Err(NewRevisionMissing)
      else
        match TimestampMs(raw.timestamp)
        case None => Err(UnsupportedTimestamp)
        case Some(ms) =>
          Ok(Some(EditEvent(
            raw.wiki, raw.title, raw.namespace, raw.revision.value.newRevId.value, raw.revision.value.oldRevId,
            raw.user,
            ms, raw.bot, raw.minor, raw.changeType == "new", raw.tags,
            if raw.comment == Some("") then None else raw.comment, ByteDelta(raw.length))))
  }

  // ---------------------------------------------------------------------------
  // What happens to a payload, on its own fields.

  /** The wiki's own edits and page creations that no option excludes. */
  predicate Wanted(ing: Ingestor, raw: RawEvent)
  {
    && raw.wiki == ing.wikiId
    && raw.changeType in {"edit", "new"} && raw.changeType in ing.allowedChangeTypes
    && (raw.bot ==> !ing.ignoreBots)
    && (raw.minor ==> !ing.ignoreMinor)
    && (raw.namespace in ing.namespaceAllowlist || ing.namespaceAllowlist == {})
  }

  predicate HasRevision(raw: RawEvent)
  {
    raw.revision.Some? && raw.revision.value.newRevId.Some?
  }

  /** A number up to ten billion counts seconds, a larger one milliseconds. */
  ghost predicate CountsAs(n: i64, ms: int)
  {
    if n > 10_000_000_000 then ms == n
    else if n * 1_000 >= I64_MIN then ms == n * 1_000
    else ms == I64_MIN
  }

  /** The timestamp is a number, a text that is a number, or an RFC 3339 text, for the instant `ms`. */
  ghost predicate Denotes(t: TimestampValue, ms: int)
  {
    match t
    case Numeric(n) => CountsAs(n, ms)
    case Textual(text) =>
      if ParseInt(text, I64_MIN, I64_MAX).Some? then CountsAs(ParseInt(text, I64_MIN, I64_MAX).value, ms)
      else ParseToMs(text) == Some(ms)
  }

  ghost predicate Dated(t: TimestampValue)
  {
    t.Textual? ==> ParseInt(t.text, I64_MIN, I64_MAX).Some? || ParseToMs(t.text).Some?
  }

  /** The bytes added, or the nearest `i32`. */
  ghost predicate ByteDeltaIs(length: Option<Length>, delta: i32)
  {
    match length
    case None => delta == 0
    case Some(Length(after, before)) =>
      var added := if before.Some? then after - before.value else after;
      if I32_MIN <= added <= I32_MAX then delta == added else delta == if added > 0 then I32_MAX else I32_MIN
  }

  /** The edit says what the payload says. */
  ghost predicate Carries(raw: RawEvent, e: EditEvent)
  {
    && e.wikiId == raw.wiki && e.title == raw.title && e.namespace == raw.namespace && e.user == raw.user
    && e.isBot == raw.bot && e.isMinor == raw.minor && e.tags == raw.tags
    && HasRevision(raw) && e.revId == raw.revision.value.newRevId.value && e.oldRevId == raw.revision.value.oldRevId
    && Denotes(raw.timestamp, e.timestampMs)
    && (e.isNewPage <==> raw.changeType == "new")
    && (if raw.comment.Some? && raw.comment.value != "" then e.comment == raw.comment else e.comment == None)
    && ByteDeltaIs(raw.length, e.byteDelta)
  }

  /** What the options promise of every edit delivered. */
  predicate Admitted(ing: Ingestor, e: EditEvent)
  {
    && e.wikiId == ing.wikiId && (e.isBot ==> !ing.ignoreBots) && (e.isMinor ==> !ing.ignoreMinor)
    && (ing.namespaceAllowlist != {} ==> e.namespace in ing.namespaceAllowlist)
    && (if e.isNewPage then "new" else "edit") in ing.allowedChangeTypes
  }

  lemma TextIsDenoted(text: string)
    ensures Dated(Textual(text)) <==> ParseTimestampText(text).Some?
    ensures ParseTimestampText(text).Some? ==> Denotes(Textual(text), ParseTimestampText(text).value)
  {
    hide ParseInt, ParseToMs, ParseToSecondsAndNanos;
    ParsersAgree(text);
    if ParseToMs(text).Some? {
      StreamReadsBacklogTimestamps(text);
      RfcTextIsNoInteger(text);
    }
  }

  /** A payload is delivered, filtered out, or malformed exactly under these conditions, and a delivered edit
      carries the payload's fields. */
  lemma IngestExactly(ing: Ingestor, payload: Payload)
    ensures var r := Ingest(ing, payload);
            && (r == Ok(None) <==> payload.Json? && !Wanted(ing, payload.raw))
            && (r.Ok? && r.value.Some? <==>
                payload.Json? && Wanted(ing, payload.raw) && HasRevision(payload.raw) && Dated(payload.raw.timestamp))
            && (r.Ok? && r.value.Some? ==> Carries(payload.raw, r.value.value))
  {
    hide ParseTimestampText, Dated, Denotes;
    if payload.Json? {
      var t := payload.raw.timestamp;
      match t {
        case Numeric(n) =>
          NumberIsDenoted(n);
        case Textual(text) =>
          TextIsDenoted(text);
      }
    }
  }

  lemma NumberIsDenoted(n: i64)
    ensures Dated(Numeric(n)) && Denotes(Numeric(n), NormalizeUnixMs(n))
  {
  }

  /** Which error a malformed payload gives. */
  lemma ErrorsExactly(ing: Ingestor, payload: Payload)
    ensures var r := Ingest(ing, payload);
            && (r == Err(InvalidJson) <==> payload.NotJson?)
            && (r == Err(RevisionMissing) <==>
                payload.Json? && Wanted(ing, payload.raw) && payload.raw.revision == None)
            && (r == Err(NewRevisionMissing) <==>
                payload.Json? && Wanted(ing, payload.raw) && payload.raw.revision.Some?
                && payload.raw.revision.value.newRevId == None)
            && (r == Err(UnsupportedTimestamp) <==>
                payload.Json? && Wanted(ing, payload.raw) && HasRevision(payload.raw)
                && !Dated(payload.raw.timestamp))
  {
    hide ParseTimestampText, Dated;
    if payload.Json? && payload.raw.timestamp.Textual? {
      TextIsDenoted(payload.raw.timestamp.text);
    }
    if payload.Json? && payload.raw.timestamp.Numeric? {
      NumberIsDenoted(payload.raw.timestamp.value);
    }
  }

  lemma DeliveredIsAdmitted(ing: Ingestor, raw: RawEvent, e: EditEvent)
    requires Wanted(ing, raw) && Carries(raw, e)
    ensures Admitted(ing, e)
  {
    hide Denotes, ByteDeltaIs;
  }
}
