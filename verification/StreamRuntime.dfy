/** The stream runtime: read events, ingest, checkpoint the event id, and resume from the checkpoint. */
module StreamRuntime {
  import opened Machine
  import opened Checkpoints
  import opened Ingestion

  datatype ServerSentEvent = ServerSentEvent(id: Option<string>, data: Payload)

  datatype StreamError = SourceFailed | IngestFailed(error: IngestError) | StorageFailed

  /** Just after the last event with the given id; the start of the log when there is none. */
  function ResumePoint(log: seq<ServerSentEvent>, lastEventId: Option<string>): (p: nat)
    ensures p <= |log|
    ensures lastEventId.None? ==> p == 0
    ensures p > 0 ==> log[p - 1].id == lastEventId
    ensures lastEventId.Some? ==> forall i :: p <= i < |log| ==> log[i].id != lastEventId
  {
    if log == [] || lastEventId.None? then 0
    else if log[|log| - 1].id == lastEventId then |log|
    else
      var before := log[..|log| - 1];
      assert forall i :: 0 <= i < |before| ==> before[i] == log[i];
      ResumePoint(before, lastEventId)
  }

  /** A replayable event source. A failed read consumes nothing; a failed reconnect may leave the source
      anywhere. */
  class EventSource {
    const log: seq<ServerSentEvent>
    var pos: nat

    ghost predicate Valid()
      reads this
    {
      pos <= |log|
    }

    constructor (log: seq<ServerSentEvent>)
      ensures Valid() && this.log == log && pos == 0
    {
      this.log, pos := log, 0;
    }

    method NextEvent() returns (r: Result<Option<ServerSentEvent>, StreamError>)
      requires Valid()
      modifies this
      ensures Valid()
      ensures match r
              case Err(e) => e == SourceFailed && pos == old(pos)
              case Ok(None) => pos == old(pos) == |log|
              case Ok(Some(e)) => old(pos) < |log| && e == log[old(pos)] && pos == old(pos) + 1
    {
      var fails: bool := *;
      if fails {
        return Err(SourceFailed);
      }
      if pos == |log| {
        return Ok(None);
      }
      pos := pos + 1;
      return Ok(Some(log[pos - 1]));
    }

    method Reconnect(lastEventId: Option<string>) returns (r: Result<(), StreamError>)
      modifies this
      ensures Valid()
      ensures r.Ok? ==> pos == ResumePoint(log, lastEventId)
    {
      var fails: bool := *;
      if fails {
        var anywhere :| 0 <= anywhere <= |log|;
        pos := anywhere;
        return Err(SourceFailed);
      }
      pos := ResumePoint(log, lastEventId);
      return Ok(());
    }
  }

  // ---------------------------------------------------------------------------
  // The session as a value.

  datatype Session = Session(
    pos: nat, stored: Option<Stored>, cursor: Option<string>, delivered: u64, filtered: u64, reconnects: u64)

  predicate Actionable(ing: Ingestor, e: ServerSentEvent)
  {
    var r := Ingest(ing, e.data);
    r.Ok? && r.value.Some?
  }

  function EditOf(ing: Ingestor, e: ServerSentEvent): EditEvent
    requires Actionable(ing, e)
  {
    Ingest(ing, e.data).value.value
  }

  predicate Filtered(ing: Ingestor, e: ServerSentEvent)
  {
    Ingest(ing, e.data) == Ok(None)
  }

  ghost predicate AllFiltered(ing: Ingestor, log: seq<ServerSentEvent>, from: nat, end: nat)
    requires end <= |log|
  {
    forall i :: from <= i < end ==> Filtered(ing, log[i])
  }

  /** Consume one event that is actionable or filtered: checkpoint its id if it has one, count it. */
  function Process(ing: Ingestor, s: Session, e: ServerSentEvent): Session
  {
    var counted :=
      if Actionable(ing, e) then s.(delivered := SatAddU64(s.delivered, 1))
      else s.(filtered := SatAddU64(s.filtered, 1));
    var moved := counted.(pos := s.pos + 1);
    if e.id.Some? then moved.(stored := Some(Utf8(e.id.value)), cursor := e.id) else moved
  }

  /** Consume the events from the session's position up to `end`. */
  function Consume(ing: Ingestor, log: seq<ServerSentEvent>, s: Session, end: nat): (r: Session)
    requires end <= |log|
    ensures r.pos == if end <= s.pos then s.pos else end
    decreases end
  {
    if end <= s.pos then s else Process(ing, Consume(ing, log, s, end - 1), log[end - 1])
  }

  /** The edits of the actionable events in a stretch of the log, in order. */
  function EditsBetween(ing: Ingestor, log: seq<ServerSentEvent>, from: nat, end: nat): seq<EditEvent>
    requires end <= |log|
    decreases end
  {
    if end <= from then []
    else
      var before, e := EditsBetween(ing, log, from, end - 1), log[end - 1];
      if Actionable(ing, e) then before + [EditOf(ing, e)] else before
  }

  predicate Ingestable(ing: Ingestor, e: ServerSentEvent)
  {
    Ingest(ing, e.data).Ok?
  }

  // ---------------------------------------------------------------------------
  // The same, on the fields of the payload.

  /** An event the caller asked for, complete enough to become an edit. */
  ghost predicate Deliverable(ing: Ingestor, e: ServerSentEvent)
  {
    e.data.Json? && Wanted(ing, e.data.raw) && HasRevision(e.data.raw) && Dated(e.data.raw.timestamp)
  }

  /** Exactly the deliverable events are actionable, exactly the unwanted ones are filtered, and a delivered edit
      carries the payload's fields. */
  lemma ActionableExactly(ing: Ingestor, e: ServerSentEvent)
    ensures Actionable(ing, e) <==> Deliverable(ing, e)
    ensures Filtered(ing, e) <==> e.data.Json? && !Wanted(ing, e.data.raw)
    ensures Ingestable(ing, e) <==> Deliverable(ing, e) || Filtered(ing, e)
    ensures Actionable(ing, e) ==> Carries(e.data.raw, EditOf(ing, e)) && Admitted(ing, EditOf(ing, e))
  {
    hide Ingest, Wanted, HasRevision, Dated, Carries, Admitted;
    IngestExactly(ing, e.data);
    if Actionable(ing, e) {
      DeliveredIsAdmitted(ing, e.data.raw, EditOf(ing, e));
    }
  }

  /** `edits` are those of the deliverable events between `from` and `end`, whose positions are `at`, in order. */
  ghost predicate Delivery(
    ing: Ingestor, log: seq<ServerSentEvent>, from: nat, end: nat, at: seq<nat>, edits: seq<EditEvent>)
    requires end <= |log|
  {
    && |at| == |edits|
    && (forall k :: 0 <= k < |at| ==>
          && from <= at[k] < end && Deliverable(ing, log[at[k]])
          && Carries(log[at[k]].data.raw, edits[k]) && Admitted(ing, edits[k]))
    && (forall j, k :: 0 <= j < k < |at| ==> at[j] < at[k])
    && (forall i :: from <= i < end && Deliverable(ing, log[i]) ==> i in at)
  }

  /** The edits of a stretch come from its deliverable events, each once, in log order. */
  lemma {:induction false} EditsAreDelivery(ing: Ingestor, log: seq<ServerSentEvent>, from: nat, end: nat)
    returns (at: seq<nat>)
    requires end <= |log|
    ensures Delivery(ing, log, from, end, at, EditsBetween(ing, log, from, end))
  {
    hide Actionable, Deliverable, Carries, Admitted;
    if end <= from {
      at := [];
    } else {
      at := EditsAreDelivery(ing, log, from, end - 1);
      ActionableExactly(ing, log[end - 1]);
      if Actionable(ing, log[end - 1]) {
        at := at + [end - 1];
      }
    }
  }

  lemma {:induction false} ConsumeInTwo(ing: Ingestor, log: seq<ServerSentEvent>, s: Session, m: nat, n: nat)
    requires s.pos <= m <= n <= |log|
    ensures Consume(ing, log, Consume(ing, log, s, m), n) == Consume(ing, log, s, n)
  {
    hide Process;
    if m < n {
      ConsumeInTwo(ing, log, s, m, n - 1);
    }
  }

  lemma {:induction false} EditsInTwo(ing: Ingestor, log: seq<ServerSentEvent>, from: nat, m: nat, n: nat)
    requires from <= m <= n <= |log|
    ensures EditsBetween(ing, log, from, n) == EditsBetween(ing, log, from, m) + EditsBetween(ing, log, m, n)
  {
    if m < n {
      EditsInTwo(ing, log, from, m, n - 1);
    }
  }

  lemma {:induction false} NoEditsAmongFiltered(ing: Ingestor, log: seq<ServerSentEvent>, from: nat, end: nat)
    requires end <= |log| && AllFiltered(ing, log, from, end)
    ensures EditsBetween(ing, log, from, end) == []
  {
    if from < end {
      NoEditsAmongFiltered(ing, log, from, end - 1);
    }
  }

  /** The id a session holds after a stretch of the log: the last one in it, else the one before. */
  function LastIdBetween(log: seq<ServerSentEvent>, from: nat, end: nat): Option<string>
    requires end <= |log|
    decreases end
  {
    if end <= from then None
    else if log[end - 1].id.Some? then log[end - 1].id
    else LastIdBetween(log, from, end - 1)
  }

  /** Consuming leaves both cursors at the last id consumed and counts every event once. */
  lemma {:induction false} ConsumeEffects(ing: Ingestor, log: seq<ServerSentEvent>, s: Session, end: nat)
    requires s.pos <= end <= |log|
    ensures var r, id, edits := Consume(ing, log, s, end), LastIdBetween(log, s.pos, end),
        |EditsBetween(ing, log, s.pos, end)|;
            && r.cursor == (if id.Some? then id else s.cursor)
            && r.stored == (if id.Some? then Some(Utf8(id.value)) else s.stored)
            && r.delivered == Min(U64_MAX, s.delivered + edits)
            && edits <= end - s.pos && r.filtered == Min(U64_MAX, s.filtered + (end - s.pos - edits))
            && r.reconnects == s.reconnects
  {
    hide Ingest;
    if s.pos < end {
      ConsumeEffects(ing, log, s, end - 1);
    }
  }

  function Decode(stored: Option<Stored>): Result<Option<string>, StreamError>
  {
    match stored
    case None => Ok(None)
    case Some(Utf8(text)) => Ok(Some(text))
    case Some(NotUtf8) => Err(StorageFailed)
  }

  // What each call may do to the session.

  ghost predicate Delivers(ing: Ingestor, log: seq<ServerSentEvent>, s: Session, s': Session, stop: nat)
  {
    s.pos <= stop < |log| && AllFiltered(ing, log, s.pos, stop) && Actionable(ing, log[stop])
    && s' == Consume(ing, log, s, stop + 1)
  }

  ghost predicate Exhausts(ing: Ingestor, log: seq<ServerSentEvent>, s: Session, s': Session)
  {
    s.pos <= |log| && AllFiltered(ing, log, s.pos, |log|) && s' == Consume(ing, log, s, |log|)
  }

  /** The call failed at event `stop`, after everything before was checkpointed. Reading it failed and moved
      nothing; or the source had already moved past it, and ingesting it or checkpointing it failed. */
  ghost predicate Breaks(
    ing: Ingestor, log: seq<ServerSentEvent>, s: Session, s': Session, stop: nat, error: StreamError)
  {
    && s.pos <= stop <= |log| && AllFiltered(ing, log, s.pos, stop)
    && var before := Consume(ing, log, s, stop);
       match error
       case SourceFailed => s' == before
       case IngestFailed(e) => stop < |log| && Ingest(ing, log[stop].data) == Err(e) && s' == before.(pos := stop + 1)
       case StorageFailed =>
         stop < |log| && Ingestable(ing, log[stop]) && log[stop].id.Some? && s' == before.(pos := stop + 1)
  }

  ghost predicate Reconnects(log: seq<ServerSentEvent>, s: Session, s': Session)
  {
    var checkpoint := if s.cursor.Some? then Ok(s.cursor) else Decode(s.stored);
    checkpoint.Ok?
    && s' == s.(pos := ResumePoint(log, checkpoint.value), cursor := checkpoint.value,
                reconnects := SatAddU64(s.reconnects, 1))
  }

  ghost predicate ReconnectBreaks(log: seq<ServerSentEvent>, s: Session, s': Session)
  {
    s'.pos <= |log| && s' == s.(pos := s'.pos)
  }

  ghost predicate Initializes(log: seq<ServerSentEvent>, s: Session, s': Session)
  {
    var saved := Decode(s.stored);
    saved.Ok?
    && if saved.value.None? then s' == s.(cursor := None)
       else s' == s.(pos := ResumePoint(log, saved.value), cursor := saved.value,
                     reconnects := SatAddU64(s.reconnects, 1))
  }

  ghost predicate InitializeBreaks(log: seq<ServerSentEvent>, s: Session, s': Session)
  {
    s' == s || (Decode(s.stored).Ok? && s'.pos <= |log| && s' == s.(cursor := Decode(s.stored).value, pos := s'.pos))
  }

  class StreamRuntime {
    const eventSource: EventSource
    const storage: CheckpointStore
    const ingestor: Ingestor
    const checkpointKey: string
    var lastEventId: Option<string>
    var deliveredEvents: u64
    var filteredEvents: u64
    var reconnectAttempts: u64

    ghost predicate Valid()
      reads this, eventSource
    {
      eventSource.Valid()
    }

    ghost function View(): Session
      reads this, eventSource, storage
    {
      Session(eventSource.pos, Get(storage.cells, checkpointKey), lastEventId, deliveredEvents, filteredEvents,
              reconnectAttempts)
    }

    constructor (ingestor: Ingestor, eventSource: EventSource, storage: CheckpointStore, checkpointKey: string)
      requires eventSource.Valid()
      ensures Valid() && this.eventSource == eventSource && this.storage == storage
      ensures this.ingestor == ingestor && this.checkpointKey == checkpointKey
      ensures View() == Session(eventSource.pos, Get(storage.cells, checkpointKey), None, 0, 0, 0)
    {
      this.ingestor, this.eventSource, this.storage := ingestor, eventSource, storage;
      this.checkpointKey := checkpointKey;
      lastEventId, deliveredEvents, filteredEvents, reconnectAttempts := None, 0, 0, 0;
    }

    method LoadCheckpoint() returns (r: Result<Option<string>, StreamError>)
      ensures r.Ok? ==> r == Decode(View().stored)
    {
      var value := storage.Read(checkpointKey);
      match value {
        case Ok(stored) => return Decode(stored);
        case Err(_) => return Err(StorageFailed);
      }
    }

    method RestoreCheckpoint() returns (r: Result<(), StreamError>)
      modifies this
      ensures r.Ok? ==>
                && Decode(old(View()).stored).Ok?
                && View() == old(View()).(cursor := Decode(old(View()).stored).value)
      ensures r.Err? ==> View() == old(View())
    {
      var loaded := LoadCheckpoint();
      if loaded.Err? {
        return Err(loaded.error);
      }
      lastEventId := loaded.value;
      return Ok(());
    }

    method ReconnectFromCheckpoint() returns (r: Result<(), StreamError>)
      requires Valid()
      modifies this, eventSource
      ensures Valid()
      ensures r.Ok? ==> Reconnects(eventSource.log, old(View()), View())
      ensures r.Err? ==> ReconnectBreaks(eventSource.log, old(View()), View())
    {
      var checkpoint := lastEventId;
      if lastEventId.None? {
        var loaded := LoadCheckpoint();
        if loaded.Err? {
          return Err(loaded.error);
        }
        checkpoint := loaded.value;
      }
      r := eventSource.Reconnect(checkpoint);
      if r.Err? {
        return;
      }
      reconnectAttempts := SatAddU64(reconnectAttempts, 1);
      lastEventId := checkpoint;
    }

    method Initialize() returns (r: Result<(), StreamError>)
      requires Valid()
      modifies this, eventSource
      ensures Valid()
      ensures r.Ok? ==> Initializes(eventSource.log, old(View()), View())
      ensures r.Err? ==> InitializeBreaks(eventSource.log, old(View()), View())
    {
      r := RestoreCheckpoint();
      if r.Err? {
        return;
      }
      if lastEventId.Some? {
        r := ReconnectFromCheckpoint();
      }
    }

    /** Storage first, memory second: a failed write changes neither. */
    method StoreCheckpoint(eventId: string) returns (r: Result<(), StreamError>)
      modifies this, storage
      ensures View() == if r.Ok? then old(View()).(stored := Some(Utf8(eventId)), cursor := Some(eventId))
          else old(View())
      ensures r.Err? ==> r.error == StorageFailed
    {
      var written := storage.Write(checkpointKey, Utf8(eventId));
      if written.Err? {
        return Err(StorageFailed);
      }
      lastEventId := Some(eventId);
      return Ok(());
    }

    /** Read until an actionable event, the end of the source, or a failure. */
    method NextActionableEvent() returns (r: Result<Option<EditEvent>, StreamError>, ghost stop: nat)
      requires Valid()
      modifies this, eventSource, storage
      ensures Valid()
      ensures match r
              case Ok(Some(edit)) =>
                && Delivers(ingestor, eventSource.log, old(View()), View(), stop)
                && edit == EditOf(ingestor, eventSource.log[stop])
                && Deliverable(ingestor, eventSource.log[stop])
                && Carries(eventSource.log[stop].data.raw, edit) && Admitted(ingestor, edit)
              case Ok(None) => Exhausts(ingestor, eventSource.log, old(View()), View())
              case Err(e) => Breaks(ingestor, eventSource.log, old(View()), View(), stop, e)
    {
      hide Ingest, Wanted, HasRevision, Dated, Carries, Admitted;
      ghost var log := eventSource.log;
      stop := eventSource.pos;
      while true
        invariant Valid() && old(View()).pos <= stop == eventSource.pos
        invariant AllFiltered(ingestor, log, old(View()).pos, stop)
        invariant View() == Consume(ingestor, log, old(View()), stop)
        decreases |log| - eventSource.pos
      {
        var read := eventSource.NextEvent();
        if read.Err? {
          return Err(read.error), stop;
        }
        if read.value.None? {
          return Ok(None), stop;
        }
        var event := read.value.value;
        var ingested := Ingest(ingestor, event.data);
        if ingested.Err? {
          return Err(IngestFailed(ingested.error)), stop;
        }
        if event.id.Some? {
          var kept := StoreCheckpoint(event.id.value);
          if kept.Err? {
            return Err(kept.error), stop;
          }
        }
        if ingested.value.Some? {
          ActionableExactly(ingestor, event);
          deliveredEvents := SatAddU64(deliveredEvents, 1);
          return Ok(ingested.value), stop;
        }
        filteredEvents := SatAddU64(filteredEvents, 1);
        stop := stop + 1;
      }
    }

    /** Collect up to `limit` edits. On success they are exactly the next actionable events, and the session
        stands just after the last of them, or at the end of the source when there were fewer. On failure the
        edits collected so far are lost to the caller, although they were checkpointed. */
    method DrainActionableEvents(limit: nat) returns (r: Result<seq<EditEvent>, StreamError>)
      requires Valid()
      modifies this, eventSource, storage
      ensures Valid()
      ensures r.Ok? ==>
                && Drained(ingestor, eventSource.log, old(View()), View(), r.value)
                && (exists at :: Delivery(ingestor, eventSource.log, old(View()).pos, View().pos, at, r.value))
                && |r.value| <= limit
                && (|r.value| < limit ==> View().pos == |eventSource.log|)
                && (|r.value| == limit ==>
                    View().pos == old(View()).pos || Actionable(ingestor, eventSource.log[View().pos - 1]))
      ensures r.Err? ==>
                exists mid, lost, stop ::
                  && |lost| < limit
                  && Drained(ingestor, eventSource.log, old(View()), mid, lost)
                  && Breaks(ingestor, eventSource.log, mid, View(), stop, r.error)
    {
      hide Delivers, Exhausts, Breaks, Drained, Process, Consume, Actionable, Delivery, Deliverable, Carries, Admitted;
      ghost var log, s := eventSource.log, View();
      var events: seq<EditEvent> := [];
      DrainedNothing(ingestor, log, s);
      while |events| < limit
        invariant Valid() && |events| <= limit
        invariant Drained(ingestor, log, s, View(), events)
        invariant View().pos == s.pos || (0 < View().pos <= |log| && Actionable(ingestor, log[View().pos - 1]))
        decreases |log| - eventSource.pos
      {
        ghost var before := View();
        var next, stop := NextActionableEvent();
        if next.Err? {
          return Err(next.error);
        }
        if next.value.None? {
          DrainedToEnd(ingestor, log, s, before, View(), events);
          break;
        }
        DrainedMore(ingestor, log, s, before, View(), events, stop);
        events := events + [next.value.value];
      }
      ghost var at := DrainedIsDelivery(ingestor, log, s, View(), events);
      return Ok(events);
    }
  }

  /** From `s` to `s'` every event was ingestable and consumed, and `events` are the edits among them. */
  ghost predicate Drained(ing: Ingestor, log: seq<ServerSentEvent>, s: Session, s': Session, events: seq<EditEvent>)
  {
    && s.pos <= s'.pos <= |log|
    && (forall i :: s.pos <= i < s'.pos ==> Ingestable(ing, log[i]))
    && events == EditsBetween(ing, log, s.pos, s'.pos)
    && s' == Consume(ing, log, s, s'.pos)
  }

  lemma DrainedIsDelivery(
    ing: Ingestor, log: seq<ServerSentEvent>, s: Session, s': Session, events: seq<EditEvent>)
    returns (at: seq<nat>)
    requires Drained(ing, log, s, s', events)
    ensures s'.pos <= |log| && Delivery(ing, log, s.pos, s'.pos, at, events)
  {
    hide Delivery, EditsBetween, Consume;
    at := EditsAreDelivery(ing, log, s.pos, s'.pos);
  }

  lemma DrainedNothing(ing: Ingestor, log: seq<ServerSentEvent>, s: Session)
    requires s.pos <= |log|
    ensures Drained(ing, log, s, s, [])
  {
  }

  lemma DrainedMore(ing: Ingestor, log: seq<ServerSentEvent>, s: Session, x: Session, x': Session,
      events: seq<EditEvent>, stop: nat)
    requires Drained(ing, log, s, x, events) && Delivers(ing, log, x, x', stop)
    ensures x.pos <= stop < |log| && x'.pos == stop + 1 && Actionable(ing, log[stop])
    ensures Drained(ing, log, s, x', events + [EditOf(ing, log[stop])])
  {
    hide Process;
    NoEditsAmongFiltered(ing, log, x.pos, stop);
    EditsInTwo(ing, log, s.pos, x.pos, stop + 1);
    ConsumeInTwo(ing, log, s, x.pos, stop + 1);
  }

  lemma DrainedToEnd(ing: Ingestor, log: seq<ServerSentEvent>, s: Session, x: Session, x': Session,
      events: seq<EditEvent>)
    requires Drained(ing, log, s, x, events) && Exhausts(ing, log, x, x')
    ensures x'.pos == |log| && Drained(ing, log, s, x', events)
  {
    hide Process;
    NoEditsAmongFiltered(ing, log, x.pos, |log|);
    EditsInTwo(ing, log, s.pos, x.pos, |log|);
    ConsumeInTwo(ing, log, s, x.pos, |log|);
  }
}
