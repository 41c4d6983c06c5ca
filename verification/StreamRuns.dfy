/** Whole runs of the stream runtime: reads, failures, reconnects and restarts over one event log. */
module StreamRuns {
  import opened Machine
  import opened Checkpoints
  import opened Ingestion
  import opened StreamRuntime

  /** The system between two calls. `live` is false from a failure that skipped an actionable event, or a
      failed reconnect or restart, until a reconnect or restart succeeds; `received` lists the log positions
      whose edits the caller was given, over all restarts. */
  datatype System = System(session: Session, live: bool, received: seq<nat>)

  const START := System(Session(0, None, None, 0, 0, 0), true, [])

  datatype Move =
    | Read(stop: nat)  // an edit was returned
    | ReadToEnd        // the source was exhausted
    | ReadBroken(stop: nat, error: StreamError)
    | Reconnected
    | ReconnectBroken
    | Restarted        // a new runtime over the same store, initialized
    | RestartBroken

  /** A new process: a fresh source at the start of the log, the old store, an empty memory. */
  function Rebooted(s: Session): Session
  {
    Session(0, s.stored, None, 0, 0, 0)
  }

  /** The failed call could not checkpoint an actionable event which the source has already moved past. */
  predicate Skips(ing: Ingestor, log: seq<ServerSentEvent>, stop: nat, error: StreamError)
  {
    error == StorageFailed && stop < |log| && Actionable(ing, log[stop])
  }

  ghost predicate Step(ing: Ingestor, log: seq<ServerSentEvent>, x: System, x': System, m: Move)
  {
    match m
    case Read(stop) =>
      x.live && x'.live && Delivers(ing, log, x.session, x'.session, stop) && x'.received == x.received + [stop]
    case ReadToEnd =>
      x.live && x'.live && Exhausts(ing, log, x.session, x'.session) && x'.received == x.received
    case ReadBroken(stop, error) =>
      && x.live && Breaks(ing, log, x.session, x'.session, stop, error) && x'.received == x.received
      && x'.live == !Skips(ing, log, stop, error)
    case Reconnected =>
      x'.live && Reconnects(log, x.session, x'.session) && x'.received == x.received
    case ReconnectBroken =>
      !x'.live && ReconnectBreaks(log, x.session, x'.session) && x'.received == x.received
    case Restarted =>
      x'.live && Initializes(log, Rebooted(x.session), x'.session) && x'.received == x.received
    case RestartBroken =>
      !x'.live && InitializeBreaks(log, Rebooted(x.session), x'.session) && x'.received == x.received
  }

  /** A run: the states it visits and the moves between them. */
  ghost predicate IsRun(ing: Ingestor, log: seq<ServerSentEvent>, xs: seq<System>, ms: seq<Move>)
  {
    |xs| == |ms| + 1 && xs[0] == START
    && forall i :: 0 <= i < |ms| ==> Step(ing, log, xs[i], xs[i + 1], ms[i])
  }

  /** The positions of the actionable events before `end`, in order. */
  function ActionablePositions(ing: Ingestor, log: seq<ServerSentEvent>, end: nat): (r: seq<nat>)
    requires end <= |log|
    ensures forall i :: 0 <= i < |r| ==> r[i] < end
  {
    if end == 0 then []
    else
      var before := ActionablePositions(ing, log, end - 1);
      if Actionable(ing, log[end - 1]) then before + [end - 1] else before
  }

  /** They are strictly increasing, and are all of them. */
  lemma {:induction false} PositionsAreExact(ing: Ingestor, log: seq<ServerSentEvent>, end: nat)
    requires end <= |log|
    ensures var r := ActionablePositions(ing, log, end);
            && (forall i, j :: 0 <= i < j < |r| ==> r[i] < r[j])
            && (forall p :: p in r <==> 0 <= p < end && Actionable(ing, log[p]))
  {
    hide Actionable;
    if end > 0 {
      PositionsAreExact(ing, log, end - 1);
    }
  }

  ghost predicate NoneActionable(ing: Ingestor, log: seq<ServerSentEvent>, from: nat, end: nat)
    requires end <= |log|
  {
    forall i :: from <= i < end ==> !Actionable(ing, log[i])
  }

  lemma PositionsStep(ing: Ingestor, log: seq<ServerSentEvent>, j: nat)
    requires j < |log| && Actionable(ing, log[j])
    ensures ActionablePositions(ing, log, j + 1) == ActionablePositions(ing, log, j) + [j]
  {
  }

  lemma {:induction false} PositionsGrow(ing: Ingestor, log: seq<ServerSentEvent>, m: nat, n: nat)
    requires m <= n <= |log|
    ensures ActionablePositions(ing, log, m) <= ActionablePositions(ing, log, n)
    ensures NoneActionable(ing, log, m, n) ==> ActionablePositions(ing, log, m) == ActionablePositions(ing, log, n)
  {
    hide Actionable;
    if m < n {
      PositionsGrow(ing, log, m, n - 1);
    }
  }

  lemma FilteredIsNotActionable(ing: Ingestor, log: seq<ServerSentEvent>, from: nat, end: nat)
    requires end <= |log| && AllFiltered(ing, log, from, end)
    ensures NoneActionable(ing, log, from, end)
  {
    hide Ingest;
  }

  /** Every actionable event carries an id. */
  ghost predicate AllTracked(ing: Ingestor, log: seq<ServerSentEvent>)
  {
    forall j :: 0 <= j < |log| && Actionable(ing, log[j]) ==> log[j].id.Some?
  }

  /** Whenever the id of an ingestable event occurs again later, nothing actionable follows the event up to and
      including that later occurrence. So resuming after the last occurrence skips nothing. */
  ghost predicate HarmlessRepeats(ing: Ingestor, log: seq<ServerSentEvent>)
  {
    forall j, m :: 0 <= j < m < |log| && Ingestable(ing, log[j]) && log[j].id.Some? && log[m].id == log[j].id ==>
      NoneActionable(ing, log, j + 1, m + 1)
  }

  /** Where the stored checkpoint would resume. */
  function Mark(log: seq<ServerSentEvent>, s: Session): (p: nat)
    ensures p <= |log|
  {
    match s.stored
    case Some(Utf8(id)) => ResumePoint(log, Some(id))
    case _ => 0
  }

  function StoredId(s: Session): Option<string>
  {
    match s.stored
    case Some(Utf8(id)) => Some(id)
    case _ => None
  }

  /** The checkpoint names an event of the log, and everything actionable before the point where it resumes was
      delivered once, in order. For a live session that is also everything actionable before its position. */
  ghost predicate Sound(ing: Ingestor, log: seq<ServerSentEvent>, x: System)
  {
    var s, p := x.session, Mark(log, x.session);
    && s.pos <= |log|
    && s.stored != Some(NotUtf8)
    && (s.stored.Some? ==> p > 0)
    && (s.cursor.Some? ==> s.cursor == StoredId(s))
    && x.received == ActionablePositions(ing, log, p)
    && (x.live ==> s.cursor == StoredId(s) && x.received == ActionablePositions(ing, log, s.pos))
  }

  /** A checkpointed event resumes after the last event with its id, where the same events are still to come. */
  lemma ResumesAlike(ing: Ingestor, log: seq<ServerSentEvent>, k: nat)
    requires HarmlessRepeats(ing, log) && k < |log| && Ingestable(ing, log[k]) && log[k].id.Some?
    ensures ResumePoint(log, log[k].id) > k
    ensures ActionablePositions(ing, log, ResumePoint(log, log[k].id)) == ActionablePositions(ing, log, k + 1)
  {
    hide Ingestable, Actionable, ActionablePositions;
    var p := ResumePoint(log, log[k].id);
    PositionsGrow(ing, log, k + 1, p);
  }

  lemma {:induction false} LastIdPosition(log: seq<ServerSentEvent>, from: nat, end: nat) returns (k: nat)
    requires end <= |log| && LastIdBetween(log, from, end).Some?
    ensures from <= k < end && log[k].id == LastIdBetween(log, from, end)
    ensures forall i :: k < i < end ==> log[i].id.None?
  {
    if log[end - 1].id.Some? {
      k := end - 1;
    } else {
      k := LastIdPosition(log, from, end - 1);
    }
  }

  /** Consuming filtered events up to `stop` leaves the system sound, with the position there. */
  lemma SkippingIsSound(ing: Ingestor, log: seq<ServerSentEvent>, x: System, stop: nat)
    requires HarmlessRepeats(ing, log) && Sound(ing, log, x) && x.live
    requires x.session.pos <= stop <= |log| && AllFiltered(ing, log, x.session.pos, stop)
    ensures Sound(ing, log, x.(session := Consume(ing, log, x.session, stop)))
  {
    hide Actionable, Process, ActionablePositions, ResumePoint, HarmlessRepeats, Ingest;
    var s := x.session;
    ConsumeEffects(ing, log, s, stop);
    FilteredIsNotActionable(ing, log, s.pos, stop);
    PositionsGrow(ing, log, s.pos, stop);
    if LastIdBetween(log, s.pos, stop).Some? {
      var k := LastIdPosition(log, s.pos, stop);
      assert Filtered(ing, log[k]);
      ResumesAlike(ing, log, k);
      PositionsGrow(ing, log, s.pos, k + 1);
    }
  }

  /** Consuming an actionable event that carries an id moves the checkpoint just past it. */
  lemma DeliveringIsSound(ing: Ingestor, log: seq<ServerSentEvent>, x: System, stop: nat)
    requires HarmlessRepeats(ing, log) && Sound(ing, log, x) && x.live && x.session.pos == stop < |log|
    requires Actionable(ing, log[stop]) && log[stop].id.Some?
    ensures Sound(ing, log, System(Process(ing, x.session, log[stop]), true, x.received + [stop]))
  {
    hide Ingest, ActionablePositions, ResumePoint, HarmlessRepeats;
    PositionsStep(ing, log, stop);
    ResumesAlike(ing, log, stop);
  }

  /** A failed call leaves the system sound: it is at the failed event, or just past it. */
  lemma BreakingIsSound(ing: Ingestor, log: seq<ServerSentEvent>, x: System, x': System, stop: nat, error: StreamError)
    requires HarmlessRepeats(ing, log) && Sound(ing, log, x) && Step(ing, log, x, x', ReadBroken(stop, error))
    ensures Sound(ing, log, x')
  {
    hide Ingest, Process, ActionablePositions, ResumePoint, Consume, HarmlessRepeats;
    SkippingIsSound(ing, log, x, stop);
    if x'.live {
      PositionsGrow(ing, log, stop, x'.session.pos);
    }
  }

  lemma StepKeepsSound(ing: Ingestor, log: seq<ServerSentEvent>, x: System, x': System, m: Move)
    requires HarmlessRepeats(ing, log) && AllTracked(ing, log) && Sound(ing, log, x) && Step(ing, log, x, x', m)
    ensures Sound(ing, log, x')
  {
    hide Ingest, Process, ResumePoint, ActionablePositions, HarmlessRepeats;
    match m {
      case Read(stop) =>
        SkippingIsSound(ing, log, x, stop);
        DeliveringIsSound(ing, log, x.(session := Consume(ing, log, x.session, stop)), stop);
      case ReadToEnd =>
        SkippingIsSound(ing, log, x, |log|);
      case ReadBroken(stop, error) =>
        BreakingIsSound(ing, log, x, x', stop, error);
      case _ =>
    }
  }

  /** Memory and store agree at every point of every run. */
  lemma {:induction false} RunsAreSound(ing: Ingestor, log: seq<ServerSentEvent>, xs: seq<System>, ms: seq<Move>)
    requires HarmlessRepeats(ing, log) && AllTracked(ing, log) && IsRun(ing, log, xs, ms)
    ensures forall i :: 0 <= i < |xs| ==> Sound(ing, log, xs[i])
  {
    hide Ingest, Step, HarmlessRepeats;
    if ms == [] {
      assert xs == [START];
    } else {
      hide Sound;
      var n := |ms| - 1;
      RunsAreSound(ing, log, xs[..n + 1], ms[..n]);
      StepKeepsSound(ing, log, xs[n], xs[n + 1], ms[n]);
    }
  }

  /** Lossless resume. After any run of reads, failures, reconnects and restarts in which a failure that skips
      an actionable event is followed by a reconnect or restart, the caller has received a prefix of the
      actionable events, in order, each once, and all of them once the end was reached. */
  lemma LosslessResume(ing: Ingestor, log: seq<ServerSentEvent>, xs: seq<System>, ms: seq<Move>)
    requires HarmlessRepeats(ing, log) && AllTracked(ing, log) && IsRun(ing, log, xs, ms)
    ensures forall i :: 0 <= i < |xs| ==> xs[i].received <= ActionablePositions(ing, log, |log|)
    ensures forall i :: 0 <= i < |ms| && ms[i] == ReadToEnd ==>
              xs[i + 1].received == ActionablePositions(ing, log, |log|)
    ensures forall i :: 0 <= i < |xs| && (xs[i].live || xs[i].session.cursor.Some?) ==>
              xs[i].session.cursor == StoredId(xs[i].session)
  {
    hide Actionable, Filtered, Process, Consume, ResumePoint, ActionablePositions, HarmlessRepeats;
    RunsAreSound(ing, log, xs, ms);
    forall i | 0 <= i < |xs| ensures xs[i].received <= ActionablePositions(ing, log, |log|) {
      PositionsGrow(ing, log, Mark(log, xs[i].session), |log|);
    }
    forall i | 0 <= i < |ms| && ms[i] == ReadToEnd
      ensures xs[i + 1].received == ActionablePositions(ing, log, |log|)
    {
      assert Step(ing, log, xs[i], xs[i + 1], ms[i]) && Sound(ing, log, xs[i]);
      FilteredIsNotActionable(ing, log, xs[i].session.pos, |log|);
      PositionsGrow(ing, log, xs[i].session.pos, |log|);
    }
  }

  // ---------------------------------------------------------------------------
  // When reading on after a failure is safe.

  /** What a live system has delivered by the time a read breaks at `stop`. */
  lemma DeliveredBefore(ing: Ingestor, log: seq<ServerSentEvent>, x: System, s': Session, stop: nat, error: StreamError)
    requires Sound(ing, log, x) && x.live && Breaks(ing, log, x.session, s', stop, error)
    ensures stop <= s'.pos <= |log| && x.received == ActionablePositions(ing, log, stop)
    ensures Skips(ing, log, stop, error) ==> s'.pos == stop + 1
    ensures !Skips(ing, log, stop, error) ==> x.received == ActionablePositions(ing, log, s'.pos)
  {
    hide Ingest, Process, ActionablePositions, ResumePoint;
    FilteredIsNotActionable(ing, log, x.session.pos, stop);
    PositionsGrow(ing, log, x.session.pos, stop);
    PositionsGrow(ing, log, stop, s'.pos);
  }

  /** Reading on after a failed call delivers the next actionable event in turn if and only if the call did
      not fail to checkpoint an actionable event. So it is safe after every failed source read and every
      malformed payload, and after a failed write exactly when the event was a filtered one. */
  lemma ReadingOnIsSafeIff(
    ing: Ingestor, log: seq<ServerSentEvent>, x: System, s': Session, s'': Session, stop: nat, error: StreamError,
    next: nat)
    requires Sound(ing, log, x) && x.live && Breaks(ing, log, x.session, s', stop, error)
    requires Delivers(ing, log, s', s'', next)
    ensures x.received + [next] <= ActionablePositions(ing, log, |log|) <==> !Skips(ing, log, stop, error)
  {
    hide Actionable, Filtered, Process, ActionablePositions, ResumePoint, Sound, Breaks;
    var all := ActionablePositions(ing, log, |log|);
    DeliveredBefore(ing, log, x, s', stop, error);
    if Skips(ing, log, stop, error) {
      PositionsStep(ing, log, stop);
      PositionsGrow(ing, log, stop + 1, |log|);
      assert all[|x.received|] == stop;
    } else {
      FilteredIsNotActionable(ing, log, s'.pos, next);
      PositionsGrow(ing, log, s'.pos, next);
      PositionsStep(ing, log, next);
      PositionsGrow(ing, log, next + 1, |log|);
    }
  }

  /** Likewise reading on to the end completes the delivery under the same condition and no other. */
  lemma ReadingOnCompletesIff(
    ing: Ingestor, log: seq<ServerSentEvent>, x: System, s': Session, s'': Session, stop: nat, error: StreamError)
    requires Sound(ing, log, x) && x.live && Breaks(ing, log, x.session, s', stop, error)
    requires Exhausts(ing, log, s', s'')
    ensures x.received == ActionablePositions(ing, log, |log|) <==> !Skips(ing, log, stop, error)
  {
    hide Actionable, Filtered, Process, ActionablePositions, ResumePoint, Sound, Breaks;
    DeliveredBefore(ing, log, x, s', stop, error);
    if Skips(ing, log, stop, error) {
      PositionsStep(ing, log, stop);
      PositionsGrow(ing, log, stop + 1, |log|);
    } else {
      FilteredIsNotActionable(ing, log, s'.pos, |log|);
      PositionsGrow(ing, log, s'.pos, |log|);
    }
  }

  // ---------------------------------------------------------------------------
  // A caller that never reads on after a failure never gets past a malformed payload.

  predicate IsRead(m: Move)
  {
    m.Read? || m.ReadToEnd? || m.ReadBroken?
  }

  /** No id of an ingestable event before `k` occurs at `k` or later. */
  ghost predicate IdsStayBefore(ing: Ingestor, log: seq<ServerSentEvent>, k: nat)
  {
    forall i, m :: 0 <= i < k <= m < |log| && Ingestable(ing, log[i]) && log[i].id.Some? ==> log[m].id != log[i].id
  }

  /** The caller was given nothing from `k` on, and neither cursor leads past `k`. A position past `k` is left
      only by a failed read. */
  ghost predicate HeldUp(log: seq<ServerSentEvent>, k: nat, x: System, afterFailure: bool)
  {
    && (forall p :: p in x.received ==> p < k)
    && ResumePoint(log, x.session.cursor) <= k && ResumePoint(log, StoredId(x.session)) <= k
    && (x.live && !afterFailure ==> x.session.pos <= k)
  }

  /** Consuming filtered or actionable events before `k` leaves both cursors resuming at `k` or before. */
  lemma ConsumingIsHeldUp(ing: Ingestor, log: seq<ServerSentEvent>, k: nat, s: Session, end: nat)
    requires IdsStayBefore(ing, log, k) && s.pos <= end <= k < |log|
    requires forall i :: s.pos <= i < end ==> Ingestable(ing, log[i])
    requires ResumePoint(log, s.cursor) <= k && ResumePoint(log, StoredId(s)) <= k
    ensures var s' := Consume(ing, log, s, end);
            ResumePoint(log, s'.cursor) <= k && ResumePoint(log, StoredId(s')) <= k
  {
    hide Ingestable, Process;
    ConsumeEffects(ing, log, s, end);
    if LastIdBetween(log, s.pos, end).Some? {
      var i := LastIdPosition(log, s.pos, end);
      assert ResumePoint(log, log[i].id) <= k;
    }
  }

  lemma StepIsHeldUp(
    ing: Ingestor, log: seq<ServerSentEvent>, k: nat, x: System, x': System, m: Move, afterFailure: bool)
    requires IdsStayBefore(ing, log, k) && k < |log| && !Ingestable(ing, log[k])
    requires HeldUp(log, k, x, afterFailure) && Step(ing, log, x, x', m) && (afterFailure ==> !IsRead(m))
    ensures HeldUp(log, k, x', m.ReadBroken?)
  {
    hide IdsStayBefore, Ingest, Process, Consume, ResumePoint;
    match m {
      case Read(stop) =>
        ConsumingIsHeldUp(ing, log, k, x.session, stop + 1);
      case ReadToEnd =>
      case ReadBroken(stop, error) =>
        ConsumingIsHeldUp(ing, log, k, x.session, stop);
      case _ =>
    }
  }

  /** The other side of reading on. A failed ingest checkpoints nothing, so a caller that answers every failed
      read with a reconnect or restart comes back to the malformed payload for ever: it is never given anything
      at or after it. */
  lemma {:induction false} MalformedHoldsUp(
    ing: Ingestor, log: seq<ServerSentEvent>, k: nat, xs: seq<System>, ms: seq<Move>)
    requires k < |log| && !Ingestable(ing, log[k]) && IdsStayBefore(ing, log, k)
    requires IsRun(ing, log, xs, ms)
    requires forall i :: 0 < i < |ms| && IsRead(ms[i]) ==> !ms[i - 1].ReadBroken?
    ensures forall i, p :: 0 <= i < |xs| && p in xs[i].received ==> p < k
    ensures HeldUp(log, k, xs[|ms|], |ms| > 0 && ms[|ms| - 1].ReadBroken?)
  {
    hide IdsStayBefore, Ingestable, Step;
    if ms == [] {
      assert xs == [START];
    } else {
      var n := |ms| - 1;
      MalformedHoldsUp(ing, log, k, xs[..n + 1], ms[..n]);
      StepIsHeldUp(ing, log, k, xs[n], xs[n + 1], ms[n], n > 0 && ms[n - 1].ReadBroken?);
    }
  }

  // ---------------------------------------------------------------------------
  // The conditions are exact: when one fails, some run loses or repeats an actionable event.

  lemma RunExtends(ing: Ingestor, log: seq<ServerSentEvent>, xs: seq<System>, ms: seq<Move>, x': System, m: Move)
    requires IsRun(ing, log, xs, ms) && Step(ing, log, xs[|xs| - 1], x', m)
    ensures IsRun(ing, log, xs + [x'], ms + [m])
  {
    hide Step;
  }

  lemma RunOfNothing(ing: Ingestor, log: seq<ServerSentEvent>)
    ensures IsRun(ing, log, [START], []) && ActionablePositions(ing, log, 0) == []
  {
  }

  lemma RunIsNonEmpty(ing: Ingestor, log: seq<ServerSentEvent>, xs: seq<System>, ms: seq<Move>)
    requires IsRun(ing, log, xs, ms)
    ensures |xs| == |ms| + 1
  {
  }

  /** Memory and store agree, on nothing or on the id of an ingestable event before `bound`. */
  ghost predicate KnowsOnly(ing: Ingestor, log: seq<ServerSentEvent>, s: Session, bound: nat)
  {
    && s.stored != Some(NotUtf8) && s.cursor == StoredId(s)
    && (s.cursor.Some? ==>
        exists k :: 0 <= k < bound && k < |log| && Ingestable(ing, log[k]) && log[k].id == s.cursor)
  }

  /** A live system gets past its next event: an actionable one is read, a malformed payload breaks the read and
      is passed, a filtered event is consumed before some read fails at the source. */
  lemma PassOne(ing: Ingestor, log: seq<ServerSentEvent>, x: System) returns (x': System, m: Move)
    requires x.live && x.session.pos < |log| && KnowsOnly(ing, log, x.session, x.session.pos)
    ensures Step(ing, log, x, x', m) && x'.live && x'.session.pos == x.session.pos + 1
    ensures x'.received == x.received + if Actionable(ing, log[x.session.pos]) then [x.session.pos] else []
    ensures KnowsOnly(ing, log, x'.session, x'.session.pos)
    ensures var e := log[x.session.pos];
            Ingestable(ing, e) && e.id.Some? ==> x'.session.cursor == e.id
  {
    var s := x.session;
    var ingested := Ingest(ing, log[s.pos].data);
    hide Ingest;
    assert Consume(ing, log, s, s.pos) == s;
    match ingested {
      case Err(e) =>
        x', m := x.(session := s.(pos := s.pos + 1)), ReadBroken(s.pos, IngestFailed(e));
      case Ok(Some(_)) =>
        x', m := System(Process(ing, s, log[s.pos]), true, x.received + [s.pos]), Read(s.pos);
      case Ok(None) =>
        x', m := x.(session := Process(ing, s, log[s.pos])), ReadBroken(s.pos + 1, SourceFailed);
    }
  }

  /** A run that stands at `from` can go on to any later position, delivering what lies in between. */
  lemma {:induction false} ReadOn(
    ing: Ingestor, log: seq<ServerSentEvent>, xs: seq<System>, ms: seq<Move>, from: nat, end: nat)
    returns (xs': seq<System>, ms': seq<Move>)
    requires from <= end <= |log| && IsRun(ing, log, xs, ms) && |xs| > 0
    requires var x := xs[|xs| - 1]; x.live && x.session.pos == from && KnowsOnly(ing, log, x.session, from)
    ensures IsRun(ing, log, xs', ms') && |xs'| > 0
    ensures ActionablePositions(ing, log, from) <= ActionablePositions(ing, log, end)
    ensures var x' := xs'[|xs'| - 1];
            && x'.live && x'.session.pos == end && KnowsOnly(ing, log, x'.session, end)
            && x'.received ==
               xs[|xs| - 1].received + ActionablePositions(ing, log, end)[|ActionablePositions(ing, log, from)|..]
            && (from < end && Ingestable(ing, log[end - 1]) && log[end - 1].id.Some? ==>
                x'.session.cursor == log[end - 1].id)
    decreases end
  {
    hide Actionable, Ingestable, IsRun, KnowsOnly, Step;
    PositionsGrow(ing, log, from, end);
    if from == end {
      xs', ms' := xs, ms;
    } else {
      PositionsGrow(ing, log, from, end - 1);
      xs', ms' := ReadOn(ing, log, xs, ms, from, end - 1);
      var x', m := PassOne(ing, log, xs'[|xs'| - 1]);
      RunExtends(ing, log, xs', ms', x', m);
      xs', ms' := xs' + [x'], ms' + [m];
    }
  }

  /** From the start of the log to `end`, and then a reconnect. */
  lemma ReadAndReconnect(ing: Ingestor, log: seq<ServerSentEvent>, end: nat)
    returns (xs: seq<System>, ms: seq<Move>)
    requires end <= |log|
    ensures IsRun(ing, log, xs, ms) && |xs| > 0
    ensures var x := xs[|xs| - 1];
            && x.live && x.session.pos == ResumePoint(log, x.session.cursor)
            && x.received == ActionablePositions(ing, log, end) && KnowsOnly(ing, log, x.session, end)
            && KnowsOnly(ing, log, x.session, x.session.pos)
            && (0 < end && Ingestable(ing, log[end - 1]) && log[end - 1].id.Some? ==>
                x.session.cursor == log[end - 1].id)
  {
    hide Actionable, Ingest, IsRun, ActionablePositions, ResumePoint;
    RunOfNothing(ing, log);
    xs, ms := ReadOn(ing, log, [START], [], 0, end);
    var x := xs[|xs| - 1];
    var y := System(x.session.(pos := ResumePoint(log, x.session.cursor),
                               reconnects := SatAddU64(x.session.reconnects, 1)), true, x.received);
    RunExtends(ing, log, xs, ms, y, Reconnected);
    xs, ms := xs + [y], ms + [Reconnected];
  }

  /** Reading an event whose id occurs again later, reconnecting and reading on to the end loses every actionable
      event in between. */
  lemma RepeatedIdLoses(ing: Ingestor, log: seq<ServerSentEvent>, j: nat, i: nat, m: nat)
    returns (xs: seq<System>, ms: seq<Move>)
    requires j < i <= m < |log| && Ingestable(ing, log[j]) && log[j].id.Some? && log[m].id == log[j].id
    requires Actionable(ing, log[i])
    ensures IsRun(ing, log, xs, ms) && |ms| > 0 && |xs| == |ms| + 1 && ms[|ms| - 1] == ReadToEnd
    ensures i !in xs[|ms|].received
  {
    hide Actionable, Ingestable, IsRun, ActionablePositions, ResumePoint, KnowsOnly;
    xs, ms := ReadAndReconnect(ing, log, j + 1);
    var p := ResumePoint(log, log[j].id);
    assert m < p;
    xs, ms := ReadOn(ing, log, xs, ms, p, |log|);
    LaterAreOthers(ing, log, i, p);
    var x := xs[|xs| - 1];
    ExhaustedStep(ing, log, x);
    RunExtends(ing, log, xs, ms, x, ReadToEnd);
    xs, ms := xs + [x], ms + [ReadToEnd];
    RunIsNonEmpty(ing, log, xs, ms);
  }

  lemma LaterAreOthers(ing: Ingestor, log: seq<ServerSentEvent>, i: nat, p: nat)
    requires i < p <= |log| && Actionable(ing, log[i])
    ensures var before, all := ActionablePositions(ing, log, p), ActionablePositions(ing, log, |log|);
            |before| <= |all| && i !in all[|before|..]
  {
    hide Actionable, ActionablePositions;
    PositionsGrow(ing, log, p, |log|);
    PositionsAreExact(ing, log, p);
    PositionsAreExact(ing, log, |log|);
    var before := ActionablePositions(ing, log, p);
    var k :| 0 <= k < |before| && before[k] == i;
  }

  lemma ExhaustedStep(ing: Ingestor, log: seq<ServerSentEvent>, x: System)
    requires x.live && x.session.pos == |log|
    ensures Step(ing, log, x, x, ReadToEnd)
  {
  }

  /** Reading an actionable event without an id, reconnecting and reading on delivers an event twice. */
  lemma UntrackedIsRepeated(ing: Ingestor, log: seq<ServerSentEvent>, j: nat)
    returns (xs: seq<System>, ms: seq<Move>, first: nat, again: nat)
    requires HarmlessRepeats(ing, log) && j < |log| && Actionable(ing, log[j]) && log[j].id.None?
    ensures IsRun(ing, log, xs, ms) && |xs| > 0
    ensures var received := xs[|xs| - 1].received;
            first < again < |received| && received[first] == received[again]
  {
    hide Actionable, Ingestable, IsRun, ActionablePositions, ResumePoint;
    xs, ms := ReadAndReconnect(ing, log, j + 1);
    var x := xs[|xs| - 1];
    var p := x.session.pos;
    assert p <= j;
    xs, ms := ReadOn(ing, log, xs, ms, p, j + 1);
    PositionsStep(ing, log, j);
    PositionsGrow(ing, log, p, j);
    first, again := |x.received| - 1, |xs[|xs| - 1].received| - 1;
  }

  /** What the caller is promised: after every run, a prefix of the actionable events, and all of them when the
      run ended by reaching the end. */
  ghost predicate ExactlyOnce(ing: Ingestor, log: seq<ServerSentEvent>)
  {
    forall xs: seq<System>, ms :: IsRun(ing, log, xs, ms) ==>
      && xs[|ms|].received <= ActionablePositions(ing, log, |log|)
      && (|ms| > 0 && ms[|ms| - 1] == ReadToEnd ==> xs[|ms|].received == ActionablePositions(ing, log, |log|))
  }

  /** For every log: no run loses, repeats or reorders an actionable event if and only if every actionable event
      carries an id and no actionable event follows an ingestable one up to a later event with its id. */
  lemma ExactlyOnceIff(ing: Ingestor, log: seq<ServerSentEvent>)
    ensures ExactlyOnce(ing, log) <==> AllTracked(ing, log) && HarmlessRepeats(ing, log)
  {
    hide Actionable, Ingestable, IsRun, ActionablePositions;
    PositionsAreExact(ing, log, |log|);
    if !HarmlessRepeats(ing, log) {
      var j, m :| 0 <= j < m < |log| && Ingestable(ing, log[j]) && log[j].id.Some? && log[m].id == log[j].id
                  && !NoneActionable(ing, log, j + 1, m + 1);
      var i: nat :| j < i <= m && Actionable(ing, log[i]);
      var xs, ms := RepeatedIdLoses(ing, log, j, i, m);
    } else if !AllTracked(ing, log) {
      var j: nat :| j < |log| && Actionable(ing, log[j]) && log[j].id.None?;
      var xs, ms, first, again := UntrackedIsRepeated(ing, log, j);
      RunIsNonEmpty(ing, log, xs, ms);
    } else {
      forall xs: seq<System>, ms | IsRun(ing, log, xs, ms)
        ensures |xs| == |ms| + 1 && xs[|ms|].received <= ActionablePositions(ing, log, |log|)
        ensures |ms| > 0 && ms[|ms| - 1] == ReadToEnd ==> xs[|ms|].received == ActionablePositions(ing, log, |log|)
      {
        RunIsNonEmpty(ing, log, xs, ms);
        LosslessResume(ing, log, xs, ms);
      }
    }
  }
}
