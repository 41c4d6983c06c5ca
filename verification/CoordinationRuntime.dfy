/** The mutable room state and the runtime that sends, receives and folds messages. */
module CoordinationRuntime {
  import opened Machine
  import opened Coordination

  class CoordinationState {
    const wikiId: string
    var claims: map<u64, EditClaim>
    var presence: map<string, Heartbeat>
    var flaggedEdits: map<u64, Flag>
    var scoreDeltas: map<u64, ScoreDelta>
    var raceResolutions: map<u64, RaceResolution>
    var recentActions: seq<ActionBroadcast>

    ghost function View(): Room
      reads this
    {
      Room(wikiId, claims, presence, flaggedEdits, scoreDeltas, raceResolutions, recentActions)
    }

    constructor (wikiId: string)
      ensures View() == NewRoom(wikiId)
    {
      this.wikiId := wikiId;
      claims, presence, flaggedEdits := map[], map[], map[];
      scoreDeltas, raceResolutions, recentActions := map[], map[], [];
    }

    /** Fold one message; false, and nothing changes, when it belongs to another wiki. */
    method Apply(message: Message) returns (applied: bool)
      modifies this
      ensures applied <==> message.WikiId() == wikiId
      ensures View() == Step(old(View()), message)
    {
      if message.WikiId() != wikiId {
        return false;
      }
      match message {
        case ClaimMsg(claim) =>
          if claim.revId !in raceResolutions || raceResolutions[claim.revId].winningActor == claim.actor {
            claims := claims[claim.revId := claim];
          }
        case PresenceMsg(heartbeat) =>
          if heartbeat.activeEditCount == 0 {
            presence := presence - {heartbeat.actor};
          } else {
            presence := presence[heartbeat.actor := heartbeat];
          }
        case FlagMsg(flagged) =>
          flaggedEdits := flaggedEdits[flagged.revId := flagged];
        case DeltaMsg(delta) =>
          if delta.revId in scoreDeltas {
            var current := scoreDeltas[delta.revId];
            current := current.(delta := SatAddI32(current.delta, delta.delta));
            current := current.(reason := current.reason + " | " + delta.reason);
            scoreDeltas := scoreDeltas[delta.revId := current];
          } else {
            scoreDeltas := scoreDeltas[delta.revId := delta];
          }
        case ResolutionMsg(resolution) =>
          claims := claims[resolution.revId :=
            EditClaim(resolution.wikiId, resolution.revId, resolution.winningActor)];
          raceResolutions := raceResolutions[resolution.revId := resolution];
        case ActionMsg(action) =>
          recentActions := recentActions + [action];
          if |recentActions| > 25 {
            var overflow := |recentActions| - 25;
            recentActions := recentActions[overflow..];
          }
        case ReviewMsg(_) =>
      }
      return true;
    }

    /** Fold a batch in order and count the messages of this wiki. */
    method ApplyMany(messages: seq<Message>) returns (count: nat)
      modifies this
      ensures View() == ReplayFrom(old(View()), messages)
      ensures forall log :: old(View()) == Replay(wikiId, log) ==> View() == Replay(wikiId, log + messages)
      ensures count == |PositionsOf(messages, wikiId)|
    {
      count := 0;
      for i := 0 to |messages|
        invariant View() == ReplayFrom(old(View()), messages[..i])
        invariant count == OfWiki(messages[..i], wikiId)
      {
        var applied := Apply(messages[i]);
        count := count + if applied then 1 else 0;
        assert messages[..i + 1][..i] == messages[..i];
      }
      assert messages[..|messages|] == messages;
      OfWikiExactly(messages, wikiId);
      forall log | old(View()) == Replay(wikiId, log) ensures View() == Replay(wikiId, log + messages) {
        ReplayAppends(wikiId, log, messages);
      }
    }

    /** A dropped operator disappears exactly as if it had reported zero active edits. */
    method RemovePresence(actor: string) returns (removed: bool)
      modifies this
      ensures removed <==> actor in old(presence)
      ensures View() == Step(old(View()), PresenceMsg(Heartbeat(wikiId, actor, 0)))
    {
      removed := actor in presence;
      presence := presence - {actor};
    }
  }

  function OfWiki(messages: seq<Message>, wikiId: string): nat
  {
    if messages == [] then 0
    else OfWiki(messages[..|messages| - 1], wikiId) +
         if messages[|messages| - 1].WikiId() == wikiId then 1 else 0
  }

  /** Where the messages of a wiki stand. */
  ghost function PositionsOf(messages: seq<Message>, wikiId: string): set<nat>
  {
    set i | 0 <= i < |messages| && messages[i].WikiId() == wikiId
  }

  lemma PositionsGrow(messages: seq<Message>, wikiId: string)
    requires messages != []
    ensures var n := |messages| - 1;
            var before := PositionsOf(messages[..n], wikiId);
            && n !in before
            && PositionsOf(messages, wikiId) == if messages[n].WikiId() == wikiId then before + {n} else before
  {
  }

  lemma {:induction false} OfWikiExactly(messages: seq<Message>, wikiId: string)
    ensures OfWiki(messages, wikiId) == |PositionsOf(messages, wikiId)|
  {
    if messages == [] {
      assert PositionsOf(messages, wikiId) == {};
    } else {
      hide PositionsOf;
      OfWikiExactly(messages[..|messages| - 1], wikiId);
      PositionsGrow(messages, wikiId);
    }
  }

  // ---------------------------------------------------------------------------
  // The transport, and the runtime as a state machine.

  /** A frame carries a payload, which may not decode, or closes the stream. */
  datatype Frame = Payload(decoded: Option<Message>) | Close

  datatype CoordinationError = TransportFailed | Undecodable

  /** What a receive takes off the incoming frames, by its result. */
  ghost predicate Takes(before: seq<Frame>, r: Result<Option<Message>, CoordinationError>, after: seq<Frame>)
  {
    match r
    case Err(TransportFailed) => after == before
    case Err(Undecodable) => before != [] && before[0] == Payload(None) && after == before[1..]
    case Ok(Some(m)) => before != [] && before[0] == Payload(Some(m)) && after == before[1..]
    case Ok(None) => if before == [] then after == [] else before[0] == Close && after == before[1..]
  }

  /** The websocket seen through its codec: decoding an encoded message gives the message back. A failed
      send emits nothing, a failed receive consumes nothing. */
  class CoordinationClient {
    var incoming: seq<Frame>
    var sent: seq<Message>

    constructor (incoming: seq<Frame>)
      ensures this.incoming == incoming && sent == []
    {
      this.incoming, sent := incoming, [];
    }

    method SendMessage(message: Message) returns (r: Result<(), CoordinationError>)
      modifies this
      ensures incoming == old(incoming)
      ensures sent == if r.Ok? then old(sent) + [message] else old(sent)
    {
      var fails: bool := *;
      if fails {
        return Err(TransportFailed);
      }
      sent := sent + [message];
      return Ok(());
    }

    method ReceiveMessage() returns (r: Result<Option<Message>, CoordinationError>)
      modifies this
      ensures sent == old(sent)
      ensures Takes(old(incoming), r, incoming)
    {
      var fails: bool := *;
      if fails {
        return Err(TransportFailed);
      }
      if incoming == [] {
        return Ok(None);
      }
      var frame := incoming[0];
      incoming := incoming[1..];
      match frame {
        case Payload(Some(m)) => return Ok(Some(m));
        case Payload(None) => return Err(Undecodable);
        case Close => return Ok(None);
      }
    }
  }

  /** What can happen to a runtime in one call of its methods. */
  datatype Event = Sent(m: Message) | SendFailed | Received(m: Message) | ReceiveFailed | StreamEnded

  datatype RuntimeView = RuntimeView(room: Room, outgoing: u64, incoming: u64, closed: bool)

  function After(v: RuntimeView, e: Event): RuntimeView
  {
    match e
    case Sent(m) => v.(room := Step(v.room, m), outgoing := SatAddU64(v.outgoing, 1))
    case Received(m) => v.(room := Step(v.room, m), incoming := SatAddU64(v.incoming, 1))
    case StreamEnded => v.(closed := true)
    case SendFailed => v
    case ReceiveFailed => v
  }

  function Run(v: RuntimeView, es: seq<Event>): RuntimeView
  {
    if es == [] then v else After(Run(v, es[..|es| - 1]), es[|es| - 1])
  }

  function Receipts(ms: seq<Message>): (es: seq<Event>)
    ensures |es| == |ms|
  {
    seq(|ms|, i requires 0 <= i < |ms| => Received(ms[i]))
  }

  /** The stream starts with these messages. */
  ghost predicate Leads(ms: seq<Message>, frames: seq<Frame>)
  {
    |ms| <= |frames| && forall i :: 0 <= i < |ms| ==> frames[i] == Payload(Some(ms[i]))
  }

  class CoordinationRuntime {
    const client: CoordinationClient
    const state: CoordinationState
    var outgoingMessages: u64
    var incomingMessages: u64
    var streamClosed: bool

    ghost function View(): RuntimeView
      reads this, state
    {
      RuntimeView(state.View(), outgoingMessages, incomingMessages, streamClosed)
    }

    constructor (wikiId: string, client: CoordinationClient)
      ensures this.client == client && fresh(state)
      ensures View() == Fresh(wikiId)
    {
      this.client := client;
      state := new CoordinationState(wikiId);
      outgoingMessages, incomingMessages, streamClosed := 0, 0, false;
    }

    /** The common shape of the six send methods: transmit, count, then fold the same message locally. */
    method Broadcast(message: Message) returns (r: Result<(), CoordinationError>)
      modifies this, client, state
      ensures View() == After(old(View()), if r.Ok? then Sent(message) else SendFailed)
      ensures client.sent == if r.Ok? then old(client.sent) + [message] else old(client.sent)
      ensures client.incoming == old(client.incoming)
    {
      r := client.SendMessage(message);
      if r.Err? {
        return;
      }
      outgoingMessages := SatAddU64(outgoingMessages, 1);
      var applied := state.Apply(message);
    }

    method ReceiveMessage() returns (r: Result<Option<Message>, CoordinationError>)
      modifies this, client, state
      ensures View() == After(old(View()), match r
                                           case Ok(Some(m)) => Received(m)
                                           case Ok(None) => StreamEnded
                                           case Err(_) => ReceiveFailed)
      ensures Takes(old(client.incoming), r, client.incoming)
      ensures client.sent == old(client.sent)
    {
      r := client.ReceiveMessage();
      match r {
        case Ok(Some(message)) =>
          incomingMessages := SatAddU64(incomingMessages, 1);
          var applied := state.Apply(message);
        case Ok(None) =>
          streamClosed := true;
        case Err(_) =>
      }
    }

    /** Receive up to `limit` messages. On success they are the next payload frames in order, all folded and
        taken off the stream; a short batch means the stream ended. On failure the batch is lost, though its
        messages were taken and stay folded. */
    method DrainIncoming(limit: nat) returns (r: Result<seq<Message>, CoordinationError>)
      modifies this, client, state
      ensures r.Ok? ==> |r.value| <= limit && Leads(r.value, old(client.incoming))
      ensures r.Ok? && |r.value| == limit ==> client.incoming == old(client.incoming)[limit..]
      ensures r.Ok? && |r.value| < limit ==> Takes(old(client.incoming)[|r.value|..], Ok(None), client.incoming)
      ensures r.Ok? ==> View() == Run(old(View()), Receipts(r.value) + if |r.value| < limit then [StreamEnded] else [])
      ensures r.Ok? && |r.value| < limit ==> streamClosed
      ensures r.Err? ==> exists ms :: |ms| < limit && Leads(ms, old(client.incoming))
                                      && View() == Run(old(View()), Receipts(ms) + [ReceiveFailed])
                                      && Takes(old(client.incoming)[|ms|..], Err(r.error), client.incoming)
      ensures old(streamClosed) ==> streamClosed
      ensures client.sent == old(client.sent)
    {
      var messages: seq<Message> := [];
      while |messages| < limit
        invariant |messages| <= limit
        invariant View() == Run(old(View()), Receipts(messages))
        invariant Leads(messages, old(client.incoming))
        invariant client.incoming == old(client.incoming)[|messages|..]
        invariant client.sent == old(client.sent)
        invariant old(streamClosed) ==> streamClosed
        decreases limit - |messages|
      {
        var next := ReceiveMessage();
        match next {
          case Ok(Some(message)) =>
            RunAppends(old(View()), Receipts(messages), Received(message));
            messages := messages + [message];
            assert Receipts(messages) == Receipts(messages[..|messages| - 1]) + [Received(message)];
            assert messages[..|messages| - 1] + [message] == messages;
          case Ok(None) =>
            RunAppends(old(View()), Receipts(messages), StreamEnded);
            return Ok(messages);
          case Err(e) =>
            RunAppends(old(View()), Receipts(messages), ReceiveFailed);
            return Err(e);
        }
      }
      assert Receipts(messages) + [] == Receipts(messages);
      return Ok(messages);
    }
  }

  lemma RunAppends(v: RuntimeView, es: seq<Event>, e: Event)
    ensures Run(v, es + [e]) == After(Run(v, es), e)
  {
    assert (es + [e])[..|es|] == es;
  }

  // ---------------------------------------------------------------------------
  // Whole runs.

  /** The messages a run folded: those sent successfully and those received, as they interleaved. */
  function Folded(es: seq<Event>): seq<Message>
  {
    if es == [] then []
    else
      var before, e := Folded(es[..|es| - 1]), es[|es| - 1];
      match e
      case Sent(m) => before + [m]
      case Received(m) => before + [m]
      case _ => before
  }

  function SentCount(es: seq<Event>): nat
  {
    if es == [] then 0 else SentCount(es[..|es| - 1]) + if es[|es| - 1].Sent? then 1 else 0
  }

  function ReceivedCount(es: seq<Event>): nat
  {
    if es == [] then 0 else ReceivedCount(es[..|es| - 1]) + if es[|es| - 1].Received? then 1 else 0
  }

  lemma ReplayAppend(wikiId: string, log: seq<Message>, m: Message)
    ensures Replay(wikiId, log + [m]) == Step(Replay(wikiId, log), m)
  {
    assert (log + [m])[..|log|] == log;
  }

  function Fresh(wikiId: string): RuntimeView
  {
    RuntimeView(NewRoom(wikiId), 0, 0, false)
  }

  lemma {:induction false} RunFolds(wikiId: string, es: seq<Event>)
    ensures Run(Fresh(wikiId), es).room == Replay(wikiId, Folded(es))
  {
    if es != [] {
      var n := |es| - 1;
      RunFolds(wikiId, es[..n]);
      if es[n].Sent? || es[n].Received? {
        ReplayAppend(wikiId, Folded(es[..n]), es[n].m);
      }
    }
  }

  lemma {:induction false} RunCounts(v: RuntimeView, es: seq<Event>)
    requires v.outgoing == v.incoming == 0
    ensures Run(v, es).outgoing == Min(U64_MAX, SentCount(es))
    ensures Run(v, es).incoming == Min(U64_MAX, ReceivedCount(es))
  {
    if es != [] {
      RunCounts(v, es[..|es| - 1]);
      match es[|es| - 1] {
        case Sent(_) =>
        case Received(_) =>
        case _ =>
      }
    }
  }

  lemma {:induction false} RunCloses(v: RuntimeView, es: seq<Event>)
    ensures Run(v, es).closed <==> v.closed || StreamEnded in es
  {
    if es != [] {
      var n := |es| - 1;
      RunCloses(v, es[..n]);
      assert es == es[..n] + [es[n]];
      match es[n] {
        case StreamEnded =>
        case _ =>
      }
    }
  }

  lemma {:induction false} FoldedLength(es: seq<Event>)
    ensures SentCount(es) + ReceivedCount(es) == |Folded(es)|
  {
    if es != [] {
      FoldedLength(es[..|es| - 1]);
    }
  }

  /** Over any run the room is the replay of the messages folded, the counters are saturating counts, and
      the stream counts as closed exactly when it ended at some point, after which it stays closed. */
  lemma RuntimeRefinesReducer(wikiId: string, es: seq<Event>)
    ensures var v := Run(Fresh(wikiId), es);
            && v.room == Replay(wikiId, Folded(es))
            && v.outgoing == Min(U64_MAX, SentCount(es))
            && v.incoming == Min(U64_MAX, ReceivedCount(es))
            && (v.closed <==> StreamEnded in es)
            && SentCount(es) + ReceivedCount(es) == |Folded(es)|
  {
    RunFolds(wikiId, es);
    RunCounts(Fresh(wikiId), es);
    RunCloses(Fresh(wikiId), es);
    FoldedLength(es);
  }
}
