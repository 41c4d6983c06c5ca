/** What follows for replicas of one room that see different message logs. */
module Replicas {
  import opened Machine
  import opened Coordination

  /** Two maps with the same lookups are the same map. */
  lemma SameLookups<K, V>(a: map<K, V>, b: map<K, V>)
    requires forall k :: Get(a, k) == Get(b, k)
    ensures a == b
  {
    forall k ensures k in a <==> k in b {
      assert Get(a, k) == Get(b, k);
    }
    forall k | k in a ensures a[k] == b[k] {
      assert Get(a, k) == Get(b, k);
    }
  }

  /** Both logs are silent on the topic, or end it with the same message. */
  ghost predicate SameEnding(wikiId: string, a: seq<Message>, b: seq<Message>, t: Topic)
  {
    var x, y := Select(wikiId, a, t), Select(wikiId, b, t);
    (x == [] <==> y == []) && (x != [] ==> Last(x) == Last(y))
  }

  /** Claims, resolutions, presence and flags depend only on the last message of each topic, so any two
      replicas whose topics end alike agree on them, whatever was reordered, repeated or lost before. */
  lemma LastWriteWins(wikiId: string, a: seq<Message>, b: seq<Message>)
    requires forall t: Topic :: !t.DeltasOf? && t != Actions ==> SameEnding(wikiId, a, b, t)
    ensures Replay(wikiId, a).claims == Replay(wikiId, b).claims
    ensures Replay(wikiId, a).resolutions == Replay(wikiId, b).resolutions
    ensures Replay(wikiId, a).presence == Replay(wikiId, b).presence
    ensures Replay(wikiId, a).flags == Replay(wikiId, b).flags
  {
    ReplayMatchesLog(wikiId, a);
    ReplayMatchesLog(wikiId, b);
    var x, y := Replay(wikiId, a), Replay(wikiId, b);
    forall rev: u64 ensures Get(x.claims, rev) == Get(y.claims, rev)
                    ensures Get(x.resolutions, rev) == Get(y.resolutions, rev) {
      assert MatchesAt(x, wikiId, a, rev) && MatchesAt(y, wikiId, b, rev);
      assert SameEnding(wikiId, a, b, ResolutionsOf(rev)) && SameEnding(wikiId, a, b, ClaimsOf(rev));
    }
    forall actor ensures Get(x.presence, actor) == Get(y.presence, actor) {
      assert MatchesFor(x, wikiId, a, actor) && MatchesFor(y, wikiId, b, actor);
      assert SameEnding(wikiId, a, b, HeartbeatsOf(actor));
    }
    forall rev: u64 ensures Get(x.flags, rev) == Get(y.flags, rev) {
      assert MatchesAt(x, wikiId, a, rev) && MatchesAt(y, wikiId, b, rev);
      assert SameEnding(wikiId, a, b, FlagsOf(rev));
    }
    SameLookups(x.claims, y.claims);
    SameLookups(x.resolutions, y.resolutions);
    SameLookups(x.presence, y.presence);
    SameLookups(x.flags, y.flags);
  }

  /** Logs with the same messages per topic, in the same order within each topic, give the same state.
      Claims and resolutions of one revision are two topics: their relative order does not matter. */
  lemma EqualProjectionsEqualStates(wikiId: string, a: seq<Message>, b: seq<Message>)
    requires forall t: Topic :: Select(wikiId, a, t) == Select(wikiId, b, t)
    ensures Replay(wikiId, a) == Replay(wikiId, b)
  {
    LastWriteWins(wikiId, a, b);
    ReplayMatchesLog(wikiId, a);
    ReplayMatchesLog(wikiId, b);
    var x, y := Replay(wikiId, a), Replay(wikiId, b);
    forall rev: u64 ensures Get(x.deltas, rev) == Get(y.deltas, rev) {
      assert MatchesAt(x, wikiId, a, rev) && MatchesAt(y, wikiId, b, rev);
      assert Select(wikiId, a, DeltasOf(rev)) == Select(wikiId, b, DeltasOf(rev));
    }
    assert Select(wikiId, a, Actions) == Select(wikiId, b, Actions);
    SameLookups(x.deltas, y.deltas);
  }

  ghost predicate Consistent(room: Room)
  {
    ClaimsConsistent(room) && PresenceConsistent(room) && |room.recent| <= RECENT_ACTION_WINDOW
  }

  ghost predicate ClaimsConsistent(room: Room)
  {
    forall r: u64 :: ClaimConsistentAt(room, r)
  }

  /** A resolved revision is claimed, by its winner. */
  ghost predicate ClaimConsistentAt(room: Room, r: u64)
  {
    && (r in room.resolutions ==>
          && room.resolutions[r].revId == r && room.resolutions[r].wikiId == room.wikiId
          && r in room.claims && room.claims[r].actor == room.resolutions[r].winningActor)
    && (r in room.claims ==> room.claims[r].revId == r && room.claims[r].wikiId == room.wikiId)
  }

  /** Only operators with active edits are present. */
  ghost predicate PresenceConsistent(room: Room)
  {
    forall a :: a in room.presence ==> room.presence[a].actor == a && room.presence[a].activeEditCount > 0
  }

  lemma StepKeepsClaimAt(room: Room, m: Message, r: u64)
    requires ClaimConsistentAt(room, r)
    ensures ClaimConsistentAt(Step(room, m), r)
  {
    hide LastN, Merged;
  }

  lemma StepKeepsPresence(room: Room, m: Message)
    requires PresenceConsistent(room)
    ensures PresenceConsistent(Step(room, m))
  {
    hide LastN, Merged;
  }

  lemma StepConsistent(room: Room, m: Message)
    requires Consistent(room)
    ensures Consistent(Step(room, m))
  {
    hide ClaimConsistentAt, PresenceConsistent, Merged;
    forall r: u64 ensures ClaimConsistentAt(Step(room, m), r) {
      StepKeepsClaimAt(room, m, r);
    }
    StepKeepsPresence(room, m);
  }

  lemma NewRoomConsistent(wikiId: string)
    ensures Consistent(NewRoom(wikiId))
  {
  }

  lemma StepKeepsWiki(room: Room, m: Message)
    ensures Step(room, m).wikiId == room.wikiId
  {
    hide LastN, Merged;
  }

  /** Every reachable state ties the two maps together: a resolved revision is claimed, by its winner. */
  lemma {:induction false} ReachableConsistent(wikiId: string, log: seq<Message>)
    ensures Consistent(Replay(wikiId, log)) && Replay(wikiId, log).wikiId == wikiId
  {
    hide Step, ClaimConsistentAt;
    if log == [] {
      NewRoomConsistent(wikiId);
    } else {
      ReachableConsistent(wikiId, log[..|log| - 1]);
      StepConsistent(Replay(wikiId, log[..|log| - 1]), log[|log| - 1]);
      StepKeepsWiki(Replay(wikiId, log[..|log| - 1]), log[|log| - 1]);
    }
  }

  function LastWinner(wikiId: string, log: seq<Message>, rev: u64): Option<string>
  {
    var rs := Select(wikiId, log, ResolutionsOf(rev));
    if rs == [] then None else Some(Last(rs).resolution.winningActor)
  }

  function Claimant(wikiId: string, log: seq<Message>, rev: u64): Option<EditClaim>
  {
    Get(Replay(wikiId, log).claims, rev)
  }

  lemma WinnerHoldsClaim(wikiId: string, log: seq<Message>, rev: u64)
    requires LastWinner(wikiId, log, rev).Some?
    ensures Claimant(wikiId, log, rev) == Some(EditClaim(wikiId, rev, LastWinner(wikiId, log, rev).value))
  {
    ReplayMatchesLog(wikiId, log);
    assert MatchesAt(Replay(wikiId, log), wikiId, log, rev);
  }

  /** Any number of replicas, each fed its own interleaving, agree on the winner named last in each. */
  lemma ReplicasConverge(wikiId: string, logs: seq<seq<Message>>, rev: u64, winner: string)
    requires forall i :: 0 <= i < |logs| ==> LastWinner(wikiId, logs[i], rev) == Some(winner)
    ensures forall i :: 0 <= i < |logs| ==> Claimant(wikiId, logs[i], rev) == Some(EditClaim(wikiId, rev, winner))
  {
    forall i | 0 <= i < |logs|
      ensures Claimant(wikiId, logs[i], rev) == Some(EditClaim(wikiId, rev, winner))
    {
      WinnerHoldsClaim(wikiId, logs[i], rev);
    }
  }

  /** The operator a replica regards as holding the revision: the last winner, else the last claimant. */
  function Holder(wikiId: string, log: seq<Message>, rev: u64): Option<string>
  {
    var cs := Select(wikiId, log, ClaimsOf(rev));
    if LastWinner(wikiId, log, rev).Some? then LastWinner(wikiId, log, rev)
    else if cs == [] then None
    else Some(Last(cs).claim.actor)
  }

  lemma HolderHoldsClaim(wikiId: string, log: seq<Message>, rev: u64)
    ensures Claimant(wikiId, log, rev) ==
            match Holder(wikiId, log, rev)
            case None => None
            case Some(actor) => Some(EditClaim(wikiId, rev, actor))
  {
    ReplayMatchesLog(wikiId, log);
    assert MatchesAt(Replay(wikiId, log), wikiId, log, rev);
  }

  /** Two replicas agree on a claim exactly when they name the same holder, resolved or not. */
  lemma AgreementExactly(wikiId: string, a: seq<Message>, b: seq<Message>, rev: u64)
    ensures Claimant(wikiId, a, rev) == Claimant(wikiId, b, rev) <==> Holder(wikiId, a, rev) == Holder(wikiId, b, rev)
  {
    HolderHoldsClaim(wikiId, a, rev);
    HolderHoldsClaim(wikiId, b, rev);
  }

  /** In particular, once both saw a resolution, exactly when the last winners agree. */
  lemma ResolvedAgreement(wikiId: string, a: seq<Message>, b: seq<Message>, rev: u64)
    requires LastWinner(wikiId, a, rev).Some? && LastWinner(wikiId, b, rev).Some?
    ensures Claimant(wikiId, a, rev) == Claimant(wikiId, b, rev)
       <==> LastWinner(wikiId, a, rev) == LastWinner(wikiId, b, rev)
  {
    AgreementExactly(wikiId, a, b, rev);
  }

  lemma {:induction false} SelectSplits(wikiId: string, a: seq<Message>, b: seq<Message>, t: Topic)
    ensures Select(wikiId, a + b, t) == Select(wikiId, a, t) + Select(wikiId, b, t)
  {
    if b == [] {
      assert a + b == a;
    } else {
      var n := |b| - 1;
      SelectSplits(wikiId, a, b[..n], t);
      SelectGrows(wikiId, a + b[..n], b[n], t);
      assert a + b[..n] + [b[n]] == a + b;
    }
  }

  /** After a resolution, no later traffic short of another resolution moves the claim. */
  lemma ResolutionIsFinal(wikiId: string, log: seq<Message>, later: seq<Message>, rev: u64)
    requires LastWinner(wikiId, log, rev).Some?
    requires Select(wikiId, later, ResolutionsOf(rev)) == []
    ensures Claimant(wikiId, log + later, rev) == Claimant(wikiId, log, rev)
  {
    SelectSplits(wikiId, log, later, ResolutionsOf(rev));
    WinnerHoldsClaim(wikiId, log, rev);
    WinnerHoldsClaim(wikiId, log + later, rev);
  }

  /** One replica's part in a race: it folded its own claim, then the other's, and no claim later. */
  ghost predicate HeardLast(wikiId: string, log: seq<Message>, rev: u64, own: string, other: string)
  {
    exists before, between, after ::
      && log == before + [ClaimMsg(EditClaim(wikiId, rev, own))] + between
                + [ClaimMsg(EditClaim(wikiId, rev, other))] + after
      && Select(wikiId, after, ClaimsOf(rev)) == []
  }

  lemma HeardLastHolds(wikiId: string, log: seq<Message>, rev: u64, own: string, other: string)
    requires HeardLast(wikiId, log, rev, own, other) && LastWinner(wikiId, log, rev) == None
    ensures Claimant(wikiId, log, rev) == Some(EditClaim(wikiId, rev, other))
  {
    hide Select, Replay;
    var before, between, after :|
      && log == before + [ClaimMsg(EditClaim(wikiId, rev, own))] + between
                + [ClaimMsg(EditClaim(wikiId, rev, other))] + after
      && Select(wikiId, after, ClaimsOf(rev)) == [];
    var m := ClaimMsg(EditClaim(wikiId, rev, other));
    var early := before + [ClaimMsg(EditClaim(wikiId, rev, own))] + between;
    SelectGrows(wikiId, early, m, ClaimsOf(rev));
    SelectSplits(wikiId, early + [m], after, ClaimsOf(rev));
    HolderHoldsClaim(wikiId, log, rev);
  }

  /** Before any resolution a race leaves the two optimistic replicas in disagreement: each folded its own
      claim when sending it and the other's on hearing it, so each ends with the other's. */
  lemma OptimisticReplicasDisagree(
    wikiId: string, a: seq<Message>, b: seq<Message>, rev: u64, alice: string, bob: string)
    requires alice != bob && LastWinner(wikiId, a, rev) == LastWinner(wikiId, b, rev) == None
    requires HeardLast(wikiId, a, rev, alice, bob) && HeardLast(wikiId, b, rev, bob, alice)
    ensures Claimant(wikiId, a, rev) == Some(EditClaim(wikiId, rev, bob))
    ensures Claimant(wikiId, b, rev) == Some(EditClaim(wikiId, rev, alice))
  {
    HeardLastHolds(wikiId, a, rev, alice, bob);
    HeardLastHolds(wikiId, b, rev, bob, alice);
    hide *;
  }

  lemma OneResolution(wikiId: string, before: seq<Message>, verdict: Message, after: seq<Message>, rev: u64)
    requires Concerns(wikiId, verdict, ResolutionsOf(rev)) && Select(wikiId, after, ResolutionsOf(rev)) == []
    ensures LastWinner(wikiId, before + [verdict] + after, rev) == Some(verdict.resolution.winningActor)
  {
    SelectGrows(wikiId, before, verdict, ResolutionsOf(rev));
    SelectSplits(wikiId, before + [verdict], after, ResolutionsOf(rev));
  }

  /** One resolution, at whatever point of its log each replica hears it, heals any such race. */
  lemma OneResolutionHeals(wikiId: string, beforeA: seq<Message>, afterA: seq<Message>,
                           beforeB: seq<Message>, afterB: seq<Message>, verdict: Message, rev: u64)
    requires Concerns(wikiId, verdict, ResolutionsOf(rev))
    requires Select(wikiId, afterA, ResolutionsOf(rev)) == Select(wikiId, afterB, ResolutionsOf(rev)) == []
    ensures Claimant(wikiId, beforeA + [verdict] + afterA, rev) == Claimant(wikiId, beforeB + [verdict] + afterB, rev)
         == Some(EditClaim(wikiId, rev, verdict.resolution.winningActor))
  {
    hide Select, Replay, Claimant, LastWinner;
    OneResolution(wikiId, beforeA, verdict, afterA, rev);
    OneResolution(wikiId, beforeB, verdict, afterB, rev);
    WinnerHoldsClaim(wikiId, beforeA + [verdict] + afterA, rev);
    WinnerHoldsClaim(wikiId, beforeB + [verdict] + afterB, rev);
  }

  // ---------------------------------------------------------------------------
  // FIFO broadcast: each replica sees every sender's messages in sending order.

  datatype Delivery = Delivery(sender: nat, message: Message)

  function Payloads(log: seq<Delivery>): seq<Message>
  {
    if log == [] then [] else Payloads(log[..|log| - 1]) + [log[|log| - 1].message]
  }

  function FromSender(log: seq<Delivery>, sender: nat): seq<Message>
  {
    if log == [] then []
    else
      var before, last := FromSender(log[..|log| - 1], sender), log[|log| - 1];
      if last.sender == sender then before + [last.message] else before
  }

  lemma {:induction false} SingleWriterTopic(wikiId: string, log: seq<Delivery>, sender: nat, t: Topic)
    requires forall d :: d in log && Concerns(wikiId, d.message, t) ==> d.sender == sender
    ensures Select(wikiId, Payloads(log), t) == Select(wikiId, FromSender(log, sender), t)
  {
    if log != [] {
      var n := |log| - 1;
      SingleWriterTopic(wikiId, log[..n], sender, t);
      SelectGrows(wikiId, Payloads(log[..n]), log[n].message, t);
      SelectGrows(wikiId, FromSender(log[..n], sender), log[n].message, t);
      assert log[n] in log;
    }
  }

  /** When operators report only their own presence and each sender's messages arrive in order, all
      replicas that received the same streams show the same presence, however the streams interleave. */
  lemma PresenceConverges(wikiId: string, a: seq<Delivery>, b: seq<Delivery>, senderOf: string -> nat)
    requires forall d :: (d in a || d in b) && d.message.PresenceMsg? ==>
        d.sender == senderOf(d.message.heartbeat.actor)
    requires forall s: nat :: FromSender(a, s) == FromSender(b, s)
    ensures Replay(wikiId, Payloads(a)).presence == Replay(wikiId, Payloads(b)).presence
  {
    ReplayMatchesLog(wikiId, Payloads(a));
    ReplayMatchesLog(wikiId, Payloads(b));
    var x, y := Replay(wikiId, Payloads(a)), Replay(wikiId, Payloads(b));
    forall actor ensures Get(x.presence, actor) == Get(y.presence, actor) {
      assert MatchesFor(x, wikiId, Payloads(a), actor) && MatchesFor(y, wikiId, Payloads(b), actor);
      SingleWriterTopic(wikiId, a, senderOf(actor), HeartbeatsOf(actor));
      SingleWriterTopic(wikiId, b, senderOf(actor), HeartbeatsOf(actor));
    }
    SameLookups(x.presence, y.presence);
  }

  // ---------------------------------------------------------------------------
  // Saturating totals and message order.

  /** What is added up: the deltas themselves, their increases or their decreases. */
  datatype Part = Whole | Up | Down

  function Share(part: Part, d: int): int
  {
    match part
    case Whole => d
    case Up => if d > 0 then d else 0
    case Down => if d < 0 then -d else 0
  }

  /** The exact total, without saturation. */
  function Total(part: Part, ds: seq<i32>): int
  {
    if ds == [] then 0 else Total(part, ds[..|ds| - 1]) + Share(part, ds[|ds| - 1])
  }

  lemma {:induction false} PartsAddUp(ds: seq<i32>)
    ensures Total(Up, ds) >= 0 && Total(Down, ds) >= 0
    ensures Total(Whole, ds) == Total(Up, ds) - Total(Down, ds)
  {
    if ds != [] {
      PartsAddUp(ds[..|ds| - 1]);
    }
  }

  function Without(ds: seq<i32>, k: nat): (r: seq<i32>)
    requires k < |ds|
    ensures multiset(ds) == multiset(r) + multiset{ds[k]}
  {
    assert ds == ds[..k] + [ds[k]] + ds[k + 1..];
    ds[..k] + ds[k + 1..]
  }

  lemma WithoutLast(ds: seq<i32>, k: nat)
    requires k < |ds|
    ensures var n := |ds| - 1;
            if k == n then Without(ds, k) == ds[..n] else Without(ds, k) == Without(ds[..n], k) + [ds[n]]
  {
  }

  lemma TotalGrows(part: Part, ds: seq<i32>, d: i32)
    ensures Total(part, ds + [d]) == Total(part, ds) + Share(part, d)
  {
    assert (ds + [d])[..|ds|] == ds;
  }

  lemma {:induction false} TotalRemove(part: Part, ds: seq<i32>, k: nat)
    requires k < |ds|
    ensures Total(part, ds) == Share(part, ds[k]) + Total(part, Without(ds, k))
  {
    var n := |ds| - 1;
    WithoutLast(ds, k);
    assert ds == ds[..n] + [ds[n]];
    TotalGrows(part, ds[..n], ds[n]);
    hide Without, Total, Share;
    if k < n {
      TotalRemove(part, ds[..n], k);
      TotalGrows(part, Without(ds[..n], k), ds[n]);
    }
  }

  lemma {:induction false} TotalIgnoresOrder(part: Part, a: seq<i32>, b: seq<i32>)
    requires multiset(a) == multiset(b)
    ensures Total(part, a) == Total(part, b)
    decreases |a|
  {
    hide Share, Without, Total;
    if a == [] {
      assert |b| == |multiset(b)| == 0;
    } else {
      var n := |a| - 1;
      assert a == a[..n] + [a[n]];
      TotalGrows(part, a[..n], a[n]);
      assert a[n] in multiset(b);
      var k :| 0 <= k < |b| && b[k] == a[n];
      TotalRemove(part, b, k);
      assert multiset(a) == multiset(a[..n]) + multiset{a[n]};
      assert multiset(a[..n]) == multiset(a) - multiset{a[n]};
      assert multiset(Without(b, k)) == multiset(b) - multiset{b[k]};
      TotalIgnoresOrder(part, a[..n], Without(b, k));
    }
  }

  lemma LastDelta(a: seq<i32>, d: i32)
    requires a != []
    ensures SaturatingTotal(a + [d]) == SatAddI32(SaturatingTotal(a), d)
  {
    assert (a + [d])[..|a|] == a;
  }

  /** Appending deltas of one sign adds their exact total and clamps once. */
  lemma {:induction false} OneSignTail(a: seq<i32>, b: seq<i32>)
    requires a != [] && (Total(Up, b) == 0 || Total(Down, b) == 0)
    ensures SaturatingTotal(a + b) == Clamp(I32_MIN, I32_MAX, SaturatingTotal(a) + Total(Whole, b))
  {
    if b == [] {
      assert a + b == a;
    } else {
      var n := |b| - 1;
      assert a + b == a + b[..n] + [b[n]];
      PartsAddUp(b[..n]);
      OneSignTail(a, b[..n]);
      LastDelta(a + b[..n], b[n]);
    }
  }

  lemma OneDelta(d: i32)
    ensures SaturatingTotal([d]) == d && forall part :: Total(part, [d]) == Share(part, d)
  {
    assert [d][..0] == [];
  }

  /** Deltas of one sign add up to the clamped exact total. */
  lemma OneSignTotal(ds: seq<i32>)
    requires ds != [] && (Total(Up, ds) == 0 || Total(Down, ds) == 0)
    ensures SaturatingTotal(ds) == Clamp(I32_MIN, I32_MAX, Total(Whole, ds))
  {
    hide SaturatingTotal, Total;
    OneDelta(0);
    ZeroFirst(ds);
    OneSignTail([0], ds);
  }

  lemma {:induction false} ZeroFirst(ds: seq<i32>)
    requires ds != []
    ensures SaturatingTotal([0] + ds) == SaturatingTotal(ds)
  {
    var n := |ds| - 1;
    assert [0] + ds == [0] + ds[..n] + [ds[n]];
    LastDelta([0] + ds[..n], ds[n]);
    if n == 0 {
      assert [0] + ds[..n] == [0];
      OneDelta(0);
    } else {
      ZeroFirst(ds[..n]);
    }
  }

  /** When neither the increases nor the decreases alone leave the range, nothing saturates in any order. */
  lemma {:induction false} NothingSaturates(ds: seq<i32>)
    requires ds != [] && Total(Up, ds) <= I32_MAX && -Total(Down, ds) >= I32_MIN
    ensures SaturatingTotal(ds) == Total(Whole, ds)
  {
    PartsAddUp(ds);
    if |ds| == 1 {
      assert ds == [ds[0]];
      OneDelta(ds[0]);
    } else {
      NothingSaturates(ds[..|ds| - 1]);
    }
  }

  /** The increases, and everything else, each in order. */
  function Increases(ds: seq<i32>): seq<i32>
  {
    if ds == [] then []
    else
      var before, d := Increases(ds[..|ds| - 1]), ds[|ds| - 1];
      if d > 0 then before + [d] else before
  }

  function Others(ds: seq<i32>): seq<i32>
  {
    if ds == [] then []
    else
      var before, d := Others(ds[..|ds| - 1]), ds[|ds| - 1];
      if d > 0 then before else before + [d]
  }

  lemma {:induction false} SeparatedContents(ds: seq<i32>)
    ensures multiset(Increases(ds)) + multiset(Others(ds)) == multiset(ds)
  {
    if ds != [] {
      SeparatedContents(ds[..|ds| - 1]);
      assert ds == ds[..|ds| - 1] + [ds[|ds| - 1]];
    }
  }

  lemma {:induction false} SeparatedTotals(ds: seq<i32>)
    ensures Total(Up, Increases(ds)) == Total(Up, ds) && Total(Down, Increases(ds)) == 0
    ensures Total(Down, Others(ds)) == Total(Down, ds) && Total(Up, Others(ds)) == 0
  {
    if ds != [] {
      var n := |ds| - 1;
      SeparatedTotals(ds[..n]);
      var kept := if ds[n] > 0 then Increases(ds[..n]) else Others(ds[..n]);
      TotalGrows(Up, kept, ds[n]);
      TotalGrows(Down, kept, ds[n]);
    }
  }

  /** All arrival orders of these deltas show the same number. */
  ghost predicate SameInEveryOrder(ds: seq<i32>)
  {
    forall a: seq<i32>, b: seq<i32> ::
      a != [] && b != [] && multiset(a) == multiset(ds) && multiset(b) == multiset(ds) ==>
        SaturatingTotal(a) == SaturatingTotal(b)
  }

  /** One sign only, or no range left by the increases alone or the decreases alone. */
  predicate OrderDoesNotMatter(ds: seq<i32>)
  {
    Total(Up, ds) == 0 || Total(Down, ds) == 0 || (Total(Up, ds) <= I32_MAX && -Total(Down, ds) >= I32_MIN)
  }

  lemma TotalByParts(a: seq<i32>, ds: seq<i32>)
    requires a != [] && multiset(a) == multiset(ds) && OrderDoesNotMatter(ds)
    ensures SaturatingTotal(a) == Clamp(I32_MIN, I32_MAX, Total(Whole, ds))
  {
    hide SaturatingTotal, Total;
    TotalIgnoresOrder(Whole, a, ds);
    TotalIgnoresOrder(Up, a, ds);
    TotalIgnoresOrder(Down, a, ds);
    PartsAddUp(a);
    if Total(Up, a) == 0 || Total(Down, a) == 0 {
      OneSignTotal(a);
    } else {
      NothingSaturates(a);
    }
  }

  lemma ClampedTwiceDiffers(up: int, down: int)
    requires up > 0 && down > 0 && (up > I32_MAX || -down < I32_MIN)
    ensures var upFirst, downFirst := Clamp(I32_MIN, I32_MAX, up), Clamp(I32_MIN, I32_MAX, -down);
            Clamp(I32_MIN, I32_MAX, upFirst - down) != Clamp(I32_MIN, I32_MAX, downFirst + up)
  {
  }

  lemma SeparatedOrders(ds: seq<i32>)
    ensures var u, v := Increases(ds), Others(ds);
            multiset(u + v) == multiset(ds) && multiset(v + u) == multiset(ds)
  {
    hide *;
    SeparatedContents(ds);
  }

  lemma TotalOfNothing(part: Part)
    ensures Total(part, []) == 0
  {
  }

  /** Increases first and decreases first differ as soon as one side overshoots. */
  lemma TwoOrdersDiffer(ds: seq<i32>)
    requires ds != [] && !OrderDoesNotMatter(ds)
    ensures var u, v := Increases(ds), Others(ds);
            u != [] && v != [] && SaturatingTotal(u + v) != SaturatingTotal(v + u)
  {
    hide SaturatingTotal, Total, Increases, Others, Clamp;
    var u, v := Increases(ds), Others(ds);
    SeparatedTotals(ds);
    PartsAddUp(ds);
    PartsAddUp(u);
    PartsAddUp(v);
    TotalOfNothing(Up);
    TotalOfNothing(Down);
    OneSignTotal(u);
    OneSignTotal(v);
    OneSignTail(u, v);
    OneSignTail(v, u);
    ClampedTwiceDiffers(Total(Up, ds), Total(Down, ds));
  }

  /** Saturation makes the arrival order of deltas visible exactly when increases and decreases meet and one
      of the two, added up alone, leaves the range. */
  lemma OrderIrrelevantIff(ds: seq<i32>)
    requires ds != []
    ensures SameInEveryOrder(ds) <==> OrderDoesNotMatter(ds)
  {
    hide SaturatingTotal, OrderDoesNotMatter;
    if OrderDoesNotMatter(ds) {
      forall a: seq<i32>, b: seq<i32> | a != [] && b != [] && multiset(a) == multiset(ds) && multiset(b) == multiset(ds)
        ensures SaturatingTotal(a) == SaturatingTotal(b)
      {
        TotalByParts(a, ds);
        TotalByParts(b, ds);
      }
    } else {
      TwoOrdersDiffer(ds);
      SeparatedOrders(ds);
    }
  }

  function DeltaAmounts(wikiId: string, log: seq<Message>, rev: u64): seq<i32>
  {
    Amounts(Select(wikiId, log, DeltasOf(rev)))
  }

  /** So replicas that received the same deltas of a revision in different orders show the same score,
      whenever order does not matter for those deltas. */
  lemma DeltasConverge(wikiId: string, a: seq<Message>, b: seq<Message>, rev: u64)
    requires DeltaAmounts(wikiId, a, rev) != []
    requires multiset(DeltaAmounts(wikiId, a, rev)) == multiset(DeltaAmounts(wikiId, b, rev))
    requires OrderDoesNotMatter(DeltaAmounts(wikiId, a, rev))
    ensures rev in Replay(wikiId, a).deltas && rev in Replay(wikiId, b).deltas
    ensures Replay(wikiId, a).deltas[rev].delta == Replay(wikiId, b).deltas[rev].delta
  {
    hide SaturatingTotal, OrderDoesNotMatter, Total;
    var x, y := DeltaAmounts(wikiId, a, rev), DeltaAmounts(wikiId, b, rev);
    assert |x| == |multiset(x)| == |multiset(y)| == |y|;
    TotalByParts(x, x);
    TotalByParts(y, x);
    ReplayMatchesLog(wikiId, a);
    ReplayMatchesLog(wikiId, b);
    assert MatchesAt(Replay(wikiId, a), wikiId, a, rev) && MatchesAt(Replay(wikiId, b), wikiId, b, rev);
  }
}
