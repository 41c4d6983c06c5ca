/** Coordination room messages and the reducer that folds them, as a function on
    values (`Step`, `Replay`) and as a declarative query of the message log. */
module Coordination {
  import opened Machine

  datatype Action = Rollback | Revert | Warn | Report | MarkPatrolled

  datatype EditClaim = EditClaim(wikiId: string, revId: u64, actor: string)
  datatype RaceResolution = RaceResolution(wikiId: string, revId: u64, winningActor: string)
  datatype Heartbeat = Heartbeat(wikiId: string, actor: string, activeEditCount: u32)
  datatype Flag = Flag(wikiId: string, revId: u64, score: i32, reason: string)
  datatype ScoreDelta = ScoreDelta(wikiId: string, revId: u64, delta: i32, reason: string)
  datatype ActionBroadcast = ActionBroadcast(wikiId: string, revId: u64, action: Action, actor: string)

  /** The review signal carries a session summary that the reducer never reads. */
  datatype Message =
    | ActionMsg(broadcast: ActionBroadcast)
    | ClaimMsg(claim: EditClaim)
    | DeltaMsg(delta: ScoreDelta)
    | PresenceMsg(heartbeat: Heartbeat)
    | FlagMsg(flag: Flag)
    | ResolutionMsg(resolution: RaceResolution)
    | ReviewMsg(reviewWikiId: string)
  {
    function WikiId(): string
    {
      match this
      case ActionMsg(b) => b.wikiId
      case ClaimMsg(c) => c.wikiId
      case DeltaMsg(d) => d.wikiId
      case PresenceMsg(h) => h.wikiId
      case FlagMsg(f) => f.wikiId
      case ResolutionMsg(r) => r.wikiId
      case ReviewMsg(w) => w
    }
  }

  const RECENT_ACTION_WINDOW: nat := 25

  datatype Room = Room(
    wikiId: string,
    claims: map<u64, EditClaim>,
    presence: map<string, Heartbeat>,
    flags: map<u64, Flag>,
    deltas: map<u64, ScoreDelta>,
    resolutions: map<u64, RaceResolution>,
    recent: seq<ActionBroadcast>)

  function NewRoom(wikiId: string): Room
  {
    Room(wikiId, map[], map[], map[], map[], map[], [])
  }

  /** One call of the reducer. */
  function Step(room: Room, m: Message): Room
  {
    if m.WikiId() != room.wikiId then room
    else
      match m
      case ClaimMsg(c) =>
        if c.revId in room.resolutions && room.resolutions[c.revId].winningActor != c.actor then room
        else room.(claims := room.claims[c.revId := c])
      case PresenceMsg(h) =>
        if h.activeEditCount == 0 then room.(presence := room.presence - {h.actor})
        else room.(presence := room.presence[h.actor := h])
      case FlagMsg(f) => room.(flags := room.flags[f.revId := f])
      case DeltaMsg(d) => room.(deltas := room.deltas[d.revId := Merged(Get(room.deltas, d.revId), d)])
      case ResolutionMsg(r) =>
        room.(claims := room.claims[r.revId := EditClaim(r.wikiId, r.revId, r.winningActor)],
              resolutions := room.resolutions[r.revId := r])
      case ActionMsg(b) => room.(recent := LastN(room.recent + [b], RECENT_ACTION_WINDOW))
      case ReviewMsg(_) => room
  }

  const REASON_SEPARATOR: string := " | "

  function Merged(current: Option<ScoreDelta>, d: ScoreDelta): ScoreDelta
  {
    match current
    case None => d
    case Some(c) => c.(delta := SatAddI32(c.delta, d.delta), reason := c.reason + REASON_SEPARATOR + d.reason)
  }

  function LastN<T>(s: seq<T>, n: nat): seq<T>
  {
    if |s| <= n then s else s[|s| - n..]
  }

  /** The state after feeding `log`, oldest message first, to a fresh room. */
  function Replay(wikiId: string, log: seq<Message>): Room
  {
    if log == [] then NewRoom(wikiId) else Step(Replay(wikiId, log[..|log| - 1]), log[|log| - 1])
  }

  function ReplayFrom(room: Room, log: seq<Message>): Room
  {
    if log == [] then room else Step(ReplayFrom(room, log[..|log| - 1]), log[|log| - 1])
  }

  lemma {:induction false} ReplayAppends(wikiId: string, first: seq<Message>, second: seq<Message>)
    ensures Replay(wikiId, first + second) == ReplayFrom(Replay(wikiId, first), second)
  {
    if second == [] {
      assert first + second == first;
    } else {
      var n := |second| - 1;
      ReplayAppends(wikiId, first, second[..n]);
      assert (first + second)[..|first + second| - 1] == first + second[..n];
    }
  }

  // ---------------------------------------------------------------------------
  // The declarative reading: what the state says, as queries of the log.

  datatype Topic =
    | ResolutionsOf(rev: u64)
    | ClaimsOf(rev: u64)
    | HeartbeatsOf(actor: string)
    | FlagsOf(rev: u64)
    | DeltasOf(rev: u64)
    | Actions

  predicate Concerns(wikiId: string, m: Message, t: Topic)
  {
    match t
    case ResolutionsOf(r) => m.ResolutionMsg? && m.resolution.wikiId == wikiId && m.resolution.revId == r
    case ClaimsOf(r) => m.ClaimMsg? && m.claim.wikiId == wikiId && m.claim.revId == r
    case HeartbeatsOf(a) => m.PresenceMsg? && m.heartbeat.wikiId == wikiId && m.heartbeat.actor == a
    case FlagsOf(r) => m.FlagMsg? && m.flag.wikiId == wikiId && m.flag.revId == r
    case DeltasOf(r) => m.DeltaMsg? && m.delta.wikiId == wikiId && m.delta.revId == r
    case Actions => m.ActionMsg? && m.broadcast.wikiId == wikiId
  }

  /** The messages of one topic, in log order. */
  function Select(wikiId: string, log: seq<Message>, t: Topic): (r: seq<Message>)
    ensures AllConcern(wikiId, r, t)
  {
    if log == [] then []
    else
      var n := |log| - 1;
      Select(wikiId, log[..n], t) + if Concerns(wikiId, log[n], t) then [log[n]] else []
  }

  function Last(ms: seq<Message>): Message
    requires ms != []
  {
    ms[|ms| - 1]
  }

  ghost predicate AllConcern(wikiId: string, ms: seq<Message>, t: Topic)
  {
    forall i :: 0 <= i < |ms| ==> Concerns(wikiId, ms[i], t)
  }

  /** Who holds revision `rev`: the last resolution's winner if there is one, else the last claimant. */
  function ClaimFrom(wikiId: string, rev: u64, rs: seq<Message>, cs: seq<Message>): Option<EditClaim>
    requires AllConcern(wikiId, rs, ResolutionsOf(rev)) && AllConcern(wikiId, cs, ClaimsOf(rev))
  {
    if rs != [] then Some(EditClaim(wikiId, rev, Last(rs).resolution.winningActor))
    else if cs != [] then Some(Last(cs).claim)
    else None
  }

  function ResolutionFrom(ghost wikiId: string, ghost rev: u64, rs: seq<Message>): Option<RaceResolution>
    requires AllConcern(wikiId, rs, ResolutionsOf(rev))
  {
    if rs == [] then None else Some(Last(rs).resolution)
  }

  function PresenceFrom(ghost wikiId: string, ghost actor: string, hs: seq<Message>): Option<Heartbeat>
    requires AllConcern(wikiId, hs, HeartbeatsOf(actor))
  {
    if hs == [] || Last(hs).heartbeat.activeEditCount == 0 then None else Some(Last(hs).heartbeat)
  }

  function FlagFrom(ghost wikiId: string, ghost rev: u64, fs: seq<Message>): Option<Flag>
    requires AllConcern(wikiId, fs, FlagsOf(rev))
  {
    if fs == [] then None else Some(Last(fs).flag)
  }

  /** Saturating left-to-right total of a non-empty list of deltas. */
  function SaturatingTotal(ds: seq<i32>): i32
    requires ds != []
  {
    if |ds| == 1 then ds[0] else SatAddI32(SaturatingTotal(ds[..|ds| - 1]), ds[|ds| - 1])
  }

  function JoinReasons(rs: seq<string>): string
    requires rs != []
  {
    if |rs| == 1 then rs[0] else JoinReasons(rs[..|rs| - 1]) + " | " + rs[|rs| - 1]
  }

  function DeltaFrom(wikiId: string, rev: u64, ms: seq<Message>): Option<ScoreDelta>
    requires AllConcern(wikiId, ms, DeltasOf(rev))
  {
    if ms == [] then None
    else Some(ScoreDelta(wikiId, rev, SaturatingTotal(Amounts(ms)), JoinReasons(Reasons(ms))))
  }

  function Amounts(ms: seq<Message>): (r: seq<i32>)
    requires forall i :: 0 <= i < |ms| ==> ms[i].DeltaMsg?
    ensures |r| == |ms|
    ensures forall i :: 0 <= i < |ms| ==> r[i] == ms[i].delta.delta
  {
    if ms == [] then [] else Amounts(ms[..|ms| - 1]) + [Last(ms).delta.delta]
  }

  function Reasons(ms: seq<Message>): (r: seq<string>)
    requires forall i :: 0 <= i < |ms| ==> ms[i].DeltaMsg?
    ensures |r| == |ms|
    ensures forall i :: 0 <= i < |ms| ==> r[i] == ms[i].delta.reason
  {
    if ms == [] then [] else Reasons(ms[..|ms| - 1]) + [Last(ms).delta.reason]
  }

  function Broadcasts(ms: seq<Message>): (r: seq<ActionBroadcast>)
    requires forall i :: 0 <= i < |ms| ==> ms[i].ActionMsg?
    ensures |r| == |ms|
    ensures forall i :: 0 <= i < |ms| ==> r[i] == ms[i].broadcast
  {
    if ms == [] then [] else Broadcasts(ms[..|ms| - 1]) + [Last(ms).broadcast]
  }

  function RecentFrom(ghost wikiId: string, ms: seq<Message>): seq<ActionBroadcast>
    requires AllConcern(wikiId, ms, Actions)
  {
    Broadcasts(ms)[if |ms| <= 25 then 0 else |ms| - 25..]
  }

  function DeclaredClaim(wikiId: string, log: seq<Message>, rev: u64): Option<EditClaim>
  {
    ClaimFrom(wikiId, rev, Select(wikiId, log, ResolutionsOf(rev)), Select(wikiId, log, ClaimsOf(rev)))
  }

  function DeclaredResolution(wikiId: string, log: seq<Message>, rev: u64): Option<RaceResolution>
  {
    ResolutionFrom(wikiId, rev, Select(wikiId, log, ResolutionsOf(rev)))
  }

  function DeclaredPresence(wikiId: string, log: seq<Message>, actor: string): Option<Heartbeat>
  {
    PresenceFrom(wikiId, actor, Select(wikiId, log, HeartbeatsOf(actor)))
  }

  function DeclaredFlag(wikiId: string, log: seq<Message>, rev: u64): Option<Flag>
  {
    FlagFrom(wikiId, rev, Select(wikiId, log, FlagsOf(rev)))
  }

  function DeclaredDelta(wikiId: string, log: seq<Message>, rev: u64): Option<ScoreDelta>
  {
    DeltaFrom(wikiId, rev, Select(wikiId, log, DeltasOf(rev)))
  }

  /** Each lookup of the room is the declared one for revision `rev`. */
  ghost predicate MatchesAt(room: Room, wikiId: string, log: seq<Message>, rev: u64)
  {
    && Get(room.claims, rev) == DeclaredClaim(wikiId, log, rev)
    && Get(room.resolutions, rev) == DeclaredResolution(wikiId, log, rev)
    && Get(room.flags, rev) == DeclaredFlag(wikiId, log, rev)
    && Get(room.deltas, rev) == DeclaredDelta(wikiId, log, rev)
  }

  ghost predicate MatchesFor(room: Room, wikiId: string, log: seq<Message>, actor: string)
  {
    Get(room.presence, actor) == DeclaredPresence(wikiId, log, actor)
  }

  ghost predicate MatchesLog(room: Room, wikiId: string, log: seq<Message>)
  {
    && room.wikiId == wikiId
    && (forall rev: u64 :: MatchesAt(room, wikiId, log, rev))
    && (forall actor :: MatchesFor(room, wikiId, log, actor))
    && room.recent == RecentFrom(wikiId, Select(wikiId, log, Actions))
  }

  /** `ms` after `m` arrives. */
  function Grown(wikiId: string, ms: seq<Message>, m: Message, t: Topic): (r: seq<Message>)
  {
    if Concerns(wikiId, m, t) then ms + [m] else ms
  }

  lemma SelectGrows(wikiId: string, log: seq<Message>, m: Message, t: Topic)
    ensures Select(wikiId, log + [m], t) == Grown(wikiId, Select(wikiId, log, t), m, t)
  {
    assert (log + [m])[..|log|] == log;
  }

  lemma ClaimStep(room: Room, m: Message, rev: u64, rs: seq<Message>, cs: seq<Message>)
    requires AllConcern(room.wikiId, rs, ResolutionsOf(rev)) && AllConcern(room.wikiId, cs, ClaimsOf(rev))
    requires Get(room.claims, rev) == ClaimFrom(room.wikiId, rev, rs, cs)
    requires Get(room.resolutions, rev) == ResolutionFrom(room.wikiId, rev, rs)
    ensures var rs', cs' := Grown(room.wikiId, rs, m, ResolutionsOf(rev)), Grown(room.wikiId, cs, m, ClaimsOf(rev));
            && Get(Step(room, m).claims, rev) == ClaimFrom(room.wikiId, rev, rs', cs')
            && Get(Step(room, m).resolutions, rev) == ResolutionFrom(room.wikiId, rev, rs')
  {
  }

  lemma PresenceStep(room: Room, m: Message, actor: string, hs: seq<Message>)
    requires AllConcern(room.wikiId, hs, HeartbeatsOf(actor))
    requires Get(room.presence, actor) == PresenceFrom(room.wikiId, actor, hs)
    ensures Get(Step(room, m).presence, actor)
         == PresenceFrom(room.wikiId, actor, Grown(room.wikiId, hs, m, HeartbeatsOf(actor)))
  {
  }

  lemma FlagStep(room: Room, m: Message, rev: u64, fs: seq<Message>)
    requires AllConcern(room.wikiId, fs, FlagsOf(rev))
    requires Get(room.flags, rev) == FlagFrom(room.wikiId, rev, fs)
    ensures Get(Step(room, m).flags, rev) == FlagFrom(room.wikiId, rev, Grown(room.wikiId, fs, m, FlagsOf(rev)))
  {
  }

  lemma DeltaStep(room: Room, m: Message, rev: u64, ds: seq<Message>)
    requires AllConcern(room.wikiId, ds, DeltasOf(rev))
    requires Get(room.deltas, rev) == DeltaFrom(room.wikiId, rev, ds)
    ensures Get(Step(room, m).deltas, rev) == DeltaFrom(room.wikiId, rev, Grown(room.wikiId, ds, m, DeltasOf(rev)))
  {
    if Concerns(room.wikiId, m, DeltasOf(rev)) {
      assert (ds + [m])[..|ds|] == ds;
    }
  }

  lemma RecentStep(room: Room, m: Message, bs: seq<Message>)
    requires AllConcern(room.wikiId, bs, Actions)
    requires room.recent == RecentFrom(room.wikiId, bs)
    ensures Step(room, m).recent == RecentFrom(room.wikiId, Grown(room.wikiId, bs, m, Actions))
  {
    if Concerns(room.wikiId, m, Actions) {
      assert (bs + [m])[..|bs|] == bs;
    }
  }

  lemma StepMatchesAt(room: Room, wikiId: string, log: seq<Message>, m: Message, rev: u64)
    requires room.wikiId == wikiId && MatchesAt(room, wikiId, log, rev)
    ensures MatchesAt(Step(room, m), wikiId, log + [m], rev)
  {
    SelectGrows(wikiId, log, m, ResolutionsOf(rev));
    SelectGrows(wikiId, log, m, ClaimsOf(rev));
    SelectGrows(wikiId, log, m, FlagsOf(rev));
    SelectGrows(wikiId, log, m, DeltasOf(rev));
    ClaimStep(room, m, rev, Select(wikiId, log, ResolutionsOf(rev)), Select(wikiId, log, ClaimsOf(rev)));
    FlagStep(room, m, rev, Select(wikiId, log, FlagsOf(rev)));
    DeltaStep(room, m, rev, Select(wikiId, log, DeltasOf(rev)));
  }

  lemma StepMatches(room: Room, wikiId: string, log: seq<Message>, m: Message)
    requires MatchesLog(room, wikiId, log)
    ensures MatchesLog(Step(room, m), wikiId, log + [m])
  {
    forall rev: u64 ensures MatchesAt(Step(room, m), wikiId, log + [m], rev) {
      StepMatchesAt(room, wikiId, log, m, rev);
    }
    forall actor ensures MatchesFor(Step(room, m), wikiId, log + [m], actor) {
      assert MatchesFor(room, wikiId, log, actor);
      SelectGrows(wikiId, log, m, HeartbeatsOf(actor));
      PresenceStep(room, m, actor, Select(wikiId, log, HeartbeatsOf(actor)));
    }
    SelectGrows(wikiId, log, m, Actions);
    RecentStep(room, m, Select(wikiId, log, Actions));
  }

  /** The reducer equals the declarative query of its log, for every log. */
  lemma {:induction false} ReplayMatchesLog(wikiId: string, log: seq<Message>)
    ensures MatchesLog(Replay(wikiId, log), wikiId, log)
  {
    if log != [] {
      var n := |log| - 1;
      ReplayMatchesLog(wikiId, log[..n]);
      StepMatches(Replay(wikiId, log[..n]), wikiId, log[..n], log[n]);
      assert log[..n] + [log[n]] == log;
    }
  }

  lemma NewestAction(wikiId: string, log: seq<Message>)
    requires log != [] && Concerns(wikiId, Last(log), Actions)
    ensures var actions := Select(wikiId, log, Actions);
            actions != [] && Last(actions) == Last(log)
  {
    hide Replay;
    SelectGrows(wikiId, log[..|log| - 1], Last(log), Actions);
    assert log[..|log| - 1] + [Last(log)] == log;
  }

  /** The window of recent actions: the newest 25 the log holds, or all of them, oldest first. An action just
      folded is the last one. */
  lemma RecentAreNewest(wikiId: string, log: seq<Message>)
    ensures var all, recent := Broadcasts(Select(wikiId, log, Actions)), Replay(wikiId, log).recent;
            && |recent| == Min(25, |all|) && recent == all[|all| - |recent|..]
            && (log != [] && Concerns(wikiId, Last(log), Actions) ==>
                recent != [] && recent[|recent| - 1] == Last(log).broadcast)
  {
    ReplayMatchesLog(wikiId, log);
    if log != [] && Concerns(wikiId, Last(log), Actions) {
      NewestAction(wikiId, log);
    }
    hide Replay, Select, Broadcasts, MatchesAt, MatchesFor, Concerns;
  }
}
