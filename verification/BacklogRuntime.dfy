/** The backlog runtime: page through recent changes by continuation token, checkpointing each token. */
module BacklogRuntime {
  import opened Machine
  import opened Text
  import opened Checkpoints
  import opened Ingestion

  datatype BacklogError = InvalidRequest | InvalidResponse | StorageFailed

  datatype Batch = Batch(events: seq<EditEvent>, nextContinue: Option<string>)

  /** A decoded response: its events and the raw continuation token. */
  datatype Page = Page(events: seq<EditEvent>, rccontinue: Option<string>)

  function NormalizeContinueToken(token: Option<string>): Result<Option<string>, BacklogError>
  {
    if token.Some? && Trim(token.value) == "" then Err(InvalidRequest) else Ok(token)
  }

  /** No token, or one that says something. */
  predicate Usable(token: Option<string>)
  {
    token.Some? ==> HasText(token.value)
  }

  lemma UsableIffNormal(token: Option<string>)
    ensures NormalizeContinueToken(token) == if Usable(token) then Ok(token) else Err(InvalidRequest)
  {
    if token.Some? {
      TrimIsEmptyIff(token.value);
    }
  }

  function NormalizeResponseContinue(token: Option<string>): Option<string>
  {
    if token.Some? && Trim(token.value) == "" then None else token
  }

  function BatchOf(page: Page): Batch
  {
    Batch(page.events, NormalizeResponseContinue(page.rccontinue))
  }

  /** The batch holds the page's events and its continuation token, if that says something. */
  predicate Answers(batch: Batch, page: Page)
  {
    && batch.events == page.events
    && (if page.rccontinue.Some? && HasText(page.rccontinue.value) then batch.nextContinue == page.rccontinue
        else batch.nextContinue == None)
  }

  lemma BatchExactly(batch: Batch, page: Page)
    ensures batch == BatchOf(page) <==> Answers(batch, page)
  {
    if page.rccontinue.Some? {
      TrimIsEmptyIff(page.rccontinue.value);
    }
  }

  /** Page `page` is followed by the page of `next`, or is the last. */
  predicate ContinuesWith(page: Page, next: Option<string>)
  {
    match next
    case Some(token) => HasText(token) && page.rccontinue == next
    case None => page.rccontinue.Some? ==> !HasText(page.rccontinue.value)
  }

  /** A server that answers each continuation token with a fixed page, when it answers. */
  class RecentChangesServer {
    const pages: map<Option<string>, Page>

    constructor (pages: map<Option<string>, Page>)
      ensures this.pages == pages
    {
      this.pages := pages;
    }

    method Execute(token: Option<string>) returns (r: Result<Page, BacklogError>)
      ensures r.Ok? ==> token in pages && r.value == pages[token]
    {
      var fails: bool := *;
      if fails || token !in pages {
        return Err(InvalidResponse);
      }
      return Ok(pages[token]);
    }
  }

  datatype Progress = Progress(
    stored: Option<Stored>, nextContinue: Option<string>, lastBatchSize: nat, totalEvents: u64, pollCount: u64)

  function Encode(token: Option<string>): Option<Stored>
  {
    match token
    case None => None
    case Some(t) => Some(Utf8(t))
  }

  function Applied(p: Progress, batch: Batch): Progress
  {
    Progress(Encode(batch.nextContinue), batch.nextContinue, |batch.events|,
             SatAddU64(p.totalEvents, |batch.events|), SatAddU64(p.pollCount, 1))
  }

  /** The token a stored checkpoint restores, when it does. */
  function Restored(stored: Option<Stored>): Result<Option<string>, BacklogError>
  {
    match stored
    case None => Ok(None)
    case Some(Utf8(text)) => NormalizeContinueToken(Some(text))
    case Some(NotUtf8) => Err(StorageFailed)
  }

  /** No checkpoint restores as none, a text as itself if it says something, and nothing else restores. */
  lemma RestoredExactly(stored: Option<Stored>, token: Option<string>)
    ensures Restored(stored) == Ok(token) <==> stored == Encode(token) && Usable(token)
  {
    match stored {
      case Some(Utf8(text)) => UsableIffNormal(Some(text));
      case _ =>
    }
  }

  class BacklogRuntime {
    const storage: CheckpointStore
    const limit: u16
    const checkpointKey: string
    var nextContinue: Option<string>
    var lastBatchSize: nat
    var totalEvents: u64
    var pollCount: u64

    ghost function View(): Progress
      reads this, storage
    {
      Progress(Get(storage.cells, checkpointKey), nextContinue, lastBatchSize, totalEvents, pollCount)
    }

    constructor (storage: CheckpointStore, limit: u16, checkpointKey: string)
      ensures this.storage == storage && this.limit == limit && this.checkpointKey == checkpointKey
      ensures View() == Progress(Get(storage.cells, checkpointKey), None, 0, 0, 0)
    {
      this.storage, this.limit, this.checkpointKey := storage, limit, checkpointKey;
      nextContinue, lastBatchSize, totalEvents, pollCount := None, 0, 0, 0;
    }

    method LoadCheckpoint() returns (r: Result<Option<string>, BacklogError>)
      ensures r.Ok? ==> r == Restored(View().stored)
    {
      var value := storage.Read(checkpointKey);
      match value {
        case Err(_) => return Err(StorageFailed);
        case Ok(stored) => return Restored(stored);
      }
    }

    method Initialize() returns (r: Result<(), BacklogError>)
      modifies this
      ensures r.Ok? ==> Restored(old(View()).stored).Ok?
                        && View() == old(View()).(nextContinue := Restored(old(View()).stored).value)
      ensures r.Err? ==> View() == old(View())
    {
      var loaded := LoadCheckpoint();
      if loaded.Err? {
        return Err(loaded.error);
      }
      nextContinue := loaded.value;
      return Ok(());
    }

    /** The continuation token of the next request, when the request can be built. */
    method BuildNextRequest() returns (r: Result<Option<string>, BacklogError>)
      ensures r.Ok? <==> limit > 0 && Usable(nextContinue)
      ensures r.Ok? ==> r.value == nextContinue
    {
      UsableIffNormal(nextContinue);
      if limit == 0 {
        return Err(InvalidRequest);
      }
      return NormalizeContinueToken(nextContinue);
    }

    /** Storage first, then every field at once. */
    method ApplyBatch(batch: Batch) returns (r: Result<(), BacklogError>)
      modifies this, storage
      ensures View() == if r.Ok? then Applied(old(View()), batch) else old(View())
    {
      var next := batch.nextContinue;
      if next.Some? {
        var written := storage.Write(checkpointKey, Utf8(next.value));
        if written.Err? {
          return Err(StorageFailed);
        }
      } else {
        var removed := storage.Remove(checkpointKey);
        if removed.Err? {
          return Err(StorageFailed);
        }
      }
      lastBatchSize := |batch.events|;
      totalEvents := SatAddU64(totalEvents, |batch.events|);
      pollCount := SatAddU64(pollCount, 1);
      nextContinue := next;
      return Ok(());
    }

    /** One page: on success it is the page of the current token and the token moves on; on any failure
        neither the runtime nor the store has changed. */
    method Poll(server: RecentChangesServer) returns (r: Result<Batch, BacklogError>)
      modifies this, storage
      ensures r.Ok? ==> Polls(server.pages, old(View()), View(), r.value)
      ensures r.Err? ==> View() == old(View())
    {
      var request := BuildNextRequest();
      if request.Err? {
        return Err(request.error);
      }
      var response := server.Execute(request.value);
      if response.Err? {
        return Err(response.error);
      }
      var batch := BatchOf(response.value);
      BatchExactly(batch, response.value);
      var applied := ApplyBatch(batch);
      if applied.Err? {
        return Err(applied.error);
      }
      return Ok(batch);
    }

    method ResetCheckpoint() returns (r: Result<(), BacklogError>)
      modifies this, storage
      ensures View() == if r.Ok? then old(View()).(stored := None, nextContinue := None) else old(View())
    {
      var removed := storage.Remove(checkpointKey);
      if removed.Err? {
        return Err(StorageFailed);
      }
      nextContinue := None;
      return Ok(());
    }
  }

  ghost predicate Polls(pages: map<Option<string>, Page>, p: Progress, p': Progress, batch: Batch)
  {
    Usable(p.nextContinue) && p.nextContinue in pages && Answers(batch, pages[p.nextContinue])
    && p' == Applied(p, batch)
  }

  // ---------------------------------------------------------------------------
  // Whole runs over a chain of pages.

  /** `chain` lists the tokens from the first page to the last: each page continues with the next token. */
  ghost predicate IsChain(pages: map<Option<string>, Page>, chain: seq<Option<string>>)
  {
    && chain != [] && chain[0] == None
    && (forall i :: 0 <= i < |chain| ==> chain[i] in pages)
    && (forall i :: 0 <= i < |chain| - 1 ==> LinksOn(pages, chain, i))
    && ContinuesWith(pages[chain[|chain| - 1]], None)
  }

  /** Page `i` continues with the token after it. */
  ghost predicate LinksOn(pages: map<Option<string>, Page>, chain: seq<Option<string>>, i: nat)
  {
    i + 1 < |chain| && chain[i] in pages
    && ContinuesWith(pages[chain[i]], chain[i + 1]) && chain[i + 1].Some?
  }

  /** `ready` tells whether the process may poll: it was initialized or reset, or it found nothing to restore.
      `returned` holds the batches the caller was given since the last reset, over all restarts; `own` those the
      current process returned. */
  datatype System = System(progress: Progress, ready: bool, returned: seq<Batch>, own: seq<Batch>)

  const START := System(Progress(None, None, 0, 0, 0), true, [], [])

  datatype Move =
    | Polled(batch: Batch)
    | CallFailed        // a poll, an initialization of a running process or a reset
    | Restarted         // a new runtime over the same store, initialized
    | Launched          // a new runtime that is not initialized, or not successfully
    | InitializedAgain
    | Reset

  ghost predicate Step(pages: map<Option<string>, Page>, x: System, x': System, m: Move)
  {
    match m
    case Polled(batch) =>
      x.ready && Polls(pages, x.progress, x'.progress, batch)
      && x' == x.(progress := x'.progress, returned := x.returned + [batch], own := x.own + [batch])
    case CallFailed =>
      x' == x
    case Restarted =>
      var rebooted := Progress(x.progress.stored, None, 0, 0, 0);
      Restored(rebooted.stored).Ok?
      && x' == System(rebooted.(nextContinue := Restored(rebooted.stored).value), true, x.returned, [])
    case Launched =>
      x' == System(Progress(x.progress.stored, None, 0, 0, 0), x.progress.stored.None?, x.returned, [])
    case InitializedAgain =>
      Restored(x.progress.stored).Ok?
      && x' == x.(progress := x.progress.(nextContinue := Restored(x.progress.stored).value), ready := true)
    case Reset =>
      x' == System(x.progress.(stored := None, nextContinue := None), true, [], x.own)
  }

  ghost predicate IsRun(pages: map<Option<string>, Page>, xs: seq<System>, ms: seq<Move>)
  {
    |xs| == |ms| + 1 && xs[0] == START
    && forall i :: 0 <= i < |ms| ==> Step(pages, xs[i], xs[i + 1], ms[i])
  }

  function TotalSize(batches: seq<Batch>): nat
  {
    if batches == [] then 0 else TotalSize(batches[..|batches| - 1]) + |batches[|batches| - 1].events|
  }

  function LastSize(batches: seq<Batch>): nat
  {
    if batches == [] then 0 else |batches[|batches| - 1].events|
  }

  /** The `n`-th successful poll returns page `n` of the chain, counting round when the chain is finished. */
  ghost predicate InOrder(pages: map<Option<string>, Page>, chain: seq<Option<string>>, returned: seq<Batch>)
    requires IsChain(pages, chain)
  {
    forall n :: 0 <= n < |returned| ==> Answers(returned[n], pages[chain[n % |chain|]])
  }

  ghost predicate Sound(pages: map<Option<string>, Page>, chain: seq<Option<string>>, x: System)
    requires IsChain(pages, chain)
  {
    var token := chain[|x.returned| % |chain|];
    && x.progress.stored == Encode(token)
    && (x.ready ==> x.progress.nextContinue == token)
    && InOrder(pages, chain, x.returned)
    && x.progress.totalEvents == Min(U64_MAX, TotalSize(x.own))
    && x.progress.pollCount == Min(U64_MAX, |x.own|)
    && x.progress.lastBatchSize == LastSize(x.own)
  }

  lemma TokensAreUsable(pages: map<Option<string>, Page>, chain: seq<Option<string>>, i: nat)
    requires IsChain(pages, chain) && i < |chain|
    ensures Restored(Encode(chain[i])) == Ok(chain[i]) && Usable(chain[i])
  {
    UsableIffNormal(chain[i]);
    if i > 0 {
      assert LinksOn(pages, chain, i - 1);
    }
  }

  lemma NextPosition(n: nat, size: nat)
    requires size > 0
    ensures (n + 1) % size == if n % size == size - 1 then 0 else n % size + 1
  {
    var q := n / size;
    assert n == size * q + n % size;
    if n % size == size - 1 {
      assert n + 1 == size * (q + 1);
      RemainderIs(n + 1, size, q + 1, 0);
    } else {
      RemainderIs(n + 1, size, q, n % size + 1);
    }
  }

  lemma ChainContinues(pages: map<Option<string>, Page>, chain: seq<Option<string>>, n: nat, batch: Batch)
    requires IsChain(pages, chain) && Answers(batch, pages[chain[n % |chain|]])
    ensures batch.nextContinue == chain[(n + 1) % |chain|]
  {
    NextPosition(n, |chain|);
    if n % |chain| < |chain| - 1 {
      assert LinksOn(pages, chain, n % |chain|);
    }
  }

  lemma TotalsGrow(own: seq<Batch>, batch: Batch)
    ensures TotalSize(own + [batch]) == TotalSize(own) + |batch.events|
  {
    assert (own + [batch])[..|own|] == own;
  }

  lemma PolledKeepsSound(pages: map<Option<string>, Page>, chain: seq<Option<string>>, x: System, x': System,
      batch: Batch)
    requires IsChain(pages, chain) && Sound(pages, chain, x) && Step(pages, x, x', Polled(batch))
    ensures Sound(pages, chain, x')
  {
    hide LinksOn, Answers, TotalSize;
    ChainContinues(pages, chain, |x.returned|, batch);
    TotalsGrow(x.own, batch);
    assert chain[|x'.returned| % |chain|] == batch.nextContinue;
  }

  lemma StepKeepsSound(pages: map<Option<string>, Page>, chain: seq<Option<string>>, x: System, x': System, m: Move)
    requires IsChain(pages, chain) && Sound(pages, chain, x) && Step(pages, x, x', m)
    ensures Sound(pages, chain, x')
  {
    TokensAreUsable(pages, chain, |x.returned| % |chain|);
    match m {
      case Polled(batch) => PolledKeepsSound(pages, chain, x, x', batch);
      case _ =>
    }
  }

  lemma StartIsSound(pages: map<Option<string>, Page>, chain: seq<Option<string>>)
    requires IsChain(pages, chain)
    ensures Sound(pages, chain, START)
  {
    assert 0 % |chain| == 0;
  }

  lemma {:induction false} RunsAreSound(pages: map<Option<string>, Page>, chain: seq<Option<string>>, xs: seq<System>,
      ms: seq<Move>)
    requires IsChain(pages, chain) && IsRun(pages, xs, ms)
    ensures forall i :: 0 <= i < |xs| ==> Sound(pages, chain, xs[i])
  {
    hide Step, IsChain, Sound;
    if ms == [] {
      StartIsSound(pages, chain);
    } else {
      var n := |ms| - 1;
      RunsAreSound(pages, chain, xs[..n + 1], ms[..n]);
      StepKeepsSound(pages, chain, xs[n], xs[n + 1], ms[n]);
    }
  }

  /** Exactly-once paging. Whatever polls, initializations, resets and restarts fail, the batches returned
      since the last reset are the pages of the chain in order, none skipped and none repeated before the
      chain starts over, and the counters of the current process are the saturating totals of what it
      returned. */
  lemma PagingIsExactlyOnce(pages: map<Option<string>, Page>, chain: seq<Option<string>>, xs: seq<System>,
      ms: seq<Move>)
    requires IsChain(pages, chain) && IsRun(pages, xs, ms)
    ensures forall i :: 0 <= i < |xs| ==> InOrder(pages, chain, xs[i].returned)
    ensures forall i :: 0 <= i < |xs| ==>
              && xs[i].progress.totalEvents == Min(U64_MAX, TotalSize(xs[i].own))
              && xs[i].progress.pollCount == Min(U64_MAX, |xs[i].own|)
              && xs[i].progress.lastBatchSize == LastSize(xs[i].own)
    ensures forall i :: 0 <= i < |xs| && xs[i].ready ==> Encode(xs[i].progress.nextContinue) == xs[i].progress.stored
  {
    RunsAreSound(pages, chain, xs, ms);
  }

  // ---------------------------------------------------------------------------
  // Calls outside such runs.

  /** No token occurs twice in a chain: the chain would never end. */
  lemma {:induction false} TokensAreDistinct(
    pages: map<Option<string>, Page>, chain: seq<Option<string>>, i: nat, j: nat)
    requires IsChain(pages, chain) && i < j < |chain|
    ensures chain[i] != chain[j]
    decreases |chain| - j
  {
    assert LinksOn(pages, chain, i);
    if j + 1 < |chain| {
      assert LinksOn(pages, chain, j);
      TokensAreDistinct(pages, chain, i + 1, j + 1);
    }
  }

  /** Different pages of a chain continue differently, so no batch answers two of them. */
  lemma BatchesAreDistinct(
    pages: map<Option<string>, Page>, chain: seq<Option<string>>, i: nat, j: nat, batch: Batch)
    requires IsChain(pages, chain) && i < j < |chain|
    ensures !(Answers(batch, pages[chain[i]]) && Answers(batch, pages[chain[j]]))
  {
    assert LinksOn(pages, chain, i);
    if j + 1 < |chain| {
      assert LinksOn(pages, chain, j);
      TokensAreDistinct(pages, chain, i + 1, j + 1);
    }
  }

  lemma InOrderGrowsIff(
    pages: map<Option<string>, Page>, chain: seq<Option<string>>, returned: seq<Batch>, batch: Batch)
    requires IsChain(pages, chain) && InOrder(pages, chain, returned)
    ensures InOrder(pages, chain, returned + [batch]) <==> Answers(batch, pages[chain[|returned| % |chain|]])
  {
    hide Answers, IsChain;
    assert (returned + [batch])[|returned|] == batch;
    assert forall n :: 0 <= n < |returned| ==> (returned + [batch])[n] == returned[n];
  }

  /** A new runtime that polls before it is initialized stays in step with the chain if and only if nothing was
      stored. Otherwise it returns the first page again and stores the token after it, whatever was reached. */
  lemma UninitializedPollIff(
    pages: map<Option<string>, Page>, chain: seq<Option<string>>, x: System, p': Progress, batch: Batch)
    requires IsChain(pages, chain) && Sound(pages, chain, x)
    requires Polls(pages, Progress(x.progress.stored, None, 0, 0, 0), p', batch)
    ensures Answers(batch, pages[chain[0]]) && p'.stored == Encode(chain[1 % |chain|])
    ensures InOrder(pages, chain, x.returned + [batch]) <==> x.progress.stored == None
    ensures Sound(pages, chain, System(p', true, x.returned + [batch], [batch])) <==> x.progress.stored == None
  {
    hide Answers, LinksOn;
    var at := |x.returned| % |chain|;
    assert 0 % |chain| == 0;
    ChainContinues(pages, chain, 0, batch);
    InOrderGrowsIff(pages, chain, x.returned, batch);
    if x.progress.stored == None {
      if at > 0 {
        TokensAreDistinct(pages, chain, 0, at);
      }
      var launched := System(Progress(None, None, 0, 0, 0), true, x.returned, []);
      PolledKeepsSound(pages, chain, launched, System(p', true, x.returned + [batch], [batch]), batch);
    } else {
      BatchesAreDistinct(pages, chain, 0, at, batch);
    }
  }

  /** Applying a batch that was fetched some other way keeps the process in step if and only if the batch is
      the page in turn: same events, same continuation. */
  lemma AppliedBatchIff(pages: map<Option<string>, Page>, chain: seq<Option<string>>, x: System, batch: Batch)
    requires IsChain(pages, chain) && Sound(pages, chain, x) && x.ready
    ensures Sound(pages, chain, System(Applied(x.progress, batch), true, x.returned + [batch], x.own + [batch]))
       <==> Answers(batch, pages[chain[|x.returned| % |chain|]])
  {
    hide Answers, LinksOn, TotalSize;
    InOrderGrowsIff(pages, chain, x.returned, batch);
    var x' := System(Applied(x.progress, batch), true, x.returned + [batch], x.own + [batch]);
    if Answers(batch, pages[chain[|x.returned| % |chain|]]) {
      TokensAreUsable(pages, chain, |x.returned| % |chain|);
      PolledKeepsSound(pages, chain, x, x', batch);
    }
  }

  /** No process can initialize, and the present one can build no request if it is ready to poll. */
  ghost predicate Blocked(x: System)
  {
    && Restored(x.progress.stored).Err?
    && (x.ready ==> !Usable(x.progress.nextContinue))
  }

  /** A blank token is applied like any other, and blocks the system; a batch without one does not. */
  lemma BlankTokenBlocksIff(x: System, batch: Batch)
    ensures Blocked(System(Applied(x.progress, batch), true, x.returned + [batch], x.own + [batch]))
       <==> !Usable(batch.nextContinue)
  {
    UsableIffNormal(batch.nextContinue);
  }

  /** A blocked system stays blocked through any calls and restarts, with nothing returned, until a reset;
      and a reset unblocks it. */
  lemma {:induction false} BlockedUntilReset(pages: map<Option<string>, Page>, xs: seq<System>, ms: seq<Move>)
    requires |xs| == |ms| + 1 && Blocked(xs[0])
    requires forall i :: 0 <= i < |ms| ==> Step(pages, xs[i], xs[i + 1], ms[i])
    requires forall i :: 0 <= i < |ms| - 1 ==> ms[i] != Reset
    ensures forall i :: 0 <= i < |ms| ==> Blocked(xs[i]) && xs[i].returned == xs[0].returned
    ensures Blocked(xs[|ms|]) <==> (ms == [] || ms[|ms| - 1] != Reset)
    ensures Blocked(xs[|ms|]) ==> xs[|ms|].returned == xs[0].returned
  {
    if ms != [] {
      var n := |ms| - 1;
      BlockedUntilReset(pages, xs[..n + 1], ms[..n]);
      assert Step(pages, xs[n], xs[n + 1], ms[n]);
    }
  }
}
