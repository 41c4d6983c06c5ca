# SP42 in Dafny

SP42 helps Wikipedia patrollers watch recent changes, share a review room, and attach an evidence appendix to a
good-article review. This project models the parts of its Rust code whose correctness is not visible from reading
one function, and proves what they are for:

- **Coordination room** (`Coordination`, `Replicas`, `CoordinationRuntime`). Every operator folds claims, race
  resolutions, presence, flags, score deltas and recent actions into a local replica, and applies its own messages
  before anyone else sees them. The reducer is a class over maps; it is proved equal to a query of the message log,
  and the replica results (convergence, disagreement, order-independence) follow from that query.
- **Calendar and timestamps** (`Calendar`, `Timestamps`). The closed forms between civil dates and day numbers are
  proved equal to counting years, months and days, for every integer year. The two RFC 3339 parsers and the two date
  printers are proved exact, equal to each other, and order-preserving.
- **Checkpointed ingestion** (`Checkpoints`, `Ingestion`, `StreamRuntime`, `StreamRuns`, `BacklogRuntime`). Both
  runtimes are classes over a store and a source that may fail at any call. Exactly-once delivery is proved over
  whole runs of calls, failures, reconnects and restarts, together with the exact condition under which the stream
  meets it.
- **Live-operator query** (`OperatorQuery`, `OperatorQueryCodec`). The query's key/value form, its normalization and
  the queue filter, with the exact law of the round trip.
- **GA evidence appendix** (`ToolWording`, `Wikitext`, `CiteLabels`, `FixedText`, `Pieces`, `VerificationReport`,
  `AppendixCopy`, `AppendixWording`, `Appendix`, `AppendixTheorems`, `AppendixAccounting`, `AppendixNotices`,
  `AppendixReasons`, `AppendixSummary`, `AppendixRenderer`). The rendered wikitext is read back by an independent scanner: it is inert, carries every field
  exactly, lists every finding once, and its summary counts what is listed. It contains a raw cite id, or a word the
  tool must not use, exactly when the version, a shown field or a link target does: none of its own sentences brings
  one in.

`Machine` and `Text` hold integer ranges, saturating arithmetic, decimal printing and parsing, and trimming.

## How to read it

Code that changes state in place is a class or a method with loops, tied by its `ensures` to a function on values
(`Step`, `Consume`, `Applied`, `Relabelled`, `BucketSection`, ...); the theorems are lemmas about those functions.
Runs are sequences of states linked by the relations that the methods' contracts establish: `Delivers`, `Exhausts`,
`Breaks`, `Reconnects` and `Initializes` for the stream, `Polls` and `Applied` for the backlog, `After` for the
coordination runtime.

A helper that both an operation and its specification use (`LastN`, `Ingest`, `NormalizedText`, `BucketFor`,
`Replacement`, `BatchOf`, ...) has a theorem of its own that says what it does without naming it (`RecentAreNewest`,
`IngestExactly`, `NormalizedTextExactly`, `BucketExactly`, `ListedWords`, `BatchExactly`, ...).

Results that differ from what the code or its comments suggest:

- The query pairs are what the filter bar sends and the server decodes, but `unpatrolled_only` switched off and
  `include_registered` switched on have no printed form. `CodecExactly` and `RoundTripIff` give the exact law.
- Stream resume is exactly-once if and only if every actionable event carries an id and no actionable event follows an
  ingestable one up to a later event with the same id (`ExactlyOnceIff`). An event without an id is delivered again by
  some run (`UntrackedIsRepeated`); one between two occurrences of an id is lost by some run (`RepeatedIdLoses`).
- Reading on after a failed call is safe if and only if the call did not fail to checkpoint an actionable event
  (`ReadingOnIsSafeIff`, `ReadingOnCompletesIff`): always after a failed source read or a malformed payload, and after
  a failed write exactly when the event was a filtered one. Otherwise the event is lost unless the stream reconnects.
  A caller that instead reconnects or restarts after every failed read never gets past a malformed payload
  (`MalformedHoldsUp`).
- A backlog poll before a successful `initialize` stays in step if and only if nothing was stored
  (`UninitializedPollIff`); otherwise it returns the first page again and overwrites the stored token. After the last
  page the token is cleared, so the next poll starts the chain again; `PagingIsExactlyOnce` counts round.
- `apply_batch` keeps a process in step exactly with the page in turn (`AppliedBatchIff`), and a blank token stops every
  request and every initialization until a reset (`BlankTokenBlocksIff`, `BlockedUntilReset`).
- Claims and resolutions of a revision need no common order across replicas: the last winner decides alone.
- Saturating score totals depend on message order exactly when increases and decreases meet and one side alone
  leaves the range (`OrderIrrelevantIff`).

## Model

| member | source | states |
|---|---|---|
| CoordinationRuntime.CoordinationState.Apply | crates/sp42-coordination/src/state.rs:87-149 | The in-place reducer takes the abstract room to its one-message successor, whatever the message; it reports false exactly for messages of another wiki, which change nothing |
| CoordinationRuntime.CoordinationState.ApplyMany | crates/sp42-coordination/src/state.rs:151-158 | The room after a batch is the left-to-right replay of the batch, so a room that had replayed a log has now replayed the log followed by the batch; the count is the number of messages of this wiki |
| CoordinationRuntime.CoordinationState.RemovePresence | crates/sp42-coordination/src/state.rs:68-70 | Removing an operator changes the room exactly as a heartbeat with zero active edits does; true exactly if the operator was present |
| Coordination.ReplayMatchesLog | crates/sp42-coordination/src/state.rs:87-149 | For every log the reducer equals a declarative query: a claim is the last resolution's winner if there is one, else the last claim; presence is the last heartbeat unless zero; flags are the last written; a delta is the saturating fold with its reasons joined; recent actions are the newest 25 |
| Coordination.RecentAreNewest | crates/sp42-coordination/src/state.rs:132-138 | For every log the recent actions are the newest 25 of the wiki, or all of them if there are fewer, oldest first, and an action just folded is the last |
| Replicas.LastWriteWins | crates/sp42-coordination/src/state.rs:93-131 | Replicas whose topics end with the same messages agree on claims, resolutions, presence and flags, whatever was reordered, repeated or lost before |
| Replicas.EqualProjectionsEqualStates | crates/sp42-coordination/src/state.rs:87-158 | Logs with equal per-topic projections give equal rooms; claims and resolutions of one revision may interleave freely |
| Replicas.ReachableConsistent | crates/sp42-coordination/src/state.rs:93-137 | In every reachable room a resolved revision is claimed by its winner, keys match entries, nobody is present with zero edits, and at most 25 actions are kept |
| Replicas.ReplicasConverge | crates/sp42-coordination/src/state.rs:93-131 | Any number of replicas, each with its own log, agree on the claim once the last resolution in each names the same winner |
| Replicas.AgreementExactly | crates/sp42-coordination/src/state.rs:93-131 | Any two replicas agree on a claim if and only if they name the same holder: the last winner, else the last claimant, else nobody |
| Replicas.ResolvedAgreement | crates/sp42-coordination/src/state.rs:121-131 | In particular, once both saw a resolution, if and only if the last winners agree |
| Replicas.ResolutionIsFinal | crates/sp42-coordination/src/state.rs:93-101 | After a resolution no later traffic without a resolution of that revision moves its claim |
| Replicas.OptimisticReplicasDisagree | crates/sp42-coordination/src/runtime.rs:91-111 | In an unresolved race each operator folds its own claim when sending it and the other's on hearing it, so, with no resolution and no further claim of the revision after the heard one, each replica ends with the other operator's claim, whatever else the logs hold |
| Replicas.OneResolutionHeals | crates/sp42-coordination/src/state.rs:121-131 | One resolution heals the race at whatever point of its log each replica hears it, if it is the last one |
| Replicas.PresenceConverges | crates/sp42-coordination/src/state.rs:102-108 | If operators report only their own presence and each sender's messages arrive in order, replicas that received the same streams show the same presence however the streams interleave |
| Replicas.OrderIrrelevantIff | crates/sp42-coordination/src/state.rs:112-119 | All arrival orders of a set of deltas give the same saturated total if and only if they have one sign, or neither the increases alone nor the decreases alone leave the i32 range |
| Replicas.DeltasConverge | crates/sp42-coordination/src/state.rs:112-119 | Under that condition replicas that received the same deltas of a revision in different orders show the same score |
| Replicas.OneSignTail | crates/sp42-coordination/src/state.rs:116 | Appending deltas of one sign adds their exact total and clamps once, however long the run |
| CoordinationRuntime.CoordinationRuntime.Broadcast | crates/sp42-coordination/src/runtime.rs:85-280 | A send that succeeds transmits, counts and folds the same message; one that fails changes nothing, and neither touches incoming frames |
| CoordinationRuntime.CoordinationRuntime.ReceiveMessage | crates/sp42-coordination/src/runtime.rs:289-302 | Takes exactly the frame its result says, folds and counts a message, and marks the stream closed on its end; errors change no state |
| CoordinationRuntime.CoordinationRuntime.DrainIncoming | crates/sp42-coordination/src/runtime.rs:311-323 | On success the result is the next payload frames in order, all folded and removed; a batch shorter than the limit means the stream closed; on failure a prefix was folded and its messages are lost to the caller |
| CoordinationRuntime.RuntimeRefinesReducer | crates/sp42-coordination/src/runtime.rs:85-323 | Over any run of sends, failed sends, receives and drains the room is the replay of the messages sent and received as they interleaved, counters are their saturating counts, and the stream is closed exactly if it ever ended |
| Calendar.ClosedFormIsCalendar | crates/sp42-live/src/recent_changes.rs:323-338 | For every valid date of every integer year the closed form equals the count of days by whole years, months and days from 1970-01-01 |
| Calendar.NextDayIsNextNumber | crates/sp42-live/src/recent_changes.rs:383-402 | The day after a valid date is valid and its number is one higher, across months, leap days and years |
| Calendar.EarlierIsSmaller | crates/sp42-live/src/recent_changes.rs:323-338 | Among valid dates, earlier is equivalent to a smaller day number |
| Calendar.ClosedFormFitsI32 | crates/sp42-live/src/recent_changes.rs:323-338 | For the dates the parsers accept, no intermediate leaves the i32 range and the day number stays within fixed bounds |
| Calendar.DaysOfCivilOfDays | crates/sp42-citation/src/bare_url_repair.rs:301-313 | Every day number, negative ones included, becomes a valid date that maps back to it |
| Calendar.CivilOfDaysOfCivil | crates/sp42-citation/src/bare_url_repair.rs:301-313 | Every valid date is recovered from its day number |
| Timestamps.ParseToMsExact | crates/sp42-live/src/recent_changes.rs:282-321 | The millisecond parser accepts exactly the strings with the layout, a real date, a real time and a non-empty fraction if any, and returns the unsaturated instant |
| Timestamps.ParseToSecondsAndNanosExact | crates/sp42-live/src/stream_ingestor.rs:220-250 | The same acceptance for the seconds-and-nanoseconds parser, with exact values |
| Timestamps.PrintedTimestampParses | crates/sp42-live/src/recent_changes.rs:282-321 | For every printed year, two-digit month, day, hour, minute and second, and any fraction digits or none: both parsers give the exact instant, the fraction rounded down, if there is such a date and time of day, and nothing otherwise |
| Timestamps.AcceptedIsPrinted | crates/sp42-live/src/stream_ingestor.rs:220-250 | Nothing else is accepted: a text either parser accepts is the print of a real date and time |
| Timestamps.ParsersAgree | crates/sp42-live/src/stream_ingestor.rs:204-250 | On every string both parsers accept or both reject, and milliseconds equal seconds times 1000 plus nanoseconds divided by 1000000 |
| Timestamps.NanosInMillis | crates/sp42-live/src/stream_ingestor.rs:287-303 | For a fraction of any length, whole milliseconds of the nanosecond fold equal the three-digit fold |
| Timestamps.NanoFoldFitsU32 | crates/sp42-live/src/stream_ingestor.rs:296-299 | No step of the u32 digit fold overflows |
| Timestamps.StreamReadsBacklogTimestamps | crates/sp42-live/src/stream_ingestor.rs:204-218 | Every timestamp the backlog accepts is read by the stream as the same millisecond, although the stream tries bare integers first |
| Timestamps.TextOrderIsTimeOrder | crates/sp42-live/src/recent_changes.rs:346-381 | Section 5.1 of RFC 3339: for equal fraction lengths text order agrees with time order, strictly and injectively up to three digits, weakly beyond |
| Timestamps.PrintThenParse | crates/sp42-citation/src/bare_url_repair.rs:301-313 | For every time in years 0 to 9999, midnight of the printed date parses back to the time rounded down to its UTC day |
| Timestamps.PrintersAgree | crates/sp42-assessment/src/ga_appendix.rs:86-99 | The appendix's date printer prints what the citation printer prints, for every time |
| StreamRuntime.StreamRuntime.NextActionableEvent | crates/sp42-live/src/stream_runtime.rs:86-105 | Success returns the next actionable event after only filtered ones, all checkpointed and counted; the edit carries the payload's fields and passes the options; the end of the source consumes all; a failure leaves every earlier event checkpointed and nothing of the failing one, and its error tells whether the source moved past it |
| StreamRuntime.StreamRuntime.DrainActionableEvents | crates/sp42-live/src/stream_runtime.rs:173-187 | On success the result is exactly the first `limit` deliverable events of what remained, one edit each in log order with the payload's fields and within the options, and the source stands just after the last of them, or at its end when there were fewer; on failure the edits collected so far were checkpointed and are lost |
| StreamRuntime.StreamRuntime.ReconnectFromCheckpoint | crates/sp42-live/src/stream_runtime.rs:113-123 | Success resumes just after the last occurrence of the checkpoint, the memory's if it has one, else the store's; failure moves at most the source |
| StreamRuntime.StreamRuntime.Initialize | crates/sp42-live/src/stream_runtime.rs:71-77 | Success adopts the stored cursor and resumes there if there is one; a failure after loading may leave the cursor adopted |
| StreamRuntime.StreamRuntime.StoreCheckpoint | crates/sp42-live/src/stream_runtime.rs:189-195 | Store and memory move together or not at all |
| StreamRuntime.ConsumeEffects | crates/sp42-live/src/stream_runtime.rs:86-105 | Consuming any stretch leaves both cursors at the last id in it, adds its actionable events to delivered and the rest to filtered, saturating |
| Ingestion.IngestExactly | crates/sp42-live/src/stream_ingestor.rs:68-121 | On the payload's own fields: it is filtered out exactly if it is JSON and of another wiki, another change type, an ignored bot or minor edit, or outside the namespaces; it is delivered exactly if it is wanted and has a revision and a readable timestamp; and a delivered edit carries its fields, its time in milliseconds and its byte delta or the nearest i32 |
| Ingestion.ErrorsExactly | crates/sp42-live/src/stream_ingestor.rs:68-121 | Which of the four errors a malformed payload gives, and when |
| StreamRuntime.ActionableExactly | crates/sp42-live/src/stream_runtime.rs:86-105 | The events the stream results call actionable are exactly the wanted and complete ones, the filtered exactly the unwanted ones |
| StreamRuntime.EditsAreDelivery | crates/sp42-live/src/stream_runtime.rs:173-187 | The edits of any stretch of the log come one from each deliverable event, in log order, carry its fields, are of the ingestor's wiki, and are no bot's when bots are ignored |
| StreamRuns.RunsAreSound | crates/sp42-live/src/stream_runtime.rs:71-123 | Under the two conditions of `ExactlyOnceIff`, at every point of every run what was delivered is what is actionable before the stored checkpoint, memory and store agree, and for a live session it is also what is actionable before its position |
| StreamRuns.LosslessResume | crates/sp42-live/src/stream_runtime.rs:71-123 | Under the same conditions, after any run of reads, failures, reconnects and restarts in which a failure that skipped an actionable event is followed by a reconnect or restart, the caller has received a prefix of the actionable events in order, each once, and all of them once the end was reached; malformed payloads are passed |
| StreamRuns.ReadingOnIsSafeIff | crates/sp42-live/src/stream_runtime.rs:86-105 | Reading on after a failed call delivers the next actionable event in turn if and only if the call did not fail to checkpoint an actionable event |
| StreamRuns.ReadingOnCompletesIff | crates/sp42-live/src/stream_runtime.rs:86-105 | Reading on to the end after a failed call completes the delivery under the same condition and no other |
| StreamRuns.PositionsAreExact | crates/sp42-live/src/stream_runtime.rs:86-105 | The reference list of actionable events is strictly increasing and complete |
| StreamRuns.MalformedHoldsUp | crates/sp42-live/src/stream_runtime.rs:86-123 | A caller that answers every failed read with a reconnect or restart is never given anything at or after a malformed payload, in any run, when no id from before it occurs again from there on |
| StreamRuns.UntrackedIsRepeated | crates/sp42-live/src/stream_runtime.rs:113-123 | For every log with an actionable event without an id, and none between an ingestable event and a later event with its id, there is a run that delivers one position twice, at the two indices named |
| StreamRuns.RepeatedIdLoses | crates/sp42-live/src/stream_runtime.rs:113-123 | For every actionable event between an ingestable event and a later event with the same id, or at that later one, there is a run that reads to the end and never delivers it |
| StreamRuns.ExactlyOnceIff | crates/sp42-live/src/stream_runtime.rs:71-195 | For every log, every run is free of loss, repetition and reordering and complete once it reaches the end, if and only if every actionable event carries an id and no actionable event follows an ingestable one up to a later event with its id |
| BacklogRuntime.BacklogRuntime.Poll | crates/sp42-live/src/backlog_runtime.rs:128-135 | Success returns the page of the current token and moves store and memory to the next; any failure leaves every field and the store unchanged |
| BacklogRuntime.BatchExactly | crates/sp42-live/src/backlog_runtime.rs:128-135 | A batch is exactly the page's events with its continuation token, which counts only if it has a character other than whitespace |
| BacklogRuntime.RestoredExactly | crates/sp42-live/src/backlog_runtime.rs:79-82 | A checkpoint restores exactly to no token when there is none, and to its text when that says something |
| BacklogRuntime.BacklogRuntime.ApplyBatch | crates/sp42-live/src/backlog_runtime.rs:143-165 | All fields and the stored token change together or not at all, for any token, blank ones included |
| BacklogRuntime.BacklogRuntime.Initialize | crates/sp42-live/src/backlog_runtime.rs:79-82 | Success adopts the stored token, which must be non-blank text; failure changes nothing |
| BacklogRuntime.BacklogRuntime.BuildNextRequest | crates/sp42-live/src/backlog_runtime.rs:114-119 | A request can be built if and only if the limit is positive and the token is absent or has some character other than whitespace, and it then carries that token unchanged |
| BacklogRuntime.BacklogRuntime.ResetCheckpoint | crates/sp42-live/src/backlog_runtime.rs:172-176 | Clears the token in store and memory, or in neither; counters stay |
| BacklogRuntime.PagingIsExactlyOnce | crates/sp42-live/src/backlog_runtime.rs:79-196 | Over any run of polls, failures, restarts and resets the batches since the last reset are the pages of the chain in order, each once per round, and the counters are saturating totals of the process's own batches |
| BacklogRuntime.UninitializedPollIff | crates/sp42-live/src/backlog_runtime.rs:128-135 | A new runtime that polls before initializing stays in step with the chain if and only if nothing was stored; otherwise it returns the first page again and stores the token after it |
| BacklogRuntime.AppliedBatchIff | crates/sp42-live/src/backlog_runtime.rs:143-165 | Applying a batch fetched some other way keeps the process in step if and only if it is the page in turn |
| BacklogRuntime.BlankTokenBlocksIff | crates/sp42-live/src/backlog_runtime.rs:143-165 | Applying a batch blocks the system, so that this process can build no request and no process can initialize, if and only if its token is present and blank |
| BacklogRuntime.BlockedUntilReset | crates/sp42-live/src/backlog_runtime.rs:172-196 | Once blocked by a blank token nothing is returned through any calls and restarts until a reset, which unblocks |
| BacklogRuntime.TokensAreDistinct | crates/sp42-live/src/backlog_runtime.rs:128-165 | No continuation token occurs twice in a chain that ends |
| OperatorQuery.SortDedupCanonical | crates/sp42-live/src/live_operator.rs:61-62 | Sort and dedup list the same namespaces, each once, ascending, and leave such lists alone |
| OperatorQuery.NormalizedTextExactly | crates/sp42-live/src/live_operator.rs:266-270 | A text is kept exactly as its core without the whitespace around it, and dropped exactly if it has no other character |
| Text.WhitespaceExactly | crates/sp42-live/src/live_operator.rs:266-270 | Trimming goes by the 25 code points of the Unicode White_Space property |
| OperatorQuery.NormalizedExactly | crates/sp42-live/src/live_operator.rs:57-64 | Normalizing brings the limit into 1..500, trims the texts, lists the namespaces once each in order and keeps the rest; it changes nothing exactly if the query was already so |
| OperatorQuery.NormalizedTwice | crates/sp42-live/src/live_operator.rs:57-64 | Normalizing is idempotent |
| OperatorQuery.SplitOfJoin | crates/sp42-live/src/live_operator.rs:101-111 | Joining comma-free pieces and splitting gives them back |
| OperatorQuery.NamespacesExactly | crates/sp42-live/src/live_operator.rs:276-284 | A namespace is read exactly if some entry between commas is its number, whitespace aside; the list is strictly ascending |
| OperatorQuery.NamespacesRoundTrip | crates/sp42-live/src/live_operator.rs:276-284 | Parsing the printed list of a normalized, non-empty set of namespaces gives it back |
| OperatorQueryCodec.FromQueryPairs | crates/sp42-live/src/live_operator.rs:67-73 | The result is the normal form of the default query with each field set by the last pair that has its key |
| OperatorQueryCodec.LastPairDecides | crates/sp42-live/src/live_operator.rs:166-190 | Every field is set by the last pair with its key, flags by one of six words, limits by the last that can be read; all other pairs make no difference |
| Text.ParseIntExactly | crates/sp42-live/src/live_operator.rs:166-190 | An integer is read exactly from its digits with an optional plus, or a minus where the type is signed, when it is in range |
| OperatorQueryCodec.ToQueryPairs | crates/sp42-live/src/live_operator.rs:76-122 | The pushes produce the pair list that the codec theorem decodes |
| OperatorQueryCodec.CodecExactly | crates/sp42-live/src/live_operator.rs:66-122 | For every query, decoding its pairs gives its normal form, field by field, with `unpatrolled_only` on and `include_registered` off |
| OperatorQueryCodec.RoundTripIff | crates/sp42-live/src/live_operator.rs:66-122 | A query survives the round trip if and only if its limit is 1 to 500, its namespaces strictly ascend, its texts are trimmed and not empty, and those two flags have those values |
| OperatorQueryCodec.RoundTripTwice | crates/sp42-live/src/live_operator.rs:66-122 | A second round trip changes nothing more |
| OperatorQueryCodec.SnapshotQueriesDoNotSurvive | crates/sp42-live/src/live_operator.rs:133-164 | No query that may use the supervisor snapshot may still use it after a round trip; at the default limit it becomes the default filters |
| OperatorQueryCodec.SharedQueryNeverWidens | crates/sp42-live/src/live_operator.rs:221-264 | A shared query shows exactly the edits the original shows that are by unregistered editors and unpatrolled |
| OperatorQueryCodec.MatchesExactly | crates/sp42-live/src/live_operator.rs:221-264 | The filter on the normalized query lets through exactly the edits the given query shows, clause by clause: score, editor, bot, minor, new page, patrolled, namespace and tag |
| OperatorQueryCodec.FilteredInOrder | crates/sp42-live/src/live_operator.rs:208-219 | The filtered queue keeps queue order, repeats nothing, holds only edits the query shows, and omits one it shows only when the clamped limit was reached before it |
| OperatorQueryCodec.FilterIgnoresNamespaceOrder | crates/sp42-live/src/live_operator.rs:255-257 | Order and duplicates of the namespace list do not affect the filter |
| ToolWording.NeutralizeToolWording | crates/sp42-assessment/src/copy.rs:160-187 | The loop over pieces computes the word-by-word rewriting of the whole text |
| ToolWording.NeutralExactly | crates/sp42-assessment/src/copy.rs:154-187 | The output has no maximal letter run that lowercases to a listed word; a text is unchanged if and only if it had none; rewriting is idempotent |
| ToolWording.NeutralWordByWord | crates/sp42-assessment/src/copy.rs:162-185 | Each word is rewritten alone, and what stands before and after it is rewritten as if the word were not there |
| ToolWording.ListedWords | crates/sp42-assessment/src/copy.rs:160-187 | The eight listed words in any case, the wording each gets, and that every other word stays |
| ToolWording.CleanExactly | crates/sp42-assessment/src/copy.rs:154-158 | A text is clean exactly if none of its words is one of the eight |
| ToolWording.LettersExactly | crates/sp42-assessment/src/copy.rs:162-185 | Words are made of the ASCII letters, and lowering pairs each capital with its small letter and changes nothing else |
| Wikitext.UnescapeOfEscape | crates/sp42-assessment/src/ga_appendix.rs:9-15 | Decoding the escaped form of any text gives the text back |
| Wikitext.EscapeIsEntities | crates/sp42-assessment/src/ga_appendix.rs:9-15 | The three replacement passes equal one character-by-character substitution: no pass disturbs another's output |
| Wikitext.ScanVerbatim | crates/sp42-assessment/src/ga_appendix.rs:9-15 | A scanner reads an escaped field as one closed span, whatever the field contains, and goes on after it |
| Wikitext.LooseMarkupIsRefused | crates/sp42-assessment/src/ga_appendix.rs:5-15 | The scanner refuses a brace or a stray `<` outside a span, so what it accepts is inert |
| Wikitext.EscapedUrlIsSafe | crates/sp42-assessment/src/ga_appendix.rs:30-46 | An encoded link target has no character that ends a link or starts markup, and safe targets are unchanged |
| Wikitext.EncodedUrlDecodesAlike | crates/sp42-assessment/src/ga_appendix.rs:30-46 | Percent-decoding the encoded target equals percent-decoding the original, for every string |
| CiteLabels.NamedIdsKeepTheirName | crates/sp42-assessment/src/ga_appendix.rs:60-81 | A well-formed named cite id yields its name, whatever underscores, dashes or digits the name contains |
| CiteLabels.SanitizeReason | crates/sp42-assessment/src/ga_appendix.rs:705-747 | The scanning loop ends and computes the relabelled, neutralized reason |
| CiteLabels.OneIdRelabelled | crates/sp42-assessment/src/ga_appendix.rs:709-742 | An id is replaced by its label alone: the text before it, its trailing punctuation and everything after stay, and relabelling goes on there |
| CiteLabels.IdLabelExactly | crates/sp42-assessment/src/ga_appendix.rs:705-747 | The label is the block number for a numeric id, the quoted name for an id of the form name_seq-use, and the first ref for any other |
| CiteLabels.UnnamedRefIsNumbered | crates/sp42-assessment/src/ga_appendix.rs:52-54 | A finding whose id is not of that form shows its ordinal counted from one |
| CiteLabels.PunctuationExactly | crates/sp42-assessment/src/ga_appendix.rs:720-728 | The punctuation cut from an id is the visible ASCII that is neither letter nor digit |
| CiteLabels.SanitizedReasonIsClean | crates/sp42-assessment/src/ga_appendix.rs:705-747 | For every reason the text shown contains neither a raw cite id nor a listed word; no label, boundary, re-emitted punctuation or rewritten word can form an id |
| CiteLabels.CleanReasonIsKept | crates/sp42-assessment/src/ga_appendix.rs:705-747 | A reason with neither is shown unchanged |
| Pieces.FieldsOfPieces | crates/sp42-assessment/src/ga_appendix.rs:9-46 | Any sequence of pushes whose plain texts are free of markup reads back as exactly its verbatim fields in order |
| Pieces.CiteInPieces | crates/sp42-assessment/src/ga_appendix.rs:9-46 | The text of any pushes between bland fixed texts contains a raw cite id if and only if some field or link does: escaping and joining neither make nor hide one |
| Pieces.CleanPieces | crates/sp42-assessment/src/ga_appendix.rs:9-46 | Likewise it contains a listed word if and only if some field or encoded link target does |
| AppendixTheorems.LabelsSpelled | crates/sp42-assessment/src/ga_appendix.rs:52-81 | The pushed label spells the label function used for reasons, and a skipped ref shows its name or its block, never a number |
| AppendixTheorems.LineShows | crates/sp42-assessment/src/ga_appendix.rs:504-689 | A finding's line shows its name, claim, evidence and scan note, and links the source read and the archived original, in the order its sublist prescribes, between texts that contain no markup, no underscore and no listed word |
| AppendixNotices.VerdictSaid | crates/sp42-assessment/src/copy.rs:40-53 | A disagreement line says that the panel found no support, that the search found none, or that support is partial, each exactly for its verdict |
| AppendixNotices.EvidenceSaid | crates/sp42-assessment/src/ga_appendix.rs:520-536 | A quote is presented as located only when there is one, an excerpt only as context and only without a quote, and otherwise the line says that no passage was found |
| AppendixNotices.CaveatsSaid | crates/sp42-assessment/src/ga_appendix.rs:538-561 | An inexact quote is disclosed exactly on partial verdicts, and a split panel exactly if there was a panel and no verdict had a majority |
| AppendixNotices.UnreadableSaid | crates/sp42-assessment/src/ga_appendix.rs:612-642 | A book scan that could not be reached is told as an outage, anything else as fetched with the reason on record |
| AppendixNotices.UnconfirmedSaid | crates/sp42-assessment/src/ga_appendix.rs:644-672 | An unconfirmed support says whether its quote was located approximately or not at all |
| AppendixNotices.AnnotationSaid | crates/sp42-assessment/src/ga_appendix.rs:277-304 | The annotation of a book scan names the scanned page exactly if it is not the page cited, separates it from the note exactly if there are both, and is absent exactly if there is neither |
| AppendixReasons.ReasonSaid | crates/sp42-assessment/src/ga_appendix.rs:306-355 | A skipped line gives one of four reasons; a lookup that did not complete is named exactly if the first resolution of the same ref that shares a book is one |
| AppendixReasons.ScanSaid | crates/sp42-assessment/src/ga_appendix.rs:428-444 | Each of the five scan texts exactly for its state of the scan |
| AppendixReasons.BookSaid | crates/sp42-assessment/src/ga_appendix.rs:404-463 | A book's line carries that text, and says untitled exactly if there is no title |
| AppendixReasons.HeadingsExactly | crates/sp42-assessment/src/copy.rs:13-21 | Each sublist is printed under its own heading |
| AppendixReasons.BodyReasonsExactly | crates/sp42-assessment/src/copy.rs:84-100 | Each reason a source could not be used has its own text |
| AppendixReasons.IdentifiersDiffer | crates/sp42-assessment/src/copy.rs:191-199 | Labels name the kind of identifier, and different identifiers have different labels |
| AppendixReasons.FirstPageExactly | crates/sp42-assessment/src/ga_appendix.rs:371-378 | The page shown is that of the first source that cites one |
| AppendixReasons.IdentifiersInOrder | crates/sp42-assessment/src/ga_appendix.rs:359-370 | The identifiers shown are those of the sources, source by source |
| AppendixAccounting.ListedExactly | crates/sp42-assessment/src/ga_appendix.rs:119-151 | A finding is listed in a sublist if and only if it belongs there, and lists are in report order |
| VerificationReport.BucketExactly | crates/sp42-assessment/src/ga_appendix.rs:119-151 | Which findings each of the six sublists is for, on verdict, grounding, archive, book scan and reason |
| AppendixAccounting.LengthIsTally | crates/sp42-assessment/src/ga_appendix.rs:179-202 | A sublist has as many entries as there are findings that belong to it |
| AppendixAccounting.FindingsAreConserved | crates/sp42-assessment/src/ga_appendix.rs:179-231 | The six sublists together have as many entries as the report has findings, and the unconfirmed, dead-link and unreadable counts are the lengths of their sublists |
| AppendixAccounting.AppendixShowsReport | crates/sp42-assessment/src/ga_appendix.rs:159-267 | For every report and markup-free version, every `<` of the output starts an alternating `<nowiki>` or `</nowiki>`, no brace stands outside a span, and the spans decode to exactly the report's fields, section by section: findings, skips, books, failures, title |
| AppendixAccounting.BodyShows | crates/sp42-assessment/src/ga_appendix.rs:166-267 | The links of the appendix are exactly the sources and archived originals of the findings, in order |
| AppendixAccounting.AppendixCitesIff | crates/sp42-assessment/src/ga_appendix.rs:48-81 | The whole output contains a raw cite id if and only if the version, a shown field or a link target of the report does |
| AppendixAccounting.AppendixWordsIff | crates/sp42-assessment/src/copy.rs:154-158 | The whole output contains a listed word if and only if the version, a shown field or an encoded link target of the report does: no fixed text, number or date does |
| AppendixAccounting.FailuresAreClean | crates/sp42-assessment/src/ga_appendix.rs:237-248 | What the failures section contributes contains neither, for every report |
| AppendixSummary.SummaryReadsBack | crates/sp42-assessment/src/ga_appendix.rs:179-223 | The digit runs of the summary's text are ten numbers in a fixed order, three of them the numbers of findings that belong to a sublist, and the lengths of the sublists printed below |
| AppendixRenderer.RenderBucket | crates/sp42-assessment/src/ga_appendix.rs:466-502 | Appends nothing for an empty sublist, else its heading and one line per finding of the sublist in report order |
| AppendixRenderer.RenderSkippedSection | crates/sp42-assessment/src/ga_appendix.rs:306-385 | Appends the skipped-refs section, one line per skip in order |
| AppendixRenderer.RenderBooksSection | crates/sp42-assessment/src/ga_appendix.rs:390-464 | Appends the books section exactly when some book was resolved, one line per resolved book in order |
| AppendixRenderer.RenderFailures | crates/sp42-assessment/src/ga_appendix.rs:237-248 | Appends one line per extraction failure with its sanitized reason |
| AppendixRenderer.RenderGaAppendix | crates/sp42-assessment/src/ga_appendix.rs:159-267 | The text built push by push is the appendix the theorems speak of, and reads back as exactly the report's fields |

## Assumptions about the environment

- A failed storage operation leaves the store unchanged, and a runtime owns its checkpoint key.
- The event source follows section 9.2 of the WHATWG HTML Living Standard: reconnecting with an id resumes just after
  the event with that id. Reconnecting without one restarts the modelled log. A failed reconnect may leave the source
  anywhere in the log.
- A backlog server answers each continuation token with a fixed page, when it answers; the pages form a chain.
- Crashes happen between calls, not inside one.
- The version string contains no `<`, `{` or `}` (`MarkupFree`), where a theorem says so.

## Left out

- CoordinationRuntime.CoordinationRuntime.Broadcast: stands for the six send methods, which differ only in the message they build and the warning they log; logging is not modelled.
- CoordinationRuntime.CoordinationRuntime.DrainIncoming: on failure the collected batch is dropped by the code; the contract says which messages were folded but cannot return them.
- StreamRuntime.StreamRuntime.DrainActionableEvents: on failure the edits already collected are lost to the caller although they were checkpointed; the contract says so, and runs are built from single reads.
- StreamRuns.LosslessResume: after a failure that skipped an actionable event, or a failed reconnect or restart, a run goes on only with a successful reconnect or restart; ReadingOnIsSafeIff gives the exact condition for the former, and a failed reconnect may leave the source anywhere.
- BacklogRuntime.PagingIsExactlyOnce: a process that found a stored token polls only once it is initialized or reset (UninitializedPollIff), and batches applied from elsewhere are the page in turn (AppliedBatchIff).
- Appendix line renderers: modelled as functions giving the pushed pieces; only the section and page renderers are methods. Adjacent pushes of fixed text are one piece, and the brackets of an external link belong to the link.
- Strings: sequences of Unicode scalar values; byte offsets and UTF-8 encoding are not modelled. Whitespace is the Unicode White_Space property.
- Library calls: `sort_unstable`, `dedup`, `trim`, `replace`, `split`, `find` and integer `parse` are functions written out here, not the library's algorithms.
- Integer widths: `i32`, `i64`, `u16`, `u32` and `u64` are bounded where arithmetic saturates or could overflow; list lengths and the ordinal shown in `ref #` are unbounded.
- Server fan-out of coordination messages: delivery is arbitrary per-replica logs. The state summary, counters and status getters only copy fields.
- Review signals: their contents are ignored by the reducer, so only the wiki id is kept.
- JSON and MessagePack: decoded values are the starting point, with undecodable input as a case.
- Edit events: the classification of editors by IP address and the content model of a namespace are not part of this model; the editor is the raw user name.
- Backlog response filter: the per-item filters of `parse_recent_changes_response` are not modelled; a page carries its events.
- `to_query_string`: joins pairs without percent-encoding and has no parser.
- HTTP, URL parsing, inference, ranking, reports, command line, desktop and browser code.
