/** The page-verification report an appendix is rendered from, and the sublist each finding belongs to. */
module VerificationReport {
  import opened Machine

  datatype SupportLevel = Supported | Partial | NotSupported
  datatype Verdict = Judged(level: SupportLevel) | SourceUnavailable
  datatype Grounding = Located | LocatedFuzzy | Unlocated | NotApplicable
  datatype UnavailableReason = Unreachable | Unusable
  datatype UsabilityReason =
    | UsableBody | JsonLdLeak | CssLeak | AntiBotChallenge | WaybackRedirectNotice | WaybackChrome | AmazonStub
    | ShortBody | PdfBody | ViewerShell | NavChromePaywall

  datatype BookScan = BookScan(scannedPage: Option<nat>, citedPage: Option<string>, note: Option<string>)

  datatype Finding = Finding(
    verdict: Verdict, grounding: Grounding, unavailableReason: Option<UnavailableReason>,
    unusableReason: Option<UsabilityReason>, panelSize: nat, winnerVotes: nat, quote: Option<string>,
    excerpt: Option<string>, url: string, archiveOf: Option<string>, bookScan: Option<BookScan>,
    ordinal: nat, refId: string, claim: string)

  datatype BookIdentifier = Isbn(v: string) | Oclc(v: string) | Lccn(v: string) | Olid(v: string)
  datatype BookSource = BookSource(identifiers: seq<BookIdentifier>, citedPage: Option<string>)
  datatype SkippedReason = NonUrlSource | FromBook | UnresolvedShortCite
  datatype SkippedRef = SkippedRef(refId: string, reason: SkippedReason, block: nat, sources: seq<BookSource>)
  datatype ScanItem = ScanItem(ocaid: Option<string>)
  datatype Availability = Availability(exact: seq<ScanItem>, similar: seq<ScanItem>)
  datatype Outcome = Resolved(title: Option<string>, scan: Option<Availability>) | NotFound | LookupFailed
  datatype BookResolution = BookResolution(
    refId: string, block: nat, identifiers: seq<BookIdentifier>, citedPage: Option<string>, outcome: Outcome)
  datatype Failure = Failure(block: nat, reason: string)
  datatype Stats = Stats(
    refsSeen: nat, verified: nat, supported: nat, partial: nat, notSupported: nat, skipped: nat, failures: nat)

  datatype Report = Report(
    revId: nat, title: string, findings: seq<Finding>, skipped: seq<SkippedRef>, failures: seq<Failure>,
    books: seq<BookResolution>, stats: Stats)

  datatype Bucket = Disagreements | Recovered | DeadLinks | Unreadable | Unconfirmed | SupportedChecks

  const BUCKETS: seq<Bucket> := [Disagreements, Recovered, DeadLinks, Unreadable, Unconfirmed, SupportedChecks]

  function BucketFor(f: Finding): Bucket
  {
    match f.verdict
    case Judged(NotSupported) => Disagreements
    case Judged(Partial) => Disagreements
    case Judged(Supported) =>
      if f.grounding.Located? then (if f.archiveOf.Some? then Recovered else SupportedChecks) else Unconfirmed
    case SourceUnavailable =>
      if f.bookScan.Some? then Unreadable
      else
        match f.unavailableReason
        case Some(Unusable) => Unreadable
        case _ => DeadLinks
  }

  /** Which findings a sublist is for, on the finding's own fields. */
  predicate Belongs(f: Finding, bucket: Bucket)
  {
    match bucket
    case Disagreements => f.verdict == Judged(NotSupported) || f.verdict == Judged(Partial)
    case Recovered => f.verdict == Judged(Supported) && f.grounding == Located && f.archiveOf.Some?
    case SupportedChecks => f.verdict == Judged(Supported) && f.grounding == Located && f.archiveOf.None?
    case Unconfirmed => f.verdict == Judged(Supported) && f.grounding != Located
    case DeadLinks =>
      f.verdict == SourceUnavailable && f.bookScan.None? && f.unavailableReason != Some(Unusable)
    case Unreadable =>
      f.verdict == SourceUnavailable && (f.bookScan.Some? || f.unavailableReason == Some(Unusable))
  }

  /** Every finding belongs to one sublist, the one it is put in. */
  lemma BucketExactly(f: Finding, bucket: Bucket)
    ensures BucketFor(f) == bucket <==> Belongs(f, bucket)
  {
  }
}
