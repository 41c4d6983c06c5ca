/** The GA evidence appendix as the sequence of pieces its renderer pushes: what each finding, skip, book and
    failure contributes. */
module Appendix {
  import opened Machine
  import opened Text
  import opened Timestamps
  import opened ToolWording
  import opened CiteLabels
  import opened Pieces
  import opened VerificationReport
  import opened AppendixCopy

  /** `truncate_claim`: the first characters, and an ellipsis exactly if some are left out. */
  function TruncateClaim(text: string, maxLen: nat): (r: string)
    ensures |text| <= maxLen ==> r == text
    ensures |text| > maxLen ==> |r| == maxLen + 1 && r[..maxLen] == text[..maxLen] && r[maxLen] == '…'
  {
    if |text| > maxLen then text[..maxLen] + "…" else text
  }

  function NamePieces(name: string): seq<Piece>
  {
    [Copy("ref \""), Verbatim(name), Copy("\"")]
  }

  /** `ref_label`, as pushed. */
  function RefPieces(refId: string, ordinal: nat): seq<Piece>
  {
    match RefName(refId)
    case Some(name) => NamePieces(name)
    case None => [Copy("ref #" + PrintNat(ordinal + 1))]
  }

  /** `skip_label`, as pushed. */
  function SkipPieces(refId: string, block: nat): seq<Piece>
  {
    match RefName(refId)
    case Some(name) => NamePieces(name)
    case None => [Copy(BlockLabel(block))]
  }

  /** The scanned page, when it differs from the page the citation names. */
  function PagePieces(scan: BookScan): seq<Piece>
  {
    if scan.scannedPage.Some? && scan.citedPage.Some? && PrintNat(scan.scannedPage.value) != scan.citedPage.value then
      [Copy("the passage was " + "located on scanned page " + PrintNat(scan.scannedPage.value)
            + "; the citation names p. "),
       Verbatim(scan.citedPage.value)]
    else []
  }

  function NotePieces(scan: BookScan): seq<Piece>
  {
    if scan.note.Some? then [Verbatim(Neutral(scan.note.value))] else []
  }

  /** `book_scan_annotation`, in its parentheses, when there is one. */
  function ScanPieces(f: Finding): seq<Piece>
  {
    match f.bookScan
    case None => []
    case Some(scan) =>
      var pages, note := PagePieces(scan), NotePieces(scan);
      if pages == [] && note == [] then []
      else [Copy(" (")] + pages + (if pages != [] && note != [] then [Copy("; ")] else []) + note + [Copy(")")]
  }

  function ArchivePieces(f: Finding): seq<Piece>
  {
    if f.archiveOf.Some? then [Copy(" (" + ArchiveHandlePrefix() + " "), Link(f.archiveOf.value), Copy(")")] else []
  }

  function EvidencePieces(f: Finding): seq<Piece>
  {
    if f.quote.Some? then [Copy(" The panel located: "), Verbatim(f.quote.value), Copy(".")]
    else if f.excerpt.Some? then
      [Copy(" " + ExcerptContextLabel() + ": "), Verbatim(TruncateClaim(f.excerpt.value, 200)), Copy(".")]
    else [Copy(" " + NoPassageLine() + ".")]
  }

  function VerdictText(f: Finding): string
  {
    if f.verdict.Judged? then DisagreementVerdict(f.verdict.level, f.panelSize > 0) else ""
  }

  function VerdictLead(f: Finding): string
  {
    ": " + VerdictText(f) + ". Claim: "
  }

  /** Partial verdicts disclose a quote that was not exactly located. */
  function GroundingPieces(f: Finding): seq<Piece>
  {
    var note := GroundingAnnotation(f.grounding);
    if note.Some? && f.verdict == Judged(Partial) then [Copy(" " + note.value + ".")] else []
  }

  /** Only a real panel can split. */
  function PanelPieces(f: Finding): seq<Piece>
  {
    if f.panelSize > 0 && f.winnerVotes * 2 <= f.panelSize then [Copy(" (" + PanelSplitLine() + ")")] else []
  }

  /** The evidence, its caveats and its source. */
  function DisagreementMiddle(f: Finding): seq<Piece>
  {
    EvidencePieces(f) + GroundingPieces(f) + PanelPieces(f) + [Copy(" — "), Link(f.url)] + ArchivePieces(f)
  }

  function DisagreementLine(f: Finding): seq<Piece>
  {
    [Copy("* ")] + RefPieces(f.refId, f.ordinal)
    + [Copy(VerdictLead(f)), Verbatim(TruncateClaim(f.claim, 200)), Copy(".")]
    + DisagreementMiddle(f) + ScanPieces(f) + [Copy("\n")]
  }

  function ReplacedPieces(f: Finding): seq<Piece>
  {
    if f.archiveOf.Some? then [Link(f.archiveOf.value)] else [Copy("[]")]
  }

  function ArchiveAdvice(f: Finding): seq<Piece>
  {
    [Copy(": supported via an " + "archive copy — update " + "the citation to "), Link(f.url),
     Copy(" (replacing the dead " + "link: ")]
  }

  function RecoveredLine(f: Finding): seq<Piece>
  {
    [Copy("* ")] + RefPieces(f.refId, f.ordinal) + ArchiveAdvice(f) + ReplacedPieces(f)
    + [Copy("). Claim: "), Verbatim(TruncateClaim(f.claim, 120)), Copy(".\n")]
  }

  function DeadLinkLine(f: Finding): seq<Piece>
  {
    [Copy("* ")] + RefPieces(f.refId, f.ordinal)
    + [Copy(": the source could not " + "be fetched (link may " + "be dead): "), Link(f.url)]
    + ScanPieces(f) + [Copy("\n")]
  }

  /** An unreachable book scan was never fetched; anything else was fetched and could not be read. */
  function UnreadableReason(f: Finding): seq<Piece>
  {
    var reason := if f.unusableReason.Some? then UnusableReason(f.unusableReason.value) else UnusableGeneric();
    if f.bookScan.Some? && f.unavailableReason == Some(Unreachable) then
      [Copy(": the tool could not " + "reach the book scan at "), Link(f.url),
       Copy(" — the citation " + "may be fine.")]
    else
      [Copy(": the tool fetched "), Link(f.url), Copy(" but read " + reason + " — the citation " + "may be fine.")]
  }

  function UnreadableLine(f: Finding): seq<Piece>
  {
    [Copy("* ")] + RefPieces(f.refId, f.ordinal) + UnreadableReason(f) + ScanPieces(f) + [Copy("\n")]
  }

  function NoteText(f: Finding): string
  {
    match GroundingAnnotation(f.grounding)
    case Some(note) => note
    case None => ""
  }

  function NoteLead(f: Finding): string
  {
    ": judged supported, but " + NoteText(f) + ". Claim: "
  }

  function UnconfirmedLine(f: Finding): seq<Piece>
  {
    [Copy("* ")] + RefPieces(f.refId, f.ordinal)
    + [Copy(NoteLead(f)), Verbatim(TruncateClaim(f.claim, 80))]
    + [Copy(". — "), Link(f.url)] + ArchivePieces(f) + ScanPieces(f) + [Copy("\n")]
  }

  function SupportedLine(f: Finding): seq<Piece>
  {
    [Copy("* ")] + RefPieces(f.refId, f.ordinal)
    + [Copy(": supported — "), Verbatim(TruncateClaim(f.claim, 80))]
    + [Copy(" — "), Link(f.url), Copy(" (quote located)")] + ScanPieces(f) + [Copy("\n")]
  }

  function Line(f: Finding, bucket: Bucket): seq<Piece>
  {
    match bucket
    case Disagreements => DisagreementLine(f)
    case Recovered => RecoveredLine(f)
    case DeadLinks => DeadLinkLine(f)
    case Unreadable => UnreadableLine(f)
    case Unconfirmed => UnconfirmedLine(f)
    case SupportedChecks => SupportedLine(f)
  }

  // ---------------------------------------------------------------------------
  // Sections.

  /** The positions of the findings of one bucket, in report order. */
  function InBucket(fs: seq<Finding>, bucket: Bucket): (r: seq<nat>)
    ensures forall k :: 0 <= k < |r| ==> r[k] < |fs| && BucketFor(fs[r[k]]) == bucket
    ensures forall j, k :: 0 <= j < k < |r| ==> r[j] < r[k]
    ensures forall i :: 0 <= i < |fs| && BucketFor(fs[i]) == bucket ==> i in r
  {
    if fs == [] then []
    else
      var n := |fs| - 1;
      var before := InBucket(fs[..n], bucket);
      if BucketFor(fs[n]) == bucket then before + [n] else before
  }

  function Lines(fs: seq<Finding>, positions: seq<nat>, bucket: Bucket): seq<Piece>
    requires forall k :: 0 <= k < |positions| ==> positions[k] < |fs|
  {
    if positions == [] then []
    else
      var n := |positions| - 1;
      Lines(fs, positions[..n], bucket) + Line(fs[positions[n]], bucket)
  }

  function Heading(text: string): Piece
  {
    Copy("\n" + text + "\n")
  }

  function BucketSection(fs: seq<Finding>, bucket: Bucket): seq<Piece>
  {
    var positions := InBucket(fs, bucket);
    if positions == [] then [] else [Heading(BucketHeading(bucket))] + Lines(fs, positions, bucket)
  }

  function IdentifierText(id: BookIdentifier): string
  {
    match id
    case Isbn(v) => "ISBN " + v
    case Oclc(v) => "OCLC " + v
    case Lccn(v) => "LCCN " + v
    case Olid(v) => "Open Library id " + v
  }

  function IdentifierList(ids: seq<BookIdentifier>): seq<Piece>
  {
    if ids == [] then []
    else if |ids| == 1 then [Verbatim(IdentifierText(ids[0]))]
    else [Verbatim(IdentifierText(ids[0])), Copy(", ")] + IdentifierList(ids[1..])
  }

  function CitedPiece(page: Option<string>): seq<Piece>
  {
    match page
    case Some(p) => [Copy(", p. "), Verbatim(p)]
    case None => []
  }

  /** The end of a book's line: a text, then which book it is. */
  function BookTail(text: string, ids: seq<BookIdentifier>, page: Option<string>): seq<Piece>
  {
    if ids == [] then [Copy(text + "\n")]
    else [Copy(text + " (")] + IdentifierList(ids) + CitedPiece(page) + [Copy(")\n")]
  }

  function AllIdentifiers(sources: seq<BookSource>): seq<BookIdentifier>
  {
    if sources == [] then [] else sources[0].identifiers + AllIdentifiers(sources[1..])
  }

  function FirstPage(sources: seq<BookSource>): Option<string>
  {
    if sources == [] then None
    else if sources[0].citedPage.Some? then sources[0].citedPage
    else FirstPage(sources[1..])
  }

  /** The outcome of the resolution a skip belongs to: same ref, and a shared identifier if it has any. */
  function SkipOutcome(skip: SkippedRef, books: seq<BookResolution>): Option<Outcome>
  {
    if books == [] then None
    else
      var ids := AllIdentifiers(skip.sources);
      if books[0].refId == skip.refId && (ids == [] || exists id :: id in books[0].identifiers && id in ids)
      then Some(books[0].outcome)
      else SkipOutcome(skip, books[1..])
  }

  function SkipReasonText(skip: SkippedRef, books: seq<BookResolution>): string
  {
    match skip.reason
    case NonUrlSource => SkippedNonUrl()
    case FromBook =>
      if SkipOutcome(skip, books) == Some(LookupFailed) then SkippedLookupFailed() else SkippedBookUnresolved()
    case UnresolvedShortCite => SkippedShortCite()
  }

  function SkipLine(skip: SkippedRef, books: seq<BookResolution>): seq<Piece>
  {
    [Copy("* ")] + SkipPieces(skip.refId, skip.block)
    + BookTail(": " + SkipReasonText(skip, books), AllIdentifiers(skip.sources), FirstPage(skip.sources))
  }

  function SkipLines(skips: seq<SkippedRef>, books: seq<BookResolution>): seq<Piece>
  {
    if skips == [] then []
    else SkipLines(skips[..|skips| - 1], books) + SkipLine(skips[|skips| - 1], books)
  }

  function SkippedSection(r: Report): seq<Piece>
  {
    if r.skipped == [] then [] else [Heading(SkippedHeading())] + SkipLines(r.skipped, r.books)
  }

  function ScanText(scan: Option<Availability>): string
  {
    match scan
    case None => BookScanUnknown()
    case Some(a) =>
      if exists item :: item in a.exact && item.ocaid.Some? then BookScanExact()
      else if a.exact != [] then BookScanExactUnsearchable()
      else if a.similar != [] then BookScanSimilarOnly()
      else BookScanNone()
  }

  function TitlePieces(title: Option<string>): seq<Piece>
  {
    match title
    case Some(t) => [Copy(": "), Verbatim(t)]
    case None => [Copy(": (untitled book)")]
  }

  function BookLine(b: BookResolution): seq<Piece>
    requires b.outcome.Resolved?
  {
    [Copy("* ")] + SkipPieces(b.refId, b.block) + TitlePieces(b.outcome.title)
    + BookTail(" — " + ScanText(b.outcome.scan), b.identifiers, b.citedPage)
  }

  function BookLines(bs: seq<BookResolution>): seq<Piece>
  {
    if bs == [] then []
    else
      var before, b := BookLines(bs[..|bs| - 1]), bs[|bs| - 1];
      if b.outcome.Resolved? then before + BookLine(b) else before
  }

  function BooksSection(r: Report): seq<Piece>
  {
    if !(exists b :: b in r.books && b.outcome.Resolved?) then []
    else [Heading(BooksHeading())] + BookLines(r.books)
  }

  function FailureLine(f: Failure): seq<Piece>
  {
    [Copy("* "), Verbatim(Neutral(Relabelled(f.reason, f.block))), Copy("\n")]
  }

  function FailureLines(fs: seq<Failure>): seq<Piece>
  {
    if fs == [] then [] else FailureLines(fs[..|fs| - 1]) + FailureLine(fs[|fs| - 1])
  }

  function FailuresSection(r: Report): seq<Piece>
  {
    if r.failures == [] then [] else [Heading(FailuresHeading())] + FailureLines(r.failures)
  }

  // ---------------------------------------------------------------------------
  // The summary, the header and the footer.

  predicate SupportedButNotLocated(f: Finding)
  {
    f.verdict == Judged(Supported) && !f.grounding.Located?
  }

  function CountUnconfirmed(fs: seq<Finding>): nat
  {
    if fs == [] then 0
    else CountUnconfirmed(fs[..|fs| - 1]) + if SupportedButNotLocated(fs[|fs| - 1]) then 1 else 0
  }

  function CountBucket(fs: seq<Finding>, bucket: Bucket): nat
  {
    if fs == [] then 0
    else CountBucket(fs[..|fs| - 1], bucket) + if BucketFor(fs[|fs| - 1]) == bucket then 1 else 0
  }

  /** The singular for exactly one. */
  function Plural(count: nat, one: string, many: string): (r: string)
    ensures r in {one, many} && (one != many ==> (r == one <==> 0 < count < 2))
  {
    if count == 1 then one else many
  }

  /** What was checked. */
  function CheckedText(r: Report): string
  {
    "'Of " + PrintNat(r.stats.refsSeen) + " references, "
    + PrintNat(r.stats.verified) + " citation use-sites " + "were machine-checked: "
  }

  /** How it came out. */
  function OutcomeText(r: Report): string
  {
    PrintNat(r.stats.supported) + " supported ("
    + PrintNat(CountUnconfirmed(r.findings)) + " of them unconfirmed), "
    + PrintNat(r.stats.partial) + " partially supported, "
    + PrintNat(r.stats.notSupported) + " where claim and " + "source disagree, "
  }

  /** What could not be read. */
  function UnreadText(r: Report): string
  {
    var dead, unreadable := CountBucket(r.findings, DeadLinks), CountBucket(r.findings, Unreadable);
    PrintNat(dead) + " dead " + Plural(dead, "link", "links") + ", "
    + PrintNat(unreadable) + " " + Plural(unreadable, "source", "sources") + " the tool could " + "not read; "
  }

  /** What was not checked. */
  function UncheckedText(r: Report): string
  {
    PrintNat(r.stats.skipped) + " book/offline " + Plural(r.stats.skipped, "ref", "refs") + " and "
    + PrintNat(r.stats.failures) + " unprocessable " + Plural(r.stats.failures, "ref", "refs")
    + " were not checked.'\n"
  }

  function SummaryText(r: Report): string
  {
    CheckedText(r) + OutcomeText(r) + UnreadText(r) + UncheckedText(r)
  }

  function HeaderText(): string
  {
    AppendixHeading() + "\n\n" + AssessedLine() + "\n\n" + CriterionHeading() + "\n"
  }

  function Header(r: Report): seq<Piece>
  {
    [Copy(HeaderText()), Copy(SummaryText(r))]
  }

  function RenderNote(r: Report, renderedAtMs: i64): string
  {
    " at rev " + PrintNat(r.revId) + " · rendered " + FormatUtcDate(renderedAtMs)
    + " (render date, not " + "verification date) " + "· SP42 "
  }

  function Footer(r: Report, renderedAtMs: i64): seq<Piece>
  {
    [Copy("\n----\n''"), Verbatim(r.title), Copy(RenderNote(r, renderedAtMs))]
  }

  /** What follows the version. */
  function Closing(): seq<Piece>
  {
    [Copy(" · " + FramingLine() + " [" + ExplainerUrl() + " What is this?]''")]
  }

  function Buckets(fs: seq<Finding>, bs: seq<Bucket>): seq<Piece>
  {
    if bs == [] then [] else Buckets(fs, bs[..|bs| - 1]) + BucketSection(fs, bs[|bs| - 1])
  }

  /** Everything before the version. */
  function Body(r: Report, renderedAtMs: i64): seq<Piece>
  {
    Header(r) + Buckets(r.findings, BUCKETS) + SkippedSection(r) + BooksSection(r) + FailuresSection(r)
    + Footer(r, renderedAtMs)
  }

  /** Everything `render_ga_appendix` pushes. */
  function AppendixPieces(r: Report, renderedAtMs: i64, version: string): seq<Piece>
  {
    Body(r, renderedAtMs) + [Copy(version)] + Closing()
  }
}
