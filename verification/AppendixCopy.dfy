/** The fixed English texts of the appendix, in one place. Long texts are sums of literals that break between
    words. */
module AppendixCopy {
  import opened Machine
  import opened VerificationReport

  function AppendixHeading(): string
  {
    "== SP42 evidence " + "appendix =="
  }

  function AssessedScope(): string
  {
    "''This appendix carries " + "evidence for criterion " + "2b (inline citations "
    + "support the text) only; "
  }

  function AssessedLimit(): string
  {
    "all other criteria and " + "sub-criteria were not " + "assessed by the tool.''"
  }

  function CriterionHeading(): string
  {
    "=== Criterion 2 " + "(verifiable) — " + "[[Wikipedia:Good " + "article criteria|GA " + "criteria]] ==="
  }

  function DisagreementsHeading(): string
  {
    "==== Claim–source " + "disagreements ===="
  }

  function RecoveredHeading(): string
  {
    "==== Supported via " + "archive copy (citation " + "update suggested) ===="
  }

  function DeadLinksHeading(): string
  {
    "==== Dead links (no " + "archive copy found) " + "===="
  }

  function UnreadableHeading(): string
  {
    "==== Sources the tool " + "could not read (tool " + "limitation — the " + "citations may be fine) "
    + "===="
  }

  function UnconfirmedHeading(): string
  {
    "==== Unconfirmed " + "supports (judged " + "supported, quote not " + "re-located) ===="
  }

  function SupportedHeading(): string
  {
    "==== Supported " + "spot-checks ===="
  }

  function SkippedHeading(): string
  {
    "==== Not " + "machine-verified (book " + "and offline sources) " + "===="
  }

  function FailuresHeading(): string
  {
    "==== Refs the tool " + "could not process ===="
  }

  function BooksHeading(): string
  {
    "==== Books consulted " + "===="
  }

  function FramingLine(): string
  {
    "This is a " + "tool-generated evidence " + "appendix; the criteria " + "judgments and the "
    + "review outcome are the " + "reviewer's."
  }

  function ExplainerUrl(): string
  {
    "https://github.com/" + "schiste/SP42/blob/" + "main/docs/domains/" + "assessment/what-is-"
    + "this-appendix.md"
  }

  function NoSupportByPanel(): string
  {
    "the source and this " + "claim disagree — the " + "panel found no support " + "for the claim in the "
    + "source"
  }

  function NoSupportBySearch(): string
  {
    "the source was searched " + "and no supporting " + "passage was found"
  }

  function PartialSupport(): string
  {
    "the source only " + "partially supports this " + "claim"
  }

  function FullSupport(): string
  {
    "the source supports " + "this claim"
  }

  function UnlocatedNote(): string
  {
    "the supporting quote " + "could not be re-located " + "in the source"
  }

  function ApproximateNote(): string
  {
    "the supporting quote " + "matched the source only " + "approximately"
  }

  function NoPassageLine(): string
  {
    "no supporting passage " + "was found in the source"
  }

  function ExcerptContextLabel(): string
  {
    "context the tool read " + "(not evidence)"
  }

  function PanelSplitLine(): string
  {
    "the review panel split " + "on this reading — treat " + "as low-confidence"
  }

  function ArchiveHandlePrefix(): string
  {
    "verified against an " + "archive copy of"
  }

  function PdfText(): string
  {
    "a PDF the tool cannot " + "read"
  }

  function ViewerText(): string
  {
    "an interactive viewer " + "page with no readable " + "text"
  }

  function PaywallText(): string
  {
    "a paywall or " + "registration page"
  }

  function ShortText(): string
  {
    "the page returned too " + "little readable text"
  }

  function ChallengeText(): string
  {
    "an anti-bot challenge " + "page"
  }

  function ArchivePageText(): string
  {
    "an archive page without " + "readable article " + "content"
  }

  function PageCodeText(): string
  {
    "page code instead of " + "article text"
  }

  function StorefrontText(): string
  {
    "a storefront stub page"
  }

  function UnusedPageText(): string
  {
    "a page the panel could " + "not use"
  }

  function UnusableGeneric(): string
  {
    "a page the tool fetched " + "but could not use"
  }

  function SkippedNonUrl(): string
  {
    "cites a book or offline " + "source the tool does " + "not verify"
  }

  function SkippedBookUnresolved(): string
  {
    "cites a book whose " + "identifier matched no " + "catalog record the tool " + "could use"
  }

  function LookupFailedText(): string
  {
    "cites a book whose " + "catalog lookup did not " + "complete — "
  }

  function LookupFailedMeaning(): string
  {
    "the tool could not " + "reach the catalog; " + "nothing is implied " + "about the book"
  }

  function SkippedShortCite(): string
  {
    "is a short cite the " + "tool could not resolve " + "to a bibliography entry " + "with a usable "
    + "identifier"
  }

  function BookScanExact(): string
  {
    "scanned (exact edition)"
  }

  function BookScanSimilarOnly(): string
  {
    "scanned (similar " + "edition only)"
  }

  function BookScanNone(): string
  {
    "not scanned in the " + "tool's catalog"
  }

  function BookScanExactUnsearchable(): string
  {
    "an exact-edition scan " + "is cataloged, but the " + "tool could not identify " + "it to search it"
  }

  function BookScanUnknown(): string
  {
    "scan availability " + "unknown (the lookup did " + "not complete)"
  }

  function AssessedLine(): string
  {
    AssessedScope() + AssessedLimit()
  }

  function SkippedLookupFailed(): string
  {
    LookupFailedText() + LookupFailedMeaning()
  }

  function BucketHeading(bucket: Bucket): string
  {
    match bucket
    case Disagreements => DisagreementsHeading()
    case Recovered => RecoveredHeading()
    case DeadLinks => DeadLinksHeading()
    case Unreadable => UnreadableHeading()
    case Unconfirmed => UnconfirmedHeading()
    case SupportedChecks => SupportedHeading()
  }

  /** `disagreement_verdict`: without a panel the outcome is the search's. */
  function DisagreementVerdict(level: SupportLevel, panelJudged: bool): string
  {
    match level
    case NotSupported => if panelJudged then NoSupportByPanel() else NoSupportBySearch()
    case Partial => PartialSupport()
    case Supported => FullSupport()
  }

  /** `grounding_annotation`: the note for a quote that was not exactly located. */
  function GroundingAnnotation(grounding: Grounding): Option<string>
  {
    match grounding
    case Located => None
    case LocatedFuzzy => Some(ApproximateNote())
    case Unlocated => Some(UnlocatedNote())
    case NotApplicable => Some(UnlocatedNote())
  }

  /** `unusable_reason`. */
  function UnusableReason(reason: UsabilityReason): string
  {
    match reason
    case PdfBody => PdfText()
    case ViewerShell => ViewerText()
    case NavChromePaywall => PaywallText()
    case ShortBody => ShortText()
    case AntiBotChallenge => ChallengeText()
    case WaybackRedirectNotice => ArchivePageText()
    case WaybackChrome => ArchivePageText()
    case JsonLdLeak => PageCodeText()
    case CssLeak => PageCodeText()
    case AmazonStub => StorefrontText()
    case UsableBody => UnusedPageText()
  }
}
