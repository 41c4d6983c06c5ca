/** No fixed text of the appendix contains markup, an underscore or a listed word. */
module AppendixWording {
  import opened FixedText
  import opened VerificationReport
  import opened AppendixCopy

  lemma HeadingWords1()
    ensures Closed("== SP42 evidence ") && Closed("appendix ==") && Closed("==== Not ")
  {
  }

  lemma HeadingWords2()
    ensures Closed("machine-verified (book ") && Closed("and offline sources) ") && Closed("====")
  {
  }

  lemma HeadingWords3()
    ensures Closed("==== Refs the tool ") && Closed("could not process ====")
  {
  }

  lemma HeadingWords4()
    ensures Closed("==== Books consulted ")
  {
  }

  lemma HeadingsAreBland()
    ensures Bland(AppendixHeading()) && Bland(SkippedHeading()) && Bland(FailuresHeading()) && Bland(BooksHeading())
  {
    hide Bland, Closed, Opens;
    SumRules();
    HeadingWords1();
    HeadingWords2();
    HeadingWords3();
    HeadingWords4();
  }

  lemma CriterionWords1()
    ensures Closed("=== Criterion 2 ") && Closed("(verifiable) — ") && Closed("[[Wikipedia:Good ")
  {
  }

  lemma CriterionWords2()
    ensures Closed("article criteria|GA ") && Closed("criteria]] ===")
  {
  }

  lemma CriterionHeadingIsBland()
    ensures Bland(CriterionHeading())
  {
    hide Bland, Closed, Opens;
    SumRules();
    CriterionWords1();
    CriterionWords2();
  }

  lemma BucketWords1()
    ensures Closed("==== Claim–source ") && Closed("disagreements ====")
  {
  }

  lemma BucketWords2()
    ensures Closed("==== Supported via ") && Closed("archive copy (citation ")
  {
  }

  lemma BucketWords3()
    ensures Closed("update suggested) ====") && Closed("==== Dead links (no ")
  {
  }

  lemma BucketWords4()
    ensures Closed("archive copy found) ") && Closed("====")
  {
  }

  lemma FirstBucketsAreBland()
    ensures Bland(DisagreementsHeading()) && Bland(RecoveredHeading()) && Bland(DeadLinksHeading())
  {
    hide Bland, Closed, Opens;
    SumRules();
    BucketWords1();
    BucketWords2();
    BucketWords3();
    BucketWords4();
  }

  lemma LaterBucketWords1()
    ensures Closed("==== Sources the tool ") && Closed("could not read (tool ")
  {
  }

  lemma LaterBucketWords2()
    ensures Closed("limitation — the ") && Closed("citations may be fine) ") && Closed("====")
  {
  }

  lemma LaterBucketWords3()
    ensures Closed("==== Unconfirmed ") && Closed("supports (judged ")
  {
  }

  lemma LaterBucketWords4()
    ensures Closed("supported, quote not ") && Closed("re-located) ====")
  {
  }

  lemma LaterBucketWords5()
    ensures Closed("==== Supported ") && Closed("spot-checks ====")
  {
  }

  lemma LaterBucketsAreBland()
    ensures Bland(UnreadableHeading()) && Bland(UnconfirmedHeading()) && Bland(SupportedHeading())
  {
    hide Bland, Closed, Opens;
    SumRules();
    LaterBucketWords1();
    LaterBucketWords2();
    LaterBucketWords3();
    LaterBucketWords4();
    LaterBucketWords5();
  }

  lemma ScopeWords1()
    ensures Closed("''This appendix carries ") && Closed("evidence for criterion ")
  {
  }

  lemma ScopeWords2()
    ensures Closed("2b (inline citations ") && Closed("support the text) only; ")
  {
  }

  lemma AssessedScopeIsBland()
    ensures Closed(AssessedScope())
  {
    hide Bland, Closed, Opens;
    SumRules();
    ScopeWords1();
    ScopeWords2();
  }

  lemma LimitWords1()
    ensures Closed("all other criteria and ") && Closed("sub-criteria were not ")
  {
  }

  lemma LimitWords2()
    ensures Closed("assessed by the tool.''")
  {
  }

  lemma AssessedLimitIsBland()
    ensures Bland(AssessedLimit())
  {
    hide Bland, Closed, Opens;
    SumRules();
    LimitWords1();
    LimitWords2();
  }

  lemma FramingWords1()
    ensures Closed("This is a ") && Closed("tool-generated evidence ")
  {
  }

  lemma FramingWords2()
    ensures Closed("appendix; the criteria ") && Closed("judgments and the ")
  {
  }

  lemma FramingWords3()
    ensures Closed("review outcome are the ") && Closed("reviewer's.")
  {
  }

  lemma FramingIsBland()
    ensures Bland(FramingLine())
  {
    hide Bland, Closed, Opens;
    SumRules();
    FramingWords1();
    FramingWords2();
    FramingWords3();
  }

  lemma ExplainerWords1()
    ensures Closed("https://github.com/") && Closed("schiste/SP42/blob/")
  {
  }

  lemma ExplainerWords2()
    ensures Closed("main/docs/domains/") && Closed("assessment/what-is-")
  {
  }

  lemma ExplainerWords3()
    ensures Bland("this-appendix.md")
  {
  }

  lemma ExplainerUrlIsBland()
    ensures Bland(ExplainerUrl())
  {
    hide Bland, Closed, Opens;
    SumRules();
    ExplainerWords1();
    ExplainerWords2();
    ExplainerWords3();
  }

  lemma UnsupportedWords1()
    ensures Closed("the source and this ") && Closed("claim disagree — the ")
  {
  }

  lemma UnsupportedWords2()
    ensures Closed("panel found no support ") && Closed("for the claim in the ") && Bland("source")
  {
  }

  lemma UnsupportedWords3()
    ensures Closed("the source was searched ") && Closed("and no supporting ")
  {
  }

  lemma UnsupportedWords4()
    ensures Bland("passage was found")
  {
  }

  lemma UnsupportedVerdictsAreBland()
    ensures Bland(NoSupportByPanel()) && Bland(NoSupportBySearch())
  {
    hide Bland, Closed, Opens;
    SumRules();
    UnsupportedWords1();
    UnsupportedWords2();
    UnsupportedWords3();
    UnsupportedWords4();
  }

  lemma SupportWords1()
    ensures Closed("the source only ") && Closed("partially supports this ") && Bland("claim")
  {
  }

  lemma SupportWords2()
    ensures Closed("the source supports ") && Bland("this claim")
  {
  }

  lemma SupportVerdictsAreBland()
    ensures Bland(PartialSupport()) && Bland(FullSupport())
  {
    hide Bland, Closed, Opens;
    SumRules();
    SupportWords1();
    SupportWords2();
  }

  lemma NoteWords1()
    ensures Closed("the supporting quote ") && Closed("could not be re-located ")
  {
  }

  lemma NoteWords2()
    ensures Bland("in the source") && Closed("matched the source only ") && Bland("approximately")
  {
  }

  lemma NotesAreBland()
    ensures Bland(UnlocatedNote()) && Bland(ApproximateNote())
  {
    hide Bland, Closed, Opens;
    SumRules();
    NoteWords1();
    NoteWords2();
  }

  lemma EvidenceWords1()
    ensures Closed("no supporting passage ") && Bland("was found in the source")
  {
  }

  lemma EvidenceWords2()
    ensures Closed("context the tool read ") && Closed("(not evidence)")
  {
  }

  lemma EvidenceLabelsAreBland()
    ensures Bland(NoPassageLine()) && Bland(ExcerptContextLabel())
  {
    hide Bland, Closed, Opens;
    SumRules();
    EvidenceWords1();
    EvidenceWords2();
  }

  lemma PanelWords1()
    ensures Closed("the review panel split ") && Closed("on this reading — treat ")
  {
  }

  lemma PanelWords2()
    ensures Bland("as low-confidence") && Closed("verified against an ")
  {
  }

  lemma PanelWords3()
    ensures Bland("archive copy of")
  {
  }

  lemma PanelSplitIsBland()
    ensures Bland(PanelSplitLine()) && Bland(ArchiveHandlePrefix())
  {
    hide Bland, Closed, Opens;
    SumRules();
    PanelWords1();
    PanelWords2();
    PanelWords3();
  }

  lemma BodyWords1()
    ensures Closed("a PDF the tool cannot ") && Bland("read") && Closed("an interactive viewer ")
  {
  }

  lemma BodyWords2()
    ensures Closed("page with no readable ") && Bland("text")
  {
  }

  lemma BodyWords3()
    ensures Bland("registration page") && Closed("the page returned too ")
  {
  }

  lemma BodyWords4()
    ensures Bland("little readable text") && Closed("a paywall or ")
  {
  }

  lemma BodyReasonsAreBland()
    ensures Bland(PdfText()) && Bland(ViewerText()) && Bland(PaywallText()) && Bland(ShortText())
  {
    hide Bland, Closed, Opens;
    SumRules();
    BodyWords1();
    BodyWords2();
    BodyWords3();
    BodyWords4();
  }

  lemma PageWords1()
    ensures Closed("an anti-bot challenge ") && Bland("page") && Closed("an archive page without ")
  {
  }

  lemma PageWords2()
    ensures Closed("readable article ") && Bland("content") && Closed("page code instead of ")
  {
  }

  lemma PageWords3()
    ensures Bland("article text")
  {
  }

  lemma PageReasonsAreBland()
    ensures Bland(ChallengeText()) && Bland(ArchivePageText()) && Bland(PageCodeText())
  {
    hide Bland, Closed, Opens;
    SumRules();
    PageWords1();
    PageWords2();
    PageWords3();
  }

  lemma OtherWords1()
    ensures Bland("a storefront stub page") && Closed("a page the panel could ")
  {
  }

  lemma OtherWords2()
    ensures Bland("not use") && Closed("a page the tool fetched ") && Bland("but could not use")
  {
  }

  lemma OtherReasonsAreBland()
    ensures Bland(StorefrontText()) && Bland(UnusedPageText()) && Bland(UnusableGeneric())
  {
    hide Bland, Closed, Opens;
    SumRules();
    OtherWords1();
    OtherWords2();
  }

  lemma SkipWords1()
    ensures Closed("cites a book or offline ") && Closed("source the tool does ")
  {
  }

  lemma SkipWords2()
    ensures Bland("not verify") && Closed("cites a book whose ")
  {
  }

  lemma SkipWords3()
    ensures Closed("identifier matched no ") && Closed("catalog record the tool ")
  {
  }

  lemma SkipWords4()
    ensures Bland("could use")
  {
  }

  lemma SkipReasonsAreBland()
    ensures Bland(SkippedNonUrl()) && Bland(SkippedBookUnresolved())
  {
    hide Bland, Closed, Opens;
    SumRules();
    SkipWords1();
    SkipWords2();
    SkipWords3();
    SkipWords4();
  }

  lemma LookupWords1()
    ensures Closed("cites a book whose ") && Closed("catalog lookup did not ")
  {
  }

  lemma LookupWords2()
    ensures Closed("complete — ") && Closed("the tool could not ") && Closed("reach the catalog; ")
  {
  }

  lemma LookupWords3()
    ensures Closed("nothing is implied ") && Bland("about the book")
  {
  }

  lemma LookupFailedIsBland()
    ensures Closed(LookupFailedText()) && Bland(LookupFailedMeaning())
  {
    hide Bland, Closed, Opens;
    SumRules();
    LookupWords1();
    LookupWords2();
    LookupWords3();
  }

  lemma ShortCiteWords1()
    ensures Closed("is a short cite the ") && Closed("tool could not resolve ")
  {
  }

  lemma ShortCiteWords2()
    ensures Closed("to a bibliography entry ") && Closed("with a usable ") && Bland("identifier")
  {
  }

  lemma ShortCiteIsBland()
    ensures Bland(SkippedShortCite())
  {
    hide Bland, Closed, Opens;
    SumRules();
    ShortCiteWords1();
    ShortCiteWords2();
  }

  lemma ScanWords1()
    ensures Closed("scanned (exact edition)") && Closed("scanned (similar ")
  {
  }

  lemma ScanWords2()
    ensures Closed("edition only)") && Closed("not scanned in the ") && Bland("tool's catalog")
  {
  }

  lemma ScansAreBland()
    ensures Bland(BookScanExact()) && Bland(BookScanSimilarOnly()) && Bland(BookScanNone())
  {
    hide Bland, Closed, Opens;
    SumRules();
    ScanWords1();
    ScanWords2();
  }

  lemma OtherScanWords1()
    ensures Closed("an exact-edition scan ") && Closed("is cataloged, but the ")
  {
  }

  lemma OtherScanWords2()
    ensures Closed("tool could not identify ") && Bland("it to search it")
  {
  }

  lemma OtherScanWords3()
    ensures Closed("scan availability ") && Closed("unknown (the lookup did ")
  {
  }

  lemma OtherScanWords4()
    ensures Closed("not complete)")
  {
  }

  lemma OtherScansAreBland()
    ensures Bland(BookScanExactUnsearchable()) && Bland(BookScanUnknown())
  {
    hide Bland, Closed, Opens;
    SumRules();
    OtherScanWords1();
    OtherScanWords2();
    OtherScanWords3();
    OtherScanWords4();
  }

  // The texts by use.

  lemma AssessedLineIsBland()
    ensures Bland(AssessedLine())
  {
    hide Bland, Closed, Opens, AssessedScope, AssessedLimit;
    SumRules();
    AssessedScopeIsBland();
    AssessedLimitIsBland();
  }

  lemma BucketHeadingIsBland(bucket: Bucket)
    ensures Bland(BucketHeading(bucket))
  {
    hide Bland, DisagreementsHeading, RecoveredHeading, DeadLinksHeading, UnreadableHeading, UnconfirmedHeading,
      SupportedHeading;
    FirstBucketsAreBland();
    LaterBucketsAreBland();
  }

  lemma DisagreementVerdictIsBland(level: SupportLevel, panelJudged: bool)
    ensures Bland(DisagreementVerdict(level, panelJudged))
  {
    hide Bland, NoSupportByPanel, NoSupportBySearch, PartialSupport, FullSupport;
    UnsupportedVerdictsAreBland();
    SupportVerdictsAreBland();
  }

  lemma GroundingAnnotationIsBland(grounding: Grounding)
    ensures GroundingAnnotation(grounding).None? || Bland(GroundingAnnotation(grounding).value)
  {
    hide Bland, UnlocatedNote, ApproximateNote;
    NotesAreBland();
  }

  lemma UnusableReasonIsBland(reason: UsabilityReason)
    ensures Bland(UnusableReason(reason))
  {
    hide Bland, PdfText, ViewerText, PaywallText, ShortText, ChallengeText, ArchivePageText, PageCodeText,
      StorefrontText, UnusedPageText;
    BodyReasonsAreBland();
    PageReasonsAreBland();
    OtherReasonsAreBland();
  }

  lemma SkippedLookupFailedIsBland()
    ensures Bland(SkippedLookupFailed())
  {
    hide Bland, Closed, Opens, LookupFailedText, LookupFailedMeaning;
    SumRules();
    LookupFailedIsBland();
  }
}
