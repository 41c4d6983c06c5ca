/** What each line of the appendix shows: its fields and links, between texts that are bland and leave no word
    open. */
module AppendixTheorems {
  import opened Text
  import opened ToolWording
  import opened Wikitext
  import opened CiteLabels
  import opened FixedText
  import opened Pieces
  import opened VerificationReport
  import opened AppendixCopy
  import opened AppendixWording
  import opened Appendix

  // ---------------------------------------------------------------------------
  // The short texts pushed in place.

  lemma LabelTexts()
    ensures Closed("ref \"") && Closed("\"") && Closed("ref #") && Closed("an unnamed ref (block ")
  {
  }

  lemma LineTexts()
    ensures Closed("* ") && Closed(".\n") && Closed(" — ") && Closed(". — ") && Closed("). Claim: ")
  {
  }

  lemma MarkTexts()
    ensures Closed(")") && Opens(")") && Closed("\n") && Opens("\n") && Closed(".") && Opens(".") && Closed(" ")
    ensures Opens(" ") && Closed(": ") && Opens(": ") && Closed("; ") && Closed(" (") && Opens(" (") && Bland("")
  {
  }

  lemma ListTexts()
    ensures Closed(", ") && Opens(", ") && Closed(", p. ") && Closed(")\n") && Closed(": (untitled book)")
  {
  }

  lemma EvidenceTexts()
    ensures Closed(" The panel located: ") && Closed(". Claim: ") && Opens(". Claim: ")
  {
  }

  lemma PageTexts()
    ensures Closed("the passage was ") && Closed("located on scanned page ") && Closed("; the citation names p. ")
  {
  }

  lemma AdviceTexts()
    ensures Closed(": supported via an ") && Closed("archive copy — update ") && Closed("the citation to ")
  {
  }

  lemma RecoveredTexts()
    ensures Closed(" (replacing the dead ") && Closed("link: ") && Closed("[]")
  {
  }

  lemma DeadLinkTexts()
    ensures Closed(": the source could not ") && Closed("be fetched (link may ") && Closed("be dead): ")
  {
  }

  lemma OutageTexts()
    ensures Closed(": the tool could not ") && Closed("reach the book scan at ")
  {
  }

  lemma FetchedTexts()
    ensures Closed(": the tool fetched ") && Closed(" but read ")
    ensures Closed(" — the citation ") && Opens(" — the citation ")
    ensures Closed("may be fine.")
  {
  }

  lemma JudgedTexts()
    ensures Closed(": judged supported, but ") && Closed(": supported — ") && Closed(" (quote located)")
  {
  }

  lemma BlockLabelIsClosed(block: nat)
    ensures Closed(BlockLabel(block))
  {
    hide Bland, Closed, Opens, PrintNat;
    SumRules();
    LabelTexts();
    MarkTexts();
    NumberRule();
  }

  // ---------------------------------------------------------------------------
  // Which fields and links a finding shows.

  function NameField(refId: string): seq<string>
  {
    if RefName(refId).Some? then [RefName(refId).value] else []
  }

  function PageField(scan: BookScan): seq<string>
  {
    if scan.scannedPage.Some? && scan.citedPage.Some? && PrintNat(scan.scannedPage.value) != scan.citedPage.value
    then [scan.citedPage.value] else []
  }

  function ScanFields(f: Finding): seq<string>
  {
    if f.bookScan.None? then []
    else
      var scan := f.bookScan.value;
      PageField(scan) + if scan.note.Some? then [Neutral(scan.note.value)] else []
  }

  function EvidenceFields(f: Finding): seq<string>
  {
    if f.quote.Some? then [f.quote.value]
    else if f.excerpt.Some? then [TruncateClaim(f.excerpt.value, 200)]
    else []
  }

  /** The verbatim fields a reader finds in a finding's line, by sublist. */
  function ShownFields(f: Finding, bucket: Bucket): seq<string>
  {
    match bucket
    case Disagreements => NameField(f.refId) + [TruncateClaim(f.claim, 200)] + EvidenceFields(f) + ScanFields(f)
    case Recovered => NameField(f.refId) + [TruncateClaim(f.claim, 120)]
    case DeadLinks => NameField(f.refId) + ScanFields(f)
    case Unreadable => NameField(f.refId) + ScanFields(f)
    case Unconfirmed => NameField(f.refId) + [TruncateClaim(f.claim, 80)] + ScanFields(f)
    case SupportedChecks => NameField(f.refId) + [TruncateClaim(f.claim, 80)] + ScanFields(f)
  }

  function ArchiveLink(f: Finding): seq<string>
  {
    if f.archiveOf.Some? then [f.archiveOf.value] else []
  }

  /** The link targets of a finding's line: the source read, and the archived original where it is named. */
  function ShownLinks(f: Finding, bucket: Bucket): seq<string>
  {
    if bucket in {Disagreements, Recovered, Unconfirmed} then [f.url] + ArchiveLink(f) else [f.url]
  }

  // ---------------------------------------------------------------------------
  // Parts of lines.

  lemma NameShows(name: string)
    ensures Plain(NamePieces(name)) && Verbatims(NamePieces(name)) == [name] && Links(NamePieces(name)) == []
  {
    hide Closed, Bland, Opens, Plain, Verbatims, Links;
    PlainRules();
    FieldRules();
    LinkRules();
    LabelTexts();
  }

  lemma ReferenceShows(refId: string, ordinal: nat)
    ensures Plain(RefPieces(refId, ordinal)) && Verbatims(RefPieces(refId, ordinal)) == NameField(refId)
    ensures Links(RefPieces(refId, ordinal)) == []
  {
    hide Closed, Bland, Opens, Plain, Verbatims, Links, PrintNat, RefName, NamePieces;
    PlainRules();
    FieldRules();
    LinkRules();
    LabelTexts();
    SumRules();
    NumberRule();
    if RefName(refId).Some? {
      NameShows(RefName(refId).value);
    }
  }

  lemma SkipNameShows(refId: string, block: nat)
    ensures Plain(SkipPieces(refId, block)) && Verbatims(SkipPieces(refId, block)) == NameField(refId)
    ensures Links(SkipPieces(refId, block)) == []
  {
    hide Closed, Bland, Opens, Plain, Verbatims, Links, BlockLabel, RefName, NamePieces;
    PlainRules();
    FieldRules();
    LinkRules();
    BlockLabelIsClosed(block);
    if RefName(refId).Some? {
      NameShows(RefName(refId).value);
    }
  }

  lemma PageShows(scan: BookScan)
    ensures Plain(PagePieces(scan)) && Verbatims(PagePieces(scan)) == PageField(scan) && Links(PagePieces(scan)) == []
    ensures PagePieces(scan) == [] <==> PageField(scan) == []
  {
    hide Closed, Bland, Opens, Plain, Verbatims, Links, PrintNat;
    PlainRules();
    FieldRules();
    LinkRules();
    PageTexts();
    SumRules();
    NumberRule();
  }

  lemma ScanNoteShows(f: Finding)
    ensures Plain(ScanPieces(f)) && Verbatims(ScanPieces(f)) == ScanFields(f) && Links(ScanPieces(f)) == []
  {
    hide Closed, Bland, Opens, Plain, Verbatims, Links, Neutral, PagePieces, PageField;
    PlainRules();
    FieldRules();
    LinkRules();
    MarkTexts();
    if f.bookScan.Some? {
      var scan := f.bookScan.value;
      PageShows(scan);
      if scan.note.Some? && PagePieces(scan) != [] {
        VerbatimsConcat([Copy(" (")] + PagePieces(scan) + [Copy("; ")], NotePieces(scan));
      }
    }
  }

  lemma ArchiveShows(f: Finding)
    ensures Plain(ArchivePieces(f)) && Verbatims(ArchivePieces(f)) == [] && Links(ArchivePieces(f)) == ArchiveLink(f)
    ensures Plain(ReplacedPieces(f)) && Verbatims(ReplacedPieces(f)) == [] && Links(ReplacedPieces(f)) == ArchiveLink(f)
  {
    hide Closed, Bland, Opens, Plain, Verbatims, Links, ArchiveHandlePrefix;
    PlainRules();
    FieldRules();
    LinkRules();
    MarkTexts();
    RecoveredTexts();
    PanelSplitIsBland();
    SumRules();
  }

  lemma EvidenceShows(f: Finding)
    ensures Plain(EvidencePieces(f)) && Verbatims(EvidencePieces(f)) == EvidenceFields(f)
    ensures Links(EvidencePieces(f)) == []
  {
    hide Closed, Bland, Opens, Plain, Verbatims, Links, TruncateClaim, ExcerptContextLabel, NoPassageLine;
    PlainRules();
    FieldRules();
    LinkRules();
    MarkTexts();
    EvidenceTexts();
    EvidenceLabelsAreBland();
    SumRules();
  }

  lemma CaveatsShow(f: Finding)
    ensures Plain(GroundingPieces(f)) && Verbatims(GroundingPieces(f)) == Links(GroundingPieces(f)) == []
    ensures Plain(PanelPieces(f)) && Verbatims(PanelPieces(f)) == Links(PanelPieces(f)) == []
  {
    hide Closed, Bland, Opens, Plain, Verbatims, Links, GroundingAnnotation, PanelSplitLine;
    PlainRules();
    FieldRules();
    LinkRules();
    MarkTexts();
    PanelSplitIsBland();
    GroundingAnnotationIsBland(f.grounding);
    SumRules();
  }

  lemma LeadsAreClosed(f: Finding)
    ensures Closed(VerdictLead(f)) && Closed(NoteLead(f))
  {
    hide Bland, Closed, Opens, DisagreementVerdict, GroundingAnnotation;
    MarkTexts();
    EvidenceTexts();
    JudgedTexts();
    GroundingAnnotationIsBland(f.grounding);
    if f.verdict.Judged? {
      DisagreementVerdictIsBland(f.verdict.level, f.panelSize > 0);
    }
    SumRules();
  }

  // ---------------------------------------------------------------------------
  // The six lines.

  lemma DisagreementMiddleShows(f: Finding)
    ensures Plain(DisagreementMiddle(f)) && Verbatims(DisagreementMiddle(f)) == EvidenceFields(f)
    ensures Links(DisagreementMiddle(f)) == [f.url] + ArchiveLink(f)
  {
    hide Closed, Bland, Opens, Plain, Verbatims, Links, EvidencePieces, GroundingPieces, PanelPieces, ArchivePieces,
      EvidenceFields, ArchiveLink;
    PlainRules();
    FieldRules();
    LinkRules();
    LineTexts();
    EvidenceShows(f);
    CaveatsShow(f);
    ArchiveShows(f);
    LinksConcat(EvidencePieces(f) + GroundingPieces(f) + PanelPieces(f) + [Copy(" — "), Link(f.url)],
                ArchivePieces(f));
  }

  lemma DisagreementShows(f: Finding)
    ensures Plain(DisagreementLine(f))
    ensures Verbatims(DisagreementLine(f)) == ShownFields(f, Disagreements)
    ensures Links(DisagreementLine(f)) == ShownLinks(f, Disagreements)
  {
    hide Closed, Bland, Opens, Plain, Verbatims, Links, TruncateClaim, RefPieces, DisagreementMiddle, ScanPieces,
      NameField, EvidenceFields, ScanFields, VerdictLead, ArchiveLink;
    PlainRules();
    FieldRules();
    LinkRules();
    LineTexts();
    MarkTexts();
    LeadsAreClosed(f);
    ReferenceShows(f.refId, f.ordinal);
    DisagreementMiddleShows(f);
    ScanNoteShows(f);
    var name := [Copy("* ")] + RefPieces(f.refId, f.ordinal);
    var claim := [Copy(VerdictLead(f)), Verbatim(TruncateClaim(f.claim, 200)), Copy(".")];
    var middle := DisagreementMiddle(f);
    VerbatimsConcat(name, claim);
    VerbatimsConcat(name + claim, middle);
    VerbatimsConcat(name + claim + middle, ScanPieces(f));
  }

  lemma AdviceShows(f: Finding)
    ensures Plain(ArchiveAdvice(f)) && Verbatims(ArchiveAdvice(f)) == [] && Links(ArchiveAdvice(f)) == [f.url]
  {
    hide Closed, Bland, Opens, Plain, Verbatims, Links;
    PlainRules();
    FieldRules();
    LinkRules();
    AdviceTexts();
    RecoveredTexts();
    SumRules();
  }

  lemma RecoveredShows(f: Finding)
    ensures Plain(RecoveredLine(f))
    ensures Verbatims(RecoveredLine(f)) == ShownFields(f, Recovered)
    ensures Links(RecoveredLine(f)) == ShownLinks(f, Recovered)
  {
    hide Closed, Bland, Opens, Plain, Verbatims, Links, TruncateClaim, RefPieces, ReplacedPieces, ArchiveAdvice,
      NameField, ArchiveLink;
    PlainRules();
    FieldRules();
    LinkRules();
    LineTexts();
    ReferenceShows(f.refId, f.ordinal);
    ArchiveShows(f);
    AdviceShows(f);
    var start := [Copy("* ")] + RefPieces(f.refId, f.ordinal) + ArchiveAdvice(f);
    LinksConcat(start, ReplacedPieces(f));
    VerbatimsConcat(start + ReplacedPieces(f),
                    [Copy("). Claim: "), Verbatim(TruncateClaim(f.claim, 120)), Copy(".\n")]);
  }

  lemma UnreadableReasonShows(f: Finding)
    ensures Plain(UnreadableReason(f)) && Verbatims(UnreadableReason(f)) == [] && Links(UnreadableReason(f)) == [f.url]
  {
    hide Closed, Bland, Opens, Plain, Verbatims, Links, UnusableReason, UnusableGeneric;
    PlainRules();
    FieldRules();
    LinkRules();
    OutageTexts();
    FetchedTexts();
    OtherReasonsAreBland();
    if f.unusableReason.Some? {
      UnusableReasonIsBland(f.unusableReason.value);
    }
    SumRules();
  }

  /** The common shape of the short lines: name, middle, scan note. */
  lemma ShortLineShows(f: Finding, middle: seq<Piece>)
    requires Plain(middle) && Links(middle) == [f.url]
    ensures var line := [Copy("* ")] + RefPieces(f.refId, f.ordinal) + middle + ScanPieces(f) + [Copy("\n")];
            && Plain(line) && Links(line) == [f.url]
            && Verbatims(line) == NameField(f.refId) + Verbatims(middle) + ScanFields(f)
  {
    hide Closed, Bland, Opens, Plain, Verbatims, Links, RefPieces, ScanPieces, NameField, ScanFields;
    PlainRules();
    FieldRules();
    LinkRules();
    LineTexts();
    MarkTexts();
    ReferenceShows(f.refId, f.ordinal);
    ScanNoteShows(f);
    var name := [Copy("* ")] + RefPieces(f.refId, f.ordinal);
    VerbatimsConcat(name, middle);
    VerbatimsConcat(name + middle, ScanPieces(f));
  }

  lemma DeadLinkShows(f: Finding)
    ensures Plain(DeadLinkLine(f))
    ensures Verbatims(DeadLinkLine(f)) == ShownFields(f, DeadLinks)
    ensures Links(DeadLinkLine(f)) == ShownLinks(f, DeadLinks)
  {
    hide Closed, Bland, Opens, Plain, Verbatims, Links, RefPieces, ScanPieces, NameField, ScanFields;
    PlainRules();
    FieldRules();
    LinkRules();
    DeadLinkTexts();
    SumRules();
    ShortLineShows(f, [Copy(": the source could not " + "be fetched (link may " + "be dead): "), Link(f.url)]);
  }

  lemma UnreadableShows(f: Finding)
    ensures Plain(UnreadableLine(f))
    ensures Verbatims(UnreadableLine(f)) == ShownFields(f, Unreadable)
    ensures Links(UnreadableLine(f)) == ShownLinks(f, Unreadable)
  {
    hide Closed, Bland, Opens, Plain, Verbatims, Links, RefPieces, ScanPieces, NameField, ScanFields, UnreadableReason;
    UnreadableReasonShows(f);
    ShortLineShows(f, UnreadableReason(f));
  }

  lemma SupportedShows(f: Finding)
    ensures Plain(SupportedLine(f))
    ensures Verbatims(SupportedLine(f)) == ShownFields(f, SupportedChecks)
    ensures Links(SupportedLine(f)) == ShownLinks(f, SupportedChecks)
  {
    hide Closed, Bland, Opens, Plain, Verbatims, Links, TruncateClaim, RefPieces, ScanPieces, NameField, ScanFields;
    PlainRules();
    FieldRules();
    LinkRules();
    LineTexts();
    JudgedTexts();
    var claim := [Copy(": supported — "), Verbatim(TruncateClaim(f.claim, 80))];
    var source := [Copy(" — "), Link(f.url), Copy(" (quote located)")];
    ShortLineShows(f, claim + source);
    assert [Copy("* ")] + RefPieces(f.refId, f.ordinal) + (claim + source)
        == [Copy("* ")] + RefPieces(f.refId, f.ordinal) + claim + source;
  }

  lemma UnconfirmedPlain(f: Finding)
    ensures Plain(UnconfirmedLine(f))
  {
    hide Closed, Bland, Opens, Plain, TruncateClaim, RefPieces, ScanPieces, ArchivePieces, NoteLead, Verbatims, Links;
    PlainRules();
    LineTexts();
    MarkTexts();
    LeadsAreClosed(f);
    assert Plain(RefPieces(f.refId, f.ordinal)) && Plain(ArchivePieces(f)) && Plain(ScanPieces(f)) by {
      ReferenceShows(f.refId, f.ordinal);
      ArchiveShows(f);
      ScanNoteShows(f);
    }
  }

  lemma UnconfirmedShows(f: Finding)
    ensures Verbatims(UnconfirmedLine(f)) == ShownFields(f, Unconfirmed)
    ensures Links(UnconfirmedLine(f)) == ShownLinks(f, Unconfirmed)
  {
    hide Verbatims, Links, TruncateClaim, RefPieces, ScanPieces, ArchivePieces, NoteLead, NameField, ScanFields,
      ArchiveLink, Plain;
    FieldRules();
    LinkRules();
    ReferenceShows(f.refId, f.ordinal);
    ArchiveShows(f);
    ScanNoteShows(f);
    var name := [Copy("* ")] + RefPieces(f.refId, f.ordinal);
    var claim := [Copy(NoteLead(f)), Verbatim(TruncateClaim(f.claim, 80))];
    var source := name + claim + [Copy(". — "), Link(f.url)];
    assert UnconfirmedLine(f) == source + ArchivePieces(f) + ScanPieces(f) + [Copy("\n")];
    hide UnconfirmedLine;
    VerbatimsConcat(name, claim);
    LinksConcat(source, ArchivePieces(f));
    VerbatimsConcat(source + ArchivePieces(f), ScanPieces(f));
  }

  /** A finding's line shows its name, claim, evidence and scan note, and links its source, as its sublist
      prescribes: nothing dropped, nothing in another's place. */
  lemma LineShows(f: Finding, bucket: Bucket)
    ensures Plain(Line(f, bucket))
    ensures Verbatims(Line(f, bucket)) == ShownFields(f, bucket) && Links(Line(f, bucket)) == ShownLinks(f, bucket)
  {
    hide Plain, Verbatims, Links, ShownFields, ShownLinks, DisagreementLine, RecoveredLine, DeadLinkLine,
      UnreadableLine, UnconfirmedLine, SupportedLine;
    match bucket {
      case Disagreements => DisagreementShows(f);
      case Recovered => RecoveredShows(f);
      case DeadLinks => DeadLinkShows(f);
      case Unreadable => UnreadableShows(f);
      case Unconfirmed => UnconfirmedPlain(f); UnconfirmedShows(f);
      case SupportedChecks => SupportedShows(f);
    }
  }

  // ---------------------------------------------------------------------------
  // The pushed labels spell the label functions.

  lemma NameSpells(name: string)
    ensures Flatten(NamePieces(name)) == "ref \"" + EscapeVerbatim(name) + "\""
  {
    hide EscapeVerbatim;
    var ps := NamePieces(name);
    FlattenOne(Copy("ref \""));
    FlattenOne(Verbatim(name));
    FlattenOne(Copy("\""));
    FlattenConcat([Copy("ref \"")], [Verbatim(name)]);
    FlattenConcat([Copy("ref \""), Verbatim(name)], [Copy("\"")]);
    assert [Copy("ref \"")] + [Verbatim(name)] == [Copy("ref \""), Verbatim(name)];
    assert [Copy("ref \""), Verbatim(name)] + [Copy("\"")] == ps;
  }

  /** The label a finding's line starts with is the one that stands in sanitized reasons for the same id, and a
      skipped ref's label is its name or its block, never a number. */
  lemma LabelsSpelled(refId: string, n: nat)
    ensures Flatten(RefPieces(refId, n)) == RefLabel(refId, n)
    ensures Flatten(SkipPieces(refId, n)) ==
            match NamedRefLabel(refId) case Some(shown) => shown case None => BlockLabel(n)
  {
    hide Flatten, EscapeVerbatim, RefName, NamePieces, BlockLabel;
    if RefName(refId).Some? {
      NameSpells(RefName(refId).value);
    } else {
      FlattenOne(Copy("ref #" + PrintNat(n + 1)));
      FlattenOne(Copy(BlockLabel(n)));
    }
  }
}
