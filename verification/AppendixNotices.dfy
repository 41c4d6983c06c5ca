/** What the fixed texts of the appendix tell the reader, and exactly when: the verdict, caveats and evidence of a
    disagreement, why a source could not be read, and why a ref was skipped. */
module AppendixNotices {
  import opened Machine
  import opened Text
  import opened VerificationReport
  import opened CiteLabels
  import opened Pieces
  import opened AppendixCopy
  import opened Appendix

  /** The text is pushed as it is. */
  predicate Says(ps: seq<Piece>, text: string)
  {
    Copy(text) in ps
  }

  /** Second and third character: they tell the notices of a disagreement line from its other texts. */
  predicate Marked(text: string, c: char, d: char)
  {
    |text| >= 3 && text[1] == c && text[2] == d
  }

  predicate IsNotice(text: string)
  {
    || Marked(text, ' ', 't') || Marked(text, 'T', 'h') || Marked(text, 'c', 'o') || Marked(text, 'n', 'o')
    || Marked(text, 't', 'h') || Marked(text, '(', 't')
  }

  /** None of the pushes is a notice. */
  predicate Quiet(ps: seq<Piece>)
  {
    forall i :: 0 <= i < |ps| ==> ps[i].Copy? ==> !IsNotice(ps[i].text)
  }

  lemma QuietSaysNot(ps: seq<Piece>, text: string)
    requires Quiet(ps) && IsNotice(text)
    ensures !Says(ps, text)
  {
    hide IsNotice;
  }

  // The notices of a disagreement line.

  function VerdictNotice(verdict: string): string
  {
    ": " + verdict + ". Claim: "
  }

  function QuoteNotice(): string
  {
    " The panel located: "
  }

  function ExcerptNotice(): string
  {
    " " + ExcerptContextLabel() + ": "
  }

  function NoPassageNotice(): string
  {
    " " + NoPassageLine() + "."
  }

  function GroundingNotice(note: string): string
  {
    " " + note + "."
  }

  function SplitNotice(): string
  {
    " (" + PanelSplitLine() + ")"
  }

  lemma VerdictMarks()
    ensures var n := VerdictNotice(NoSupportByPanel()); Marked(n, ' ', 't') && |n| == 102
    ensures var n := VerdictNotice(NoSupportBySearch()); Marked(n, ' ', 't') && |n| == 70
    ensures var n := VerdictNotice(PartialSupport()); Marked(n, ' ', 't') && |n| == 56
  {
  }

  lemma EvidenceMarks()
    ensures Marked(QuoteNotice(), 'T', 'h') && Marked(ExcerptNotice(), 'c', 'o') && Marked(NoPassageNotice(), 'n', 'o')
  {
  }

  lemma CaveatMarks()
    ensures var n := GroundingNotice(UnlocatedNote()); Marked(n, 't', 'h') && |n| > 22 && n[22] == 'c'
    ensures var n := GroundingNotice(ApproximateNote()); Marked(n, 't', 'h') && |n| > 22 && n[22] == 'm'
    ensures Marked(SplitNotice(), '(', 't')
  {
  }

  // The other parts of the line are quiet.

  lemma ReferenceIsQuiet(refId: string, ordinal: nat)
    ensures Quiet([Copy("* ")] + RefPieces(refId, ordinal))
  {
    hide RefName, PrintNat;
    var numbered := "ref #" + PrintNat(ordinal + 1);
    assert numbered[1] == 'e';
  }

  lemma SourceIsQuiet(f: Finding)
    ensures Quiet([Copy(" — "), Link(f.url)] + ArchivePieces(f))
  {
    ArchiveText();
    hide ArchiveHandlePrefix;
  }

  lemma ArchiveText()
    ensures !IsNotice(" (" + ArchiveHandlePrefix() + " ")
  {
    assert (" (" + ArchiveHandlePrefix() + " ")[2] == 'v';
  }

  lemma ScanIsQuiet(f: Finding)
    ensures Quiet(ScanPieces(f) + [Copy("\n")])
  {
    hide PrintNat;
    if f.bookScan.Some? && f.bookScan.value.scannedPage.Some? {
      var digits := PrintNat(f.bookScan.value.scannedPage.value);
      var page := "the passage was " + "located on scanned page " + digits + "; the citation names p. ";
      assert page[1] == 'h' && page[2] == 'e';
    }
  }

  lemma SaysOfSum(a: seq<Piece>, b: seq<Piece>, text: string)
    ensures Says(a + b, text) <==> Says(a, text) || Says(b, text)
  {
  }

  /** A notice is on the line if and only if its verdict, evidence or caveats push it. */
  lemma NoticeOnLine(f: Finding, text: string)
    requires IsNotice(text)
    ensures Says(DisagreementLine(f), text) <==>
              || text == VerdictLead(f) || Says(EvidencePieces(f), text) || Says(GroundingPieces(f), text)
              || Says(PanelPieces(f), text)
  {
    hide RefPieces, EvidencePieces, GroundingPieces, PanelPieces, ArchivePieces, ScanPieces, VerdictLead, TruncateClaim,
      Quiet, Says;
    var name := [Copy("* ")] + RefPieces(f.refId, f.ordinal);
    var claim := [Copy(VerdictLead(f)), Verbatim(TruncateClaim(f.claim, 200)), Copy(".")];
    var evidence, grounding, panel := EvidencePieces(f), GroundingPieces(f), PanelPieces(f);
    var source := [Copy(" — "), Link(f.url)] + ArchivePieces(f);
    var end := ScanPieces(f) + [Copy("\n")];
    ReferenceIsQuiet(f.refId, f.ordinal);
    SourceIsQuiet(f);
    ScanIsQuiet(f);
    QuietSaysNot(name, text);
    QuietSaysNot(source, text);
    QuietSaysNot(end, text);
    LineInParts(f);
    SaysOfSum(name, claim, text);
    SaysOfSum(name + claim, evidence, text);
    SaysOfSum(name + claim + evidence, grounding, text);
    SaysOfSum(name + claim + evidence + grounding, panel, text);
    SaysOfSum(name + claim + evidence + grounding + panel, source, text);
    SaysOfSum(name + claim + evidence + grounding + panel + source, end, text);
    ClaimSays(VerdictLead(f), TruncateClaim(f.claim, 200), text);
  }

  lemma ClaimSays(lead: string, claim: string, text: string)
    requires IsNotice(text)
    ensures Says([Copy(lead), Verbatim(claim), Copy(".")], text) <==> text == lead
  {
    hide IsNotice;
    assert !IsNotice(".") by {
      DotIsQuiet();
    }
    var ps := [Copy(lead), Verbatim(claim), Copy(".")];
    assert ps[0] == Copy(lead);
  }

  lemma DotIsQuiet()
    ensures !IsNotice(".")
  {
  }

  lemma LineInParts(f: Finding)
    ensures DisagreementLine(f) ==
              ([Copy("* ")] + RefPieces(f.refId, f.ordinal))
              + [Copy(VerdictLead(f)), Verbatim(TruncateClaim(f.claim, 200)), Copy(".")]
              + EvidencePieces(f) + GroundingPieces(f) + PanelPieces(f)
              + ([Copy(" — "), Link(f.url)] + ArchivePieces(f)) + (ScanPieces(f) + [Copy("\n")])
  {
    hide RefPieces, EvidencePieces, GroundingPieces, PanelPieces, ArchivePieces, ScanPieces, VerdictLead, TruncateClaim;
  }

  lemma EvidenceSays(f: Finding, text: string)
    requires IsNotice(text)
    ensures Says(EvidencePieces(f), text) <==>
              text == if f.quote.Some? then QuoteNotice() else if f.excerpt.Some? then ExcerptNotice()
                      else NoPassageNotice()
  {
    hide IsNotice, TruncateClaim, ExcerptContextLabel, NoPassageLine;
    DotIsQuiet();
    assert EvidencePieces(f)[0] == Copy(if f.quote.Some? then QuoteNotice() else if f.excerpt.Some? then ExcerptNotice()
                                        else NoPassageNotice());
  }

  /** The verdict a disagreement line gives. */
  lemma VerdictSaid(f: Finding)
    requires f.verdict == Judged(NotSupported) || f.verdict == Judged(Partial)
    ensures var line := DisagreementLine(f);
            && (Says(line, VerdictNotice(NoSupportByPanel())) <==> f.verdict == Judged(NotSupported) && f.panelSize > 0)
            && (Says(line, VerdictNotice(NoSupportBySearch())) <==>
                f.verdict == Judged(NotSupported) && f.panelSize == 0)
            && (Says(line, VerdictNotice(PartialSupport())) <==> f.verdict == Judged(Partial))
  {
    VerdictMarks();
    EvidenceMarks();
    CaveatMarks();
    hide DisagreementLine, NoSupportByPanel, NoSupportBySearch, PartialSupport, UnlocatedNote, ApproximateNote,
      QuoteNotice, ExcerptNotice, NoPassageNotice, PanelSplitLine, EvidencePieces;
    forall text | text == VerdictNotice(NoSupportByPanel()) || text == VerdictNotice(NoSupportBySearch())
                  || text == VerdictNotice(PartialSupport())
      ensures Says(DisagreementLine(f), text) <==> text == VerdictLead(f)
    {
      NoticeOnLine(f, text);
      EvidenceSays(f, text);
    }
  }

  /** A quote is presented as located only when there is one; an excerpt only as context, and only in place of a
      quote; otherwise the line says that no passage was found. */
  lemma EvidenceSaid(f: Finding)
    requires f.verdict == Judged(NotSupported) || f.verdict == Judged(Partial)
    ensures var line := DisagreementLine(f);
            && (Says(line, QuoteNotice()) <==> f.quote.Some?)
            && (Says(line, ExcerptNotice()) <==> f.quote.None? && f.excerpt.Some?)
            && (Says(line, NoPassageNotice()) <==> f.quote.None? && f.excerpt.None?)
  {
    VerdictMarks();
    EvidenceMarks();
    CaveatMarks();
    hide DisagreementLine, NoSupportByPanel, NoSupportBySearch, PartialSupport, UnlocatedNote, ApproximateNote,
      QuoteNotice, ExcerptNotice, NoPassageNotice, PanelSplitLine, EvidencePieces;
    forall text | text == QuoteNotice() || text == ExcerptNotice() || text == NoPassageNotice()
      ensures Says(DisagreementLine(f), text) <==> Says(EvidencePieces(f), text)
    {
      NoticeOnLine(f, text);
    }
    EvidenceSays(f, QuoteNotice());
    EvidenceSays(f, ExcerptNotice());
    EvidenceSays(f, NoPassageNotice());
  }

  /** A partial verdict says that its quote was not located, or only approximately; and a line says that the panel
      split exactly if there was a panel and no verdict had a majority of it. */
  lemma CaveatsSaid(f: Finding)
    requires f.verdict == Judged(NotSupported) || f.verdict == Judged(Partial)
    ensures var line := DisagreementLine(f);
            && (Says(line, GroundingNotice(UnlocatedNote())) <==>
                f.verdict == Judged(Partial) && (f.grounding == Unlocated || f.grounding == NotApplicable))
            && (Says(line, GroundingNotice(ApproximateNote())) <==>
                f.verdict == Judged(Partial) && f.grounding == LocatedFuzzy)
            && (Says(line, SplitNotice()) <==> f.panelSize > 0 && !(f.winnerVotes + f.winnerVotes > f.panelSize))
  {
    VerdictMarks();
    EvidenceMarks();
    CaveatMarks();
    hide DisagreementLine, NoSupportByPanel, NoSupportBySearch, PartialSupport, UnlocatedNote, ApproximateNote,
      QuoteNotice, ExcerptNotice, NoPassageNotice, PanelSplitLine, EvidencePieces;
    forall text | text == GroundingNotice(UnlocatedNote()) || text == GroundingNotice(ApproximateNote())
                  || text == SplitNotice()
      ensures Says(DisagreementLine(f), text) <==>
              Says(GroundingPieces(f), text) || Says(PanelPieces(f), text)
    {
      NoticeOnLine(f, text);
      EvidenceSays(f, text);
    }
  }

  // ---------------------------------------------------------------------------
  // Lines with one reason, whose text starts with a colon and is the only one that does.

  predicate StartsWithColon(text: string)
  {
    text != "" && text[0] == ':'
  }

  predicate NoColon(ps: seq<Piece>)
  {
    forall i :: 0 <= i < |ps| ==> ps[i].Copy? ==> !StartsWithColon(ps[i].text)
  }

  lemma NoColonSaysNot(ps: seq<Piece>, text: string)
    requires NoColon(ps) && StartsWithColon(text)
    ensures !Says(ps, text)
  {
  }

  lemma NoColonOfSum(a: seq<Piece>, b: seq<Piece>)
    ensures NoColon(a + b) <==> NoColon(a) && NoColon(b)
  {
    assert forall i :: 0 <= i < |a| ==> (a + b)[i] == a[i];
    assert forall i :: 0 <= i < |b| ==> (a + b)[|a| + i] == b[i];
  }

  lemma ReferenceHasNoColon(refId: string, n: nat)
    ensures NoColon([Copy("* ")] + RefPieces(refId, n)) && NoColon([Copy("* ")] + SkipPieces(refId, n))
  {
    hide RefName, PrintNat;
    assert ("ref #" + PrintNat(n + 1))[0] == 'r';
    assert BlockLabel(n)[0] == 'a';
  }

  lemma ScanHasNoColon(f: Finding)
    ensures NoColon(ScanPieces(f) + [Copy("\n")])
  {
    hide PrintNat;
    if f.bookScan.Some? && f.bookScan.value.scannedPage.Some? {
      var digits := PrintNat(f.bookScan.value.scannedPage.value);
      var page := "the passage was " + "located on scanned page " + digits + "; the citation names p. ";
      assert page[0] == 't';
    }
  }

  /** Between a ref and a tail without colons, a colon text is said exactly where the middle says it. */
  lemma SaidInMiddle(start: seq<Piece>, middle: seq<Piece>, end: seq<Piece>, text: string)
    requires NoColon(start) && NoColon(end) && StartsWithColon(text)
    ensures Says(start + middle + end, text) <==> Says(middle, text)
  {
    hide NoColon, StartsWithColon, Says;
    NoColonSaysNot(start, text);
    NoColonSaysNot(end, text);
    SaysOfSum(start, middle, text);
    SaysOfSum(start + middle, end, text);
  }

  // Unreadable sources.

  function OutageNotice(): string
  {
    ": the tool could not " + "reach the book scan at "
  }

  function FetchedNotice(): string
  {
    ": the tool fetched "
  }

  lemma OutageMarks()
    ensures StartsWithColon(OutageNotice()) && StartsWithColon(FetchedNotice())
    ensures |OutageNotice()| != |FetchedNotice()|
  {
  }

  lemma ReadTextHasNoColon(reason: string)
    ensures !StartsWithColon(" but read " + reason + " — the citation " + "may be fine.")
    ensures !StartsWithColon(" — the citation " + "may be fine.")
  {
    assert (" but read " + reason + " — the citation " + "may be fine.")[0] == ' ';
    assert (" — the citation " + "may be fine.")[0] == ' ';
  }

  lemma UnreadableSays(f: Finding, text: string)
    requires StartsWithColon(text)
    ensures Says(UnreadableReason(f), text) <==>
              text == if f.bookScan.Some? && f.unavailableReason == Some(Unreachable) then OutageNotice()
                      else FetchedNotice()
  {
    var reason := if f.unusableReason.Some? then UnusableReason(f.unusableReason.value) else UnusableGeneric();
    ReadTextHasNoColon(reason);
    hide UnusableReason, UnusableGeneric;
    assert UnreadableReason(f)[0] == Copy(
      if f.bookScan.Some? && f.unavailableReason == Some(Unreachable) then OutageNotice() else FetchedNotice());
    hide StartsWithColon;
  }

  /** A book scan that could not be reached is told as an outage; anything else in the sublist was fetched, and the
      line tells what was read: the reason on record if there is one. */
  lemma UnreadableSaid(f: Finding)
    ensures var line, outage := UnreadableLine(f), f.bookScan.Some? && f.unavailableReason == Some(Unreachable);
            && (Says(line, OutageNotice()) <==> outage)
            && (Says(line, FetchedNotice()) <==> !outage)
            && (!outage ==> Says(line, " but read "
                                       + (match f.unusableReason case Some(r) => UnusableReason(r)
                                                                 case None => UnusableGeneric())
                                       + " — the citation " + "may be fine."))
  {
    OutageMarks();
    ReferenceHasNoColon(f.refId, f.ordinal);
    ScanHasNoColon(f);
    UnreadableSays(f, OutageNotice());
    UnreadableSays(f, FetchedNotice());
    hide RefPieces, ScanPieces, OutageNotice, FetchedNotice, UnusableReason, UnusableGeneric, StartsWithColon, NoColon;
    var start, end := [Copy("* ")] + RefPieces(f.refId, f.ordinal), ScanPieces(f) + [Copy("\n")];
    assert UnreadableLine(f) == start + UnreadableReason(f) + end;
    SaidInMiddle(start, UnreadableReason(f), end, OutageNotice());
    SaidInMiddle(start, UnreadableReason(f), end, FetchedNotice());
  }

  // Unconfirmed supports.

  function UnconfirmedNotice(note: string): string
  {
    ": judged supported, but " + note + ". Claim: "
  }

  lemma UnconfirmedMarks()
    ensures StartsWithColon(UnconfirmedNotice(UnlocatedNote())) && StartsWithColon(UnconfirmedNotice(ApproximateNote()))
    ensures UnconfirmedNotice(UnlocatedNote()) != UnconfirmedNotice(ApproximateNote())
  {
    var a, b := UnlocatedNote(), ApproximateNote();
    assert a[21] == 'c' && b[21] == 'm';
    assert UnconfirmedNotice(a)[45] == a[21] && UnconfirmedNotice(b)[45] == b[21];
  }

  lemma SourceHasNoColon(f: Finding)
    ensures NoColon([Copy(". — "), Link(f.url)] + ArchivePieces(f) + ScanPieces(f) + [Copy("\n")])
  {
    var source := [Copy(". — "), Link(f.url)] + ArchivePieces(f);
    assert (" (" + ArchiveHandlePrefix() + " ")[0] == ' ';
    assert NoColon(source);
    ScanHasNoColon(f);
    hide NoColon, ScanPieces, ArchivePieces;
    NoColonOfSum(source, ScanPieces(f) + [Copy("\n")]);
    assert source + (ScanPieces(f) + [Copy("\n")]) == source + ScanPieces(f) + [Copy("\n")];
  }

  /** An unconfirmed support says how its quote was not confirmed. */
  lemma UnconfirmedSaid(f: Finding)
    requires f.grounding != Located
    ensures var line := UnconfirmedLine(f);
            && (Says(line, UnconfirmedNotice(UnlocatedNote())) <==>
                f.grounding == Unlocated || f.grounding == NotApplicable)
            && (Says(line, UnconfirmedNotice(ApproximateNote())) <==> f.grounding == LocatedFuzzy)
  {
    UnconfirmedMarks();
    ReferenceHasNoColon(f.refId, f.ordinal);
    SourceHasNoColon(f);
    hide RefPieces, ScanPieces, ArchivePieces, TruncateClaim, UnlocatedNote, ApproximateNote, NoColon, StartsWithColon;
    var start := [Copy("* ")] + RefPieces(f.refId, f.ordinal);
    var middle := [Copy(NoteLead(f)), Verbatim(TruncateClaim(f.claim, 80))];
    var end := [Copy(". — "), Link(f.url)] + ArchivePieces(f) + ScanPieces(f) + [Copy("\n")];
    assert UnconfirmedLine(f) == start + middle + end;
    SaidInMiddle(start, middle, end, UnconfirmedNotice(UnlocatedNote()));
    SaidInMiddle(start, middle, end, UnconfirmedNotice(ApproximateNote()));
    assert middle[0] == Copy(NoteLead(f));
    assert NoteLead(f) == UnconfirmedNotice(if f.grounding == LocatedFuzzy then ApproximateNote() else UnlocatedNote());
  }

  // ---------------------------------------------------------------------------
  // Book scans.

  function PageNotice(scanned: nat): string
  {
    "the passage was " + "located on scanned page " + PrintNat(scanned) + "; the citation names p. "
  }

  /** The scan was found on a page that is not the one cited. */
  predicate PagesDiffer(scan: BookScan)
  {
    scan.scannedPage.Some? && scan.citedPage.Some? && scan.citedPage.value != PrintNat(scan.scannedPage.value)
  }

  lemma PageMarks(scanned: nat)
    ensures PageNotice(scanned)[0] == 't' && "; "[0] == ';' && ")"[0] == ')' && " ("[0] == ' '
  {
  }

  /** The annotation of a book scan names the scanned page exactly if it is not the one cited, and separates that from
      the note exactly if there are both; without either there is no annotation. */
  lemma AnnotationSaid(f: Finding, scan: BookScan)
    requires f.bookScan == Some(scan)
    ensures scan.scannedPage.Some? ==>
              (Says(ScanPieces(f), PageNotice(scan.scannedPage.value)) <==> PagesDiffer(scan))
    ensures Says(ScanPieces(f), "; ") <==> PagesDiffer(scan) && scan.note.Some?
    ensures ScanPieces(f) == [] <==> !PagesDiffer(scan) && scan.note.None?
  {
    hide PrintNat, PageNotice;
    var pages, note := PagePieces(scan), NotePieces(scan);
    if scan.scannedPage.Some? {
      PageMarks(scan.scannedPage.value);
      PageSaid(scan);
    }
    PageMarks(0);
    hide PagePieces;
    if pages != [] && note != [] {
      assert ScanPieces(f) == [Copy(" (")] + pages + [Copy("; ")] + note + [Copy(")")];
      assert [Copy("; ")][0] == Copy("; ");
    } else if pages != [] || note != [] {
      assert ScanPieces(f) == [Copy(" (")] + pages + note + [Copy(")")];
    }
  }

  lemma PageSaid(scan: BookScan)
    requires scan.scannedPage.Some?
    ensures PagePieces(scan) == [] <==> !PagesDiffer(scan)
    ensures PagesDiffer(scan) ==>
              PagePieces(scan) == [Copy(PageNotice(scan.scannedPage.value)), Verbatim(scan.citedPage.value)]
  {
    hide PrintNat;
  }
}
