/** Every finding, skip, book and failure of the report is shown once, and the rendered text is judged by what
    the report contains. */
module AppendixAccounting {
  import opened Machine
  import opened Text
  import opened Calendar
  import opened Timestamps
  import opened Wikitext
  import opened ToolWording
  import opened CiteLabels
  import opened FixedText
  import opened Pieces
  import opened VerificationReport
  import opened AppendixCopy
  import opened AppendixWording
  import opened Appendix
  import opened AppendixTheorems

  // ---------------------------------------------------------------------------
  // The sublists partition the findings.

  lemma {:induction false} CountIsLength(fs: seq<Finding>, bucket: Bucket)
    ensures CountBucket(fs, bucket) == |InBucket(fs, bucket)|
  {
    hide BucketFor;
    if fs != [] {
      CountIsLength(fs[..|fs| - 1], bucket);
    }
  }

  /** The summary's separate test for unconfirmed supports counts exactly the sublist. */
  lemma {:induction false} UnconfirmedIsLength(fs: seq<Finding>)
    ensures CountUnconfirmed(fs) == |InBucket(fs, Unconfirmed)|
  {
    if fs != [] {
      UnconfirmedIsLength(fs[..|fs| - 1]);
    }
  }

  lemma {:induction false} LengthsAddUp(fs: seq<Finding>)
    ensures |InBucket(fs, Disagreements)| + |InBucket(fs, Recovered)| + |InBucket(fs, DeadLinks)|
            + |InBucket(fs, Unreadable)| + |InBucket(fs, Unconfirmed)| + |InBucket(fs, SupportedChecks)| == |fs|
  {
    hide BucketFor;
    if fs != [] {
      LengthsAddUp(fs[..|fs| - 1]);
    }
  }

  /** Finding `i` is listed in sublist `b` exactly when it belongs there, and the list is in report order, so
      each finding is listed once in one sublist. */
  lemma ListedExactly(fs: seq<Finding>, b: Bucket, i: nat)
    ensures i in InBucket(fs, b) <==> i < |fs| && Belongs(fs[i], b)
    ensures forall j, k :: 0 <= j < k < |InBucket(fs, b)| ==> InBucket(fs, b)[j] < InBucket(fs, b)[k]
  {
    hide BucketFor, Belongs;
    var positions := InBucket(fs, b);
    if i in positions {
      var k :| 0 <= k < |positions| && positions[k] == i;
    }
    if i < |fs| {
      BucketExactly(fs[i], b);
    }
  }

  /** How many findings belong to a sublist. */
  ghost function Tally(fs: seq<Finding>, b: Bucket): nat
  {
    |Members(fs, b)|
  }

  ghost function Members(fs: seq<Finding>, b: Bucket): set<nat>
  {
    set i | 0 <= i < |fs| && Belongs(fs[i], b)
  }

  lemma MembersGrow(fs: seq<Finding>, b: Bucket)
    requires fs != []
    ensures var n := |fs| - 1;
            && Members(fs, b) == (if Belongs(fs[n], b) then Members(fs[..n], b) + {n} else Members(fs[..n], b))
            && n !in Members(fs[..n], b)
  {
    hide Belongs;
  }

  /** A sublist has one entry per finding that belongs to it. */
  lemma {:induction false} LengthIsTally(fs: seq<Finding>, b: Bucket)
    ensures |InBucket(fs, b)| == Tally(fs, b)
  {
    if fs == [] {
      assert Members(fs, b) == {};
    } else {
      hide BucketFor, Belongs, Members;
      LengthIsTally(fs[..|fs| - 1], b);
      BucketExactly(fs[|fs| - 1], b);
      MembersGrow(fs, b);
    }
  }

  /** No finding is left out, and the three numbers of the summary that speak of sublists are the lengths of
      the sublists printed below it. */
  lemma FindingsAreConserved(r: Report)
    ensures |InBucket(r.findings, Disagreements)| + |InBucket(r.findings, Recovered)|
            + |InBucket(r.findings, DeadLinks)| + |InBucket(r.findings, Unreadable)|
            + |InBucket(r.findings, Unconfirmed)| + |InBucket(r.findings, SupportedChecks)| == |r.findings|
    ensures CountBucket(r.findings, DeadLinks) == |InBucket(r.findings, DeadLinks)|
    ensures CountBucket(r.findings, Unreadable) == |InBucket(r.findings, Unreadable)|
    ensures CountUnconfirmed(r.findings) == |InBucket(r.findings, Unconfirmed)|
  {
    LengthsAddUp(r.findings);
    CountIsLength(r.findings, DeadLinks);
    CountIsLength(r.findings, Unreadable);
    UnconfirmedIsLength(r.findings);
  }

  // ---------------------------------------------------------------------------
  // What the sections show.

  /** One line's fields per position, in order. */
  function FindingFields(fs: seq<Finding>, positions: seq<nat>, bucket: Bucket): seq<string>
    requires forall k :: 0 <= k < |positions| ==> positions[k] < |fs|
  {
    if positions == [] then []
    else
      var n := |positions| - 1;
      FindingFields(fs, positions[..n], bucket) + ShownFields(fs[positions[n]], bucket)
  }

  function FindingLinks(fs: seq<Finding>, positions: seq<nat>, bucket: Bucket): seq<string>
    requires forall k :: 0 <= k < |positions| ==> positions[k] < |fs|
  {
    if positions == [] then []
    else
      var n := |positions| - 1;
      FindingLinks(fs, positions[..n], bucket) + ShownLinks(fs[positions[n]], bucket)
  }

  function BucketFields(fs: seq<Finding>, bs: seq<Bucket>): seq<string>
  {
    if bs == [] then []
    else
      var bucket := bs[|bs| - 1];
      BucketFields(fs, bs[..|bs| - 1]) + FindingFields(fs, InBucket(fs, bucket), bucket)
  }

  function BucketLinks(fs: seq<Finding>, bs: seq<Bucket>): seq<string>
  {
    if bs == [] then []
    else
      var bucket := bs[|bs| - 1];
      BucketLinks(fs, bs[..|bs| - 1]) + FindingLinks(fs, InBucket(fs, bucket), bucket)
  }

  function IdentifierFields(ids: seq<BookIdentifier>, page: Option<string>): seq<string>
  {
    if ids == [] then []
    else IdentifierTexts(ids) + if page.Some? then [page.value] else []
  }

  function IdentifierTexts(ids: seq<BookIdentifier>): seq<string>
  {
    if ids == [] then [] else [IdentifierText(ids[0])] + IdentifierTexts(ids[1..])
  }

  function SkipFields(skips: seq<SkippedRef>): seq<string>
  {
    if skips == [] then []
    else
      var skip := skips[|skips| - 1];
      SkipFields(skips[..|skips| - 1])
      + (NameField(skip.refId) + IdentifierFields(AllIdentifiers(skip.sources), FirstPage(skip.sources)))
  }

  function TitleField(title: Option<string>): seq<string>
  {
    if title.Some? then [title.value] else []
  }

  function BookFields(bs: seq<BookResolution>): seq<string>
  {
    if bs == [] then []
    else
      var before, b := BookFields(bs[..|bs| - 1]), bs[|bs| - 1];
      match b.outcome
      case Resolved(title, _) =>
        before + (NameField(b.refId) + TitleField(title) + IdentifierFields(b.identifiers, b.citedPage))
      case _ => before
  }

  function FailureFields(fs: seq<Failure>): seq<string>
  {
    if fs == [] then []
    else
      var f := fs[|fs| - 1];
      FailureFields(fs[..|fs| - 1]) + [Neutral(Relabelled(f.reason, f.block))]
  }

  /** All fields of a report in the order the appendix shows them. */
  function ReportFields(r: Report): seq<string>
  {
    BucketFields(r.findings, BUCKETS) + SkipFields(r.skipped) + BookFields(r.books) + FailureFields(r.failures)
    + [r.title]
  }

  /** All link targets of a report in the order the appendix shows them. */
  function ReportLinks(r: Report): seq<string>
  {
    BucketLinks(r.findings, BUCKETS)
  }

  lemma NothingShows()
    ensures Plain([]) && Verbatims([]) == Links([]) == []
  {
  }

  lemma {:induction false} LinesShow(fs: seq<Finding>, positions: seq<nat>, bucket: Bucket)
    requires forall k :: 0 <= k < |positions| ==> positions[k] < |fs|
    ensures Plain(Lines(fs, positions, bucket))
    ensures Verbatims(Lines(fs, positions, bucket)) == FindingFields(fs, positions, bucket)
    ensures Links(Lines(fs, positions, bucket)) == FindingLinks(fs, positions, bucket)
  {
    hide Plain, Verbatims, Links, Line, ShownFields, ShownLinks;
    if positions == [] {
      NothingShows();
    } else {
      var n := |positions| - 1;
      var before, line := Lines(fs, positions[..n], bucket), Line(fs[positions[n]], bucket);
      LinesShow(fs, positions[..n], bucket);
      LineShows(fs[positions[n]], bucket);
      PlainRules();
      VerbatimsConcat(before, line);
      LinksConcat(before, line);
    }
  }

  /** A section's heading adds no field and no link. */
  lemma HeadedShows(text: string, ps: seq<Piece>)
    requires Bland(text)
    ensures Verbatims([Heading(text)] + ps) == Verbatims(ps) && Links([Heading(text)] + ps) == Links(ps)
    ensures Plain([Heading(text)] + ps) <==> Plain(ps)
  {
    hide Plain, Verbatims, Links, Closed, Bland, Opens;
    PlainRules();
    FieldRules();
    LinkRules();
    SumRules();
    MarkTexts();
  }

  lemma NothingShown(fs: seq<Finding>, bucket: Bucket)
    ensures FindingFields(fs, [], bucket) == FindingLinks(fs, [], bucket) == []
  {
  }

  lemma SectionShows(fs: seq<Finding>, bucket: Bucket)
    ensures Plain(BucketSection(fs, bucket))
    ensures Verbatims(BucketSection(fs, bucket)) == FindingFields(fs, InBucket(fs, bucket), bucket)
    ensures Links(BucketSection(fs, bucket)) == FindingLinks(fs, InBucket(fs, bucket), bucket)
  {
    var positions := InBucket(fs, bucket);
    NothingShown(fs, bucket);
    NothingShows();
    hide Plain, Verbatims, Links, Lines, FindingFields, FindingLinks, InBucket, BucketHeading, Heading, Bland;
    BucketHeadingIsBland(bucket);
    LinesShow(fs, positions, bucket);
    HeadedShows(BucketHeading(bucket), Lines(fs, positions, bucket));
  }

  lemma {:induction false} BucketsShow(fs: seq<Finding>, bs: seq<Bucket>)
    ensures Plain(Buckets(fs, bs))
    ensures Verbatims(Buckets(fs, bs)) == BucketFields(fs, bs) && Links(Buckets(fs, bs)) == BucketLinks(fs, bs)
  {
    hide Plain, Verbatims, Links, BucketSection, FindingFields, FindingLinks, InBucket;
    NothingShows();
    if bs != [] {
      var before, section := Buckets(fs, bs[..|bs| - 1]), BucketSection(fs, bs[|bs| - 1]);
      BucketsShow(fs, bs[..|bs| - 1]);
      SectionShows(fs, bs[|bs| - 1]);
      PlainRules();
      VerbatimsConcat(before, section);
      LinksConcat(before, section);
    }
  }

  lemma {:induction false} IdentifiersShow(ids: seq<BookIdentifier>)
    ensures Plain(IdentifierList(ids)) && Verbatims(IdentifierList(ids)) == IdentifierTexts(ids)
    ensures Links(IdentifierList(ids)) == []
  {
    hide Plain, Verbatims, Links, IdentifierText, Closed, Bland, Opens;
    PlainRules();
    FieldRules();
    LinkRules();
    ListTexts();
    if |ids| == 1 {
      assert ids[1..] == [];
      assert [IdentifierText(ids[0])] + [] == [IdentifierText(ids[0])];
    } else if |ids| > 1 {
      IdentifiersShow(ids[1..]);
      VerbatimsConcat([Verbatim(IdentifierText(ids[0])), Copy(", ")], IdentifierList(ids[1..]));
    }
  }

  lemma BookTailTexts(text: string)
    requires Bland(text)
    ensures Closed(text + "\n") && Closed(text + " (") && Closed(", p. ") && Closed(")\n")
  {
    hide Closed, Bland, Opens, Opens;
    SumRules();
    MarkTexts();
    ListTexts();
  }

  lemma BookTailShows(text: string, ids: seq<BookIdentifier>, page: Option<string>)
    requires Bland(text)
    ensures Plain(BookTail(text, ids, page)) && Verbatims(BookTail(text, ids, page)) == IdentifierFields(ids, page)
    ensures Links(BookTail(text, ids, page)) == []
  {
    hide Plain, Verbatims, Links, IdentifierList, IdentifierTexts, Closed, Bland, Opens;
    PlainRules();
    FieldRules();
    LinkRules();
    BookTailTexts(text);
    IdentifiersShow(ids);
    VerbatimsConcat([Copy(text + " (")] + IdentifierList(ids), CitedPiece(page));
  }

  lemma SkipLineShows(skip: SkippedRef, books: seq<BookResolution>)
    ensures Plain(SkipLine(skip, books)) && Links(SkipLine(skip, books)) == []
    ensures Verbatims(SkipLine(skip, books))
         == NameField(skip.refId) + IdentifierFields(AllIdentifiers(skip.sources), FirstPage(skip.sources))
  {
    var text := ": " + SkipReasonText(skip, books);
    hide Plain, Verbatims, Links, SkipPieces, BookTail, SkipReasonText, AllIdentifiers, FirstPage, NameField,
      IdentifierFields, Closed, Bland, Opens;
    PlainRules();
    FieldRules();
    LinkRules();
    LineTexts();
    MarkTexts();
    SumRules();
    SkipReasonIsBland(skip, books);
    SkipNameShows(skip.refId, skip.block);
    BookTailShows(text, AllIdentifiers(skip.sources), FirstPage(skip.sources));
    VerbatimsConcat([Copy("* ")] + SkipPieces(skip.refId, skip.block),
                    BookTail(text, AllIdentifiers(skip.sources), FirstPage(skip.sources)));
  }

  lemma SkipReasonIsBland(skip: SkippedRef, books: seq<BookResolution>)
    ensures Bland(SkipReasonText(skip, books))
  {
    hide Bland, SkipOutcome, SkippedNonUrl, SkippedLookupFailed, SkippedBookUnresolved, SkippedShortCite;
    SkipReasonsAreBland();
    SkippedLookupFailedIsBland();
    ShortCiteIsBland();
  }

  lemma {:induction false} SkipLinesShow(skips: seq<SkippedRef>, books: seq<BookResolution>)
    ensures Plain(SkipLines(skips, books)) && Links(SkipLines(skips, books)) == []
    ensures Verbatims(SkipLines(skips, books)) == SkipFields(skips)
  {
    hide Plain, Verbatims, Links, SkipLine, NameField, IdentifierFields;
    NothingShows();
    if skips != [] {
      var n := |skips| - 1;
      SkipLinesShow(skips[..n], books);
      SkipLineShows(skips[n], books);
      PlainRules();
      VerbatimsConcat(SkipLines(skips[..n], books), SkipLine(skips[n], books));
      LinksConcat(SkipLines(skips[..n], books), SkipLine(skips[n], books));
    }
  }

  lemma TitleShows(title: Option<string>)
    ensures Plain(TitlePieces(title)) && Verbatims(TitlePieces(title)) == TitleField(title)
    ensures Links(TitlePieces(title)) == []
  {
    hide Plain, Verbatims, Links, Closed, Bland, Opens;
    PlainRules();
    FieldRules();
    LinkRules();
    MarkTexts();
    ListTexts();
  }

  lemma ScanTextIsBland(scan: Option<Availability>)
    ensures Bland(ScanText(scan)) && Bland(" — " + ScanText(scan))
  {
    hide Bland, Closed, Opens, BookScanUnknown, BookScanExact, BookScanExactUnsearchable, BookScanSimilarOnly,
      BookScanNone;
    SumRules();
    LineTexts();
    ScansAreBland();
    OtherScansAreBland();
  }

  lemma BookLineShows(b: BookResolution)
    requires b.outcome.Resolved?
    ensures Plain(BookLine(b)) && Links(BookLine(b)) == []
    ensures Verbatims(BookLine(b)) ==
            NameField(b.refId) + TitleField(b.outcome.title) + IdentifierFields(b.identifiers, b.citedPage)
  {
    hide Plain, Verbatims, Links, SkipPieces, TitlePieces, BookTail, ScanText, NameField, TitleField,
      IdentifierFields, Closed, Bland, Opens;
    PlainRules();
    FieldRules();
    LinkRules();
    LineTexts();
    SkipNameShows(b.refId, b.block);
    TitleShows(b.outcome.title);
    ScanTextIsBland(b.outcome.scan);
    BookTailShows(" — " + ScanText(b.outcome.scan), b.identifiers, b.citedPage);
    var name := [Copy("* ")] + SkipPieces(b.refId, b.block);
    VerbatimsConcat(name, TitlePieces(b.outcome.title));
    VerbatimsConcat(name + TitlePieces(b.outcome.title),
                    BookTail(" — " + ScanText(b.outcome.scan), b.identifiers, b.citedPage));
  }

  lemma {:induction false} BookLinesShow(bs: seq<BookResolution>)
    ensures Plain(BookLines(bs)) && Verbatims(BookLines(bs)) == BookFields(bs) && Links(BookLines(bs)) == []
  {
    hide Plain, Verbatims, Links, BookLine, NameField, TitleField, IdentifierFields;
    NothingShows();
    if bs != [] {
      var n := |bs| - 1;
      BookLinesShow(bs[..n]);
      if bs[n].outcome.Resolved? {
        BookLineShows(bs[n]);
        PlainRules();
        VerbatimsConcat(BookLines(bs[..n]), BookLine(bs[n]));
        LinksConcat(BookLines(bs[..n]), BookLine(bs[n]));
      }
    }
  }

  lemma FailureLineShows(f: Failure)
    ensures Plain(FailureLine(f)) && Verbatims(FailureLine(f)) == [Neutral(Relabelled(f.reason, f.block))]
    ensures Links(FailureLine(f)) == []
  {
    hide Plain, Verbatims, Links, Neutral, Relabelled, Closed, Bland, Opens;
    PlainRules();
    FieldRules();
    LinkRules();
    LineTexts();
    MarkTexts();
  }

  lemma {:induction false} FailureLinesShow(fs: seq<Failure>)
    ensures Plain(FailureLines(fs)) && Verbatims(FailureLines(fs)) == FailureFields(fs) && Links(FailureLines(fs)) == []
  {
    hide Plain, Verbatims, Links, FailureLine, Neutral, Relabelled;
    NothingShows();
    if fs != [] {
      var n := |fs| - 1;
      FailureLinesShow(fs[..n]);
      FailureLineShows(fs[n]);
      PlainRules();
      VerbatimsConcat(FailureLines(fs[..n]), FailureLine(fs[n]));
      LinksConcat(FailureLines(fs[..n]), FailureLine(fs[n]));
    }
  }

  lemma {:induction false} NoBooksNoFields(bs: seq<BookResolution>)
    requires !exists b :: b in bs && b.outcome.Resolved?
    ensures BookFields(bs) == []
  {
    if bs != [] {
      assert bs[|bs| - 1] in bs;
      NoBooksNoFields(bs[..|bs| - 1]);
    }
  }

  lemma SectionsShow(r: Report)
    ensures Plain(SkippedSection(r)) && Plain(BooksSection(r)) && Plain(FailuresSection(r))
    ensures Verbatims(SkippedSection(r)) == SkipFields(r.skipped)
    ensures Verbatims(BooksSection(r)) == BookFields(r.books)
    ensures Verbatims(FailuresSection(r)) == FailureFields(r.failures)
    ensures Links(SkippedSection(r)) == Links(BooksSection(r)) == Links(FailuresSection(r)) == []
  {
    if !exists b :: b in r.books && b.outcome.Resolved? {
      NoBooksNoFields(r.books);
    }
    assert r.skipped == [] ==> SkipFields(r.skipped) == [];
    assert r.failures == [] ==> FailureFields(r.failures) == [];
    NothingShows();
    hide Plain, Verbatims, Links, SkipLines, BookLines, FailureLines, SkipFields, BookFields, FailureFields, Heading,
      SkippedHeading, BooksHeading, FailuresHeading, Bland;
    HeadingsAreBland();
    SkipLinesShow(r.skipped, r.books);
    BookLinesShow(r.books);
    FailureLinesShow(r.failures);
    HeadedShows(SkippedHeading(), SkipLines(r.skipped, r.books));
    HeadedShows(BooksHeading(), BookLines(r.books));
    HeadedShows(FailuresHeading(), FailureLines(r.failures));
  }

  // The texts of the frame.

  lemma CheckedTexts()
    ensures Closed("'Of ") && Closed(" references, ") && Closed(" citation use-sites ")
  {
  }

  lemma OutcomeTexts()
    ensures Closed("were machine-checked: ") && Closed(" supported (")
  {
  }

  lemma UnconfirmedTexts()
    ensures Closed(" of them unconfirmed), ")
  {
  }

  lemma PartialTexts()
    ensures Closed(" partially supported, ")
  {
  }

  lemma DisagreeTexts()
    ensures Closed(" where claim and ") && Closed("source disagree, ")
  {
  }

  lemma UnreadTexts()
    ensures Closed(" dead ") && Closed(" the tool could ") && Opens(" the tool could ") && Closed("not read; ")
  {
  }

  lemma RestTexts()
    ensures Closed(" book/offline ") && Closed(" and ") && Opens(" and ") && Closed(" unprocessable ")
    ensures Closed(" were not checked.'\n") && Opens(" were not checked.'\n")
  {
  }

  lemma PluralIsBland(n: nat)
    ensures Bland(Plural(n, "link", "links")) && Bland(Plural(n, "source", "sources"))
    ensures Bland(Plural(n, "ref", "refs"))
  {
  }

  lemma CheckedIsClosed(r: Report)
    ensures Closed(CheckedText(r))
  {
    hide Closed, Bland, Opens, PrintNat;
    SumRules();
    NumberRule();
    CheckedTexts();
    OutcomeTexts();
  }

  lemma OutcomeIsClosed(r: Report)
    ensures Closed(OutcomeText(r))
  {
    hide Closed, Bland, Opens, PrintNat, CountUnconfirmed;
    SumRules();
    NumberRule();
    OutcomeTexts();
    UnconfirmedTexts();
    PartialTexts();
    DisagreeTexts();
  }

  lemma UnreadIsClosed(r: Report)
    ensures Closed(UnreadText(r))
  {
    hide Closed, Bland, Opens, PrintNat, Plural, CountBucket;
    SumRules();
    NumberRule();
    MarkTexts();
    ListTexts();
    UnreadTexts();
    PluralIsBland(CountBucket(r.findings, DeadLinks));
    PluralIsBland(CountBucket(r.findings, Unreadable));
  }

  lemma UncheckedIsClosed(r: Report)
    ensures Closed(UncheckedText(r))
  {
    hide Closed, Bland, Opens, PrintNat, Plural;
    SumRules();
    NumberRule();
    RestTexts();
    PluralIsBland(r.stats.skipped);
    PluralIsBland(r.stats.failures);
  }

  lemma SummaryIsClosed(r: Report)
    ensures Closed(SummaryText(r))
  {
    hide Closed, Bland, Opens, CheckedText, OutcomeText, UnreadText, UncheckedText;
    SumRules();
    CheckedIsClosed(r);
    OutcomeIsClosed(r);
    UnreadIsClosed(r);
    UncheckedIsClosed(r);
  }

  lemma HeaderIsClosed()
    ensures Closed(HeaderText())
  {
    hide Closed, Bland, Opens, AppendixHeading, AssessedLine, CriterionHeading;
    SumRules();
    FrameTexts();
    MarkTexts();
    HeadingsAreBland();
    AssessedLineIsBland();
    CriterionHeadingIsBland();
  }

  lemma FrameTexts()
    ensures Closed("\n\n") && Opens("\n\n") && Closed("\n----\n''") && Closed(" at rev ") && Closed(" · rendered ")
    ensures Closed(" · ") && Closed(" [") && Opens(" [") && Closed(" What is this?]''") && Opens(" What is this?]''")
  {
  }

  lemma RenderTexts()
    ensures Closed(" (render date, not ") && Opens(" (render date, not ") && Closed("verification date) ")
    ensures Closed("· SP42 ")
  {
  }

  lemma DateIsBland(ms: int)
    ensures Bland(FormatUtcDate(ms))
  {
    hide CivilFromDays, FormatUtcDate, Bland, PrintNat, Closed, Opens, ZeroPadded;
    PrintersAgree(ms);
    SumRules();
    var c := CivilFromDays(ms / MS_PER_DAY);
    PaddedIsClosed(c.year, 4);
    PaddedIsClosed(c.month, 2);
    PaddedIsClosed(c.day, 2);
    DashTexts();
  }

  lemma DashTexts()
    ensures Closed("-") && Bland("")
  {
  }

  lemma PaddedIsClosed(n: int, w: nat)
    ensures Closed(ZeroPadded(n, w))
  {
    hide PrintNat, Zeros, Bland, Closed, Opens;
    SumRules();
    NumberRule();
    DashTexts();
    var digits := PrintNat(if n < 0 then -n else n);
    var missing := w - |if n < 0 then "-" else ""| - |digits|;
    var zeros := Zeros(if missing > 0 then missing else 0);
    if zeros != "" {
      DigitsAreClosed(zeros);
    }
    assert "" + zeros == zeros && zeros + digits == zeros + digits;
    assert zeros == "" ==> "-" + zeros == "-" && "" + digits == digits;
  }

  lemma RenderNoteIsClosed(r: Report, renderedAtMs: i64)
    ensures Closed(RenderNote(r, renderedAtMs))
  {
    hide Closed, Bland, Opens, PrintNat, FormatUtcDate;
    SumRules();
    NumberRule();
    FrameTexts();
    RenderTexts();
    DateIsBland(renderedAtMs);
  }

  lemma FrameShows(r: Report, renderedAtMs: i64)
    ensures Plain(Header(r)) && Verbatims(Header(r)) == Links(Header(r)) == []
    ensures Plain(Footer(r, renderedAtMs)) && Verbatims(Footer(r, renderedAtMs)) == [r.title]
    ensures Links(Footer(r, renderedAtMs)) == []
  {
    hide Plain, Verbatims, Links, Closed, Bland, HeaderText, SummaryText, RenderNote;
    PlainRules();
    FieldRules();
    LinkRules();
    FrameTexts();
    HeaderIsClosed();
    SummaryIsClosed(r);
    RenderNoteIsClosed(r, renderedAtMs);
  }

  lemma ClosingTextIsClosed()
    ensures Closed(Closing()[0].text) && Bland(Closing()[0].text)
  {
    hide Closed, Bland, Opens, FramingLine, ExplainerUrl;
    SumRules();
    FrameTexts();
    FramingIsBland();
    ExplainerUrlIsBland();
  }

  lemma ClosingShows()
    ensures Plain(Closing()) && Verbatims(Closing()) == Links(Closing()) == []
  {
    hide Plain, Verbatims, Links, Closed, Bland, FramingLine, ExplainerUrl;
    PlainRules();
    FieldRules();
    LinkRules();
    SumRules();
    FrameTexts();
    FramingIsBland();
    ExplainerUrlIsBland();
  }

  /** Everything before the version is plain and shows the report's fields and links, in order. */
  lemma BodyShows(r: Report, renderedAtMs: i64)
    ensures Plain(Body(r, renderedAtMs))
    ensures Verbatims(Body(r, renderedAtMs)) == ReportFields(r) && Links(Body(r, renderedAtMs)) == ReportLinks(r)
  {
    FrameShows(r, renderedAtMs);
    BucketsShow(r.findings, BUCKETS);
    SectionsShow(r);
    hide Plain, Verbatims, Links, Header, Buckets, SkippedSection, BooksSection, FailuresSection, Footer,
      BucketFields, BucketLinks, SkipFields, BookFields, FailureFields, BUCKETS;
    PlainRules();
    FieldRules();
    LinkRules();
    var findings := Header(r) + Buckets(r.findings, BUCKETS);
    VerbatimsConcat(findings, SkippedSection(r));
    VerbatimsConcat(findings + SkippedSection(r), BooksSection(r));
    VerbatimsConcat(findings + SkippedSection(r) + BooksSection(r), FailuresSection(r));
    VerbatimsConcat(findings + SkippedSection(r) + BooksSection(r) + FailuresSection(r), Footer(r, renderedAtMs));
  }

  // ---------------------------------------------------------------------------
  // The rendered text.

  /** The rendered appendix read back, for every report: every `<` starts an alternating `<nowiki>` or
      `</nowiki>`, no brace stands outside a span, and the spans hold the report's fields, each the exact
      original text, in the order of the sections, and nothing else. */
  lemma AppendixShowsReport(r: Report, renderedAtMs: i64, version: string)
    requires MarkupFree(version)
    ensures VerbatimFields(Flatten(AppendixPieces(r, renderedAtMs, version))) == Some(ReportFields(r))
  {
    hide MarkupFree, Verbatims, Flatten, VerbatimFields, Body, Closing, ReportFields, Links, Plain, NoMarkup;
    BodyShows(r, renderedAtMs);
    ClosingShows();
    PlainHasNoMarkup(Body(r, renderedAtMs));
    PlainHasNoMarkup(Closing());
    AroundVersion(Body(r, renderedAtMs), version, Closing());
    FieldsOfPieces(AppendixPieces(r, renderedAtMs, version));
  }

  lemma AroundVersion(before: seq<Piece>, version: string, after: seq<Piece>)
    requires NoMarkup(before) && MarkupFree(version) && NoMarkup(after) && Verbatims(after) == []
    ensures NoMarkup(before + [Copy(version)] + after)
    ensures Verbatims(before + [Copy(version)] + after) == Verbatims(before)
  {
    hide MarkupFree, Verbatims;
    var ps := before + [Copy(version)] + after;
    FieldRules();
    assert ps[|before|] == Copy(version);
    assert forall i :: 0 <= i < |before| ==> ps[i] == before[i];
    assert forall i :: 0 <= i < |after| ==> ps[|before| + 1 + i] == after[i];
  }

  lemma TextAroundVersion(r: Report, renderedAtMs: i64, version: string)
    ensures Flatten(AppendixPieces(r, renderedAtMs, version))
         == Flatten(Body(r, renderedAtMs)) + (version + Flatten(Closing()))
  {
    hide Flatten, Body, Closing;
    FlattenConcat(Body(r, renderedAtMs) + [Copy(version)], Closing());
    FlattenConcat(Body(r, renderedAtMs), [Copy(version)]);
    FlattenOne(Copy(version));
    Assoc(Flatten(Body(r, renderedAtMs)), version, Flatten(Closing()));
  }

  predicate EndsInSpace(s: string)
  {
    s != "" && s[|s| - 1] == ' '
  }

  predicate StartsWithSpace(s: string)
  {
    s != "" && s[0] == ' '
  }

  /** Spaces stand on both sides of the version. */
  lemma SpacesAroundVersion(r: Report, renderedAtMs: i64)
    ensures EndsInSpace(Flatten(Body(r, renderedAtMs)))
    ensures StartsWithSpace(Flatten(Closing())) && '_' !in Flatten(Closing())
  {
    hide Flatten, Header, Buckets, SkippedSection, BooksSection, FailuresSection, Bland, Closed, FramingLine,
      ExplainerUrl, EscapeVerbatim, RenderNote;
    var before := Header(r) + Buckets(r.findings, BUCKETS) + SkippedSection(r) + BooksSection(r) + FailuresSection(r);
    var note, start := RenderNote(r, renderedAtMs), [Copy("\n----\n''"), Verbatim(r.title)];
    FlattenConcat(before, Footer(r, renderedAtMs));
    assert Footer(r, renderedAtMs) == start + [Copy(note)];
    FlattenConcat(start, [Copy(note)]);
    FlattenOne(Copy(note));
    NoteEndsInSpace(r, renderedAtMs);
    FlattenOne(Closing()[0]);
    ClosingTextIsClosed();
    BlandIsMarkupFree(Closing()[0].text);
  }

  lemma NoteEndsInSpace(r: Report, renderedAtMs: i64)
    ensures EndsInSpace(RenderNote(r, renderedAtMs))
  {
    hide FormatUtcDate, PrintNat;
    assert "· SP42 "[6] == ' ';
  }

  /** The text carries a raw cite id if and only if the version, or some field or link of the report as shown,
      does. */
  lemma AppendixCitesIff(r: Report, renderedAtMs: i64, version: string)
    ensures NoCite(Flatten(AppendixPieces(r, renderedAtMs, version))) <==>
              NoCite(version) && NoneCite(ReportFields(r)) && NoneCite(ReportLinks(r))
  {
    hide NoCite, Flatten, Body, Closing, NoneCite, ReportFields, ReportLinks, Verbatims, Links, Plain,
      CITE_PREFIX, InPrefix;
    var before, after := Flatten(Body(r, renderedAtMs)), Flatten(Closing());
    BodyShows(r, renderedAtMs);
    CiteInPieces(Body(r, renderedAtMs));
    TextAroundVersion(r, renderedAtMs, version);
    SpacesAroundVersion(r, renderedAtMs);
    SpaceIsForeign();
    CiteOfSum(before, version + after);
    StopKeepsCite(version, after);
  }

  lemma SpaceIsForeign()
    ensures !InPrefix(' ') && !IsAlpha(' ')
  {
  }

  /** The text carries a listed word if and only if the version, a field of the report as shown, or a link target
      as encoded, does. */
  lemma AppendixWordsIff(r: Report, renderedAtMs: i64, version: string)
    ensures Clean(Flatten(AppendixPieces(r, renderedAtMs, version))) <==>
              Clean(version) && AllClean(ReportFields(r)) && AllTargetsClean(ReportLinks(r))
  {
    hide Clean, Flatten, Body, Closing, AllClean, AllTargetsClean, ReportFields, ReportLinks, Verbatims, Links, Plain;
    var before, after := Flatten(Body(r, renderedAtMs)), Flatten(Closing());
    BodyShows(r, renderedAtMs);
    ClosingShows();
    CleanPieces(Body(r, renderedAtMs));
    CleanPieces(Closing());
    CleanOfFew();
    TextAroundVersion(r, renderedAtMs, version);
    SpacesAroundVersion(r, renderedAtMs);
    SpaceIsForeign();
    CleanOfSum(before, version + after);
    CleanOfSum(version, after);
  }

  /** What the failures section contributes never carries either. */
  lemma {:induction false} FailuresAreClean(fs: seq<Failure>)
    ensures NoneCite(FailureFields(fs)) && AllClean(FailureFields(fs))
  {
    hide NoCite, Clean, Neutral, Relabelled, NoneCite, AllClean;
    CitesOfFew();
    CleanOfFew();
    if fs != [] {
      var f := fs[|fs| - 1];
      FailuresAreClean(fs[..|fs| - 1]);
      SanitizedReasonIsClean(f.reason, f.block);
      NoneCiteConcat(FailureFields(fs[..|fs| - 1]), [Neutral(Relabelled(f.reason, f.block))]);
      AllCleanConcat(FailureFields(fs[..|fs| - 1]), [Neutral(Relabelled(f.reason, f.block))]);
    }
  }
}
