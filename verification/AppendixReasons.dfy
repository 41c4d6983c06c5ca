/** What the skipped-refs and books sections tell the reader: why a ref was skipped, which books it cites, and
    whether a scan could be searched. */
module AppendixReasons {
  import opened Machine
  import opened Wikitext
  import opened Pieces
  import opened VerificationReport
  import opened AppendixCopy
  import opened Appendix
  import opened AppendixNotices

  // ---------------------------------------------------------------------------
  // Which books a skipped ref cites.

  lemma {:induction false} IdentifiersExactly(sources: seq<BookSource>, id: BookIdentifier)
    ensures id in AllIdentifiers(sources) <==> exists k :: 0 <= k < |sources| && id in sources[k].identifiers
  {
    if sources != [] {
      IdentifiersExactly(sources[1..], id);
      assert sources == [sources[0]] + sources[1..];
      if k :| 0 <= k < |sources| && id in sources[k].identifiers && k > 0 {
        assert sources[1..][k - 1] == sources[k];
      }
    }
  }

  /** The identifiers of all sources, source by source. */
  lemma {:induction false} IdentifiersInOrder(first: seq<BookSource>, second: seq<BookSource>)
    ensures AllIdentifiers(first + second) == AllIdentifiers(first) + AllIdentifiers(second)
    ensures |first| == 1 ==> AllIdentifiers(first) == first[0].identifiers
  {
    if first == [] {
      assert first + second == second;
    } else {
      IdentifiersInOrder(first[1..], second);
      assert (first + second)[1..] == first[1..] + second;
    }
  }

  /** The page shown is that of the first source that cites one. */
  lemma {:induction false} FirstPageExactly(sources: seq<BookSource>, page: Option<string>)
    ensures FirstPage(sources) == page <==>
              if page.Some? then
                exists k :: 0 <= k < |sources| && sources[k].citedPage == page
                            && forall j :: 0 <= j < k ==> sources[j].citedPage.None?
              else forall j :: 0 <= j < |sources| ==> sources[j].citedPage.None?
  {
    if sources != [] {
      var rest := sources[1..];
      FirstPageExactly(rest, page);
      assert forall j :: 0 < j < |sources| ==> sources[j] == rest[j - 1];
      if FirstPage(sources) == page && page.Some? && sources[0].citedPage.None? {
        var k :| 0 <= k < |rest| && rest[k].citedPage == page && forall j :: 0 <= j < k ==> rest[j].citedPage.None?;
        assert sources[k + 1].citedPage == page;
      }
      if k :| 0 <= k < |sources| && sources[k].citedPage == page && page.Some?
              && (forall j :: 0 <= j < k ==> sources[j].citedPage.None?) && k > 0 {
        assert sources[0].citedPage.None?;
        assert rest[k - 1].citedPage == page;
      }
    }
  }

  /** The label names the kind of identifier and ends with its value, so different identifiers look different. */
  lemma IdentifiersDiffer(a: BookIdentifier, b: BookIdentifier)
    ensures IdentifierText(a) == IdentifierText(b) <==> a == b
    ensures StartsWith(IdentifierText(a), "ISBN ") <==> a.Isbn?
    ensures StartsWith(IdentifierText(a), "OCLC ") <==> a.Oclc?
    ensures StartsWith(IdentifierText(a), "LCCN ") <==> a.Lccn?
    ensures StartsWith(IdentifierText(a), "Open Library id ") <==> a.Olid?
  {
    LabelParts(a);
    LabelParts(b);
    hide IdentifierText;
  }

  function Label(id: BookIdentifier): string
  {
    match id
    case Isbn(_) => "ISBN "
    case Oclc(_) => "OCLC "
    case Lccn(_) => "LCCN "
    case Olid(_) => "Open Library id "
  }

  lemma LabelParts(id: BookIdentifier)
    ensures StartsWith(IdentifierText(id), Label(id)) && IdentifierText(id)[|Label(id)|..] == id.v
    ensures IdentifierText(id)[0] == Label(id)[0] && IdentifierText(id)[1] == Label(id)[1]
  {
  }

  // ---------------------------------------------------------------------------
  // Why a ref was skipped.

  /** The resolution is about the skipped ref and shares a book with it, if the skip names any. */
  ghost predicate IsAbout(b: BookResolution, skip: SkippedRef)
  {
    && b.refId == skip.refId
    && ((forall k :: 0 <= k < |skip.sources| ==> skip.sources[k].identifiers == [])
        || exists id, k :: 0 <= k < |skip.sources| && id in skip.sources[k].identifiers && id in b.identifiers)
  }

  /** The first resolution about the skip is a lookup that did not complete. */
  ghost predicate LookupBroke(skip: SkippedRef, books: seq<BookResolution>)
  {
    exists i :: 0 <= i < |books| && IsAbout(books[i], skip) && books[i].outcome == LookupFailed
                && forall j :: 0 <= j < i ==> !IsAbout(books[j], skip)
  }

  lemma AboutExactly(b: BookResolution, skip: SkippedRef)
    ensures var ids := AllIdentifiers(skip.sources);
            IsAbout(b, skip) <==>
            b.refId == skip.refId && (ids == [] || exists id :: id in b.identifiers && id in ids)
  {
    var ids := AllIdentifiers(skip.sources);
    forall id ensures id in ids <==> exists k :: 0 <= k < |skip.sources| && id in skip.sources[k].identifiers {
      IdentifiersExactly(skip.sources, id);
    }
    if ids != [] {
      assert ids[0] in ids;
    }
    if k :| 0 <= k < |skip.sources| && skip.sources[k].identifiers != [] {
      assert skip.sources[k].identifiers[0] in ids;
    }
    hide AllIdentifiers;
  }

  lemma {:induction false} OutcomeExactly(skip: SkippedRef, books: seq<BookResolution>)
    ensures SkipOutcome(skip, books) == Some(LookupFailed) <==> LookupBroke(skip, books)
  {
    if books != [] {
      var rest := books[1..];
      OutcomeExactly(skip, rest);
      AboutExactly(books[0], skip);
      hide IsAbout, AllIdentifiers;
      assert forall j :: 0 < j < |books| ==> books[j] == rest[j - 1];
      if LookupBroke(skip, rest) && !IsAbout(books[0], skip) {
        var i :| 0 <= i < |rest| && IsAbout(rest[i], skip) && rest[i].outcome == LookupFailed
                 && forall j :: 0 <= j < i ==> !IsAbout(rest[j], skip);
        assert books[i + 1] == rest[i];
        assert LookupBroke(skip, books);
      }
      if LookupBroke(skip, books) {
        var i :| 0 <= i < |books| && IsAbout(books[i], skip) && books[i].outcome == LookupFailed
                 && forall j :: 0 <= j < i ==> !IsAbout(books[j], skip);
        if i > 0 {
          assert rest[i - 1] == books[i];
          assert forall j :: 0 <= j < i - 1 ==> !IsAbout(rest[j], skip);
        }
      }
    }
  }

  /** The text is followed by the identifiers, or ends the line. */
  predicate SaysBeforeBooks(ps: seq<Piece>, text: string)
  {
    Says(ps, text + "\n") || Says(ps, text + " (")
  }

  lemma {:induction false} ListHasNoColon(ids: seq<BookIdentifier>)
    ensures NoColon(IdentifierList(ids))
  {
    hide IdentifierText;
    if |ids| > 1 {
      ListHasNoColon(ids[1..]);
    }
  }

  lemma BooksHaveNoColon(ids: seq<BookIdentifier>, page: Option<string>)
    ensures NoColon(IdentifierList(ids) + CitedPiece(page) + [Copy(")\n")])
  {
    ListHasNoColon(ids);
    assert NoColon(CitedPiece(page)) && NoColon([Copy(")\n")]);
    hide NoColon, IdentifierList, CitedPiece;
    NoColonOfSum(IdentifierList(ids), CitedPiece(page));
    NoColonOfSum(IdentifierList(ids) + CitedPiece(page), [Copy(")\n")]);
  }

  /** The one text with a colon in a tail is the one it starts with. */
  lemma TailSays(text: string, ids: seq<BookIdentifier>, page: Option<string>, other: string)
    requires StartsWithColon(text) && StartsWithColon(other)
    ensures Says(BookTail(text, ids, page), other) <==> other == text + (if ids == [] then "\n" else " (")
  {
    if ids == [] {
      assert BookTail(text, ids, page)[0] == Copy(text + "\n");
    } else {
      BooksHaveNoColon(ids, page);
      var rest := IdentifierList(ids) + CitedPiece(page) + [Copy(")\n")];
      hide IdentifierList, CitedPiece, NoColon, StartsWithColon;
      NoColonSaysNot(rest, other);
      assert BookTail(text, ids, page) == [Copy(text + " (")] + rest;
      assert [Copy(text + " (")][0] == Copy(text + " (");
      SaysOfSum([Copy(text + " (")], rest, other);
    }
  }

  function ReasonNotice(reason: string): string
  {
    ": " + reason
  }

  lemma LineSays(skip: SkippedRef, books: seq<BookResolution>, reason: string)
    ensures SaysBeforeBooks(SkipLine(skip, books), ReasonNotice(reason)) <==> reason == SkipReasonText(skip, books)
  {
    var actual := SkipReasonText(skip, books);
    hide SkipReasonText, SkipPieces, BookTail, AllIdentifiers, FirstPage, NoColon;
    var ids, page := AllIdentifiers(skip.sources), FirstPage(skip.sources);
    var start, tail := [Copy("* ")] + SkipPieces(skip.refId, skip.block), BookTail(ReasonNotice(actual), ids, page);
    ReferenceHasNoColon(skip.refId, skip.block);
    assert SkipLine(skip, books) == start + tail;
    var closed, open := ReasonNotice(reason) + "\n", ReasonNotice(reason) + " (";
    assert StartsWithColon(closed) && StartsWithColon(open) && StartsWithColon(ReasonNotice(actual));
    hide StartsWithColon, Says;
    NoColonSaysNot(start, closed);
    NoColonSaysNot(start, open);
    SaysOfSum(start, tail, closed);
    SaysOfSum(start, tail, open);
    TailSays(ReasonNotice(actual), ids, page, closed);
    TailSays(ReasonNotice(actual), ids, page, open);
    ReasonsOfText(reason, actual);
    ReasonsOfText(actual, reason);
  }

  lemma ReasonsOfText(a: string, b: string)
    ensures (ReasonNotice(a) + "\n" == ReasonNotice(b) + "\n") <==> a == b
    ensures (ReasonNotice(a) + " (" == ReasonNotice(b) + " (") <==> a == b
    ensures ReasonNotice(a) + "\n" != ReasonNotice(b) + " ("
  {
    var x, y := ReasonNotice(a), ReasonNotice(b);
    assert (x + "\n")[|x + "\n"| - 1] == '\n' && (y + " (")[|y + " ("| - 1] == '(';
    assert x[2..] == a && y[2..] == b;
    assert (x + "\n")[..|x|] == x && (y + "\n")[..|y|] == y && (x + " (")[..|x|] == x && (y + " (")[..|y|] == y;
  }

  lemma ReasonsDiffer()
    ensures |SkippedNonUrl()| == 55 && |SkippedBookUnresolved()| == 74 && |SkippedShortCite()| == 91
    ensures |SkippedLookupFailed()| == 124
  {
    assert |LookupFailedText()| == 53;
    assert |LookupFailedMeaning()| == 71;
  }

  /** A skipped line gives one of four reasons: the ref cites nothing the tool verifies, or a short cite that was not
      resolved, or a book whose lookup did not complete, or a book no record was found for. */
  lemma ReasonSaid(skip: SkippedRef, books: seq<BookResolution>)
    ensures var line := SkipLine(skip, books);
            && (SaysBeforeBooks(line, ReasonNotice(SkippedNonUrl())) <==> skip.reason == NonUrlSource)
            && (SaysBeforeBooks(line, ReasonNotice(SkippedShortCite())) <==> skip.reason == UnresolvedShortCite)
            && (SaysBeforeBooks(line, ReasonNotice(SkippedLookupFailed())) <==>
                skip.reason == FromBook && LookupBroke(skip, books))
            && (SaysBeforeBooks(line, ReasonNotice(SkippedBookUnresolved())) <==>
                skip.reason == FromBook && !LookupBroke(skip, books))
  {
    ReasonsDiffer();
    OutcomeExactly(skip, books);
    hide SkippedNonUrl, SkippedShortCite, SkippedLookupFailed, SkippedBookUnresolved, SkipLine, SaysBeforeBooks,
      ReasonNotice, LookupBroke, SkipOutcome;
    LineSays(skip, books, SkippedNonUrl());
    LineSays(skip, books, SkippedShortCite());
    LineSays(skip, books, SkippedLookupFailed());
    LineSays(skip, books, SkippedBookUnresolved());
  }

  // ---------------------------------------------------------------------------
  // Books consulted.

  ghost predicate Identified(items: seq<ScanItem>)
  {
    exists k :: 0 <= k < |items| && items[k].ocaid.Some?
  }

  lemma ScanTextsDiffer()
    ensures |BookScanExact()| == 23 && |BookScanSimilarOnly()| == 30 && |BookScanNone()| == 33
    ensures |BookScanExactUnsearchable()| == 83 && |BookScanUnknown()| == 55
  {
  }

  /** A book's line tells of its scan: unknown when the lookup did not complete; searchable when an exact edition is
      identified; an exact edition that is not; a similar one only; or none. */
  lemma ScanSaid(scan: Option<Availability>)
    ensures (ScanText(scan) == BookScanUnknown() <==> scan.None?)
    ensures (ScanText(scan) == BookScanExact() <==> scan.Some? && Identified(scan.value.exact))
    ensures (ScanText(scan) == BookScanExactUnsearchable() <==>
             scan.Some? && |scan.value.exact| > 0 && !Identified(scan.value.exact))
    ensures (ScanText(scan) == BookScanSimilarOnly() <==>
             scan.Some? && |scan.value.exact| == 0 && |scan.value.similar| > 0)
    ensures (ScanText(scan) == BookScanNone() <==>
             scan.Some? && |scan.value.exact| == 0 && |scan.value.similar| == 0)
  {
    ScanTextsDiffer();
    hide BookScanUnknown, BookScanExact, BookScanExactUnsearchable, BookScanSimilarOnly, BookScanNone;
  }

  /** And the line carries that text, before the identifiers or at its end; it says that a book is untitled exactly
      if it has no title. */
  lemma BookSaid(b: BookResolution)
    requires b.outcome.Resolved?
    ensures SaysBeforeBooks(BookLine(b), " — " + ScanText(b.outcome.scan))
    ensures Says(BookLine(b), ": (untitled book)") <==> b.outcome.title.None?
  {
    hide SkipPieces, ScanText, IdentifierList, CitedPiece, NoColon, StartsWithColon;
    var text := " — " + ScanText(b.outcome.scan);
    var start, title := [Copy("* ")] + SkipPieces(b.refId, b.block), TitlePieces(b.outcome.title);
    var tail := BookTail(text, b.identifiers, b.citedPage);
    assert BookLine(b) == start + title + tail;
    assert tail[0] == Copy(text + "\n") || tail[0] == Copy(text + " (");
    UntitledText();
    ReferenceHasNoColon(b.refId, b.block);
    TailHasNoColon(text, b.identifiers, b.citedPage);
    hide BookTail;
    SaidInMiddle(start, title, tail, ": (untitled book)");
    TitleSays(b.outcome.title);
  }

  lemma UntitledText()
    ensures StartsWithColon(": (untitled book)")
  {
  }

  lemma TitleSays(title: Option<string>)
    ensures Says(TitlePieces(title), ": (untitled book)") <==> title.None?
  {
    assert |": (untitled book)"| != |": "|;
    if title.None? {
      assert TitlePieces(title)[0] == Copy(": (untitled book)");
    }
  }

  lemma TailHasNoColon(text: string, ids: seq<BookIdentifier>, page: Option<string>)
    requires text != "" && text[0] == ' '
    ensures NoColon(BookTail(text, ids, page))
  {
    assert (text + "\n")[0] == (text + " (")[0] == ' ';
    if ids != [] {
      BooksHaveNoColon(ids, page);
      var rest := IdentifierList(ids) + CitedPiece(page) + [Copy(")\n")];
      assert NoColon([Copy(text + " (")]);
      hide NoColon, IdentifierList, CitedPiece;
      NoColonOfSum([Copy(text + " (")], rest);
      assert BookTail(text, ids, page) == [Copy(text + " (")] + rest;
    }
  }

  // ---------------------------------------------------------------------------
  // Headings and reasons by name.

  lemma HeadingStarts()
    ensures var h := DisagreementsHeading(); |h| > 15 && h[..11] == "==== Claim–" && h[5] == 'C'
    ensures var h := RecoveredHeading(); |h| > 20 && h[..18] == "==== Supported via" && h[5] == 'S' && h[15] == 'v'
    ensures var h := DeadLinksHeading(); |h| > 15 && h[..15] == "==== Dead links" && h[5] == 'D'
  {
  }

  lemma LaterHeadingStarts()
    ensures var h := UnreadableHeading(); |h| > 15 && h[..12] == "==== Sources" && h[5] == 'S' && h[6] == 'o'
    ensures var h := UnconfirmedHeading(); |h| > 15 && h[..16] == "==== Unconfirmed" && h[5] == 'U'
    ensures var h := SupportedHeading(); |h| > 20 && h[..19] == "==== Supported spot" && h[5] == 'S' && h[15] == 's'
  {
  }

  lemma StartChar(s: string, p: string, k: nat, c: char)
    requires k < |p| && p[k] == c
    ensures StartsWith(s, p) ==> s[k] == c
  {
  }

  /** Each sublist is printed under its own heading. */
  lemma HeadingsExactly(b: Bucket)
    ensures StartsWith(BucketHeading(b), "==== Claim–") <==> b == Disagreements
    ensures StartsWith(BucketHeading(b), "==== Supported via") <==> b == Recovered
    ensures StartsWith(BucketHeading(b), "==== Dead links") <==> b == DeadLinks
    ensures StartsWith(BucketHeading(b), "==== Sources") <==> b == Unreadable
    ensures StartsWith(BucketHeading(b), "==== Unconfirmed") <==> b == Unconfirmed
    ensures StartsWith(BucketHeading(b), "==== Supported spot") <==> b == SupportedChecks
  {
    HeadingStarts();
    LaterHeadingStarts();
    hide DisagreementsHeading, RecoveredHeading, DeadLinksHeading, UnreadableHeading, UnconfirmedHeading,
      SupportedHeading;
    var h := BucketHeading(b);
    StartChar(h, "==== Claim–", 5, 'C');
    StartChar(h, "==== Supported via", 5, 'S');
    StartChar(h, "==== Supported via", 6, 'u');
    StartChar(h, "==== Supported via", 15, 'v');
    StartChar(h, "==== Dead links", 5, 'D');
    StartChar(h, "==== Sources", 5, 'S');
    StartChar(h, "==== Sources", 6, 'o');
    StartChar(h, "==== Unconfirmed", 5, 'U');
    StartChar(h, "==== Supported spot", 5, 'S');
    StartChar(h, "==== Supported spot", 6, 'u');
    StartChar(h, "==== Supported spot", 15, 's');
  }

  lemma BodyTexts1()
    ensures |PdfText()| == 26 && PdfText()[1] == ' ' && |ChallengeText()| == 26 && ChallengeText()[1] == 'n'
    ensures |ShortText()| == 42
  {
  }

  lemma BodyTexts2()
    ensures |ViewerText()| == 48 && ViewerText()[3] == 'i' && |ArchivePageText()| == 48 && ArchivePageText()[3] == 'a'
    ensures |PageCodeText()| == 33
  {
  }

  lemma BodyTexts3()
    ensures |PaywallText()| == 30 && PaywallText()[4] == 'y' && |UnusedPageText()| == 30 && UnusedPageText()[4] == 'g'
    ensures |StorefrontText()| == 22
  {
  }

  /** Each reason a fetched source could not be used has its own text, except that two kinds of archive page and two
      kinds of page code share theirs. */
  lemma BodyReasonsExactly(r: UsabilityReason)
    ensures UnusableReason(r) == PdfText() <==> r == PdfBody
    ensures UnusableReason(r) == ViewerText() <==> r == ViewerShell
    ensures UnusableReason(r) == PaywallText() <==> r == NavChromePaywall
    ensures UnusableReason(r) == ShortText() <==> r == ShortBody
    ensures UnusableReason(r) == ChallengeText() <==> r == AntiBotChallenge
    ensures UnusableReason(r) == ArchivePageText() <==> r == WaybackRedirectNotice || r == WaybackChrome
    ensures UnusableReason(r) == PageCodeText() <==> r == JsonLdLeak || r == CssLeak
    ensures UnusableReason(r) == StorefrontText() <==> r == AmazonStub
    ensures UnusableReason(r) == UnusedPageText() <==> r == UsableBody
  {
    BodyTexts1();
    BodyTexts2();
    BodyTexts3();
    hide PdfText, ViewerText, PaywallText, ShortText, ChallengeText, ArchivePageText, PageCodeText, StorefrontText,
      UnusedPageText;
  }
}
