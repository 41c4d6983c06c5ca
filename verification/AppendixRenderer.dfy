/** The renderer itself: methods that append to the output text. */
module AppendixRenderer {
  import opened Machine
  import opened Wikitext
  import opened ToolWording
  import opened CiteLabels
  import opened Pieces
  import opened VerificationReport
  import opened AppendixCopy
  import opened Appendix
  import opened AppendixAccounting

  /** The positions of a sublist's findings, collected in report order. */
  method CollectFindings(fs: seq<Finding>, bucket: Bucket) returns (findings: seq<nat>)
    ensures findings == InBucket(fs, bucket)
  {
    hide BucketFor;
    findings := [];
    for i := 0 to |fs|
      invariant findings == InBucket(fs[..i], bucket)
    {
      if BucketFor(fs[i]) == bucket {
        findings := findings + [i];
      }
      assert fs[..i + 1][..i] == fs[..i];
    }
    assert fs[..|fs|] == fs;
  }

  /** Append one sublist: nothing when it is empty, else a heading and a line per finding, in report order. */
  method RenderBucket(output: string, report: Report, bucket: Bucket) returns (out: string)
    ensures out == output + Flatten(BucketSection(report.findings, bucket))
  {
    hide Line, Flatten, InBucket, Heading, BucketHeading;
    var fs := report.findings;
    var findings := CollectFindings(fs, bucket);
    out := output;
    if findings == [] {
      FlattenNothing(output);
      return;
    }
    var heading := [Heading(BucketHeading(bucket))];
    out := out + Flatten(heading);
    assert findings[..0] == [];
    FlattenNothing(out);
    for k := 0 to |findings|
      invariant out == output + Flatten(heading) + Flatten(Lines(fs, findings[..k], bucket))
    {
      var line := Line(fs[findings[k]], bucket);
      assert findings[..k + 1][..k] == findings[..k];
      FlattenConcat(Lines(fs, findings[..k], bucket), line);
      Assoc(output + Flatten(heading), Flatten(Lines(fs, findings[..k], bucket)), Flatten(line));
      out := out + Flatten(line);
    }
    assert findings[..|findings|] == findings;
    FlattenConcat(heading, Lines(fs, findings, bucket));
    Assoc(output, Flatten(heading), Flatten(Lines(fs, findings, bucket)));
  }

  lemma FlattenNothing(s: string)
    ensures s + Flatten([]) == s
  {
  }

  method RenderSkippedSection(output: string, report: Report) returns (out: string)
    ensures out == output + Flatten(SkippedSection(report))
  {
    hide SkipLine, Flatten;
    out := output;
    var skips := report.skipped;
    if skips == [] {
      FlattenNothing(output);
      return;
    }
    var heading := [Heading(SkippedHeading())];
    out := out + Flatten(heading);
    assert skips[..0] == [];
    FlattenNothing(out);
    for k := 0 to |skips|
      invariant out == output + Flatten(heading) + Flatten(SkipLines(skips[..k], report.books))
    {
      var line := SkipLine(skips[k], report.books);
      assert skips[..k + 1][..k] == skips[..k];
      FlattenConcat(SkipLines(skips[..k], report.books), line);
      Assoc(output + Flatten(heading), Flatten(SkipLines(skips[..k], report.books)), Flatten(line));
      out := out + Flatten(line);
    }
    assert skips[..|skips|] == skips;
    FlattenConcat(heading, SkipLines(skips, report.books));
    Assoc(output, Flatten(heading), Flatten(SkipLines(skips, report.books)));
  }

  /** Only resolved books are listed. */
  method RenderBooksSection(output: string, report: Report) returns (out: string)
    ensures out == output + Flatten(BooksSection(report))
  {
    hide BookLine, Flatten;
    out := output;
    var books := report.books;
    if !(exists b :: b in books && b.outcome.Resolved?) {
      FlattenNothing(output);
      return;
    }
    var heading := [Heading(BooksHeading())];
    out := out + Flatten(heading);
    assert books[..0] == [];
    FlattenNothing(out);
    for k := 0 to |books|
      invariant out == output + Flatten(heading) + Flatten(BookLines(books[..k]))
    {
      assert books[..k + 1][..k] == books[..k];
      if books[k].outcome.Resolved? {
        var line := BookLine(books[k]);
        FlattenConcat(BookLines(books[..k]), line);
        Assoc(output + Flatten(heading), Flatten(BookLines(books[..k])), Flatten(line));
        out := out + Flatten(line);
      }
    }
    assert books[..|books|] == books;
    FlattenConcat(heading, BookLines(books));
    Assoc(output, Flatten(heading), Flatten(BookLines(books)));
  }

  method RenderFailures(output: string, report: Report) returns (out: string)
    ensures out == output + Flatten(FailuresSection(report))
  {
    hide Flatten, Neutral, Relabelled;
    out := output;
    var failures := report.failures;
    if failures == [] {
      FlattenNothing(output);
      return;
    }
    var heading := [Heading(FailuresHeading())];
    out := out + Flatten(heading);
    assert failures[..0] == [];
    FlattenNothing(out);
    for k := 0 to |failures|
      invariant out == output + Flatten(heading) + Flatten(FailureLines(failures[..k]))
    {
      var rewritten := SanitizeReason(failures[k].reason, failures[k].block);
      var line := [Copy("* "), Verbatim(rewritten), Copy("\n")];
      assert failures[..k + 1][..k] == failures[..k];
      FlattenConcat(FailureLines(failures[..k]), line);
      Assoc(output + Flatten(heading), Flatten(FailureLines(failures[..k])), Flatten(line));
      out := out + Flatten(line);
    }
    assert failures[..|failures|] == failures;
    FlattenConcat(heading, FailureLines(failures));
    Assoc(output, Flatten(heading), Flatten(FailureLines(failures)));
  }

  /** `render_ga_appendix`: the text read back shows exactly the report's fields. */
  method RenderGaAppendix(report: Report, renderedAtMs: i64, version: string) returns (output: string)
    ensures output == Flatten(AppendixPieces(report, renderedAtMs, version))
    ensures MarkupFree(version) ==> VerbatimFields(output) == Some(ReportFields(report))
  {
    hide Flatten, Header, Buckets, BucketSection, SkippedSection, BooksSection, FailuresSection, Footer,
      VerbatimFields, ReportFields, MarkupFree, Closing;
    var fs := report.findings;
    ghost var pushed := Header(report);
    output := Flatten(Header(report));
    output := RenderBucket(output, report, Disagreements);
    pushed := Pushed(pushed, BucketSection(fs, Disagreements));
    output := RenderBucket(output, report, Recovered);
    pushed := Pushed(pushed, BucketSection(fs, Recovered));
    output := RenderBucket(output, report, DeadLinks);
    pushed := Pushed(pushed, BucketSection(fs, DeadLinks));
    output := RenderBucket(output, report, Unreadable);
    pushed := Pushed(pushed, BucketSection(fs, Unreadable));
    output := RenderBucket(output, report, Unconfirmed);
    pushed := Pushed(pushed, BucketSection(fs, Unconfirmed));
    output := RenderBucket(output, report, SupportedChecks);
    pushed := Pushed(pushed, BucketSection(fs, SupportedChecks));
    SixSections(Header(report), fs);
    output := RenderSkippedSection(output, report);
    pushed := Pushed(pushed, SkippedSection(report));
    output := RenderBooksSection(output, report);
    pushed := Pushed(pushed, BooksSection(report));
    output := RenderFailures(output, report);
    pushed := Pushed(pushed, FailuresSection(report));
    output := output + Flatten(Footer(report, renderedAtMs));
    pushed := Pushed(pushed, Footer(report, renderedAtMs));
    output := output + version;
    FlattenOne(Copy(version));
    pushed := Pushed(pushed, [Copy(version)]);
    output := output + Flatten(Closing());
    pushed := Pushed(pushed, Closing());
    if MarkupFree(version) {
      AppendixShowsReport(report, renderedAtMs, version);
    }
  }

  /** The pieces pushed so far and one more section. */
  ghost function Pushed(before: seq<Piece>, section: seq<Piece>): (after: seq<Piece>)
    ensures after == before + section && Flatten(after) == Flatten(before) + Flatten(section)
  {
    FlattenConcat(before, section);
    before + section
  }

  lemma SixSections(header: seq<Piece>, fs: seq<Finding>)
    ensures header + Buckets(fs, BUCKETS) ==
            header + BucketSection(fs, Disagreements) + BucketSection(fs, Recovered)
            + BucketSection(fs, DeadLinks) + BucketSection(fs, Unreadable)
            + BucketSection(fs, Unconfirmed) + BucketSection(fs, SupportedChecks)
  {
    hide BucketSection, Buckets;
    NoBuckets(fs);
    var two := [Disagreements] + [Recovered];
    var four := two + [DeadLinks] + [Unreadable];
    assert BUCKETS == four + [Unconfirmed] + [SupportedChecks];
    OneMoreBucket(fs, [], Disagreements);
    assert [] + [Disagreements] == [Disagreements];
    OneMoreBucket(fs, [Disagreements], Recovered);
    OneMoreBucket(fs, two, DeadLinks);
    OneMoreBucket(fs, two + [DeadLinks], Unreadable);
    OneMoreBucket(fs, four, Unconfirmed);
    OneMoreBucket(fs, four + [Unconfirmed], SupportedChecks);
    SixSums(header, BucketSection(fs, Disagreements), BucketSection(fs, Recovered),
            BucketSection(fs, DeadLinks), BucketSection(fs, Unreadable),
            BucketSection(fs, Unconfirmed), BucketSection(fs, SupportedChecks));
  }

  lemma NoBuckets(fs: seq<Finding>)
    ensures Buckets(fs, []) == []
  {
  }

  lemma OneMoreBucket(fs: seq<Finding>, bs: seq<Bucket>, b: Bucket)
    ensures Buckets(fs, bs + [b]) == Buckets(fs, bs) + BucketSection(fs, b)
  {
    hide BucketSection;
    assert (bs + [b])[..|bs|] == bs;
  }

  lemma SixSums(h: seq<Piece>, a: seq<Piece>, b: seq<Piece>, c: seq<Piece>, d: seq<Piece>, e: seq<Piece>, f: seq<Piece>)
    ensures h + ([] + a + b + c + d + e + f) == h + a + b + c + d + e + f
  {
  }
}
