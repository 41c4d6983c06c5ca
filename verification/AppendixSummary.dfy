/** The summary line read back: the numbers a reader finds in its text. */
module AppendixSummary {
  import opened Text
  import opened Wikitext
  import opened VerificationReport
  import opened Appendix
  import opened AppendixAccounting

  /** The numbers of a text: its maximal runs of digits, in order. `run` holds the digits just read. */
  function ReadNumbers(s: string, run: string): seq<nat>
    requires AllDigits(run)
  {
    if s == "" then Pending(run)
    else if IsDigit(s[0]) then ReadNumbers(s[1..], run + [s[0]])
    else Pending(run) + ReadNumbers(s[1..], "")
  }

  function Pending(run: string): seq<nat>
    requires AllDigits(run)
  {
    if run == "" then [] else [DecimalValue(run)]
  }

  predicate NoDigits(s: string)
  {
    forall i :: 0 <= i < |s| ==> !IsDigit(s[i])
  }

  /** No number is left open at the end. */
  predicate Settled(s: string)
  {
    s == "" || !IsDigit(s[|s| - 1])
  }

  lemma {:induction false} ReadConcat(s: string, t: string, run: string)
    requires AllDigits(run) && s != "" && Settled(s)
    ensures ReadNumbers(s + t, run) == ReadNumbers(s, run) + ReadNumbers(t, "")
  {
    hide DecimalValue;
    assert (s + t)[1..] == s[1..] + t && (s + t)[0] == s[0];
    if |s| == 1 {
      assert s[1..] == "" && s[1..] + t == t;
    } else {
      assert s[1..][|s[1..]| - 1] == s[|s| - 1];
      ReadConcat(s[1..], t, if IsDigit(s[0]) then run + [s[0]] else "");
      hide ReadNumbers, Pending;
    }
  }

  lemma {:induction false} ReadDigits(digits: string, t: string, run: string)
    requires AllDigits(digits) && AllDigits(run)
    ensures AllDigits(run + digits) && ReadNumbers(digits + t, run) == ReadNumbers(t, run + digits)
  {
    hide DecimalValue;
    if digits == "" {
      assert digits + t == t && run + digits == run;
    } else {
      ReadDigits(digits[1..], t, run + [digits[0]]);
      assert (digits + t)[1..] == digits[1..] + t;
      assert run + [digits[0]] + digits[1..] == run + digits;
    }
  }

  lemma {:induction false} ReadText(s: string)
    requires NoDigits(s)
    ensures ReadNumbers(s, "") == []
  {
    if s != "" {
      ReadText(s[1..]);
    }
  }

  /** A number and the text after it. */
  lemma ReadNumber(n: nat, text: string)
    requires NoDigits(text) && text != ""
    ensures ReadNumbers(PrintNat(n) + text, "") == [n]
  {
    hide PrintNat;
    var digits := PrintNat(n);
    ReadDigits(digits, text, "");
    assert "" + digits == digits;
    ReadText(text[1..]);
  }

  function Read(s: string): seq<nat>
  {
    ReadNumbers(s, "")
  }

  lemma ReadSum(a: string, b: string)
    requires Settled(a) && Settled(b)
    ensures Settled(a + b) && Read(a + b) == Read(a) + Read(b)
  {
    if a == "" {
      assert a + b == b;
      assert ReadNumbers("", "") == [];
    } else {
      ReadConcat(a, b, "");
      if b != "" {
        assert (a + b)[|a + b| - 1] == b[|b| - 1];
      } else {
        assert a + b == a;
      }
    }
  }

  /** Appending a text, or a number and a text, to what was read so far. */
  lemma ReadRules()
    ensures forall a, t {:trigger Read(a + t)} {:trigger Settled(a + t)} ::
              Settled(a) && NoDigits(t) ==> Settled(a + t) && Read(a + t) == Read(a)
    ensures forall a, n: nat, t {:trigger a + PrintNat(n) + t} ::
              Settled(a) && NoDigits(t) && t != "" ==>
                Settled(a + PrintNat(n) + t) && Read(a + PrintNat(n) + t) == Read(a) + [n]
  {
    hide Settled, Read, PrintNat, NoDigits;
    forall a: string, t: string | Settled(a) && NoDigits(t) ensures Settled(a + t) && Read(a + t) == Read(a) {
      TextRead(t);
      ReadSum(a, t);
    }
    forall a: string, n: nat, t: string | Settled(a) && NoDigits(t) && t != ""
      ensures Settled(a + PrintNat(n) + t) && Read(a + PrintNat(n) + t) == Read(a) + [n]
    {
      NumberRead(n, t);
      ReadSum(a, PrintNat(n) + t);
      Assoc(a, PrintNat(n), t);
    }
  }

  lemma TextRead(t: string)
    requires NoDigits(t)
    ensures Settled(t) && Read(t) == []
  {
    ReadText(t);
  }

  lemma NumberRead(n: nat, t: string)
    requires NoDigits(t) && t != ""
    ensures Settled(PrintNat(n) + t) && Read(PrintNat(n) + t) == [n]
  {
    hide PrintNat;
    ReadNumber(n, t);
  }

  // The texts of the summary.

  lemma CheckedWords()
    ensures NoDigits("'Of ") && NoDigits(" references, ") && NoDigits(" citation use-sites ")
    ensures NoDigits("were machine-checked: ")
  {
  }

  lemma OutcomeWords()
    ensures NoDigits(" supported (") && NoDigits(" of them unconfirmed), ")
    ensures NoDigits(" partially supported, ") && NoDigits(" where claim and ") && NoDigits("source disagree, ")
  {
  }

  lemma UncheckedWords()
    ensures NoDigits(" dead ") && NoDigits(", ") && NoDigits(" ")
    ensures NoDigits(" the tool could ") && NoDigits("not read; ")
    ensures NoDigits(" book/offline ") && NoDigits(" and ") && NoDigits(" unprocessable ")
    ensures NoDigits(" were not checked.'\n") && NoDigits("")
  {
  }

  lemma PluralWords(n: nat)
    ensures NoDigits(Plural(n, "link", "links")) && NoDigits(Plural(n, "source", "sources"))
    ensures NoDigits(Plural(n, "ref", "refs"))
  {
  }

  lemma CheckedReads(r: Report)
    ensures Settled(CheckedText(r)) && Read(CheckedText(r)) == [r.stats.refsSeen, r.stats.verified]
  {
    hide NoDigits, Settled, Read, PrintNat;
    CheckedWords();
    ReadRules();
    TextRead("'Of ");
  }

  lemma OutcomeReads(r: Report)
    ensures Settled(OutcomeText(r))
    ensures Read(OutcomeText(r)) ==
            [r.stats.supported, CountUnconfirmed(r.findings), r.stats.partial, r.stats.notSupported]
  {
    hide NoDigits, Settled, Read, PrintNat, CountUnconfirmed;
    OutcomeWords();
    ReadRules();
    NumberRead(r.stats.supported, " supported (");
  }

  lemma UnreadReads(r: Report)
    ensures Settled(UnreadText(r))
    ensures Read(UnreadText(r)) == [CountBucket(r.findings, DeadLinks), CountBucket(r.findings, Unreadable)]
  {
    hide NoDigits, Settled, Read, PrintNat, CountBucket, Plural;
    UncheckedWords();
    PluralWords(CountBucket(r.findings, DeadLinks));
    PluralWords(CountBucket(r.findings, Unreadable));
    ReadRules();
    NumberRead(CountBucket(r.findings, DeadLinks), " dead ");
  }

  lemma UncheckedReads(r: Report)
    ensures Settled(UncheckedText(r)) && Read(UncheckedText(r)) == [r.stats.skipped, r.stats.failures]
  {
    hide NoDigits, Settled, Read, PrintNat, Plural;
    UncheckedWords();
    PluralWords(r.stats.skipped);
    PluralWords(r.stats.failures);
    ReadRules();
    NumberRead(r.stats.skipped, " book/offline ");
  }

  lemma TalliesAreLengths(fs: seq<Finding>)
    ensures forall b :: Tally(fs, b) == |InBucket(fs, b)|
  {
    hide Tally, InBucket;
    forall b ensures Tally(fs, b) == |InBucket(fs, b)| {
      LengthIsTally(fs, b);
    }
  }

  lemma SummaryNumbers(r: Report)
    ensures ReadNumbers(SummaryText(r), "") ==
            [r.stats.refsSeen, r.stats.verified, r.stats.supported, |InBucket(r.findings, Unconfirmed)|,
             r.stats.partial, r.stats.notSupported, |InBucket(r.findings, DeadLinks)|,
             |InBucket(r.findings, Unreadable)|, r.stats.skipped, r.stats.failures]
  {
    hide Settled, CheckedText, OutcomeText, UnreadText, UncheckedText, InBucket, ReadNumbers;
    FindingsAreConserved(r);
    CheckedReads(r);
    OutcomeReads(r);
    UnreadReads(r);
    UncheckedReads(r);
    ReadSum(CheckedText(r), OutcomeText(r));
    ReadSum(CheckedText(r) + OutcomeText(r), UnreadText(r));
    ReadSum(CheckedText(r) + OutcomeText(r) + UnreadText(r), UncheckedText(r));
  }

  /** The ten numbers a reader finds in the summary, in order. Three of them count the findings that belong to a
      sublist, and are the lengths of the sublists printed below it. */
  lemma SummaryReadsBack(r: Report)
    ensures ReadNumbers(SummaryText(r), "") ==
            [r.stats.refsSeen, r.stats.verified, r.stats.supported, Tally(r.findings, Unconfirmed),
             r.stats.partial, r.stats.notSupported, Tally(r.findings, DeadLinks),
             Tally(r.findings, Unreadable), r.stats.skipped, r.stats.failures]
    ensures forall b :: Tally(r.findings, b) == |InBucket(r.findings, b)|
  {
    hide Tally, InBucket, ReadNumbers, SummaryText;
    TalliesAreLengths(r.findings);
    SummaryNumbers(r);
  }
}
