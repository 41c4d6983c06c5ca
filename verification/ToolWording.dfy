/** Rewriting verdict-sounding words in tool messages. */
module ToolWording {
  import opened Machine
  import opened Text

  function LowerChar(c: char): char
  {
    if 'A' <= c <= 'Z' then (c as int + 32) as char else c
  }

  /** In ASCII the letters are the positions 1 to 26 of two rows of 32; lowering moves to the second row. */
  lemma LettersExactly(c: char)
    ensures IsAlpha(c) <==> 0x40 <= c as int < 0x80 && 1 <= c as int % 32 <= 26
    ensures LowerChar(c) as int == if IsAlpha(c) then 0x60 + c as int % 32 else c as int
  {
    var row := c as int / 32;
    assert c as int == 32 * row + c as int % 32;
  }

  function Lower(s: string): (r: string)
    ensures |r| == |s| && forall i :: 0 <= i < |s| ==> r[i] == LowerChar(s[i])
  {
    if s == "" then "" else [LowerChar(s[0])] + Lower(s[1..])
  }

  /** The neutral wording for a listed word, whatever its case. */
  function Replacement(word: string): Option<string>
  {
    var w := Lower(word);
    if w == "failed" then Some("did not complete")
    else if w == "failure" || w == "failures" then Some("problem")
    else if w == "fails" || w == "fail" then Some("does not complete")
    else if w == "passed" || w == "passes" || w == "pass" then Some("completed")
    else None
  }

  function Rewritten(word: string): string
  {
    match Replacement(word)
    case Some(neutral) => neutral
    case None => word
  }

  predicate AllAlpha(s: string)
  {
    forall i :: 0 <= i < |s| ==> IsAlpha(s[i])
  }

  /** Length of the run of letters at the start. */
  function LeadingRun(s: string): (k: nat)
    ensures k <= |s| && AllAlpha(s[..k]) && (k < |s| ==> !IsAlpha(s[k]))
  {
    if s == "" || !IsAlpha(s[0]) then 0
    else
      var k := 1 + LeadingRun(s[1..]);
      assert s[..k] == [s[0]] + s[1..][..k - 1];
      k
  }

  /** The rewriting, word by word: each run of letters is rewritten, every other character kept. */
  function Neutral(s: string): string
  {
    if s == "" then ""
    else
      var k := LeadingRun(s);
      if k == |s| then Rewritten(s) else Rewritten(s[..k]) + [s[k]] + Neutral(s[k + 1..])
  }

  /** Where the piece starting the text ends: just after its first non-letter, or at the end. */
  function PieceEnd(s: string): (e: nat)
    requires s != ""
    ensures 0 < e <= |s| && LeadingRun(s) <= e
  {
    var k := LeadingRun(s);
    if k < |s| then k + 1 else k
  }

  lemma NeutralByPiece(s: string)
    requires s != ""
    ensures var k, e := LeadingRun(s), PieceEnd(s);
            Neutral(s) == Rewritten(s[..k]) + s[k..e] + Neutral(s[e..])
  {
    hide Rewritten;
    var k := LeadingRun(s);
    if k == |s| {
      assert s[..k] == s && s[k..k] == "" && s[k..] == "";
      assert Rewritten(s) + "" + "" == Rewritten(s);
    } else {
      assert s[k..k + 1] == [s[k]];
    }
  }

  /** `neutralize_tool_wording`: walk the pieces that end just after a non-letter. */
  method NeutralizeToolWording(text: string) returns (out: string)
    ensures out == Neutral(text)
  {
    hide Neutral, Replacement, LeadingRun;
    out := "";
    var remaining := text;
    assert out + Neutral(remaining) == Neutral(text);
    while remaining != ""
      invariant out + Neutral(remaining) == Neutral(text)
      decreases |remaining|
    {
      var k, e := LeadingRun(remaining), PieceEnd(remaining);
      var core, sep := remaining[..k], remaining[k..e];
      NeutralByPiece(remaining);
      ghost var before, rest := out, Neutral(remaining[e..]);
      var replacement := Replacement(core);
      match replacement {
        case Some(neutral) =>
          out := out + neutral;
          out := out + sep;
        case None =>
          out := out + remaining[..e];
          assert remaining[..e] == core + sep;
      }
      assert out == before + (Rewritten(core) + sep);
      assert before + (Rewritten(core) + sep + rest) == before + (Rewritten(core) + sep) + rest;
      remaining := remaining[e..];
    }
    assert Neutral("") == "" by {
      NeutralOfNothing();
    }
    assert out + "" == out;
  }

  lemma NeutralOfNothing()
    ensures Neutral("") == ""
  {
  }

  // ---------------------------------------------------------------------------
  // What the output contains.

  /** A maximal run of letters. */
  predicate WordAt(s: string, i: nat, j: nat)
  {
    && i < j <= |s| && AllAlpha(s[i..j])
    && (i == 0 || !IsAlpha(s[i - 1])) && (j == |s| || !IsAlpha(s[j]))
  }

  /** No word of the text is listed. */
  ghost predicate Clean(s: string)
  {
    forall i: nat, j: nat :: WordAt(s, i, j) ==> Replacement(s[i..j]).None?
  }

  lemma NoReplacementForNothing()
    ensures Replacement("").None?
  {
  }

  /** A word is the leading run, or lies after the separator that ends it. */
  lemma WordsFromLeft(s: string, i: nat, j: nat)
    requires WordAt(s, i, j)
    ensures var k := LeadingRun(s);
            (i == 0 && j == k) || (k < i && k < |s|)
  {
    var k := LeadingRun(s);
    assert forall p :: 0 <= p < k ==> s[..k][p] == s[p];
    assert forall p :: i <= p < j ==> s[i..j][p - i] == s[p];
  }

  /** The words after a separator are the words of the rest. */
  lemma WordsAfter(s: string, k: nat, i: nat, j: nat)
    requires k < i <= j <= |s| && !IsAlpha(s[k])
    ensures s[i..j] == s[k + 1..][i - k - 1..j - k - 1]
    ensures WordAt(s, i, j) <==> WordAt(s[k + 1..], i - k - 1, j - k - 1)
  {
  }

  lemma CleanAt(s: string, i: nat, j: nat)
    requires Clean(s) && WordAt(s, i, j)
    ensures i < j <= |s| && Replacement(s[i..j]).None?
  {
    hide Replacement, AllAlpha;
  }

  lemma FirstWordUnlisted(s: string)
    requires Clean(s)
    ensures Replacement(s[..LeadingRun(s)]).None?
  {
    NoReplacementForNothing();
    hide Replacement;
    var k := LeadingRun(s);
    if k > 0 {
      assert s[0..k] == s[..k];
      assert WordAt(s, 0, k);
    }
  }

  lemma CleanThenTailClean(s: string)
    requires s != "" && Clean(s)
    ensures var k := LeadingRun(s);
            Replacement(s[..k]).None? && (k < |s| ==> Clean(s[k + 1..]))
  {
    FirstWordUnlisted(s);
    var k := LeadingRun(s);
    if k < |s| {
      var t := s[k + 1..];
      forall i: nat, j: nat | WordAt(t, i, j) ensures i < j <= |t| && Replacement(t[i..j]).None? {
        TailWordUnlisted(s, k, i, j);
      }
    }
    hide Replacement, WordAt, LeadingRun;
  }

  lemma TailWordUnlisted(s: string, k: nat, i: nat, j: nat)
    requires Clean(s) && k < |s| && !IsAlpha(s[k]) && WordAt(s[k + 1..], i, j)
    ensures i < j <= |s[k + 1..]| && Replacement(s[k + 1..][i..j]).None?
  {
    hide Replacement, WordAt, Clean;
    WordBounds(s[k + 1..], i, j);
    WordsAfter(s, k, i + k + 1, j + k + 1);
    CleanAt(s, i + k + 1, j + k + 1);
  }

  lemma WordBounds(s: string, i: nat, j: nat)
    requires WordAt(s, i, j)
    ensures i < j <= |s|
  {
  }

  lemma WordUnlisted(s: string, i: nat, j: nat)
    requires s != "" && Replacement(s[..LeadingRun(s)]).None?
    requires LeadingRun(s) < |s| ==> Clean(s[LeadingRun(s) + 1..])
    requires WordAt(s, i, j)
    ensures i < j <= |s| && Replacement(s[i..j]).None?
  {
    hide Replacement, WordAt, Clean, LeadingRun;
    var k := LeadingRun(s);
    WordBounds(s, i, j);
    WordsFromLeft(s, i, j);
    if i == 0 {
      assert s[0..k] == s[..k];
    } else {
      WordsAfter(s, k, i, j);
      CleanAt(s[k + 1..], i - k - 1, j - k - 1);
    }
  }

  lemma TailCleanThenClean(s: string)
    requires s != "" && Replacement(s[..LeadingRun(s)]).None?
    requires LeadingRun(s) < |s| ==> Clean(s[LeadingRun(s) + 1..])
    ensures Clean(s)
  {
    forall i: nat, j: nat | WordAt(s, i, j) ensures i < j <= |s| && Replacement(s[i..j]).None? {
      WordUnlisted(s, i, j);
    }
    hide Replacement, WordAt, LeadingRun;
  }

  // ---------------------------------------------------------------------------

  lemma {:induction false} RunOfConcat(a: string, c: char, t: string)
    requires !IsAlpha(c)
    ensures LeadingRun(a + [c] + t) == LeadingRun(a)
  {
    var s := a + [c] + t;
    if a != "" && IsAlpha(a[0]) {
      RunOfConcat(a[1..], c, t);
      assert s[1..] == a[1..] + [c] + t;
    }
  }

  /** Clean text, a separator and clean text make clean text. */
  lemma {:induction false} CleanConcat(a: string, c: char, t: string)
    requires Clean(a) && !IsAlpha(c) && Clean(t)
    ensures Clean(a + [c] + t)
    decreases |a|
  {
    hide Replacement, Clean, LeadingRun;
    var s := a + [c] + t;
    NoReplacementForNothing();
    RunOfConcat(a, c, t);
    var k := LeadingRun(a);
    if a == "" || k == |a| {
      if a == "" {
        assert a[..0] == "";
        RunOfNothing();
      } else {
        CleanThenTailClean(a);
        assert a[..k] == a;
      }
      assert s[..k] == a && s[k + 1..] == t;
    } else {
      CleanThenTailClean(a);
      CleanConcat(a[k + 1..], c, t);
      assert s[..k] == a[..k] && s[k + 1..] == a[k + 1..] + [c] + t;
    }
    TailCleanThenClean(s);
  }

  lemma RunOfNothing()
    ensures LeadingRun("") == 0
  {
  }

  lemma {:induction false} RunOfLetters(w: string)
    requires AllAlpha(w)
    ensures LeadingRun(w) == |w|
  {
    if w != "" {
      RunOfLetters(w[1..]);
    }
  }

  lemma CleanWord(w: string)
    requires w != "" && AllAlpha(w) && Replacement(w).None?
    ensures Clean(w)
  {
    RunOfLetters(w);
    assert w[..|w|] == w;
    TailCleanThenClean(w);
  }

  /** The neutral wordings are themselves clean. */
  lemma NeutralWordingsAreClean(word: string)
    requires Replacement(word).Some?
    ensures Clean(Replacement(word).value)
  {
    hide Clean;
    ShortWordsAreClean();
    assert "did" + [' '] + "not" == "did not" && "did not" + [' '] + "complete" == "did not complete";
    assert "does" + [' '] + "not" == "does not" && "does not" + [' '] + "complete" == "does not complete";
    CleanConcat("did", ' ', "not");
    CleanConcat("did not", ' ', "complete");
    CleanConcat("does", ' ', "not");
    CleanConcat("does not", ' ', "complete");
  }

  lemma ShortWordsAreClean()
    ensures Clean("did") && Clean("not") && Clean("does") && Clean("complete") && Clean("problem") && Clean("completed")
  {
    UnlistedWord("did");
    UnlistedWord("not");
    UnlistedWord("does");
    UnlistedWord("complete");
    UnlistedWord("problem");
    UnlistedWord("completed");
  }

  lemma UnlistedWord(w: string)
    requires w != "" && AllAlpha(w) && LowerChar(w[0]) != 'f'
    requires LowerChar(w[0]) == 'p' ==> |w| > 1 && LowerChar(w[1]) != 'a'
    ensures Clean(w)
  {
    assert Lower(w)[0] == LowerChar(w[0]);
    CleanWord(w);
  }

  /** No maximal run of letters of the output is a listed word, in any case. */
  lemma {:induction false} NeutralIsClean(s: string)
    ensures Clean(Neutral(s))
  {
    hide Replacement, Clean, LeadingRun;
    if s == "" {
      NothingIsClean();
    } else {
      var k := LeadingRun(s);
      RewrittenIsClean(s[..k]);
      if k == |s| {
        assert s[..k] == s;
      } else {
        NeutralIsClean(s[k + 1..]);
        CleanConcat(Rewritten(s[..k]), s[k], Neutral(s[k + 1..]));
      }
    }
  }

  lemma NothingIsClean()
    ensures Clean("")
  {
  }

  lemma RewrittenIsClean(w: string)
    requires AllAlpha(w)
    ensures Clean(Rewritten(w))
  {
    hide Clean, Replacement;
    if Replacement(w).Some? {
      NeutralWordingsAreClean(w);
    } else if w == "" {
      NothingIsClean();
    } else {
      CleanWord(w);
    }
  }

  lemma {:induction false} CleanIsFixed(s: string)
    requires Clean(s)
    ensures Neutral(s) == s
  {
    hide Replacement, Clean, LeadingRun;
    if s != "" {
      var k := LeadingRun(s);
      CleanThenTailClean(s);
      if k < |s| {
        CleanIsFixed(s[k + 1..]);
        assert s == s[..k] + [s[k]] + s[k + 1..];
      } else {
        assert s[..k] == s;
      }
    }
  }

  /** The rewriting changes exactly the texts that contain a listed word, and a second pass nothing more. */
  lemma NeutralExactly(s: string)
    ensures Clean(Neutral(s))
    ensures Neutral(s) == s <==> Clean(s)
    ensures Neutral(Neutral(s)) == Neutral(s)
  {
    hide Neutral, Clean;
    NeutralIsClean(s);
    CleanIsFixed(Neutral(s));
    if Clean(s) {
      CleanIsFixed(s);
    }
  }

  // ---------------------------------------------------------------------------
  // The rewriting acts on each word alone.

  lemma NeutralUnfolds(a: string, c: char, t: string)
    requires !IsAlpha(c) && AllAlpha(a)
    ensures Neutral(a + [c] + t) == Rewritten(a) + [c] + Neutral(t)
  {
    hide Rewritten;
    RunOfConcat(a, c, t);
    RunOfLetters(a);
    var s := a + [c] + t;
    assert s[..|a|] == a && s[|a|] == c && s[|a| + 1..] == t;
  }

  lemma NeutralOfSeparator(c: char, t: string)
    requires !IsAlpha(c)
    ensures Neutral([c] + t) == [c] + Neutral(t)
  {
    NoReplacementForNothing();
    hide Replacement;
    NeutralUnfolds("", c, t);
    assert "" + [c] + t == [c] + t;
    assert Rewritten("") + [c] == [c];
  }

  lemma NeutralOfWord(w: string)
    requires AllAlpha(w)
    ensures Neutral(w) == Rewritten(w)
  {
    NoReplacementForNothing();
    hide Replacement;
    RunOfLetters(w);
  }

  /** Two texts that do not join a word are rewritten separately. */
  lemma {:induction false} NeutralConcat(a: string, b: string)
    requires a == "" || b == "" || !IsAlpha(a[|a| - 1]) || !IsAlpha(b[0])
    ensures Neutral(a + b) == Neutral(a) + Neutral(b)
    decreases |a|
  {
    hide Neutral, Rewritten, LeadingRun;
    NeutralOfNothing();
    var k := LeadingRun(a);
    if a == "" {
      assert a + b == b && Neutral(a) + Neutral(b) == Neutral(b);
    } else if b == "" {
      assert a + b == a && Neutral(a) + Neutral(b) == Neutral(a);
    } else if k == |a| {
      assert a[..k] == a;
      NeutralOfWord(a);
      NeutralUnfolds(a, b[0], b[1..]);
      NeutralOfSeparator(b[0], b[1..]);
      assert b == [b[0]] + b[1..] && a + b == a + [b[0]] + b[1..];
    } else {
      var w, c, t := a[..k], a[k], a[k + 1..];
      assert t == "" || t[|t| - 1] == a[|a| - 1];
      NeutralConcat(t, b);
      NeutralUnfolds(w, c, t);
      NeutralUnfolds(w, c, t + b);
      assert a == w + [c] + t && a + b == w + [c] + (t + b);
    }
  }

  lemma ThreeParts(s: string, i: nat, j: nat)
    requires i < j <= |s|
    ensures s == s[..i] + (s[i..j] + s[j..])
    ensures s[i..j] != "" && s[i..j][0] == s[i] && s[i..j][|s[i..j]| - 1] == s[j - 1]
    ensures i > 0 ==> s[..i][|s[..i]| - 1] == s[i - 1]
    ensures j < |s| ==> s[j..][0] == s[j]
  {
  }

  /** Each word is rewritten alone, whatever surrounds it. */
  lemma NeutralWordByWord(s: string, i: nat, j: nat)
    requires WordAt(s, i, j)
    ensures i < j <= |s| && Neutral(s) == Neutral(s[..i]) + Rewritten(s[i..j]) + Neutral(s[j..])
  {
    hide Neutral, Rewritten, AllAlpha;
    ThreeParts(s, i, j);
    var before, word, after := s[..i], s[i..j], s[j..];
    NeutralOfWord(word);
    NeutralConcat(word, after);
    NeutralConcat(before, word + after);
    RegroupThree(Neutral(before), Rewritten(word), Neutral(after));
  }

  lemma RegroupThree(x: string, y: string, z: string)
    ensures x + (y + z) == x + y + z
  {
  }

  // ---------------------------------------------------------------------------
  // Which words are listed, and what becomes of each.

  /** The word in any mixture of cases. */
  predicate Spells(word: string, listed: string)
  {
    |word| == |listed|
    && forall i :: 0 <= i < |word| ==> word[i] == listed[i] || word[i] as int + 32 == listed[i] as int
  }

  lemma LowerIs(word: string, listed: string)
    requires forall i :: 0 <= i < |listed| ==> 'a' <= listed[i] <= 'z'
    ensures Lower(word) == listed <==> Spells(word, listed)
  {
    hide Lower;
    if |word| == |listed| {
      assert Lower(word) == listed <==> forall i :: 0 <= i < |word| ==> LowerChar(word[i]) == listed[i];
    }
  }

  predicate SaysFailed(word: string)
  {
    Spells(word, "failed")
  }

  predicate SaysFailure(word: string)
  {
    Spells(word, "failure") || Spells(word, "failures")
  }

  predicate SaysFails(word: string)
  {
    Spells(word, "fail") || Spells(word, "fails")
  }

  predicate SaysPassed(word: string)
  {
    Spells(word, "pass") || Spells(word, "passes") || Spells(word, "passed")
  }

  predicate IsListed(word: string)
  {
    SaysFailed(word) || SaysFailure(word) || SaysFails(word) || SaysPassed(word)
  }

  /** Each listed word gets its own wording, in any case; every other word stays. */
  lemma ListedWords(word: string)
    ensures SaysFailed(word) ==> Rewritten(word) == "did not complete"
    ensures SaysFailure(word) ==> Rewritten(word) == "problem"
    ensures SaysFails(word) ==> Rewritten(word) == "does not complete"
    ensures SaysPassed(word) ==> Rewritten(word) == "completed"
    ensures !IsListed(word) ==> Rewritten(word) == word
    ensures Replacement(word).Some? <==> IsListed(word)
  {
    hide Lower, Spells;
    LowerIs(word, "failed");
    LowerIs(word, "failure");
    LowerIs(word, "failures");
    LowerIs(word, "fail");
    LowerIs(word, "fails");
    LowerIs(word, "pass");
    LowerIs(word, "passes");
    LowerIs(word, "passed");
  }

  /** A text is clean exactly if no word of it is one of the eight. */
  lemma CleanExactly(s: string)
    ensures Clean(s) <==> forall i: nat, j: nat :: WordAt(s, i, j) ==> !IsListed(s[i..j])
  {
    hide IsListed, Replacement, AllAlpha;
    forall i: nat, j: nat | WordAt(s, i, j) ensures Replacement(s[i..j]).Some? <==> IsListed(s[i..j]) {
      ListedWords(s[i..j]);
    }
  }
}
