/** Texts that are safe to push unescaped: no markup, no underscore and no listed word. The condition is on
    single positions, so it holds of a sum of such texts unless a word spans the joint. */
module FixedText {
  import opened Text
  import opened Wikitext
  import opened ToolWording

  predicate EitherCase(c: char, lower: char, upper: char)
  {
    c == lower || c == upper
  }

  /** Markup, an underscore, or the first letters of a listed word: "fai", or "pas" not followed by "sa". */
  predicate Blemish(s: string, i: nat)
    requires i < |s|
  {
    || s[i] == '<' || s[i] == '{' || s[i] == '}' || s[i] == '_'
    || (i + 2 < |s| && EitherCase(s[i + 1], 'a', 'A')
        && ((EitherCase(s[i], 'f', 'F') && EitherCase(s[i + 2], 'i', 'I'))
            || (EitherCase(s[i], 'p', 'P') && EitherCase(s[i + 2], 's', 'S')
                && !(i + 4 < |s| && s[i + 3] == 's' && s[i + 4] == 'a'))))
  }

  predicate Bland(s: string)
  {
    forall i: nat :: i < |s| ==> !Blemish(s, i)
  }

  /** Bland, and no word is left open at the end. */
  predicate Closed(s: string)
  {
    s != "" && Bland(s) && !IsAlpha(s[|s| - 1])
  }

  /** No word is begun at the start. */
  predicate Opens(s: string)
  {
    s != "" && !IsAlpha(s[0])
  }

  lemma BlandSum(a: string, b: string)
    requires Bland(a) && Bland(b)
    requires a == "" || b == "" || !IsAlpha(a[|a| - 1]) || !IsAlpha(b[0])
    ensures Bland(a + b)
  {
    var s := a + b;
    forall i: nat | i < |s| ensures !Blemish(s, i) {
      if i < |a| {
        assert !Blemish(a, i);
        assert forall k :: i <= k < |a| ==> s[k] == a[k];
        assert |a| < |s| ==> s[|a|] == b[0];
      } else {
        assert !Blemish(b, i - |a|);
        assert forall k :: i <= k < |s| ==> s[k] == b[k - |a|];
      }
    }
  }

  /** Sums of closed and bland texts. */
  lemma SumRules()
    ensures forall a, b {:trigger Bland(a + b)} :: Closed(a) && Bland(b) ==> Bland(a + b)
    ensures forall a, b {:trigger Closed(a + b)} :: Closed(a) && Closed(b) ==> Closed(a + b)
    ensures forall a, b {:trigger Closed(a + b)} :: Bland(a) && Closed(b) && Opens(b) ==> Closed(a + b)
    ensures forall a {:trigger Closed(a)} :: Closed(a) ==> Bland(a)
  {
    hide Bland;
    forall a: string, b: string | Bland(a) && Bland(b) && (Closed(a) || Opens(b)) ensures Bland(a + b) {
      BlandSum(a, b);
    }
    forall a: string, b: string | b != "" ensures (a + b)[|a + b| - 1] == b[|b| - 1] {
    }
  }

  lemma DigitsAreClosed(s: string)
    requires AllDigits(s) && s != ""
    ensures Closed(s) && Opens(s)
  {
  }

  lemma NumberRule()
    ensures forall n: nat {:trigger PrintNat(n)} :: Closed(PrintNat(n)) && Opens(PrintNat(n))
  {
    hide PrintNat, Closed, Opens;
    forall n: nat ensures Closed(PrintNat(n)) && Opens(PrintNat(n)) {
      DigitsAreClosed(PrintNat(n));
    }
  }

  // What bland texts are free of.

  lemma NoBlemish(s: string, i: nat)
    requires Bland(s) && i < |s|
    ensures !Blemish(s, i)
  {
  }

  lemma BlandIsMarkupFree(s: string)
    requires Bland(s)
    ensures MarkupFree(s) && '_' !in s
  {
    hide Bland;
    forall i: nat | i < |s| ensures s[i] != '<' && s[i] != '{' && s[i] != '}' && s[i] != '_' {
      NoBlemish(s, i);
    }
  }

  lemma ListedWordShape(w: string)
    requires Replacement(w).Some?
    ensures |w| >= 4 && EitherCase(w[1], 'a', 'A')
    ensures (EitherCase(w[0], 'f', 'F') && EitherCase(w[2], 'i', 'I'))
         || (EitherCase(w[0], 'p', 'P') && EitherCase(w[2], 's', 'S') && (|w| > 4 ==> w[4] != 'a'))
  {
    var v := Lower(w);
    assert v[0] == LowerChar(w[0]) && v[1] == LowerChar(w[1]) && v[2] == LowerChar(w[2]);
    assert |v| > 4 ==> v[4] == LowerChar(w[4]);
  }

  lemma BlandWord(s: string, i: nat, j: nat)
    requires Bland(s) && WordAt(s, i, j)
    ensures Replacement(s[i..j]).None?
  {
    hide Replacement, Bland;
    if Replacement(s[i..j]).Some? {
      var w := s[i..j];
      ListedWordShape(w);
      assert w[0] == s[i] && w[1] == s[i + 1] && w[2] == s[i + 2];
      assert |w| > 4 ==> w[4] == s[i + 4];
      assert |w| == 4 && i + 4 < |s| ==> !IsAlpha(s[i + 4]);
      assert Blemish(s, i);
      NoBlemish(s, i);
      assert false;
    }
  }

  lemma BlandIsClean(s: string)
    requires Bland(s)
    ensures Clean(s)
  {
    hide Replacement, Bland;
    forall i: nat, j: nat | WordAt(s, i, j) ensures i < j <= |s| && Replacement(s[i..j]).None? {
      BlandWord(s, i, j);
    }
  }
}
