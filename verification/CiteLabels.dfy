/** Reader-facing labels for cite ids, and the rewriting of raw cite ids in failure reasons. */
module CiteLabels {
  import opened Machine
  import opened Text
  import opened Wikitext
  import opened ToolWording

  const CITE_PREFIX: string := "cite_ref-"

  /** Position of the last occurrence of `c`. */
  function LastIndexOf(s: string, c: char): (r: Option<nat>)
    ensures r.Some? ==> r.value < |s| && s[r.value] == c && c !in s[r.value + 1..]
    ensures r.None? ==> c !in s
  {
    if s == "" then None
    else if s[|s| - 1] == c then Some(|s| - 1)
    else
      var r := LastIndexOf(s[..|s| - 1], c);
      assert s == s[..|s| - 1] + [s[|s| - 1]];
      assert r.Some? ==> s[r.value + 1..] == s[..|s| - 1][r.value + 1..] + [s[|s| - 1]];
      r
  }

  /** The name in `cite_ref-<name>_<seq>-<use>`, underscores shown as spaces; `None` for any other id. */
  function RefName(refId: string): Option<string>
  {
    if StartsWith(refId, CITE_PREFIX) then NameIn(refId[9..]) else None
  }

  /** The name in `<name>_<seq>-<use>`. */
  function NameIn(rest: string): Option<string>
  {
    if AllDigits(rest) then None
    else
      match LastIndexOf(rest, '-')
      case None => None
      case Some(dash) =>
        if !AllDigits(rest[dash + 1..]) then None
        else
          var head := rest[..dash];
          match LastIndexOf(head, '_')
          case None => None
          case Some(bar) =>
            if bar == 0 || !AllDigits(head[bar + 1..]) then None else Some(Replace(head[..bar], '_', " "))
  }

  /** `named_ref_label`. */
  function NamedRefLabel(refId: string): Option<string>
  {
    match RefName(refId)
    case None => None
    case Some(name) => Some("ref \"" + EscapeVerbatim(name) + "\"")
  }

  function RefLabel(refId: string, ordinal: nat): string
  {
    match NamedRefLabel(refId)
    case Some(name) => name
    case None => "ref #" + PrintNat(ordinal + 1)
  }

  function BlockLabel(blockOrdinal: nat): string
  {
    "an unnamed ref (block " + PrintNat(blockOrdinal) + ")"
  }

  predicate IsPunctuation(c: char)
  {
    '!' <= c <= '/' || ':' <= c <= '@' || '[' <= c <= '`' || '{' <= c <= '~'
  }

  /** `is_ascii_punctuation`: the visible ASCII characters that are neither letters nor digits. */
  lemma PunctuationExactly(c: char)
    ensures IsPunctuation(c) <==> 0x20 < c as int < 0x7F && !IsAlpha(c) && !IsDigit(c)
  {
  }

  lemma OccursInTail(s: string, p: string)
    requires s != ""
    ensures forall q :: 1 <= q ==> OccursAt(s, p, q) == OccursAt(s[1..], p, q - 1)
  {
    forall q | 1 <= q ensures OccursAt(s, p, q) == OccursAt(s[1..], p, q - 1) {
      if q + |p| <= |s| {
        SliceOfSlice(s, 1, |s|, q - 1, q - 1 + |p|);
        assert s[1..|s|] == s[1..];
      }
    }
  }

  /** `find`: the first occurrence. */
  function Find(s: string, p: string): (r: Option<nat>)
    requires p != ""
    ensures r.Some? ==> r.value + |p| <= |s| && OccursAt(s, p, r.value)
    ensures r.Some? ==> forall q :: 0 <= q < r.value ==> !OccursAt(s, p, q)
    ensures r.None? ==> forall q :: 0 <= q ==> !OccursAt(s, p, q)
  {
    if StartsWith(s, p) then Some(0)
    else if s == "" then None
    else
      OccursInTail(s, p);
      match Find(s[1..], p)
      case Some(q) => Some(q + 1)
      case None => None
  }

  predicate OccursAt(s: string, p: string, q: int)
  {
    0 <= q && q + |p| <= |s| && s[q..q + |p|] == p
  }

  /** Length of the run of non-whitespace at the start. */
  function TokenLength(s: string): (n: nat)
    ensures n <= |s|
  {
    if s == "" || IsWhitespace(s[0]) then 0 else 1 + TokenLength(s[1..])
  }

  /** Length of the run of punctuation at the end. */
  function TrailingPunctuation(s: string): (n: nat)
    ensures n <= |s|
  {
    if s == "" || !IsPunctuation(s[|s| - 1]) then 0 else 1 + TrailingPunctuation(s[..|s| - 1])
  }

  /** How far the id starting at `p` reaches: to the end of its token, less trailing punctuation. */
  function IdLength(remaining: string, p: nat): (n: nat)
    requires p + 9 <= |remaining|
    ensures p + 9 + n <= |remaining|
  {
    var token := remaining[p + 9..][..TokenLength(remaining[p + 9..])];
    |token| - TrailingPunctuation(token)
  }

  function IdLabel(id: string, blockOrdinal: nat): string
  {
    if id != "" && AllDigits(id) then BlockLabel(blockOrdinal) else RefLabel(CITE_PREFIX + id, 0)
  }

  /** The reason with every cite id replaced by its label. */
  function Relabelled(reason: string, blockOrdinal: nat): string
    decreases |reason|
  {
    match Find(reason, CITE_PREFIX)
    case None => reason
    case Some(p) =>
      var n := IdLength(reason, p);
      reason[..p] + IdLabel(reason[p + 9..p + 9 + n], blockOrdinal) + Relabelled(reason[p + 9 + n..], blockOrdinal)
  }

  lemma RelabelledFrom(before: string, remaining: string, p: nat, blockOrdinal: nat)
    requires Find(remaining, CITE_PREFIX) == Some(p) && p + 9 <= |remaining|
    ensures before + Relabelled(remaining, blockOrdinal) ==
            before + remaining[..p] + IdLabel(remaining[p + 9..p + 9 + IdLength(remaining, p)], blockOrdinal)
            + Relabelled(remaining[p + 9 + IdLength(remaining, p)..], blockOrdinal)
  {
    hide Find, IdLength, IdLabel;
    var n := IdLength(remaining, p);
    var head, name := remaining[..p], IdLabel(remaining[p + 9..p + 9 + n], blockOrdinal);
    var tail := Relabelled(remaining[p + 9 + n..], blockOrdinal);
    assert Relabelled(remaining, blockOrdinal) == head + name + tail;
    hide Relabelled;
    Assoc(before, head + name, tail);
    Assoc(before, head, name);
  }

  lemma IdParts(remaining: string, p: nat)
    requires p + 9 <= |remaining|
    ensures var after := remaining[p + 9..];
            var token := after[..TokenLength(after)];
            && IdLength(remaining, p) == |token| - TrailingPunctuation(token)
            && token[..|token| - TrailingPunctuation(token)] == remaining[p + 9..p + 9 + IdLength(remaining, p)]
  {
    hide TokenLength, TrailingPunctuation;
  }

  lemma LabelByCase(id: string, blockOrdinal: nat)
    ensures IdLabel(id, blockOrdinal) ==
            if id != "" && AllDigits(id) then BlockLabel(blockOrdinal) else RefLabel(CITE_PREFIX + id, 0)
  {
    hide BlockLabel, RefLabel, AllDigits;
  }

  lemma NothingToRelabel(remaining: string, blockOrdinal: nat)
    requires Find(remaining, CITE_PREFIX) == None
    ensures Relabelled(remaining, blockOrdinal) == remaining
  {
  }

  /** `sanitize_reason`. */
  method SanitizeReason(reason: string, blockOrdinal: nat) returns (r: string)
    ensures r == Neutral(Relabelled(reason, blockOrdinal))
  {
    hide *;
    PrefixChars();
    var result := "";
    var remaining := reason;
    assert result + Relabelled(remaining, blockOrdinal) == Relabelled(reason, blockOrdinal);
    while true
      invariant result + Relabelled(remaining, blockOrdinal) == Relabelled(reason, blockOrdinal)
      decreases |remaining|
    {
      var found := Find(remaining, CITE_PREFIX);
      if found.None? {
        NothingToRelabel(remaining, blockOrdinal);
        break;
      }
      var p := found.value;
      RelabelledFrom(result, remaining, p, blockOrdinal);
      result := result + remaining[..p];
      var afterPrefix := remaining[p + 9..];
      var tokenEnd := TokenLength(afterPrefix);
      var rest := afterPrefix[..tokenEnd];
      var trailing := TrailingPunctuation(rest);
      rest := rest[..|rest| - trailing];
      var citeId := CITE_PREFIX + rest;
      IdParts(remaining, p);
      var text := if rest != "" && AllDigits(rest) then BlockLabel(blockOrdinal) else RefLabel(citeId, 0);
      result := result + text;
      LabelByCase(rest, blockOrdinal);
      remaining := remaining[p + 9 + tokenEnd - trailing..];
    }
    r := NeutralizeToolWording(result + remaining);
  }

  // ---------------------------------------------------------------------------
  // The output never contains a raw cite id.

  ghost predicate NoCite(s: string)
  {
    forall q :: 0 <= q ==> !OccursAt(s, CITE_PREFIX, q)
  }

  lemma PrefixChars()
    ensures |CITE_PREFIX| == 9
    ensures forall i :: 0 <= i < 9 ==> CITE_PREFIX[i] in "citeref_-"
    ensures CITE_PREFIX[4] == '_' && CITE_PREFIX[8] == '-'
  {
  }

  predicate InPrefix(c: char)
  {
    c == 'c' || c == 'i' || c == 't' || c == 'e' || c == '_' || c == 'r' || c == 'f' || c == '-'
  }

  /** One character that does not fit rules an occurrence out. */
  lemma NotHere(s: string, q: int, k: int)
    requires 0 <= q <= k < q + 9 <= |s|
    requires !InPrefix(s[k]) || s[k] != CITE_PREFIX[k - q]
    ensures !OccursAt(s, CITE_PREFIX, q)
  {
    PrefixChars();
    assert s[q..q + 9][k - q] == s[k];
  }

  /** A label cannot be part of a raw id: a dash never precedes its first foreign character, its last
      character is foreign, and it has no underscore. */
  ghost predicate Sealed(name: string)
  {
    && name != "" && !InPrefix(name[|name| - 1]) && '_' !in name
    && exists g :: 0 <= g < |name| && !InPrefix(name[g]) && '-' !in name[..g]
  }

  /** No occurrence touches a sealed label. */
  lemma LabelIsUntouched(a: string, name: string, b: string, q: int)
    requires Sealed(name)
    requires 0 <= q < |a| + |name| && |a| < q + 9 <= |a + name + b|
    ensures !OccursAt(a + name + b, CITE_PREFIX, q)
  {
    var s := a + name + b;
    var g :| 0 <= g < |name| && !InPrefix(name[g]) && '-' !in name[..g];
    if q + 9 <= |a| + g {
      assert s[q + 8] == name[..g][q + 8 - |a|];
      NotHere(s, q, q + 8);
    } else if q <= |a| + g {
      assert s[|a| + g] == name[g];
      NotHere(s, q, |a| + g);
    } else if q + 9 <= |a| + |name| {
      assert s[q + 4] == name[q + 4 - |a|];
      NotHere(s, q, q + 4);
    } else {
      assert s[|a| + |name| - 1] == name[|name| - 1];
      NotHere(s, q, |a| + |name| - 1);
    }
  }

  lemma OccurrenceInPart(a: string, name: string, b: string, q: int)
    ensures q + 9 <= |a| ==> OccursAt(a + name + b, CITE_PREFIX, q) == OccursAt(a, CITE_PREFIX, q)
    ensures q >= |a| + |name| ==> OccursAt(a + name + b, CITE_PREFIX, q) == OccursAt(b, CITE_PREFIX, q - |a| - |name|)
  {
    PrefixChars();
    var s, end := a + name + b, |a| + |name|;
    if 0 <= q && q + 9 <= |a| {
      assert s[q..q + 9] == a[q..q + 9];
    }
    if end <= q && q + 9 <= |s| {
      assert s[q..q + 9] == b[q - end..q - end + 9];
    }
  }

  lemma SealedSeparates(a: string, name: string, b: string)
    requires NoCite(a) && Sealed(name) && NoCite(b)
    ensures NoCite(a + name + b)
  {
    hide Sealed;
    PrefixChars();
    forall q | 0 <= q ensures !OccursAt(a + name + b, CITE_PREFIX, q) {
      OccurrenceInPart(a, name, b, q);
      if q < |a| + |name| && |a| < q + 9 <= |a + name + b| {
        LabelIsUntouched(a, name, b, q);
      }
    }
  }

  lemma {:induction false} ReplaceRemoves(s: string, c: char, with: string)
    requires c !in with
    ensures c !in Replace(s, c, with)
  {
    if s != "" {
      ReplaceRemoves(s[1..], c, with);
    }
  }

  lemma {:induction false} EntitiesKeepOut(text: string, c: char)
    requires c !in text && c !in "&amp;&lt;&gt;"
    ensures c !in Entities(text)
  {
    if text != "" {
      EntitiesKeepOut(text[1..], c);
    }
  }

  lemma BlockLabelIsSealed(blockOrdinal: nat)
    ensures Sealed(BlockLabel(blockOrdinal))
  {
    var digits := PrintNat(blockOrdinal);
    var name := BlockLabel(blockOrdinal);
    assert name[0] == 'a' && name[|name| - 1] == ')';
    assert '_' !in digits;
    assert '_' !in "an unnamed ref (block " && '_' !in ")";
    assert name[..0] == "";
  }

  lemma RefNumberIsSealed(n: nat)
    ensures Sealed("ref #" + PrintNat(n))
  {
    var digits := PrintNat(n);
    var name := "ref #" + digits;
    assert '_' !in digits && '_' !in "ref #";
    assert name[|name| - 1] == digits[|digits| - 1];
    assert !InPrefix(name[3]) && name[..3] == "ref";
  }

  lemma QuotedNameIsSealed(text: string)
    requires '_' !in text
    ensures Sealed("ref \"" + EscapeVerbatim(text) + "\"")
  {
    hide EscapeInner;
    EscapeIsEntities(text);
    EntitiesKeepOut(text, '_');
    var name := "ref \"" + EscapeVerbatim(text) + "\"";
    assert '_' !in EscapeVerbatim(text) by {
      assert '_' !in OPEN && '_' !in CLOSE;
    }
    assert '_' !in "ref \"" && '_' !in "\"";
    assert name[|name| - 1] == '\"';
    assert !InPrefix(name[3]) && name[..3] == "ref";
  }

  lemma RefNameHasNoUnderscore(refId: string)
    ensures RefName(refId).Some? ==> '_' !in RefName(refId).value
  {
    forall s: string ensures '_' !in Replace(s, '_', " ") {
      ReplaceRemoves(s, '_', " ");
    }
  }

  lemma LastIndexIs(s: string, c: char, k: nat)
    requires k < |s| && s[k] == c && c !in s[k + 1..]
    ensures LastIndexOf(s, c) == Some(k)
  {
    var r := LastIndexOf(s, c);
    assert forall i :: k < i < |s| ==> s[k + 1..][i - k - 1] == s[i];
    assert r.Some? ==> forall i :: r.value < i < |s| ==> s[r.value + 1..][i - r.value - 1] == s[i];
  }

  lemma PartsOfNamedId(name: string, sequence: string, use: string)
    requires AllDigits(sequence) && AllDigits(use)
    ensures var head := name + "_" + sequence;
            var rest := head + "-" + use;
            && !AllDigits(rest) && rest[..|head|] == head && rest[|head| + 1..] == use
            && head[..|name|] == name && head[|name| + 1..] == sequence
            && rest[|head|] == '-' && head[|name|] == '_' && '-' !in use && '_' !in sequence
  {
    var head := name + "_" + sequence;
    var rest := head + "-" + use;
    assert rest[|head|] == '-';
  }

  /** The name with a space for every underscore. */
  predicate Spaced(name: string, shown: string)
  {
    |shown| == |name| && forall i :: 0 <= i < |name| ==> shown[i] == if name[i] == '_' then ' ' else name[i]
  }

  lemma {:induction false} SpacesForUnderscores(name: string)
    ensures Spaced(name, Replace(name, '_', " "))
  {
    if name != "" {
      SpacesForUnderscores(name[1..]);
    }
  }

  /** A well-formed named id yields its name, whatever underscores, dashes or digits the name contains. */
  lemma NamedIdsKeepTheirName(name: string, sequence: string, use: string)
    requires name != "" && AllDigits(sequence) && AllDigits(use)
    ensures var r := RefName(CITE_PREFIX + name + "_" + sequence + "-" + use);
            r == Some(Replace(name, '_', " ")) && Spaced(name, r.value)
  {
    SpacesForUnderscores(name);
    hide Spaced, Replace, AllDigits, StartsWith, LastIndexOf, CITE_PREFIX;
    PrefixChars();
    var head := name + "_" + sequence;
    var rest := head + "-" + use;
    StartsWithPrefix(CITE_PREFIX, rest);
    assert CITE_PREFIX + name + "_" + sequence + "-" + use == CITE_PREFIX + rest;
    PartsOfNamedId(name, sequence, use);
    LastIndexIs(rest, '-', |head|);
    LastIndexIs(head, '_', |name|);
  }

  /** The id has the form `<name>_<seq>-<use>`. */
  ghost predicate NamesRef(id: string, name: string, sequence: string, use: string)
  {
    name != "" && AllDigits(sequence) && AllDigits(use) && id == name + "_" + sequence + "-" + use
  }

  lemma AroundIndex(s: string, k: nat)
    requires k < |s|
    ensures s == s[..k] + [s[k]] + s[k + 1..]
  {
  }

  /** Only such ids have a name. */
  lemma OnlyNamedIds(id: string) returns (name: string, sequence: string, use: string)
    requires RefName(CITE_PREFIX + id).Some?
    ensures NamesRef(id, name, sequence, use)
  {
    hide Replace, CITE_PREFIX, StartsWith;
    PrefixChars();
    StartsWithPrefix(CITE_PREFIX, id);
    var dash := LastIndexOf(id, '-').value;
    var head := id[..dash];
    var bar := LastIndexOf(head, '_').value;
    name, sequence, use := head[..bar], head[bar + 1..], id[dash + 1..];
    AroundIndex(id, dash);
    AroundIndex(head, bar);
  }

  /** A raw id in a reason is shown by its block if it is a number, by its name if it has one, and otherwise as the
      first ref. */
  lemma IdLabelExactly(id: string, blockOrdinal: nat)
    ensures id != "" && AllDigits(id) ==>
              IdLabel(id, blockOrdinal) == "an unnamed ref (block " + PrintNat(blockOrdinal) + ")"
    ensures forall name, sequence, use :: NamesRef(id, name, sequence, use) ==>
              exists shown :: Spaced(name, shown)
                              && IdLabel(id, blockOrdinal) == "ref \"" + EscapeVerbatim(shown) + "\""
    ensures (id == "" || !AllDigits(id)) && !(exists name, sequence, use :: NamesRef(id, name, sequence, use)) ==>
              IdLabel(id, blockOrdinal) == "ref #1"
  {
    hide EscapeVerbatim, Spaced, NamesRef, RefName, CITE_PREFIX;
    forall name, sequence, use | NamesRef(id, name, sequence, use)
      ensures !AllDigits(id)
      ensures exists shown :: Spaced(name, shown) && RefName(CITE_PREFIX + id) == Some(shown)
    {
      NamedIdIsNamed(id, name, sequence, use);
    }
    if RefName(CITE_PREFIX + id).Some? {
      var name, sequence, use := OnlyNamedIds(id);
    }
    assert PrintNat(1) == "1";
  }

  lemma NamedIdIsNamed(id: string, name: string, sequence: string, use: string)
    requires NamesRef(id, name, sequence, use)
    ensures !AllDigits(id)
    ensures exists shown :: Spaced(name, shown) && RefName(CITE_PREFIX + id) == Some(shown)
  {
    hide Spaced, RefName, CITE_PREFIX;
    NamedIdsKeepTheirName(name, sequence, use);
    PartsOfNamedId(name, sequence, use);
    var rest := name + "_" + sequence + "-" + use;
    assert CITE_PREFIX + name + "_" + sequence + "-" + use == CITE_PREFIX + rest;
  }

  /** A finding without a name for its ref shows the number of the ref, counted from one. */
  lemma UnnamedRefIsNumbered(id: string, ordinal: nat)
    requires !(exists name, sequence, use :: NamesRef(id, name, sequence, use))
    ensures RefLabel(CITE_PREFIX + id, ordinal) == "ref #" + PrintNat(ordinal + 1)
  {
    hide NamesRef, RefName, EscapeVerbatim, CITE_PREFIX;
    if RefName(CITE_PREFIX + id).Some? {
      var name, sequence, use := OnlyNamedIds(id);
    }
  }

  lemma IdLabelIsSealed(id: string, blockOrdinal: nat)
    ensures Sealed(IdLabel(id, blockOrdinal))
  {
    hide Sealed, EscapeVerbatim, BlockLabel;
    BlockLabelIsSealed(blockOrdinal);
    RefNumberIsSealed(1);
    var refId := CITE_PREFIX + id;
    if RefName(refId).Some? {
      RefNameHasNoUnderscore(refId);
      QuotedNameIsSealed(RefName(refId).value);
    }
  }

  /** Before the wording pass. */
  lemma {:induction false} RelabelledHasNoCite(reason: string, blockOrdinal: nat)
    ensures NoCite(Relabelled(reason, blockOrdinal))
    decreases |reason|
  {
    hide Sealed, IdLabel, IdLength;
    match Find(reason, CITE_PREFIX) {
      case None =>
      case Some(p) =>
        var n := IdLength(reason, p);
        RelabelledHasNoCite(reason[p + 9 + n..], blockOrdinal);
        BeforeFirstFind(reason, p);
        IdLabelIsSealed(reason[p + 9..p + 9 + n], blockOrdinal);
        SealedSeparates(reason[..p], IdLabel(reason[p + 9..p + 9 + n], blockOrdinal),
            Relabelled(reason[p + 9 + n..], blockOrdinal));
    }
  }

  lemma BeforeFirstFind(s: string, p: nat)
    requires p <= |s| && forall q :: 0 <= q < p ==> !OccursAt(s, CITE_PREFIX, q)
    ensures NoCite(s[..p])
  {
    PrefixChars();
    forall q | 0 <= q ensures !OccursAt(s[..p], CITE_PREFIX, q) {
      if q + 9 <= p {
        assert s[..p][q..q + 9] == s[q..q + 9];
        assert !OccursAt(s, CITE_PREFIX, q);
      }
    }
  }

  // The wording pass cannot put a raw id together.

  lemma RewrittenShape(w: string)
    requires AllAlpha(w)
    ensures var r := Rewritten(w);
            && '_' !in r && '-' !in r
            && (r != w ==> |r| >= 7 && r[|r| - 3] != 'i')
  {
    hide Lower;
    assert '_' !in w && '-' !in w;
    assert "did not complete"[13] == 'e' && "problem"[4] == 'l' && "does not complete"[14] == 'e'
        && "completed"[6] == 't';
    assert '_' !in "did not complete" && '-' !in "did not complete";
    assert '_' !in "problem" && '-' !in "problem";
    assert '_' !in "does not complete" && '-' !in "does not complete";
    assert '_' !in "completed" && '-' !in "completed";
  }

  lemma NeutralOfOneWord(s: string)
    requires s != "" && LeadingRun(s) == |s|
    ensures Neutral(s) == Rewritten(s[..LeadingRun(s)])
  {
    hide Rewritten, LeadingRun;
    assert s[..|s|] == s;
  }

  lemma RefSurvives(t: string)
    requires |Neutral(t)| >= 4 && Neutral(t)[..4] == "ref-"
    ensures |t| >= 4 && t[..4] == "ref-"
  {
    hide Rewritten;
    var n, k := Neutral(t), LeadingRun(t);
    var r := Rewritten(t[..k]);
    RewrittenShape(t[..k]);
    assert n[0] == n[..4][0] == 'r' && n[1] == n[..4][1] == 'e' && n[2] == n[..4][2] == 'f' && n[3] == n[..4][3] == '-';
    assert n[3] in n;
    if k < |t| {
      var tail := Neutral(t[k + 1..]);
      assert n == r + [t[k]] + tail;
      assert forall i :: 0 <= i < |r| ==> n[i] == r[i];
      assert n[|r|] == t[k];
      assert |r| == 3;
      assert t[..4] == t[..k] + [t[k]] == "ref-";
    } else {
      NeutralOfOneWord(t);
      assert false;
    }
  }

  lemma OccursByChar(s: string, q: int)
    requires 0 <= q
    ensures OccursAt(s, CITE_PREFIX, q) <==> q + 9 <= |s| && forall i :: 0 <= i < 9 ==> s[q + i] == CITE_PREFIX[i]
  {
    PrefixChars();
    if q + 9 <= |s| {
      var part := s[q..q + 9];
      assert forall i :: 0 <= i < 9 ==> part[i] == s[q + i];
      assert (forall i :: 0 <= i < 9 ==> s[q + i] == CITE_PREFIX[i]) ==> part == CITE_PREFIX;
    }
  }

  lemma RefByChar(n: string)
    requires |n| >= 4
    ensures n[..4] == "ref-" <==> forall i :: 0 <= i < 4 ==> n[i] == CITE_PREFIX[5 + i]
  {
    assert CITE_PREFIX[5..9] == "ref-";
    assert forall i :: 0 <= i < 4 ==> CITE_PREFIX[5..9][i] == CITE_PREFIX[5 + i];
    assert forall i :: 0 <= i < 4 ==> n[..4][i] == n[i];
  }

  lemma CharsOfSum(a: string, c: char, b: string)
    ensures var s := a + [c] + b;
            && |s| == |a| + 1 + |b| && s[|a|] == c
            && (forall i :: 0 <= i < |a| ==> s[i] == a[i])
            && (forall i :: 0 <= i < |b| ==> s[|a| + 1 + i] == b[i])
  {
  }

  lemma OccurrenceWasInput(s: string, q: int)
    requires s != "" && LeadingRun(s) < |s| && Rewritten(s[..LeadingRun(s)]) == s[..LeadingRun(s)]
    requires 0 <= q && q + 4 == LeadingRun(s) && OccursAt(Neutral(s), CITE_PREFIX, q)
    ensures OccursAt(s, CITE_PREFIX, q)
  {
    hide *;
    var k := LeadingRun(s);
    var w, c, t := s[..k], s[k], s[k + 1..];
    var n := Neutral(t);
    NeutralSplits(s);
    OccursByChar(Neutral(s), q);
    CharsOfSum(w, c, n);
    RefTail(w, c, n, q);
    RefSurvives(t);
    RefByChar(t);
    assert s == w + [c] + t;
    CharsOfSum(w, c, t);
    HeadThenRef(w, c, n, t, q);
    OccursByChar(s, q);
  }

  /** The last four characters of the prefix follow the underscore. */
  lemma RefTail(w: string, c: char, n: string, q: int)
    requires 0 <= q && q + 4 == |w| && q + 9 <= |w + [c] + n|
    requires forall i :: 0 <= i < 9 ==> (w + [c] + n)[q + i] == CITE_PREFIX[i]
    ensures |n| >= 4 && n[..4] == "ref-"
  {
    CharsOfSum(w, c, n);
    RefByChar(n);
    forall i | 0 <= i < 4 ensures n[i] == CITE_PREFIX[5 + i] {
      assert (w + [c] + n)[q + (5 + i)] == n[i];
    }
    hide *;
  }

  lemma HeadThenRef(w: string, c: char, n: string, t: string, q: int)
    requires 0 <= q && q + 4 == |w| && |n| >= 4 && |t| >= 4
    requires forall i :: 0 <= i < 9 ==> (w + [c] + n)[q + i] == CITE_PREFIX[i]
    requires forall i :: 0 <= i < 4 ==> t[i] == CITE_PREFIX[5 + i]
    ensures q + 9 <= |w + [c] + t| && forall i :: 0 <= i < 9 ==> (w + [c] + t)[q + i] == CITE_PREFIX[i]
  {
    CharsOfSum(w, c, n);
    CharsOfSum(w, c, t);
    forall i | 0 <= i < 9 ensures (w + [c] + t)[q + i] == CITE_PREFIX[i] {
      if i < 4 {
        assert (w + [c] + t)[q + i] == w[q + i] == (w + [c] + n)[q + i];
      } else if i > 4 {
        assert (w + [c] + t)[q + i] == t[i - 5];
      }
    }
    hide *;
  }

  /** A would-be occurrence that reaches into the first word of the output was one in the input. */
  lemma OccurrenceInFirstWord(s: string, q: int)
    requires NoCite(s) && s != "" && LeadingRun(s) < |s|
    requires 0 <= q <= |Rewritten(s[..LeadingRun(s)])|
    ensures !OccursAt(Neutral(s), CITE_PREFIX, q)
  {
    hide Neutral, Rewritten, LeadingRun;
    var k := LeadingRun(s);
    var r, c, n := Rewritten(s[..k]), s[k], Neutral(s[k + 1..]);
    var out := Neutral(s);
    assert out == r + [c] + n by {
      NeutralSplits(s);
    }
    RewrittenShape(s[..k]);
    PrefixChars();
    if |out| < q + 9 {
    } else if q + 4 < |r| {
      assert out[q + 4] == r[q + 4];
      NotHere(out, q, q + 4);
    } else if |r| < q + 4 {
      assert out[|r|] == c && !IsAlpha(c);
      NotHere(out, q, |r|);
    } else if r != s[..k] {
      assert out[q + 1] == r[|r| - 3];
      NotHere(out, q, q + 1);
    } else if OccursAt(out, CITE_PREFIX, q) {
      OccurrenceWasInput(s, q);
    }
  }

  lemma NeutralSplits(s: string)
    requires s != "" && LeadingRun(s) < |s|
    ensures Neutral(s) == Rewritten(s[..LeadingRun(s)]) + [s[LeadingRun(s)]] + Neutral(s[LeadingRun(s) + 1..])
  {
    hide Rewritten, LeadingRun;
  }

  lemma TailHasNoCite(s: string, k: nat)
    requires NoCite(s) && k <= |s|
    ensures NoCite(s[k..])
  {
    forall q | 0 <= q ensures !OccursAt(s[k..], CITE_PREFIX, q) {
      assert !OccursAt(s, CITE_PREFIX, q + k);
      if q + 9 <= |s| - k {
        assert s[k..][q..q + 9] == s[q + k..q + k + 9];
      }
    }
  }

  lemma {:induction false} NeutralKeepsNoCite(s: string)
    requires NoCite(s)
    ensures NoCite(Neutral(s))
  {
    hide Rewritten, LeadingRun;
    PrefixChars();
    if s != "" {
      var k := LeadingRun(s);
      if k == |s| {
        RewrittenShape(s);
        assert s[..k] == s;
        forall q | 0 <= q ensures !OccursAt(Rewritten(s), CITE_PREFIX, q) {
          if q + 9 <= |Rewritten(s)| {
            NotHere(Rewritten(s), q, q + 4);
          }
        }
      } else {
        TailHasNoCite(s, k + 1);
        NeutralKeepsNoCite(s[k + 1..]);
        NeutralSplits(s);
        hide Neutral;
        var r, n := Rewritten(s[..k]), Neutral(s[k + 1..]);
        forall q | 0 <= q ensures !OccursAt(Neutral(s), CITE_PREFIX, q) {
          if q <= |r| {
            OccurrenceInFirstWord(s, q);
          } else {
            OccurrenceInPart(r, [s[k]], n, q);
          }
        }
      }
    }
  }

  /** For every reason and block number, the text shown contains no raw cite id and no verdict word. */
  lemma SanitizedReasonIsClean(reason: string, blockOrdinal: nat)
    ensures NoCite(Neutral(Relabelled(reason, blockOrdinal)))
    ensures Clean(Neutral(Relabelled(reason, blockOrdinal)))
  {
    hide Neutral, Relabelled, Clean, NoCite;
    RelabelledHasNoCite(reason, blockOrdinal);
    NeutralKeepsNoCite(Relabelled(reason, blockOrdinal));
    NeutralIsClean(Relabelled(reason, blockOrdinal));
  }

  /** A reason without raw ids and without verdict words is shown as it is. */
  lemma CleanReasonIsKept(reason: string, blockOrdinal: nat)
    requires NoCite(reason) && Clean(reason)
    ensures Neutral(Relabelled(reason, blockOrdinal)) == reason
  {
    hide Neutral, Clean;
    PrefixChars();
    assert Find(reason, CITE_PREFIX).None?;
    CleanIsFixed(reason);
  }

  // ---------------------------------------------------------------------------
  // Nothing but the id is replaced.

  lemma {:induction false} TokenIs(token: string, rest: string)
    requires forall i :: 0 <= i < |token| ==> !IsWhitespace(token[i])
    requires rest == "" || IsWhitespace(rest[0])
    ensures TokenLength(token + rest) == |token|
  {
    hide IsWhitespace;
    if token == "" {
      assert token + rest == rest;
    } else {
      TokenIs(token[1..], rest);
      assert (token + rest)[1..] == token[1..] + rest;
    }
  }

  lemma {:induction false} TrailIs(id: string, trail: string)
    requires id == "" || !IsPunctuation(id[|id| - 1])
    requires forall i :: 0 <= i < |trail| ==> IsPunctuation(trail[i])
    ensures TrailingPunctuation(id + trail) == |trail|
  {
    hide IsPunctuation;
    if trail == "" {
      assert id + trail == id;
    } else {
      var n := |trail| - 1;
      TrailIs(id, trail[..n]);
      assert (id + trail)[..|id + trail| - 1] == id + trail[..n];
    }
  }

  /** The prefix does not overlap itself, so an id starts where the text before it ends. */
  lemma FirstCite(before: string, after: string)
    requires NoCite(before)
    ensures Find(before + CITE_PREFIX + after, CITE_PREFIX) == Some(|before|)
  {
    PrefixChars();
    var s, r := before + CITE_PREFIX + after, Find(before + CITE_PREFIX + after, CITE_PREFIX);
    assert s[|before|..|before| + 9] == CITE_PREFIX;
    assert OccursAt(s, CITE_PREFIX, |before|);
    assert r.Some? && r.value <= |before|;
    if r.value < |before| {
      OccurrenceInPart(before, CITE_PREFIX, after, r.value);
      if r.value + 9 > |before| {
        assert s[|before|] == CITE_PREFIX[0] == 'c';
        assert CITE_PREFIX[1..] == "ite_ref-";
        assert CITE_PREFIX[|before| - r.value] == "ite_ref-"[|before| - r.value - 1] != 'c';
        NotHere(s, r.value, |before|);
      }
    }
  }

  /** An id between `before` and its trailing punctuation is replaced by its label; the text before it, the
      punctuation and everything after stay, and relabelling goes on there. */
  lemma OneIdRelabelled(before: string, id: string, trail: string, rest: string, blockOrdinal: nat)
    requires NoCite(before)
    requires forall i :: 0 <= i < |id + trail| ==> !IsWhitespace((id + trail)[i])
    requires id == "" || !IsPunctuation(id[|id| - 1])
    requires forall i :: 0 <= i < |trail| ==> IsPunctuation(trail[i])
    requires rest == "" || IsWhitespace(rest[0])
    ensures Relabelled(before + CITE_PREFIX + (id + trail + rest), blockOrdinal)
         == before + IdLabel(id, blockOrdinal) + Relabelled(trail + rest, blockOrdinal)
  {
    hide *;
    PrefixChars();
    var after := id + trail + rest;
    FirstCite(before, after);
    TokenIs(id + trail, rest);
    TrailIs(id, trail);
    CiteSlices(before, CITE_PREFIX, id, trail, rest);
    IdLengthIs(before + CITE_PREFIX + after, |before|, id, trail, rest);
    RelabelledFrom("", before + CITE_PREFIX + after, |before|, blockOrdinal);
    Unprefixed(Relabelled(before + CITE_PREFIX + after, blockOrdinal));
    Unprefixed(before);
  }

  lemma Unprefixed(s: string)
    ensures "" + s == s
  {
  }

  lemma CiteSlices(before: string, prefix: string, id: string, trail: string, rest: string)
    requires |prefix| == 9
    ensures var s, p := before + prefix + (id + trail + rest), |before|;
            && p + 9 + |id| <= |s| && s[p + 9..] == id + trail + rest
            && s[..p] == before && s[p + 9..p + 9 + |id|] == id && s[p + 9 + |id|..] == trail + rest
  {
  }

  lemma IdLengthIs(s: string, p: nat, id: string, trail: string, rest: string)
    requires p + 9 <= |s| && s[p + 9..] == id + trail + rest
    requires TokenLength(id + trail + rest) == |id + trail| && TrailingPunctuation(id + trail) == |trail|
    ensures IdLength(s, p) == |id|
  {
    hide TokenLength, TrailingPunctuation;
    assert (id + trail + rest)[..|id + trail|] == id + trail;
  }
}
