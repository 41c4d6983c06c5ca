/** Output as a sequence of pushes, and what its text contains, judged piece by piece. */
module Pieces {
  import opened Machine
  import opened Text
  import opened ToolWording
  import opened Wikitext
  import opened CiteLabels
  import opened FixedText

  /** One push: fixed or generated text, an escaped field, or an external link. */
  datatype Piece = Copy(text: string) | Verbatim(field: string) | Link(url: string)

  function Written(p: Piece): string
  {
    match p
    case Copy(text) => text
    case Verbatim(field) => EscapeVerbatim(field)
    case Link(url) => "[" + EscapeUrl(url) + "]"
  }

  /** The text of a sequence of pushes. */
  function Flatten(ps: seq<Piece>): string
  {
    if ps == [] then "" else Written(ps[0]) + Flatten(ps[1..])
  }

  function Verbatims(ps: seq<Piece>): seq<string>
  {
    if ps == [] then []
    else if ps[0].Verbatim? then [ps[0].field] + Verbatims(ps[1..])
    else Verbatims(ps[1..])
  }

  function Links(ps: seq<Piece>): seq<string>
  {
    if ps == [] then []
    else if ps[0].Link? then [ps[0].url] + Links(ps[1..])
    else Links(ps[1..])
  }

  /** Every text pushed as it is contains no `<` and no brace. */
  ghost predicate NoMarkup(ps: seq<Piece>)
  {
    forall i :: 0 <= i < |ps| ==> ps[i].Copy? ==> MarkupFree(ps[i].text)
  }

  predicate PlainPiece(p: Piece)
  {
    p.Copy? ==> Closed(p.text)
  }

  /** Every text pushed as it is is bland and leaves no word open. */
  ghost predicate Plain(ps: seq<Piece>)
  {
    forall i :: 0 <= i < |ps| ==> PlainPiece(ps[i])
  }

  // ---------------------------------------------------------------------------
  // Reading the text back.

  function EscapeAll(fields: seq<string>): seq<string>
  {
    if fields == [] then [] else [EscapeInner(fields[0])] + EscapeAll(fields[1..])
  }

  lemma {:induction false} DecodeOfEscapeAll(fields: seq<string>)
    ensures DecodeAll(EscapeAll(fields)) == fields
  {
    hide EscapeInner, Unescape;
    if fields != [] {
      DecodeOfEscapeAll(fields[1..]);
      UnescapeOfEscape(fields[0]);
    }
  }

  lemma BracketsAreMarkupFree(s: string)
    requires MarkupFree(s)
    ensures MarkupFree("[" + s + "]")
  {
  }

  lemma {:induction false} ScanOfPieces(ps: seq<Piece>)
    requires NoMarkup(ps)
    ensures Scan(Flatten(ps), false, "") == Some(EscapeAll(Verbatims(ps)))
  {
    hide Scan, EscapeVerbatim, EscapeInner, EscapeUrl, MarkupFree;
    if ps == [] {
      ScanOfNothing();
    } else {
      ScanOfPieces(ps[1..]);
      var rest := Flatten(ps[1..]);
      match ps[0] {
        case Copy(text) => ScanPlain(text, rest);
        case Link(url) =>
          EscapedUrlIsSafe(url);
          BracketsAreMarkupFree(EscapeUrl(url));
          ScanPlain("[" + EscapeUrl(url) + "]", rest);
        case Verbatim(field) => ScanVerbatim(field, rest);
      }
    }
  }

  lemma ScanOfNothing()
    ensures Scan("", false, "") == Some([])
  {
  }

  /** Pushes without stray markup make inert text whose spans decode to exactly the verbatim fields, in order. */
  lemma FieldsOfPieces(ps: seq<Piece>)
    requires NoMarkup(ps)
    ensures VerbatimFields(Flatten(ps)) == Some(Verbatims(ps))
  {
    hide Scan;
    ScanOfPieces(ps);
    DecodeOfEscapeAll(Verbatims(ps));
  }

  // ---------------------------------------------------------------------------
  // Sums and displays.

  lemma {:induction false} VerbatimsConcat(a: seq<Piece>, b: seq<Piece>)
    ensures Verbatims(a + b) == Verbatims(a) + Verbatims(b)
  {
    if a == [] {
      assert a + b == b;
    } else {
      VerbatimsConcat(a[1..], b);
      assert (a + b)[1..] == a[1..] + b;
    }
  }

  lemma {:induction false} LinksConcat(a: seq<Piece>, b: seq<Piece>)
    ensures Links(a + b) == Links(a) + Links(b)
  {
    if a == [] {
      assert a + b == b;
    } else {
      LinksConcat(a[1..], b);
      assert (a + b)[1..] == a[1..] + b;
    }
  }

  lemma {:induction false} FlattenConcat(a: seq<Piece>, b: seq<Piece>)
    ensures Flatten(a + b) == Flatten(a) + Flatten(b)
  {
    hide Written;
    if a == [] {
      assert a + b == b;
    } else {
      FlattenConcat(a[1..], b);
      assert (a + b)[1..] == a[1..] + b;
      Assoc(Written(a[0]), Flatten(a[1..]), Flatten(b));
    }
  }

  lemma FlattenOne(p: Piece)
    ensures Flatten([p]) == Written(p)
  {
    assert [p][1..] == [];
    assert Written(p) + "" == Written(p);
  }

  lemma PlainRules()
    ensures Plain([])
    ensures forall p {:trigger Plain([p])} :: Plain([p]) <==> PlainPiece(p)
    ensures forall p, q {:trigger Plain([p, q])} :: Plain([p, q]) <==> PlainPiece(p) && PlainPiece(q)
    ensures forall p, q, r {:trigger Plain([p, q, r])} ::
              Plain([p, q, r]) <==> PlainPiece(p) && PlainPiece(q) && PlainPiece(r)
    ensures forall a, b {:trigger Plain(a + b)} :: Plain(a + b) <==> Plain(a) && Plain(b)
  {
    hide PlainPiece;
    forall p ensures Plain([p]) <==> PlainPiece(p) {
      assert [p][0] == p;
    }
    forall p, q ensures Plain([p, q]) <==> PlainPiece(p) && PlainPiece(q) {
      assert [p, q][0] == p && [p, q][1] == q;
    }
    forall p, q, r ensures Plain([p, q, r]) <==> PlainPiece(p) && PlainPiece(q) && PlainPiece(r) {
      assert [p, q, r][0] == p && [p, q, r][1] == q && [p, q, r][2] == r;
    }
    forall a, b ensures Plain(a + b) <==> Plain(a) && Plain(b) {
      assert forall i :: 0 <= i < |a| ==> (a + b)[i] == a[i];
      assert forall i :: 0 <= i < |b| ==> (a + b)[|a| + i] == b[i];
    }
  }

  function FieldOf(p: Piece): seq<string>
  {
    if p.Verbatim? then [p.field] else []
  }

  function LinkOf(p: Piece): seq<string>
  {
    if p.Link? then [p.url] else []
  }

  lemma OfOne(p: Piece)
    ensures Verbatims([p]) == FieldOf(p) && Links([p]) == LinkOf(p)
  {
  }

  lemma OfTwo(p: Piece, q: Piece)
    ensures Verbatims([p, q]) == FieldOf(p) + FieldOf(q) && Links([p, q]) == LinkOf(p) + LinkOf(q)
  {
    OfOne(p);
    OfOne(q);
    VerbatimsConcat([p], [q]);
    LinksConcat([p], [q]);
    assert [p, q] == [p] + [q];
  }

  lemma OfThree(p: Piece, q: Piece, r: Piece)
    ensures Verbatims([p, q, r]) == FieldOf(p) + FieldOf(q) + FieldOf(r)
    ensures Links([p, q, r]) == LinkOf(p) + LinkOf(q) + LinkOf(r)
  {
    OfTwo(p, q);
    OfOne(r);
    VerbatimsConcat([p, q], [r]);
    LinksConcat([p, q], [r]);
    assert [p, q, r] == [p, q] + [r];
  }

  /** Short displays with at most one field, and sums in which one side has none. */
  lemma FieldRules()
    ensures Verbatims([]) == []
    ensures forall p {:trigger Verbatims([p])} :: Verbatims([p]) == FieldOf(p)
    ensures forall p: Piece, q: Piece {:trigger Verbatims([p, q])} :: !p.Verbatim? ==> Verbatims([p, q]) == FieldOf(q)
    ensures forall p: Piece, q: Piece {:trigger Verbatims([p, q])} :: !q.Verbatim? ==> Verbatims([p, q]) == FieldOf(p)
    ensures forall p: Piece, q: Piece, r: Piece {:trigger Verbatims([p, q, r])} ::
              !p.Verbatim? && !r.Verbatim? ==> Verbatims([p, q, r]) == FieldOf(q)
    ensures forall a, b {:trigger Verbatims(a + b)} :: Verbatims(b) == [] ==> Verbatims(a + b) == Verbatims(a)
    ensures forall a, b {:trigger Verbatims(a + b)} :: Verbatims(a) == [] ==> Verbatims(a + b) == Verbatims(b)
  {
    hide Verbatims;
    OfNone();
    forall p ensures Verbatims([p]) == FieldOf(p) {
      OfOne(p);
    }
    forall p, q ensures Verbatims([p, q]) == FieldOf(p) + FieldOf(q) {
      OfTwo(p, q);
    }
    forall p, q, r ensures Verbatims([p, q, r]) == FieldOf(p) + FieldOf(q) + FieldOf(r) {
      OfThree(p, q, r);
    }
    forall a, b ensures Verbatims(a + b) == Verbatims(a) + Verbatims(b) {
      VerbatimsConcat(a, b);
    }
  }

  lemma LinkRules()
    ensures Links([]) == []
    ensures forall p {:trigger Links([p])} :: Links([p]) == LinkOf(p)
    ensures forall p: Piece, q: Piece {:trigger Links([p, q])} :: !p.Link? ==> Links([p, q]) == LinkOf(q)
    ensures forall p: Piece, q: Piece {:trigger Links([p, q])} :: !q.Link? ==> Links([p, q]) == LinkOf(p)
    ensures forall p: Piece, q: Piece, r: Piece {:trigger Links([p, q, r])} ::
              !p.Link? && !r.Link? ==> Links([p, q, r]) == LinkOf(q)
    ensures forall a, b {:trigger Links(a + b)} :: Links(b) == [] ==> Links(a + b) == Links(a)
    ensures forall a, b {:trigger Links(a + b)} :: Links(a) == [] ==> Links(a + b) == Links(b)
  {
    hide Links;
    OfNone();
    forall p ensures Links([p]) == LinkOf(p) {
      OfOne(p);
    }
    forall p, q ensures Links([p, q]) == LinkOf(p) + LinkOf(q) {
      OfTwo(p, q);
    }
    forall p, q, r ensures Links([p, q, r]) == LinkOf(p) + LinkOf(q) + LinkOf(r) {
      OfThree(p, q, r);
    }
    forall a, b ensures Links(a + b) == Links(a) + Links(b) {
      LinksConcat(a, b);
    }
  }

  lemma OfNone()
    ensures Verbatims([]) == [] && Links([]) == []
  {
  }

  lemma PlainHasNoMarkup(ps: seq<Piece>)
    requires Plain(ps)
    ensures NoMarkup(ps)
  {
    hide MarkupFree, Bland;
    forall i | 0 <= i < |ps| && ps[i].Copy? ensures MarkupFree(ps[i].text) {
      assert PlainPiece(ps[i]);
      BlandIsMarkupFree(ps[i].text);
    }
  }

  // ---------------------------------------------------------------------------
  // Character-wise encodings.

  function Mapped(f: char -> string, s: string): string
  {
    if s == "" then "" else f(s[0]) + Mapped(f, s[1..])
  }

  lemma {:induction false} EntitiesAreMapped(s: string)
    ensures Entities(s) == Mapped(Entity, s)
  {
    if s != "" {
      EntitiesAreMapped(s[1..]);
    }
  }

  lemma {:induction false} UrlIsMapped(s: string)
    ensures EscapeUrl(s) == Mapped(UrlChar, s)
  {
    if s != "" {
      UrlIsMapped(s[1..]);
    }
  }

  lemma {:induction false} MappedConcat(f: char -> string, s: string, t: string)
    ensures Mapped(f, s + t) == Mapped(f, s) + Mapped(f, t)
  {
    if s == "" {
      assert s + t == t;
    } else {
      MappedConcat(f, s[1..], t);
      assert (s + t)[1..] == s[1..] + t;
      Assoc(f(s[0]), Mapped(f, s[1..]), Mapped(f, t));
    }
  }

  lemma MappedOne(f: char -> string, c: char)
    ensures Mapped(f, [c]) == f(c)
  {
    assert [c][1..] == "";
    assert f(c) + "" == f(c);
  }

  // ---------------------------------------------------------------------------
  // Raw cite ids.

  /** Wherever an underscore stands, something outside the prefix stands before it. */
  ghost predicate Guarded(s: string)
  {
    forall i :: 0 <= i < |s| && s[i] == '_' ==> exists j :: 0 <= j < i && !InPrefix(s[j])
  }

  lemma NoUnderscoreNoCite(s: string)
    requires '_' !in s
    ensures NoCite(s)
  {
    PrefixChars();
    forall q | 0 <= q ensures !OccursAt(s, CITE_PREFIX, q) {
      if q + 9 <= |s| {
        assert s[q + 4] in s;
        NotHere(s, q, q + 4);
      }
    }
  }

  lemma Occurrences(a: string, b: string, q: int)
    requires 0 <= q
    ensures q + 9 <= |a| ==> OccursAt(a + b, CITE_PREFIX, q) == OccursAt(a, CITE_PREFIX, q)
    ensures q >= |a| ==> OccursAt(a + b, CITE_PREFIX, q) == OccursAt(b, CITE_PREFIX, q - |a|)
  {
    OccurrenceInPart(a, "", b, q);
    assert a + "" + b == a + b;
  }

  /** No id spans a joint after a character that no id contains, or before text that guards its underscores. */
  lemma NoCiteAcross(a: string, b: string, q: int)
    requires (a != "" && !InPrefix(a[|a| - 1])) || ('_' !in a && Guarded(b))
    requires 0 <= q < |a| < q + 9 <= |a + b|
    ensures !OccursAt(a + b, CITE_PREFIX, q)
  {
    var s := a + b;
    PrefixChars();
    if !InPrefix(a[|a| - 1]) {
      assert s[|a| - 1] == a[|a| - 1];
      NotHere(s, q, |a| - 1);
    } else if q + 4 < |a| {
      assert s[q + 4] == a[q + 4] && a[q + 4] in a;
      NotHere(s, q, q + 4);
    } else if s[q + 4] != '_' {
      NotHere(s, q, q + 4);
    } else {
      var i := q + 4 - |a|;
      assert b[i] == s[q + 4];
      var j :| 0 <= j < i && !InPrefix(b[j]);
      assert s[|a| + j] == b[j];
      NotHere(s, q, |a| + j);
    }
  }

  lemma CiteOfSum(a: string, b: string)
    requires (a != "" && !InPrefix(a[|a| - 1])) || ('_' !in a && Guarded(b))
    ensures NoCite(a + b) <==> NoCite(a) && NoCite(b)
  {
    hide Guarded, InPrefix;
    PrefixChars();
    forall q | 0 <= q
      ensures OccursAt(a + b, CITE_PREFIX, q) <==> OccursAt(a, CITE_PREFIX, q) || OccursAt(b, CITE_PREFIX, q - |a|)
    {
      Occurrences(a, b, q);
      if q < |a| < q + 9 <= |a + b| {
        NoCiteAcross(a, b, q);
      }
    }
    forall q | 0 <= q ensures OccursAt(b, CITE_PREFIX, q) ==> OccursAt(a + b, CITE_PREFIX, q + |a|) {
      Occurrences(a, b, q + |a|);
    }
  }

  /** `c` is kept, or replaced by something that neither is nor touches part of an id, as `c` itself. */
  predicate CiteProof(f: char -> string, c: char)
  {
    f(c) == [c]
    || (!InPrefix(c) && f(c) != "" && '_' !in f(c) && !InPrefix(f(c)[0]) && !InPrefix(f(c)[|f(c)| - 1]))
  }

  lemma {:induction false} MappedPrefix(f: char -> string, s: string, w: string)
    requires forall c :: CiteProof(f, c)
    requires forall i :: 0 <= i < |w| ==> InPrefix(w[i])
    ensures w <= Mapped(f, s) <==> w <= s
  {
    hide InPrefix;
    if w != "" && s != "" {
      MappedPrefix(f, s[1..], w[1..]);
      assert CiteProof(f, s[0]);
      var m := Mapped(f, s[1..]);
      assert w == [w[0]] + w[1..] && s == [s[0]] + s[1..];
      if f(s[0]) == [s[0]] {
        PrefixOfSum(w, s[0], m);
        PrefixOfSum(w, s[0], s[1..]);
      } else {
        assert Mapped(f, s)[0] == f(s[0])[0];
      }
    }
  }

  lemma PrefixOfSum(w: string, c: char, t: string)
    requires w != ""
    ensures w <= [c] + t <==> w[0] == c && w[1..] <= t
  {
    var s := [c] + t;
    assert s[1..] == t;
    if w <= s {
      assert w == s[..|w|] && w[1..] == s[..|w|][1..];
      assert w[1..] == t[..|w| - 1];
    }
    if w[0] == c && w[1..] <= t {
      assert w == [c] + w[1..];
    }
  }

  lemma CiteOfHead(c: char, t: string)
    ensures NoCite([c] + t) <==> !(CITE_PREFIX <= [c] + t) && NoCite(t)
  {
    PrefixChars();
    var s := [c] + t;
    forall q | 0 < q ensures OccursAt(s, CITE_PREFIX, q) == OccursAt(t, CITE_PREFIX, q - 1) {
      Occurrences([c], t, q);
    }
    assert OccursAt(s, CITE_PREFIX, 0) <==> CITE_PREFIX <= s by {
      assert |s| >= 9 ==> s[0..9] == s[..9];
    }
    forall q | 0 <= q ensures OccursAt(t, CITE_PREFIX, q) == OccursAt(s, CITE_PREFIX, q + 1) {
      Occurrences([c], t, q + 1);
    }
  }

  lemma PrefixIsInPrefix()
    ensures forall i :: 0 <= i < |CITE_PREFIX| ==> InPrefix(CITE_PREFIX[i])
  {
  }

  /** Such an encoding neither makes nor hides an id. */
  lemma {:induction false} MappedCite(f: char -> string, s: string)
    requires forall c :: CiteProof(f, c)
    ensures NoCite(Mapped(f, s)) <==> NoCite(s)
  {
    hide InPrefix, NoCite, CITE_PREFIX;
    if s != "" {
      var c, t, m := s[0], s[1..], Mapped(f, s[1..]);
      MappedCite(f, t);
      assert s == [c] + t && CiteProof(f, c);
      if f(c) == [c] {
        PrefixIsInPrefix();
        MappedPrefix(f, s, CITE_PREFIX);
        CiteOfHead(c, m);
        CiteOfHead(c, t);
      } else {
        CiteOfSum(f(c), m);
        CiteOfSum([c], t);
        NoUnderscoreNoCite(f(c));
        UnderscoreIsInPrefix();
        assert '_' !in [c];
        NoUnderscoreNoCite([c]);
      }
    }
  }

  lemma UnderscoreIsInPrefix()
    ensures InPrefix('_')
  {
  }

  lemma EntityCite(c: char)
    ensures CiteProof(Entity, c)
  {
  }

  lemma UrlCharCite(c: char)
    ensures CiteProof(UrlChar, c)
  {
  }

  ghost predicate NoneCite(ss: seq<string>)
  {
    forall i :: 0 <= i < |ss| ==> NoCite(ss[i])
  }

  lemma VerbatimCite(field: string)
    ensures NoCite(EscapeVerbatim(field)) <==> NoCite(field)
    ensures Guarded(EscapeVerbatim(field))
  {
    hide NoCite, EscapeInner, CITE_PREFIX;
    var e := EscapeInner(field);
    EscapeIsEntities(field);
    EntitiesAreMapped(field);
    forall c ensures CiteProof(Entity, c) {
      EntityCite(c);
    }
    MappedCite(Entity, field);
    hide Mapped;
    assert '_' !in OPEN && '_' !in CLOSE && OPEN[7] == '>' && CLOSE[0] == '<';
    NoUnderscoreNoCite(OPEN);
    NoUnderscoreNoCite(CLOSE);
    assert Guarded(CLOSE);
    CloseKeepsCite(e);
    CiteOfSum(OPEN, e + CLOSE);
    assert EscapeVerbatim(field) == OPEN + (e + CLOSE);
    assert EscapeVerbatim(field)[0] == '<' && !InPrefix('<');
  }

  /** A closing mark cannot complete an id: it starts with a character no id contains. */
  lemma CloseKeepsCite(e: string)
    ensures NoCite(e + CLOSE) <==> NoCite(e)
  {
    PrefixChars();
    assert '_' !in CLOSE && CLOSE[0] == '<';
    StopKeepsCite(e, CLOSE);
  }

  lemma StopKeepsCite(e: string, stop: string)
    requires stop != "" && !InPrefix(stop[0]) && '_' !in stop
    ensures NoCite(e + stop) <==> NoCite(e)
  {
    PrefixChars();
    NoUnderscoreNoCite(stop);
    forall q | 0 <= q ensures OccursAt(e + stop, CITE_PREFIX, q) == OccursAt(e, CITE_PREFIX, q) {
      Occurrences(e, stop, q);
      if q < |e| < q + 9 <= |e + stop| {
        assert (e + stop)[|e|] == stop[0];
        NotHere(e + stop, q, |e|);
      }
    }
  }

  lemma LinkCite(url: string)
    ensures NoCite("[" + EscapeUrl(url) + "]") <==> NoCite(url)
    ensures Guarded("[" + EscapeUrl(url) + "]")
  {
    hide NoCite, EscapeUrl, CITE_PREFIX;
    var e := EscapeUrl(url);
    UrlIsMapped(url);
    forall c ensures CiteProof(UrlChar, c) {
      UrlCharCite(c);
    }
    MappedCite(UrlChar, url);
    hide Mapped;
    NoUnderscoreNoCite("[");
    StopKeepsCite(e, "]");
    CiteOfSum("[", e + "]");
    var s := "[" + e + "]";
    assert s == "[" + (e + "]");
    assert s[0] == '[' && !InPrefix('[');
  }

  lemma PieceCite(p: Piece)
    requires PlainPiece(p)
    ensures NoCite(Written(p)) <==> NoneCite(FieldOf(p)) && NoneCite(LinkOf(p))
    ensures (Written(p) != "" && !InPrefix(Written(p)[|Written(p)| - 1])) || (p.Copy? && '_' !in Written(p))
    ensures if p.Copy? then '_' !in Written(p) else Guarded(Written(p))
  {
    hide NoCite, EscapeUrl, EscapeInner, CITE_PREFIX, Guarded, Bland;
    CitesOfFew();
    match p {
      case Copy(text) =>
        BlandIsMarkupFree(text);
        NoUnderscoreNoCite(text);
      case Verbatim(field) =>
        VerbatimCite(field);
        assert Written(p)[|Written(p)| - 1] == CLOSE[8] == '>';
      case Link(url) =>
        LinkCite(url);
    }
  }

  lemma CitesOfFew()
    ensures NoneCite([]) && forall s :: NoneCite([s]) <==> NoCite(s)
  {
    hide NoCite;
    forall s: string ensures NoneCite([s]) <==> NoCite(s) {
      assert [s][0] == s;
    }
  }

  lemma GuardedSum(a: string, b: string)
    requires Guarded(b) && ('_' !in a || (a != "" && !InPrefix(a[0])))
    ensures Guarded(a + b)
  {
    var s := a + b;
    forall i | 0 <= i < |s| && s[i] == '_' ensures exists j :: 0 <= j < i && !InPrefix(s[j]) {
      if i < |a| {
        assert s[i] == a[i] && a[i] in a;
        assert InPrefix('_') && s[0] == a[0];
      } else {
        var j :| 0 <= j < i - |a| && !InPrefix(b[j]);
        assert s[|a| + j] == b[j];
      }
    }
  }

  lemma NoneCiteConcat(a: seq<string>, b: seq<string>)
    ensures NoneCite(a + b) <==> NoneCite(a) && NoneCite(b)
  {
    hide NoCite;
    assert forall i :: 0 <= i < |a| ==> (a + b)[i] == a[i];
    assert forall i :: 0 <= i < |b| ==> (a + b)[|a| + i] == b[i];
  }

  lemma FirstPiece(ps: seq<Piece>)
    requires ps != []
    ensures Verbatims(ps) == FieldOf(ps[0]) + Verbatims(ps[1..]) && Links(ps) == LinkOf(ps[0]) + Links(ps[1..])
  {
  }

  lemma OpeningMark(p: Piece)
    ensures p.Copy? || (Written(p) != "" && !InPrefix(Written(p)[0]))
  {
    hide EscapeInner, EscapeUrl;
    assert OPEN[0] == '<';
  }

  /** The text contains a raw cite id exactly if some field or link pushed onto it does: the fixed texts
      contain none, and none forms between pieces or by escaping. */
  lemma {:induction false} CiteInPieces(ps: seq<Piece>)
    requires Plain(ps)
    ensures NoCite(Flatten(ps)) <==> NoneCite(Verbatims(ps)) && NoneCite(Links(ps))
    ensures Guarded(Flatten(ps))
  {
    hide NoCite, Written, PlainPiece, Verbatims, Links, NoneCite, FieldOf, LinkOf;
    if ps == [] {
      NoUnderscoreNoCite("");
      OfNone();
      CitesOfFew();
    } else {
      var p, rest := ps[0], ps[1..];
      CiteInPieces(rest);
      PieceCite(p);
      OpeningMark(p);
      FirstPiece(ps);
      CiteOfSum(Written(p), Flatten(rest));
      NoneCiteConcat(FieldOf(p), Verbatims(rest));
      NoneCiteConcat(LinkOf(p), Links(rest));
      GuardedSum(Written(p), Flatten(rest));
    }
  }

  // ---------------------------------------------------------------------------
  // Listed words.

  lemma WordOfLeft(a: string, b: string, i: nat, j: nat)
    requires a == "" || b == "" || !IsAlpha(a[|a| - 1]) || !IsAlpha(b[0])
    ensures WordAt(a, i, j) ==> WordAt(a + b, i, j) && (a + b)[i..j] == a[i..j]
    ensures WordAt(b, i, j) ==> WordAt(a + b, |a| + i, |a| + j) && (a + b)[|a| + i..|a| + j] == b[i..j]
  {
    var s := a + b;
    if WordAt(a, i, j) {
      assert s[i..j] == a[i..j];
      assert a[j - 1] == a[i..j][j - i - 1];
      assert i > 0 ==> s[i - 1] == a[i - 1];
      assert j < |a| ==> s[j] == a[j];
      assert j == |a| < |s| ==> s[j] == b[0];
    }
    if WordAt(b, i, j) {
      assert s[|a| + i..|a| + j] == b[i..j];
      assert b[i] == b[i..j][0];
      assert i > 0 ==> s[|a| + i - 1] == b[i - 1];
      assert i == 0 < |a| ==> s[|a| - 1] == a[|a| - 1];
      assert j < |b| ==> s[|a| + j] == b[j];
    }
  }

  lemma SliceOfRight(a: string, b: string, i: nat, j: nat)
    requires |a| <= i <= j <= |a + b|
    ensures (a + b)[i..j] == b[i - |a|..j - |a|]
  {
    assert (a + b)[|a|..] == b;
  }

  lemma WordOfSum(a: string, b: string, i: nat, j: nat)
    requires a == "" || b == "" || !IsAlpha(a[|a| - 1]) || !IsAlpha(b[0])
    requires WordAt(a + b, i, j)
    ensures (j <= |a| && WordAt(a, i, j) && (a + b)[i..j] == a[i..j])
         || (i >= |a| && WordAt(b, i - |a|, j - |a|) && (a + b)[i..j] == b[i - |a|..j - |a|])
  {
    var s := a + b;
    assert forall k :: i <= k < j ==> s[k] == s[i..j][k - i];
    assert a != "" && b != "" ==> s[|a| - 1] == a[|a| - 1] && s[|a|] == b[0];
    if j <= |a| {
      assert s[i..j] == a[i..j];
      assert i > 0 ==> s[i - 1] == a[i - 1];
      assert j < |a| ==> s[j] == a[j];
    } else if i >= |a| {
      SliceOfRight(a, b, i, j);
      assert i > |a| ==> s[i - 1] == b[i - 1 - |a|];
      assert j < |s| ==> s[j] == b[j - |a|];
    }
  }

  /** Texts that do not join a word are clean together exactly if each is. */
  lemma CleanOfSum(a: string, b: string)
    requires a == "" || b == "" || !IsAlpha(a[|a| - 1]) || !IsAlpha(b[0])
    ensures Clean(a + b) <==> Clean(a) && Clean(b)
  {
    hide Replacement, WordAt;
    if Clean(a + b) {
      forall i: nat, j: nat | WordAt(a, i, j) ensures i < j <= |a| && Replacement(a[i..j]).None? {
        WordBounds(a, i, j);
        WordOfLeft(a, b, i, j);
        CleanAt(a + b, i, j);
      }
      forall i: nat, j: nat | WordAt(b, i, j) ensures i < j <= |b| && Replacement(b[i..j]).None? {
        WordBounds(b, i, j);
        WordOfLeft(a, b, i, j);
        CleanAt(a + b, |a| + i, |a| + j);
      }
    }
    if Clean(a) && Clean(b) {
      forall i: nat, j: nat | WordAt(a + b, i, j) ensures i < j <= |a + b| && Replacement((a + b)[i..j]).None? {
        WordBounds(a + b, i, j);
        WordOfSum(a, b, i, j);
        if j <= |a| && WordAt(a, i, j) {
          CleanAt(a, i, j);
        } else {
          CleanAt(b, i - |a|, j - |a|);
        }
      }
    }
  }

  /** `c` is kept, or it is no letter and is replaced by clean text that begins and ends with no letter. */
  ghost predicate WordProof(f: char -> string, c: char)
  {
    f(c) == [c]
    || (!IsAlpha(c) && f(c) != "" && !IsAlpha(f(c)[0]) && !IsAlpha(f(c)[|f(c)| - 1]) && Clean(f(c)))
  }

  lemma {:induction false} MappedLetters(f: char -> string, w: string)
    requires (forall c :: WordProof(f, c)) && AllAlpha(w)
    ensures Mapped(f, w) == w
  {
    hide Clean;
    if w != "" {
      assert WordProof(f, w[0]);
      MappedLetters(f, w[1..]);
    }
  }

  lemma SeparatorIsClean(c: char)
    requires !IsAlpha(c)
    ensures Clean([c])
  {
    forall i: nat, j: nat ensures !WordAt([c], i, j) {
      if i < j <= 1 {
        assert [c][i..j][0] == c;
      }
    }
  }

  /** Such an encoding neither makes nor hides a listed word. */
  lemma {:induction false} MappedClean(f: char -> string, s: string)
    requires forall c :: WordProof(f, c)
    ensures Clean(Mapped(f, s)) <==> Clean(s)
  {
    hide Clean, Mapped, LeadingRun;
    var k := LeadingRun(s);
    var w := s[..k];
    MappedLetters(f, w);
    if k < |s| {
      var c, t := s[k], s[k + 1..];
      MappedClean(f, t);
      MappedConcat(f, w, [c] + t);
      MappedConcat(f, [c], t);
      MappedOne(f, c);
      assert s == w + ([c] + t) && WordProof(f, c);
      SeparatorIsClean(c);
      CleanOfSum(w, [c] + t);
      CleanOfSum([c], t);
      CleanOfSum(w, f(c) + Mapped(f, t));
      CleanOfSum(f(c), Mapped(f, t));
    } else {
      assert w == s;
    }
  }

  lemma EntityWord(c: char)
    ensures WordProof(Entity, c)
  {
    hide Clean;
    EntitiesAreClean();
  }

  lemma EntitiesAreClean()
    ensures Clean("&amp;") && Clean("&lt;") && Clean("&gt;") && Clean(OPEN) && Clean(CLOSE) && Clean("[") && Clean("]")
  {
    hide Clean, Bland;
    assert "amp"[0] == 'a' && "lt"[0] == 'l' && "gt"[0] == 'g' && "nowiki"[0] == 'n';
    UnlistedWord("amp");
    UnlistedWord("lt");
    UnlistedWord("gt");
    UnlistedWord("nowiki");
    SeparatorIsClean('&');
    SeparatorIsClean(';');
    SeparatorIsClean('<');
    SeparatorIsClean('/');
    SeparatorIsClean('>');
    SeparatorIsClean('[');
    SeparatorIsClean(']');
    assert "&amp;" == ['&'] + ("amp" + [';']) && "&lt;" == ['&'] + ("lt" + [';']) && "&gt;" == ['&'] + ("gt" + [';']);
    assert OPEN == ['<'] + ("nowiki" + ['>']) && CLOSE == ['<'] + (['/'] + ("nowiki" + ['>']));
    CleanOfSum("amp", [';']);
    CleanOfSum("lt", [';']);
    CleanOfSum("gt", [';']);
    CleanOfSum("nowiki", ['>']);
    CleanOfSum(['&'], "amp" + [';']);
    CleanOfSum(['&'], "lt" + [';']);
    CleanOfSum(['&'], "gt" + [';']);
    CleanOfSum(['<'], "nowiki" + ['>']);
    CleanOfSum(['/'], "nowiki" + ['>']);
    CleanOfSum(['<'], ['/'] + ("nowiki" + ['>']));
  }

  lemma VerbatimClean(field: string)
    ensures Clean(EscapeVerbatim(field)) <==> Clean(field)
  {
    hide Clean, EscapeInner, Mapped;
    var e := EscapeInner(field);
    EscapeIsEntities(field);
    EntitiesAreMapped(field);
    forall c ensures WordProof(Entity, c) {
      EntityWord(c);
    }
    MappedClean(Entity, field);
    EntitiesAreClean();
    assert OPEN[7] == '>' && CLOSE[0] == '<';
    CleanOfSum(e, CLOSE);
    CleanOfSum(OPEN, e + CLOSE);
    assert EscapeVerbatim(field) == OPEN + (e + CLOSE);
  }

  lemma LinkClean(url: string)
    ensures Clean("[" + EscapeUrl(url) + "]") <==> Clean(EscapeUrl(url))
  {
    hide Clean, EscapeUrl;
    var e := EscapeUrl(url);
    EntitiesAreClean();
    CleanOfSum(e, "]");
    CleanOfSum("[", e + "]");
    assert "[" + e + "]" == "[" + (e + "]");
  }

  ghost predicate AllClean(ss: seq<string>)
  {
    forall i :: 0 <= i < |ss| ==> Clean(ss[i])
  }

  /** The targets as they appear in the text. */
  ghost predicate AllTargetsClean(urls: seq<string>)
  {
    forall i :: 0 <= i < |urls| ==> Clean(EscapeUrl(urls[i]))
  }

  lemma PieceClean(p: Piece)
    requires PlainPiece(p)
    ensures Clean(Written(p)) <==> AllClean(FieldOf(p)) && AllTargetsClean(LinkOf(p))
  {
    hide Clean, EscapeUrl, EscapeVerbatim, Bland, AllClean, AllTargetsClean;
    CleanOfFew();
    match p {
      case Copy(text) => BlandIsClean(text);
      case Verbatim(field) => VerbatimClean(field);
      case Link(url) => LinkClean(url);
    }
  }

  lemma PieceEnds(p: Piece)
    requires PlainPiece(p)
    ensures Written(p) != "" && !IsAlpha(Written(p)[|Written(p)| - 1])
  {
    hide EscapeUrl, EscapeInner, Bland;
    assert CLOSE[8] == '>';
  }

  lemma AllCleanConcat(a: seq<string>, b: seq<string>)
    ensures AllClean(a + b) <==> AllClean(a) && AllClean(b)
    ensures AllTargetsClean(a + b) <==> AllTargetsClean(a) && AllTargetsClean(b)
  {
    hide Clean, EscapeUrl;
    assert forall i :: 0 <= i < |a| ==> (a + b)[i] == a[i];
    assert forall i :: 0 <= i < |b| ==> (a + b)[|a| + i] == b[i];
  }

  /** The text contains a listed word exactly if some field, or some link target as encoded, does: the fixed
      texts contain none, and none forms between pieces or by escaping. */
  lemma {:induction false} CleanPieces(ps: seq<Piece>)
    requires Plain(ps)
    ensures Clean(Flatten(ps)) <==> AllClean(Verbatims(ps)) && AllTargetsClean(Links(ps))
  {
    hide Clean, Written, PlainPiece, Verbatims, Links, AllClean, AllTargetsClean, FieldOf, LinkOf;
    if ps == [] {
      NothingIsClean();
      OfNone();
      CleanOfFew();
    } else {
      var p, rest := ps[0], ps[1..];
      CleanPieces(rest);
      PieceClean(p);
      PieceEnds(p);
      FirstPiece(ps);
      CleanOfSum(Written(p), Flatten(rest));
      AllCleanConcat(FieldOf(p), Verbatims(rest));
      AllCleanConcat(LinkOf(p), Links(rest));
    }
  }

  lemma CleanOfFew()
    ensures AllClean([]) && forall s :: AllClean([s]) <==> Clean(s)
    ensures AllTargetsClean([]) && forall u :: AllTargetsClean([u]) <==> Clean(EscapeUrl(u))
  {
    hide Clean, EscapeUrl;
    forall s: string ensures (AllClean([s]) <==> Clean(s)) && (AllTargetsClean([s]) <==> Clean(EscapeUrl(s))) {
      assert [s][0] == s;
    }
  }
}
