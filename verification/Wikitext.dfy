/** Escaping into wikitext, and a scanner that reads escaped text back. */
module Wikitext {
  import opened Machine
  import opened Text

  /** `str::replace` of one character by a string. */
  function Replace(s: string, c: char, with: string): string
  {
    if s == "" then "" else ReplacedChar(s[0], c, with) + Replace(s[1..], c, with)
  }

  function ReplacedChar(x: char, c: char, with: string): string
  {
    if x == c then with else [x]
  }

  const OPEN: string := "<nowiki>"
  const CLOSE: string := "</nowiki>"

  /** `escape_verbatim`: three replacements, ampersands first, inside `<nowiki>`. */
  function EscapeVerbatim(text: string): string
  {
    OPEN + EscapeInner(text) + CLOSE
  }

  function EscapeInner(text: string): string
  {
    Replace(Replace(Replace(text, '&', "&amp;"), '<', "&lt;"), '>', "&gt;")
  }

  function UrlChar(c: char): string
  {
    if c == ']' then "%5D" else if c == '[' then "%5B" else if c == '{' then "%7B" else if c == '}' then "%7D"
    else if c == '|' then "%7C" else if c == '<' then "%3C" else if c == '>' then "%3E" else if c == '`' then "%60"
    else if c == ' ' then "%20" else [c]
  }

  /** `escape_wikitext_url`. */
  function EscapeUrl(url: string): string
  {
    if url == "" then "" else UrlChar(url[0]) + EscapeUrl(url[1..])
  }

  // ---------------------------------------------------------------------------
  // Decoding.

  /** The entity one character becomes. */
  function Entity(c: char): string
  {
    if c == '&' then "&amp;" else if c == '<' then "&lt;" else if c == '>' then "&gt;" else [c]
  }

  function Entities(text: string): string
  {
    if text == "" then "" else Entity(text[0]) + Entities(text[1..])
  }

  predicate StartsWith(s: string, p: string)
  {
    |p| <= |s| && s[..|p|] == p
  }

  /** Resolve the three entities; everything else stands for itself. */
  function Unescape(s: string): string
  {
    if s == "" then ""
    else if StartsWith(s, "&amp;") then ['&'] + Unescape(s[5..])
    else if StartsWith(s, "&lt;") then ['<'] + Unescape(s[4..])
    else if StartsWith(s, "&gt;") then ['>'] + Unescape(s[4..])
    else [s[0]] + Unescape(s[1..])
  }

  lemma Assoc(x: string, y: string, z: string)
    ensures x + (y + z) == x + y + z
  {
  }

  lemma ReplaceHead(x: char, s: string, c: char, with: string)
    ensures Replace([x] + s, c, with) == ReplacedChar(x, c, with) + Replace(s, c, with)
  {
    assert ([x] + s)[1..] == s;
  }

  lemma {:induction false} ReplaceConcat(s: string, t: string, c: char, with: string)
    ensures Replace(s + t, c, with) == Replace(s, c, with) + Replace(t, c, with)
    decreases |s|
  {
    if s == "" {
      assert s + t == t;
    } else {
      hide Replace, ReplacedChar;
      var x, rest := s[0], s[1..];
      ReplaceConcat(rest, t, c, with);
      ReplaceHead(x, rest, c, with);
      ReplaceHead(x, rest + t, c, with);
      assert s == [x] + rest;
      Assoc([x], rest, t);
      Assoc(ReplacedChar(x, c, with), Replace(rest, c, with), Replace(t, c, with));
    }
  }

  lemma {:induction false} ReplaceAbsent(s: string, c: char, with: string)
    requires c !in s
    ensures Replace(s, c, with) == s
  {
    if s != "" {
      ReplaceAbsent(s[1..], c, with);
    }
  }

  lemma ReplaceOne(x: char, c: char, with: string)
    ensures Replace([x], c, with) == if x == c then with else [x]
  {
    assert [x][1..] == "";
    assert with + "" == with;
  }

  lemma EscapeOne(c: char)
    ensures EscapeInner([c]) == Entity(c)
  {
    hide Replace;
    ReplaceOne(c, '&', "&amp;");
    ReplaceOne(c, '<', "&lt;");
    ReplaceOne(c, '>', "&gt;");
    ReplaceAbsent("&amp;", '<', "&lt;");
    ReplaceAbsent("&amp;", '>', "&gt;");
    ReplaceAbsent("&lt;", '>', "&gt;");
  }

  /** The three passes, ampersand first, act character by character: no pass disturbs another's output. */
  lemma {:induction false} EscapeIsEntities(text: string)
    ensures EscapeInner(text) == Entities(text)
  {
    if text != "" {
      var c, rest := [text[0]], text[1..];
      EscapeIsEntities(rest);
      assert text == c + rest;
      ReplaceConcat(c, rest, '&', "&amp;");
      var c1, r1 := Replace(c, '&', "&amp;"), Replace(rest, '&', "&amp;");
      ReplaceConcat(c1, r1, '<', "&lt;");
      ReplaceConcat(Replace(c1, '<', "&lt;"), Replace(r1, '<', "&lt;"), '>', "&gt;");
      EscapeOne(text[0]);
    }
  }

  lemma StartsWithPrefix(p: string, t: string)
    ensures StartsWith(p + t, p) && (p + t)[|p|..] == t
  {
  }

  lemma OtherHead(s: string, p: string)
    requires p != "" && (s == "" || s[0] != p[0])
    ensures !StartsWith(s, p)
  {
  }

  lemma OtherSecond(s: string, p: string)
    requires |p| > 1 && |s| > 1 && s[1] != p[1]
    ensures !StartsWith(s, p)
  {
  }

  lemma UnescapeEntity(c: char, t: string)
    ensures Unescape(Entity(c) + t) == [c] + Unescape(t)
  {
    hide StartsWith;
    var s := Entity(c) + t;
    StartsWithPrefix(Entity(c), t);
    if c == '<' {
      OtherSecond(s, "&amp;");
    } else if c == '>' {
      OtherSecond(s, "&amp;");
      OtherSecond(s, "&lt;");
    } else if c != '&' {
      OtherHead(s, "&amp;");
      OtherHead(s, "&lt;");
      OtherHead(s, "&gt;");
    }
  }

  /** Every verbatim text decodes back to itself. */
  lemma {:induction false} UnescapeOfEscape(text: string)
    ensures Unescape(EscapeInner(text)) == text
  {
    EscapeIsEntities(text);
    if text != "" {
      UnescapeOfEscape(text[1..]);
      EscapeIsEntities(text[1..]);
      UnescapeEntity(text[0], Entities(text[1..]));
    }
  }

  // ---------------------------------------------------------------------------
  // Scanning.

  /** Read wikitext left to right. `None` unless every `<` starts an alternating `<nowiki>` or `</nowiki>`,
      the last span is closed, and no brace stands outside a span; otherwise the texts of the spans. */
  function Scan(s: string, inside: bool, seen: string): Option<seq<string>>
    decreases |s|
  {
    if s == "" then if inside then None else Some([])
    else if !inside && StartsWith(s, OPEN) then Scan(s[8..], true, "")
    else if inside && StartsWith(s, CLOSE) then
      match Scan(s[9..], false, "")
      case Some(rest) => Some([seen] + rest)
      case None => None
    else if s[0] == '<' || (!inside && (s[0] == '{' || s[0] == '}')) then None
    else Scan(s[1..], inside, if inside then seen + [s[0]] else "")
  }

  function DecodeAll(spans: seq<string>): seq<string>
  {
    if spans == [] then [] else [Unescape(spans[0])] + DecodeAll(spans[1..])
  }

  /** The verbatim fields of inert wikitext, decoded, in order; `None` when it is not inert. */
  function VerbatimFields(s: string): Option<seq<string>>
  {
    match Scan(s, false, "")
    case Some(spans) => Some(DecodeAll(spans))
    case None => None
  }

  predicate MarkupFree(s: string)
  {
    forall i :: 0 <= i < |s| ==> s[i] != '<' && s[i] != '{' && s[i] != '}'
  }

  lemma {:induction false} ScanPlain(p: string, t: string)
    requires MarkupFree(p)
    ensures Scan(p + t, false, "") == Scan(t, false, "")
  {
    if p == "" {
      assert p + t == t;
    } else {
      ScanPlain(p[1..], t);
      var s := p + t;
      assert s[1..] == p[1..] + t && s[0] == p[0];
      OtherHead(s, OPEN);
    }
  }

  /** A brace or a stray `<` outside a span is refused, wherever it stands. */
  lemma LooseMarkupIsRefused(p: string, c: char, t: string)
    requires MarkupFree(p) && (c == '{' || c == '}' || (c == '<' && !StartsWith([c] + t, OPEN)))
    ensures Scan(p + ([c] + t), false, "") == None
  {
    ScanPlain(p, [c] + t);
    if c != '<' {
      OtherHead([c] + t, OPEN);
    }
  }

  lemma {:induction false} ScanInner(e: string, t: string, seen: string)
    requires '<' !in e
    ensures Scan(e + t, true, seen) == Scan(t, true, seen + e)
  {
    if e == "" {
      assert e + t == t && seen + e == seen;
    } else {
      ScanInner(e[1..], t, seen + [e[0]]);
      var s := e + t;
      assert s[1..] == e[1..] + t && s[0] == e[0];
      assert seen + [e[0]] + e[1..] == seen + e;
      OtherHead(s, CLOSE);
    }
  }

  lemma {:induction false} EntitiesHaveNoMarkup(text: string)
    ensures '<' !in Entities(text) && '>' !in Entities(text)
  {
    if text != "" {
      EntitiesHaveNoMarkup(text[1..]);
    }
  }

  lemma ScanVerbatim(text: string, t: string)
    ensures Scan(EscapeVerbatim(text) + t, false, "") ==
            match Scan(t, false, "") case Some(rest) => Some([EscapeInner(text)] + rest) case None => None
  {
    hide EscapeInner, Scan;
    var e := EscapeInner(text);
    EscapeIsEntities(text);
    EntitiesHaveNoMarkup(text);
    var s := EscapeVerbatim(text) + t;
    var inner := e + (CLOSE + t);
    assert s == OPEN + inner;
    ScanOpens(inner);
    ScanInner(e, CLOSE + t, "");
    assert "" + e == e;
    ScanCloses(t, e);
  }

  lemma ScanOpens(t: string)
    ensures Scan(OPEN + t, false, "") == Scan(t, true, "")
  {
    assert (OPEN + t)[..8] == OPEN && (OPEN + t)[8..] == t;
  }

  lemma ScanCloses(t: string, seen: string)
    ensures Scan(CLOSE + t, true, seen) ==
            match Scan(t, false, "") case Some(rest) => Some([seen] + rest) case None => None
  {
    assert (CLOSE + t)[..9] == CLOSE && (CLOSE + t)[9..] == t;
  }

  /** A percent-encoded link target contains nothing that ends the link or starts markup. */
  predicate LinkSafe(s: string)
  {
    forall i :: 0 <= i < |s| ==> s[i] !in "[]{}|<>` "
  }

  lemma UrlCharSafe(c: char)
    ensures LinkSafe(UrlChar(c))
  {
  }

  lemma {:induction false} EscapedUrlIsSafe(url: string)
    ensures LinkSafe(EscapeUrl(url)) && MarkupFree(EscapeUrl(url))
    ensures LinkSafe(url) ==> EscapeUrl(url) == url
  {
    if url != "" {
      EscapedUrlIsSafe(url[1..]);
      UrlCharSafe(url[0]);
      assert LinkSafe(url) ==> url[0] !in "[]{}|<>` ";
    }
  }

  function HexValue(c: char): (r: Option<int>)
    ensures r.Some? ==> 0 <= r.value < 16
    ensures r.Some? ==> c as int == (if r.value < 10 then 48 else if c < 'G' then 55 else 87) + r.value
    ensures r.None? ==> c !in "0123456789ABCDEFabcdef"
  {
    if IsDigit(c) then Some(DigitValue(c))
    else if 'A' <= c <= 'F' then Some(c as int - 'A' as int + 10)
    else if 'a' <= c <= 'f' then Some(c as int - 'a' as int + 10)
    else None
  }

  /** A percent sign and two hexadecimal digits. */
  predicate Escapes(s: string)
  {
    |s| >= 3 && s[0] == '%' && HexValue(s[1]).Some? && HexValue(s[2]).Some?
  }

  /** Percent-decoding, section 2.1 of RFC 3986, one byte per character. */
  function PercentDecode(s: string): string
  {
    if s == "" then ""
    else if Escapes(s) then [(HexValue(s[1]).value * 16 + HexValue(s[2]).value) as char] + PercentDecode(s[3..])
    else [s[0]] + PercentDecode(s[1..])
  }

  lemma DecodeTriple(c: char, t: string)
    requires |UrlChar(c)| == 3
    ensures PercentDecode(UrlChar(c) + t) == [c] + PercentDecode(t)
  {
    var s := UrlChar(c) + t;
    assert s[0] == '%' && s[1] == UrlChar(c)[1] && s[2] == UrlChar(c)[2] && s[3..] == t;
  }

  /** Encoding a target never completes a percent escape that was not there. */
  lemma NoNewEscape(url: string)
    requires url != "" && !Escapes(url) && UrlChar(url[0]) == [url[0]]
    ensures !Escapes([url[0]] + EscapeUrl(url[1..]))
  {
    var rest := url[1..];
    if |rest| >= 2 && HexValue(rest[0]).Some? {
      assert EscapeUrl(rest) == [rest[0]] + EscapeUrl(rest[1..]);
      assert EscapeUrl(rest[1..]) == UrlChar(rest[1]) + EscapeUrl(rest[1..][1..]);
      assert EscapeUrl(rest)[1] == UrlChar(rest[1])[0];
    } else if rest != "" {
      assert EscapeUrl(rest)[0] == UrlChar(rest[0])[0];
      if |rest| == 1 {
        assert EscapeUrl(rest[1..]) == "";
      }
    }
  }

  lemma EscapedTriple(url: string)
    requires Escapes(url)
    ensures EscapeUrl(url) == url[..3] + EscapeUrl(url[3..])
  {
    assert EscapeUrl(url) == [url[0]] + EscapeUrl(url[1..]);
    assert EscapeUrl(url[1..]) == [url[1]] + EscapeUrl(url[1..][1..]);
    assert url[1..][1..] == url[2..] && url[2..][1..] == url[3..];
    assert EscapeUrl(url[2..]) == [url[2]] + EscapeUrl(url[3..]);
    assert url[..3] == [url[0]] + [url[1]] + [url[2]];
  }

  /** The encoded target denotes what the original denotes, whatever it contains: each encoded character
      decodes back, and escapes already present are read as before. */
  lemma {:induction false} EncodedUrlDecodesAlike(url: string)
    ensures PercentDecode(EscapeUrl(url)) == PercentDecode(url)
  {
    hide HexValue;
    if url == "" {
    } else if Escapes(url) {
      EncodedUrlDecodesAlike(url[3..]);
      EscapedTriple(url);
      var s := url[..3] + EscapeUrl(url[3..]);
      assert s[3..] == EscapeUrl(url[3..]) && Escapes(s);
    } else {
      EncodedUrlDecodesAlike(url[1..]);
      if |UrlChar(url[0])| == 3 {
        DecodeTriple(url[0], EscapeUrl(url[1..]));
      } else {
        NoNewEscape(url);
        var s := [url[0]] + EscapeUrl(url[1..]);
        assert s[1..] == EscapeUrl(url[1..]);
      }
    }
  }
}
