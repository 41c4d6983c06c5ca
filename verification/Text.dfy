/** Character classes, decimal printing and parsing, and trimming, as Rust's standard library does them. */
module Text {
  import opened Machine

  predicate IsDigit(c: char)
  {
    '0' <= c <= '9'
  }

  predicate IsAlpha(c: char)
  {
    'a' <= c <= 'z' || 'A' <= c <= 'Z'
  }

  function DigitValue(c: char): int
    requires IsDigit(c)
  {
    c as int - '0' as int
  }

  function DigitChar(d: int): (c: char)
    requires 0 <= d < 10
    ensures IsDigit(c) && DigitValue(c) == d
  {
    (d + '0' as int) as char
  }

  predicate AllDigits(s: string)
  {
    forall i :: 0 <= i < |s| ==> IsDigit(s[i])
  }

  /** The left-to-right fold `acc * 10 + digit`. */
  function DecimalValue(s: string): (n: nat)
    requires AllDigits(s)
  {
    if s == [] then 0 else DecimalValue(s[..|s| - 1]) * 10 + DigitValue(s[|s| - 1])
  }

  function Pow10(k: nat): (p: nat)
    ensures p >= 1
  {
    if k == 0 then 1 else 10 * Pow10(k - 1)
  }

  lemma {:induction false} DecimalBound(s: string)
    requires AllDigits(s)
    ensures DecimalValue(s) < Pow10(|s|)
  {
    if s != [] {
      DecimalBound(s[..|s| - 1]);
    }
  }

  lemma {:induction false} DecimalConcat(s: string, t: string)
    requires AllDigits(s) && AllDigits(t)
    ensures AllDigits(s + t) && DecimalValue(s + t) == DecimalValue(s) * Pow10(|t|) + DecimalValue(t)
  {
    if t == [] {
      assert s + t == s;
    } else {
      var n := |t| - 1;
      DecimalConcat(s, t[..n]);
      assert (s + t)[..|s + t| - 1] == s + t[..n];
      TimesTen(DecimalValue(s), Pow10(n), DecimalValue(t[..n]));
    }
  }

  lemma TimesTen(v: int, p: int, u: int)
    ensures (v * p + u) * 10 == v * (10 * p) + u * 10
  {
    assert v * (10 * p) == v * p * 10;
  }

  /** Digit strings of equal length compare like their values. */
  lemma {:induction false} FirstDifferenceDecides(x: string, y: string, i: nat)
    requires AllDigits(x) && AllDigits(y) && |x| == |y| && i < |x|
    requires x[..i] == y[..i] && x[i] < y[i]
    ensures DecimalValue(x) < DecimalValue(y)
  {
    var n := |x| - 1;
    if i < n {
      assert x[..n][..i] == x[..i] && y[..n][..i] == y[..i];
      FirstDifferenceDecides(x[..n], y[..n], i);
    } else {
      assert x[..n] == y[..n];
    }
  }

  // Printing.

  function PrintNat(n: nat): (s: string)
    ensures AllDigits(s) && |s| >= 1 && DecimalValue(s) == n
  {
    if n < 10 then [DigitChar(n)]
    else
      var s := PrintNat(n / 10) + [DigitChar(n % 10)];
      assert s[..|s| - 1] == PrintNat(n / 10);
      s
  }

  function PrintInt(n: int): string
  {
    if n < 0 then "-" + PrintNat(-n) else PrintNat(n)
  }

  lemma {:induction false} PrintNatLength(n: nat, w: nat)
    requires w >= 1 && n < Pow10(w)
    ensures |PrintNat(n)| <= w
    decreases w
  {
    if n >= 10 {
      PrintNatLength(n / 10, w - 1);
    }
  }

  function Zeros(k: nat): (s: string)
    ensures |s| == k && AllDigits(s) && DecimalValue(s) == 0
  {
    if k == 0 then [] else
      var s := Zeros(k - 1) + ['0'];
      assert s[..k - 1] == Zeros(k - 1);
      s
  }

  /** `{:0w}` formatting: the sign counts toward the width. */
  function ZeroPadded(n: int, w: nat): string
  {
    var digits := PrintNat(if n < 0 then -n else n);
    var sign := if n < 0 then "-" else "";
    var missing := w - |sign| - |digits|;
    sign + Zeros(if missing > 0 then missing else 0) + digits
  }

  lemma LeadingZeros(k: nat, s: string)
    requires AllDigits(s)
    ensures AllDigits(Zeros(k) + s) && DecimalValue(Zeros(k) + s) == DecimalValue(s)
  {
    hide *;
    DecimalConcat(Zeros(k), s);
    assert 0 * Pow10(|s|) == 0;
  }

  lemma PaddedField(n: nat, w: nat)
    requires w >= 1 && n < Pow10(w)
    ensures |ZeroPadded(n, w)| == w && AllDigits(ZeroPadded(n, w)) && DecimalValue(ZeroPadded(n, w)) == n
  {
    hide DecimalValue, PrintNat, Zeros, Pow10;
    PrintNatLength(n, w);
    var digits := PrintNat(n);
    LeadingZeros(w - |digits|, digits);
    assert ZeroPadded(n, w) == Zeros(w - |digits|) + digits;
  }

  // Parsing.

  /** `str::parse` for an integer type of range `lo..=hi`: an optional sign, then at least one digit. */
  function ParseInt(s: string, lo: int, hi: int): (r: Option<int>)
    ensures r.Some? ==> lo <= r.value <= hi
  {
    var negative := s != "" && s[0] == '-' && lo < 0;
    var digits := if s != "" && (s[0] == '+' || negative) then s[1..] else s;
    if digits == "" || !AllDigits(digits) then None
    else
      var magnitude: int := DecimalValue(digits);
      var n := if negative then -magnitude else magnitude;
      if lo <= n <= hi then Some(n) else None
  }

  /** `n` written in digits, with a plus, a minus where negative numbers are allowed, or no sign. */
  ghost predicate Writes(s: string, digits: string, n: int, lo: int)
  {
    && digits != "" && AllDigits(digits)
    && ((s == digits && n == DecimalValue(digits)) || (s == "+" + digits && n == DecimalValue(digits))
        || (lo < 0 && s == "-" + digits && n == -(DecimalValue(digits) as int)))
  }

  /** Exactly the numbers in range are read, each from its digits and sign. */
  lemma ParseIntExactly(s: string, lo: int, hi: int, n: int)
    ensures ParseInt(s, lo, hi) == Some(n) <==> lo <= n <= hi && exists digits :: Writes(s, digits, n, lo)
  {
    hide DecimalValue;
    if ParseInt(s, lo, hi) == Some(n) {
      var signed := s[0] == '+' || (s[0] == '-' && lo < 0);
      assert signed ==> s == [s[0]] + s[1..];
      assert Writes(s, if signed then s[1..] else s, n, lo);
    }
    if lo <= n <= hi && exists digits :: Writes(s, digits, n, lo) {
      var digits :| Writes(s, digits, n, lo);
      assert s != digits ==> s[1..] == digits;
      assert IsDigit(digits[0]);
    }
  }

  lemma ParseDigits(s: string, lo: int, hi: int)
    requires s != "" && AllDigits(s)
    ensures ParseInt(s, lo, hi) == if lo <= DecimalValue(s) <= hi then Some(DecimalValue(s)) else None
  {
    assert IsDigit(s[0]);
  }

  /** Printing an integer in range and parsing it back gives it unchanged. */
  lemma ParseOfPrint(n: int, lo: int, hi: int)
    requires lo <= n <= hi
    ensures ParseInt(PrintInt(n), lo, hi) == Some(n)
  {
    if n < 0 {
      assert PrintInt(n)[1..] == PrintNat(-n);
    } else {
      ParseDigits(PrintNat(n), lo, hi);
    }
  }

  lemma SliceOfSlice(s: string, a: nat, b: nat, c: nat, d: nat)
    requires a <= b <= |s| && c <= d <= b - a
    ensures s[a..b][c..d] == s[a + c..a + d]
  {
    var inner, outer := s[a..b][c..d], s[a + c..a + d];
    assert |inner| == |outer|;
    forall i | 0 <= i < |inner| ensures inner[i] == outer[i] {
      assert inner[i] == s[a..b][c + i] == s[a + (c + i)];
    }
  }

  // Whitespace (the Unicode White_Space property) and trimming.

  predicate IsWhitespace(c: char)
  {
    var n := c as int;
    9 <= n <= 13 || n == 0x20 || n == 0x85 || n == 0xA0 || n == 0x1680 || 0x2000 <= n <= 0x200A
    || n == 0x2028 || n == 0x2029 || n == 0x202F || n == 0x205F || n == 0x3000
  }

  /** The 25 code points of the White_Space property, in decimal. */
  lemma WhitespaceExactly(c: char)
    ensures IsWhitespace(c) <==>
              c as int in {9, 10, 11, 12, 13, 32, 133, 160, 5760, 8192, 8193, 8194, 8195, 8196, 8197, 8198, 8199, 8200,
                           8201, 8202, 8232, 8233, 8239, 8287, 12288}
  {
  }

  function TrimStart(s: string): string
  {
    if s != "" && IsWhitespace(s[0]) then TrimStart(s[1..]) else s
  }

  function TrimEnd(s: string): string
  {
    if s != "" && IsWhitespace(s[|s| - 1]) then TrimEnd(s[..|s| - 1]) else s
  }

  function Trim(s: string): string
  {
    TrimEnd(TrimStart(s))
  }

  /** No whitespace at either end. */
  predicate IsTrimmed(s: string)
  {
    s != "" ==> !IsWhitespace(s[0]) && !IsWhitespace(s[|s| - 1])
  }

  lemma {:induction false} TrimStartProgress(s: string)
    ensures TrimStart(s) != "" ==> !IsWhitespace(TrimStart(s)[0])
  {
    if s != "" && IsWhitespace(s[0]) {
      TrimStartProgress(s[1..]);
    }
  }

  lemma {:induction false} TrimEndProgress(s: string)
    ensures TrimEnd(s) <= s
    ensures TrimEnd(s) != "" ==> !IsWhitespace(TrimEnd(s)[|TrimEnd(s)| - 1])
  {
    if s != "" && IsWhitespace(s[|s| - 1]) {
      TrimEndProgress(s[..|s| - 1]);
    }
  }

  lemma TrimTrims(s: string)
    ensures IsTrimmed(Trim(s))
  {
    TrimStartProgress(s);
    TrimEndProgress(TrimStart(s));
  }

  /** Trimming leaves exactly the trimmed strings alone, so trimming twice is trimming once. */
  lemma TrimFixesTrimmed(s: string)
    ensures IsTrimmed(s) <==> Trim(s) == s
  {
    TrimTrims(s);
  }

  /** Something other than whitespace. */
  predicate HasText(s: string)
  {
    exists i :: 0 <= i < |s| && !IsWhitespace(s[i])
  }

  lemma HasTextOfSum(s: string, t: string)
    ensures HasText(s + t) <==> HasText(s) || HasText(t)
  {
    hide IsWhitespace;
    var u := s + t;
    assert forall i :: 0 <= i < |s| ==> u[i] == s[i];
    assert forall i :: 0 <= i < |t| ==> u[|s| + i] == t[i];
  }

  lemma {:induction false} TrimStartKeepsText(s: string)
    ensures HasText(TrimStart(s)) <==> HasText(s)
  {
    if s != "" && IsWhitespace(s[0]) {
      TrimStartKeepsText(s[1..]);
      HasTextOfSum([s[0]], s[1..]);
      assert s == [s[0]] + s[1..];
    }
  }

  lemma {:induction false} TrimEndKeepsText(s: string)
    ensures HasText(TrimEnd(s)) <==> HasText(s)
  {
    if s != "" && IsWhitespace(s[|s| - 1]) {
      var n := |s| - 1;
      TrimEndKeepsText(s[..n]);
      HasTextOfSum(s[..n], [s[n]]);
      assert s == s[..n] + [s[n]];
    }
  }

  lemma TrimIsEmptyIff(s: string)
    ensures Trim(s) == "" <==> !HasText(s)
  {
    TrimStartKeepsText(s);
    TrimEndKeepsText(TrimStart(s));
    TrimTrims(s);
    if Trim(s) != "" {
      assert !IsWhitespace(Trim(s)[0]);
    }
  }

  /** Nothing but whitespace. */
  predicate IsBlank(s: string)
  {
    forall i :: 0 <= i < |s| ==> IsWhitespace(s[i])
  }

  lemma {:induction false} TrimStartOfPadded(a: string, t: string)
    requires IsBlank(a) && (t == "" || !IsWhitespace(t[0]))
    ensures TrimStart(a + t) == t
  {
    hide IsWhitespace;
    if a == "" {
      assert a + t == t;
    } else {
      TrimStartOfPadded(a[1..], t);
      assert (a + t)[1..] == a[1..] + t;
    }
  }

  lemma {:induction false} TrimEndOfPadded(t: string, b: string)
    requires IsBlank(b) && (t == "" || !IsWhitespace(t[|t| - 1]))
    ensures TrimEnd(t + b) == t
  {
    hide IsWhitespace;
    if b == "" {
      assert t + b == t;
    } else {
      var n := |b| - 1;
      TrimEndOfPadded(t, b[..n]);
      assert (t + b)[..|t + b| - 1] == t + b[..n];
    }
  }

  /** Trimming removes the whitespace around a text and nothing of it. */
  lemma TrimOfPadded(a: string, core: string, b: string)
    requires IsBlank(a) && IsBlank(b) && core != "" && IsTrimmed(core)
    ensures Trim(a + core + b) == core
  {
    hide IsWhitespace;
    assert a + core + b == a + (core + b);
    assert (core + b)[0] == core[0];
    TrimStartOfPadded(a, core + b);
    TrimEndOfPadded(core, b);
  }

  lemma {:induction false} TrimStartParts(s: string) returns (a: string)
    ensures IsBlank(a) && s == a + TrimStart(s)
  {
    hide IsWhitespace;
    if s != "" && IsWhitespace(s[0]) {
      var rest := TrimStartParts(s[1..]);
      a := [s[0]] + rest;
      assert s == [s[0]] + s[1..];
    } else {
      a := "";
    }
  }

  lemma {:induction false} TrimEndParts(s: string) returns (b: string)
    ensures IsBlank(b) && s == TrimEnd(s) + b
  {
    hide IsWhitespace;
    if s != "" && IsWhitespace(s[|s| - 1]) {
      var rest := TrimEndParts(s[..|s| - 1]);
      b := rest + [s[|s| - 1]];
      assert s == s[..|s| - 1] + [s[|s| - 1]];
    } else {
      b := "";
    }
  }

  /** Every text is its trimmed core between whitespace. */
  lemma TrimParts(s: string) returns (a: string, b: string)
    ensures IsBlank(a) && IsBlank(b) && IsTrimmed(Trim(s)) && s == a + Trim(s) + b
  {
    a := TrimStartParts(s);
    b := TrimEndParts(TrimStart(s));
    TrimTrims(s);
  }
}
