/** The live-operator query: normalization, its key/value pairs, and the queue filter. */
module OperatorQuery {
  import opened Machine
  import opened Text

  datatype Query = Query(
    limit: u16,
    includeBots: bool, unpatrolledOnly: bool, includeMinor: bool, includeRegistered: bool,
    includeAnonymous: bool, includeTemporary: bool, includeNewPages: bool,
    namespaces: seq<i32>, minScore: Option<i32>, tagFilter: Option<string>, rccontinue: Option<string>)

  const DEFAULT_LIMIT: u16 := 15
  const MAX_LIMIT: u16 := 500

  const DEFAULT := Query(DEFAULT_LIMIT, false, true, true, false, true, true, true, [], None, None, None)

  // ---------------------------------------------------------------------------
  // Sorting and deduplication.

  predicate Ascending(ns: seq<i32>)
  {
    forall i, j :: 0 <= i < j < |ns| ==> ns[i] <= ns[j]
  }

  predicate StrictlyAscending(ns: seq<i32>)
  {
    forall i, j :: 0 <= i < j < |ns| ==> ns[i] < ns[j]
  }

  function Insert(x: i32, ns: seq<i32>): (r: seq<i32>)
    requires Ascending(ns)
    ensures Ascending(r) && |r| == |ns| + 1
    ensures forall y :: y in r <==> y == x || y in ns
  {
    if ns == [] || x <= ns[0] then [x] + ns
    else
      assert ns == [ns[0]] + ns[1..];
      var rest := Insert(x, ns[1..]);
      assert forall k :: 0 <= k < |rest| ==> rest[k] in rest;
      [ns[0]] + rest
  }

  function Sorted(ns: seq<i32>): (r: seq<i32>)
    ensures Ascending(r) && |r| == |ns|
    ensures forall y :: y in r <==> y in ns
  {
    if ns == [] then [] else Insert(ns[0], Sorted(ns[1..]))
  }

  /** `Vec::dedup`: drop each element equal to the one kept before it. */
  function Dedup(ns: seq<i32>): seq<i32>
  {
    if |ns| <= 1 then ns
    else if ns[|ns| - 1] == ns[|ns| - 2] then Dedup(ns[..|ns| - 1])
    else Dedup(ns[..|ns| - 1]) + [ns[|ns| - 1]]
  }

  function SortDedup(ns: seq<i32>): seq<i32>
  {
    Dedup(Sorted(ns))
  }

  lemma {:induction false} DedupKeepsLast(ns: seq<i32>)
    requires Ascending(ns)
    ensures StrictlyAscending(Dedup(ns))
    ensures forall x :: x in Dedup(ns) <==> x in ns
    ensures ns != [] ==> Dedup(ns) != [] && Dedup(ns)[|Dedup(ns)| - 1] == ns[|ns| - 1]
  {
    if |ns| > 1 {
      var n := |ns| - 1;
      DedupKeepsLast(ns[..n]);
      assert ns == ns[..n] + [ns[n]];
    }
  }

  lemma {:induction false} SortedFixesAscending(ns: seq<i32>)
    requires Ascending(ns)
    ensures Sorted(ns) == ns
  {
    if ns != [] {
      SortedFixesAscending(ns[1..]);
      assert ns == [ns[0]] + ns[1..];
    }
  }

  lemma {:induction false} DedupFixesStrict(ns: seq<i32>)
    requires StrictlyAscending(ns)
    ensures Dedup(ns) == ns
  {
    if |ns| > 1 {
      DedupFixesStrict(ns[..|ns| - 1]);
    }
  }

  /** Sort-and-dedup lists the same namespaces, each once, in order, and is the identity on such lists. */
  lemma SortDedupCanonical(ns: seq<i32>)
    ensures StrictlyAscending(SortDedup(ns))
    ensures forall x :: x in SortDedup(ns) <==> x in ns
    ensures StrictlyAscending(ns) ==> SortDedup(ns) == ns
  {
    DedupKeepsLast(Sorted(ns));
    if StrictlyAscending(ns) {
      SortedFixesAscending(ns);
      DedupFixesStrict(ns);
    }
  }

  // ---------------------------------------------------------------------------
  // Normalization.

  function NormalizedText(value: Option<string>): Option<string>
  {
    if value.None? then None
    else
      var trimmed := Trim(value.value);
      if trimmed == "" then None else Some(trimmed)
  }

  function Normalized(q: Query): Query
  {
    q.(limit := Clamp(1, MAX_LIMIT, q.limit),
       tagFilter := NormalizedText(q.tagFilter),
       rccontinue := NormalizedText(q.rccontinue),
       namespaces := SortDedup(q.namespaces))
  }

  /** `core` is what is left of `value` without the whitespace around it, and is not empty. */
  ghost predicate TrimsTo(value: string, core: string)
  {
    core != "" && IsTrimmed(core) && exists a, b :: IsBlank(a) && IsBlank(b) && value == a + core + b
  }

  lemma TrimExactly(value: string, core: string)
    ensures TrimsTo(value, core) <==> core != "" && Trim(value) == core
  {
    hide IsBlank, Trim, IsTrimmed;
    if TrimsTo(value, core) {
      var a, b :| IsBlank(a) && IsBlank(b) && value == a + core + b;
      TrimOfPadded(a, core, b);
    }
    if Trim(value) == core {
      var a, b := TrimParts(value);
    }
  }

  /** What normalizing makes of an optional text: blank text counts as none, other text loses the whitespace
      around it. */
  ghost predicate TextKept(value: Option<string>, kept: Option<string>)
  {
    match kept
    case None => value.Some? ==> !HasText(value.value)
    case Some(core) => value.Some? && TrimsTo(value.value, core)
  }

  lemma NormalizedTextExactly(value: Option<string>, kept: Option<string>)
    ensures NormalizedText(value) == kept <==> TextKept(value, kept)
  {
    hide HasText, Trim, TrimsTo;
    if value.Some? {
      TrimIsEmptyIff(value.value);
      TrimExactly(value.value, Trim(value.value));
      if kept.Some? {
        TrimExactly(value.value, kept.value);
      }
    }
  }

  predicate NormalText(value: Option<string>)
  {
    value.Some? ==> value.value != "" && IsTrimmed(value.value)
  }

  /** A limit from 1 to 500, namespaces in order without repetition, texts trimmed and not empty. */
  predicate IsNormal(q: Query)
  {
    1 <= q.limit <= 500 && StrictlyAscending(q.namespaces) && NormalText(q.tagFilter) && NormalText(q.rccontinue)
  }

  /** `n` is `q` with the limit brought into 1..500, the texts trimmed and the namespaces listed once each in
      order. */
  ghost predicate NormalFormOf(q: Query, n: Query)
  {
    && n.limit == (if q.limit == 0 then 1 else if q.limit > 500 then 500 else q.limit)
    && n.includeBots == q.includeBots && n.unpatrolledOnly == q.unpatrolledOnly && n.includeMinor == q.includeMinor
    && n.includeRegistered == q.includeRegistered && n.includeAnonymous == q.includeAnonymous
    && n.includeTemporary == q.includeTemporary && n.includeNewPages == q.includeNewPages
    && n.minScore == q.minScore
    && TextKept(q.tagFilter, n.tagFilter) && TextKept(q.rccontinue, n.rccontinue)
    && StrictlyAscending(n.namespaces) && forall x :: x in n.namespaces <==> x in q.namespaces
  }

  /** What normalizing does, and to which queries it does nothing. */
  lemma NormalizedExactly(q: Query)
    ensures NormalFormOf(q, Normalized(q))
    ensures Normalized(q) == q <==> IsNormal(q)
  {
    hide SortDedup, NormalizedText, TextKept, StrictlyAscending, IsTrimmed;
    SortDedupCanonical(q.namespaces);
    NormalizedTextExactly(q.tagFilter, NormalizedText(q.tagFilter));
    NormalizedTextExactly(q.rccontinue, NormalizedText(q.rccontinue));
    TextStaysIff(q.tagFilter);
    TextStaysIff(q.rccontinue);
  }

  lemma TextStaysIff(value: Option<string>)
    ensures NormalizedText(value) == value <==> NormalText(value)
  {
    if value.Some? {
      TrimFixesTrimmed(value.value);
    }
  }

  lemma NormalizedTextTwice(value: Option<string>)
    ensures NormalizedText(NormalizedText(value)) == NormalizedText(value)
  {
    if value.Some? {
      TrimTrims(value.value);
      TrimFixesTrimmed(Trim(value.value));
    }
  }

  lemma NormalizedTwice(q: Query)
    ensures Normalized(Normalized(q)) == Normalized(q)
  {
    hide SortDedup, NormalizedText;
    NormalizedTextTwice(q.tagFilter);
    NormalizedTextTwice(q.rccontinue);
    SortDedupCanonical(q.namespaces);
    SortDedupCanonical(SortDedup(q.namespaces));
  }

  // ---------------------------------------------------------------------------
  // Comma-separated lists.

  function Join(parts: seq<string>): string
  {
    if parts == [] then ""
    else if |parts| == 1 then parts[0]
    else parts[0] + "," + Join(parts[1..])
  }

  /** `str::split`: the pieces between separators, at least one. */
  function Split(s: string): (parts: seq<string>)
    ensures |parts| >= 1
  {
    if s == "" then [""]
    else
      var rest := Split(s[1..]);
      if s[0] == ',' then [""] + rest else [[s[0]] + rest[0]] + rest[1..]
  }

  predicate NoComma(s: string)
  {
    forall i :: 0 <= i < |s| ==> s[i] != ','
  }

  lemma {:induction false} SplitPrefix(s: string, t: string)
    requires NoComma(s)
    ensures Split(s + t) == [s + Split(t)[0]] + Split(t)[1..]
  {
    if s == "" {
      assert s + t == t;
      assert s + Split(t)[0] == Split(t)[0];
    } else {
      SplitPrefix(s[1..], t);
      assert (s + t)[1..] == s[1..] + t && (s + t)[0] == s[0];
      var rest := Split(s[1..] + t);
      assert rest[0] == s[1..] + Split(t)[0] && rest[1..] == Split(t)[1..];
      assert Split(s + t) == [[s[0]] + rest[0]] + rest[1..];
      assert [s[0]] + s[1..] == s;
      assert [s[0]] + (s[1..] + Split(t)[0]) == s + Split(t)[0];
    }
  }

  /** Joining pieces without commas and splitting again gives the pieces back. */
  lemma {:induction false} SplitOfJoin(parts: seq<string>)
    requires parts != [] && forall i :: 0 <= i < |parts| ==> NoComma(parts[i])
    ensures Split(Join(parts)) == parts
  {
    if |parts| == 1 {
      SplitPrefix(parts[0], "");
      assert parts[0] + "" == parts[0];
    } else {
      SplitOfJoin(parts[1..]);
      var tail := "," + Join(parts[1..]);
      SplitPrefix(parts[0], tail);
      assert tail[1..] == Join(parts[1..]);
      assert Split(tail) == [""] + parts[1..];
      assert parts[0] + "," + Join(parts[1..]) == parts[0] + tail;
      assert parts[0] + "" == parts[0];
    }
  }

  function PrintAll(ns: seq<i32>): (r: seq<string>)
    ensures |r| == |ns| && forall i :: 0 <= i < |ns| ==> r[i] == PrintInt(ns[i])
  {
    if ns == [] then [] else [PrintInt(ns[0])] + PrintAll(ns[1..])
  }

  /** `filter_map(|entry| entry.trim().parse::<i32>().ok())`. */
  function ParseAll(parts: seq<string>): seq<i32>
  {
    if parts == [] then []
    else
      match ParseInt(Trim(parts[0]), I32_MIN, I32_MAX)
      case Some(n) => [n] + ParseAll(parts[1..])
      case None => ParseAll(parts[1..])
  }

  lemma PrintedIsPlain(n: int)
    ensures NoComma(PrintInt(n)) && IsTrimmed(PrintInt(n)) && PrintInt(n) != ""
  {
    var digits := PrintNat(if n < 0 then -n else n);
    var s := PrintInt(n);
    assert forall i :: 0 <= i < |s| ==> IsDigit(s[i]) || s[i] == '-';
  }

  lemma {:induction false} ParseOfPrintAll(ns: seq<i32>)
    ensures ParseAll(PrintAll(ns)) == ns
  {
    if ns != [] {
      ParseOfPrintAll(ns[1..]);
      PrintedIsPlain(ns[0]);
      TrimFixesTrimmed(PrintInt(ns[0]));
      ParseOfPrint(ns[0], I32_MIN, I32_MAX);
      assert PrintAll(ns)[1..] == PrintAll(ns[1..]);
    }
  }

  function ParseNamespaces(value: string): seq<i32>
  {
    SortDedup(ParseAll(Split(value)))
  }

  /** Some entry is the number, whitespace aside. */
  ghost predicate Enters(parts: seq<string>, x: i32)
  {
    exists i :: 0 <= i < |parts| && ParseInt(Trim(parts[i]), I32_MIN, I32_MAX) == Some(x)
  }

  lemma {:induction false} ParsedEntries(parts: seq<string>, x: i32)
    ensures x in ParseAll(parts) <==> Enters(parts, x)
  {
    hide ParseInt, Trim;
    if parts != [] {
      ParsedEntries(parts[1..], x);
      assert parts == [parts[0]] + parts[1..];
      if i :| 0 <= i < |parts| && ParseInt(Trim(parts[i]), I32_MIN, I32_MAX) == Some(x) && i > 0 {
        assert parts[1..][i - 1] == parts[i];
      }
      if Enters(parts[1..], x) {
        var i :| 0 <= i < |parts[1..]| && ParseInt(Trim(parts[1..][i]), I32_MIN, I32_MAX) == Some(x);
        assert parts[i + 1] == parts[1..][i];
      }
    }
  }

  /** A namespace is read exactly if some entry between commas is its number, whitespace aside; other entries are
      passed over. */
  lemma NamespacesExactly(value: string, x: i32)
    ensures StrictlyAscending(ParseNamespaces(value))
    ensures x in ParseNamespaces(value) <==> Enters(Split(value), x)
  {
    hide SortDedup, ParseAll, Split, Enters, StrictlyAscending;
    SortDedupCanonical(ParseAll(Split(value)));
    ParsedEntries(Split(value), x);
  }

  lemma NamespacesRoundTrip(ns: seq<i32>)
    requires ns != [] && StrictlyAscending(ns)
    ensures ParseNamespaces(Join(PrintAll(ns))) == ns
  {
    forall i | 0 <= i < |ns| ensures NoComma(PrintAll(ns)[i]) {
      PrintedIsPlain(ns[i]);
    }
    SplitOfJoin(PrintAll(ns));
    ParseOfPrintAll(ns);
    SortDedupCanonical(ns);
  }
}
