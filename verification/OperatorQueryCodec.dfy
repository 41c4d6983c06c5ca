/** The live-operator query as key/value pairs, and the queue filter it drives. */
module OperatorQueryCodec {
  import opened Machine
  import opened Text
  import opened OperatorQuery

  type Pair = (string, string)

  function ParseBool(value: string): bool
  {
    var t := Trim(value);
    t == "1" || t == "true" || t == "TRUE" || t == "True" || t == "yes" || t == "on"
  }

  /** `apply_query_pair`: unknown keys and unreadable limits are ignored. */
  function ApplyPair(q: Query, key: string, value: string): Query
  {
    if key == "limit" then
      match ParseInt(value, 0, U16_MAX)
      case Some(n) => q.(limit := n)
      case None => q
    else if key == "include_bots" then q.(includeBots := ParseBool(value))
    else if key == "unpatrolled_only" then q.(unpatrolledOnly := ParseBool(value))
    else if key == "include_minor" then q.(includeMinor := ParseBool(value))
    else if key == "include_registered" then q.(includeRegistered := ParseBool(value))
    else if key == "include_anonymous" then q.(includeAnonymous := ParseBool(value))
    else if key == "include_temporary" then q.(includeTemporary := ParseBool(value))
    else if key == "include_new_pages" then q.(includeNewPages := ParseBool(value))
    else if key == "namespaces" then q.(namespaces := ParseNamespaces(value))
    else if key == "min_score" then q.(minScore := ParseInt(value, I32_MIN, I32_MAX))
    else if key == "tag_filter" then q.(tagFilter := NormalizedText(Some(value)))
    else if key == "rccontinue" then q.(rccontinue := NormalizedText(Some(value)))
    else q
  }

  function ApplyPairs(q: Query, pairs: seq<Pair>): Query
  {
    if pairs == [] then q
    else
      var before, last := ApplyPairs(q, pairs[..|pairs| - 1]), pairs[|pairs| - 1];
      ApplyPair(before, last.0, last.1)
  }

  function Decoded(pairs: seq<Pair>): Query
  {
    Normalized(ApplyPairs(DEFAULT, pairs))
  }

  /** `from_query_pairs`. */
  method FromQueryPairs(pairs: seq<Pair>) returns (query: Query)
    ensures query == Decoded(pairs)
    ensures exists q :: SetByLast(DEFAULT, pairs, q) && NormalFormOf(q, query)
  {
    hide SetByLast, NormalFormOf, ApplyPair, Normalized;
    query := DEFAULT;
    for i := 0 to |pairs|
      invariant query == ApplyPairs(DEFAULT, pairs[..i])
    {
      query := ApplyPair(query, pairs[i].0, pairs[i].1);
      assert pairs[..i + 1][..i] == pairs[..i];
    }
    assert pairs[..|pairs|] == pairs;
    LastPairDecides(DEFAULT, pairs);
    NormalizedExactly(query);
    query := Normalized(query);
  }

  // ---------------------------------------------------------------------------
  // What a list of pairs says.

  function LastValue(pairs: seq<Pair>, key: string): Option<string>
  {
    if pairs == [] then None
    else
      var last := pairs[|pairs| - 1];
      if last.0 == key then Some(last.1) else LastValue(pairs[..|pairs| - 1], key)
  }

  /** The last limit that can be read. */
  function LastLimit(pairs: seq<Pair>): Option<u16>
  {
    if pairs == [] then None
    else
      var last := pairs[|pairs| - 1];
      if last.0 == "limit" && ParseInt(last.1, 0, U16_MAX).Some? then ParseInt(last.1, 0, U16_MAX)
      else LastLimit(pairs[..|pairs| - 1])
  }

  /** One of six words, whitespace aside. */
  ghost predicate SaysYes(value: string)
  {
    || TrimsTo(value, "1") || TrimsTo(value, "true") || TrimsTo(value, "TRUE") || TrimsTo(value, "True")
    || TrimsTo(value, "yes") || TrimsTo(value, "on")
  }

  lemma YesExactly(value: string)
    ensures ParseBool(value) <==> SaysYes(value)
  {
    hide TrimsTo, Trim;
    TrimExactly(value, "1");
    TrimExactly(value, "true");
    TrimExactly(value, "TRUE");
    TrimExactly(value, "True");
    TrimExactly(value, "yes");
    TrimExactly(value, "on");
  }

  ghost predicate FlagIs(pairs: seq<Pair>, key: string, before: bool, after: bool)
  {
    match LastValue(pairs, key)
    case None => after == before
    case Some(v) => after == SaysYes(v)
  }

  ghost predicate TextIs(pairs: seq<Pair>, key: string, before: Option<string>, after: Option<string>)
  {
    match LastValue(pairs, key)
    case None => after == before
    case Some(v) => TextKept(Some(v), after)
  }

  /** `q'` is `q` with each field set by the last pair that has its key. */
  ghost predicate SetByLast(q: Query, pairs: seq<Pair>, q': Query)
  {
    && q'.limit == (if LastLimit(pairs).Some? then LastLimit(pairs).value else q.limit)
    && FlagIs(pairs, "include_bots", q.includeBots, q'.includeBots)
    && FlagIs(pairs, "unpatrolled_only", q.unpatrolledOnly, q'.unpatrolledOnly)
    && FlagIs(pairs, "include_minor", q.includeMinor, q'.includeMinor)
    && FlagIs(pairs, "include_registered", q.includeRegistered, q'.includeRegistered)
    && FlagIs(pairs, "include_anonymous", q.includeAnonymous, q'.includeAnonymous)
    && FlagIs(pairs, "include_temporary", q.includeTemporary, q'.includeTemporary)
    && FlagIs(pairs, "include_new_pages", q.includeNewPages, q'.includeNewPages)
    && (var ns := LastValue(pairs, "namespaces");
        q'.namespaces == if ns.Some? then ParseNamespaces(ns.value) else q.namespaces)
    && (var score := LastValue(pairs, "min_score");
        q'.minScore == if score.Some? then ParseInt(score.value, I32_MIN, I32_MAX) else q.minScore)
    && TextIs(pairs, "tag_filter", q.tagFilter, q'.tagFilter)
    && TextIs(pairs, "rccontinue", q.rccontinue, q'.rccontinue)
  }

  /** Keys of equal length, told apart. */
  lemma KeysDiffer()
    ensures "include_temporary" != "include_anonymous"
    ensures "include_new_pages" != "include_anonymous" && "include_new_pages" != "include_temporary"
    ensures "tag_filter" != "namespaces" && "rccontinue" != "namespaces" && "rccontinue" != "tag_filter"
  {
    assert "include_temporary"[8] == 't' && "include_anonymous"[8] == 'a' && "include_new_pages"[8] == 'n';
    assert "tag_filter"[0] == 't' && "namespaces"[0] == 'n' && "rccontinue"[0] == 'r';
  }

  /** What each key does. */
  lemma FlagKeys(q: Query, value: string)
    ensures ApplyPair(q, "include_bots", value) == q.(includeBots := ParseBool(value))
    ensures ApplyPair(q, "unpatrolled_only", value) == q.(unpatrolledOnly := ParseBool(value))
    ensures ApplyPair(q, "include_minor", value) == q.(includeMinor := ParseBool(value))
    ensures ApplyPair(q, "include_registered", value) == q.(includeRegistered := ParseBool(value))
    ensures ApplyPair(q, "include_anonymous", value) == q.(includeAnonymous := ParseBool(value))
    ensures ApplyPair(q, "include_temporary", value) == q.(includeTemporary := ParseBool(value))
    ensures ApplyPair(q, "include_new_pages", value) == q.(includeNewPages := ParseBool(value))
  {
    hide ParseBool, ParseInt, ParseNamespaces, NormalizedText;
    KeysDiffer();
  }

  lemma ValueKeys(q: Query, value: string)
    ensures ApplyPair(q, "limit", value) ==
            (if ParseInt(value, 0, U16_MAX).Some? then q.(limit := ParseInt(value, 0, U16_MAX).value) else q)
    ensures ApplyPair(q, "namespaces", value) == q.(namespaces := ParseNamespaces(value))
    ensures ApplyPair(q, "min_score", value) == q.(minScore := ParseInt(value, I32_MIN, I32_MAX))
    ensures ApplyPair(q, "tag_filter", value) == q.(tagFilter := NormalizedText(Some(value)))
    ensures ApplyPair(q, "rccontinue", value) == q.(rccontinue := NormalizedText(Some(value)))
  {
    hide ParseBool, ParseInt, ParseNamespaces, NormalizedText;
    KeysDiffer();
  }

  predicate IsFlagKey(key: string)
  {
    || key == "include_bots" || key == "unpatrolled_only" || key == "include_minor" || key == "include_registered"
    || key == "include_anonymous" || key == "include_temporary" || key == "include_new_pages"
  }

  predicate IsValueKey(key: string)
  {
    key == "limit" || key == "namespaces" || key == "min_score" || key == "tag_filter" || key == "rccontinue"
  }

  lemma OtherKeys(q: Query, key: string, value: string)
    requires !IsFlagKey(key) && !IsValueKey(key)
    ensures ApplyPair(q, key, value) == q
  {
    hide ParseBool, ParseInt, ParseNamespaces, NormalizedText;
  }

  /** A pair changes only the field of its key. */
  lemma FlagsKept(q: Query, key: string, value: string)
    ensures var r := ApplyPair(q, key, value);
            && (key != "include_bots" ==> r.includeBots == q.includeBots)
            && (key != "unpatrolled_only" ==> r.unpatrolledOnly == q.unpatrolledOnly)
            && (key != "include_minor" ==> r.includeMinor == q.includeMinor)
  {
    FlagKeys(q, value);
    ValueKeys(q, value);
    hide ApplyPair, ParseBool, ParseInt, ParseNamespaces, NormalizedText;
    if !IsFlagKey(key) && !IsValueKey(key) {
      OtherKeys(q, key, value);
    }
  }

  /** Likewise registered and anonymous editors. */
  lemma EditorsKept(q: Query, key: string, value: string)
    ensures var r := ApplyPair(q, key, value);
            && (key != "include_registered" ==> r.includeRegistered == q.includeRegistered)
            && (key != "include_anonymous" ==> r.includeAnonymous == q.includeAnonymous)
  {
    FlagKeys(q, value);
    ValueKeys(q, value);
    hide ApplyPair, ParseBool, ParseInt, ParseNamespaces, NormalizedText;
    if !IsFlagKey(key) && !IsValueKey(key) {
      OtherKeys(q, key, value);
    }
  }

  /** Likewise temporary accounts and new pages. */
  lemma NewcomersKept(q: Query, key: string, value: string)
    ensures var r := ApplyPair(q, key, value);
            && (key != "include_temporary" ==> r.includeTemporary == q.includeTemporary)
            && (key != "include_new_pages" ==> r.includeNewPages == q.includeNewPages)
  {
    FlagKeys(q, value);
    ValueKeys(q, value);
    hide ApplyPair, ParseBool, ParseInt, ParseNamespaces, NormalizedText;
    if !IsFlagKey(key) && !IsValueKey(key) {
      OtherKeys(q, key, value);
    }
  }

  /** Likewise the other fields. */
  lemma ValuesKept(q: Query, key: string, value: string)
    ensures var r := ApplyPair(q, key, value);
            && (key != "limit" ==> r.limit == q.limit)
            && (key != "namespaces" ==> r.namespaces == q.namespaces)
            && (key != "min_score" ==> r.minScore == q.minScore)
            && (key != "tag_filter" ==> r.tagFilter == q.tagFilter)
            && (key != "rccontinue" ==> r.rccontinue == q.rccontinue)
  {
    FlagKeys(q, value);
    ValueKeys(q, value);
    hide ApplyPair, ParseBool, ParseInt, ParseNamespaces, NormalizedText;
    if !IsFlagKey(key) && !IsValueKey(key) {
      OtherKeys(q, key, value);
    }
  }

  /** A field that pairs with key `key` set to what they say, and no other pair touches, ends as the last of them
      says. */
  lemma {:induction false} LastDecides<T>(
    q: Query, pairs: seq<Pair>, key: string, get: Query -> T, read: string -> T)
    requires forall x, k, v {:trigger ApplyPair(x, k, v)} ::
               get(ApplyPair(x, k, v)) == if k == key then read(v) else get(x)
    ensures var last := LastValue(pairs, key);
            get(ApplyPairs(q, pairs)) == if last.Some? then read(last.value) else get(q)
  {
    hide ApplyPair;
    if pairs != [] {
      LastDecides(q, pairs[..|pairs| - 1], key, get, read);
    }
  }

  lemma {:induction false} LimitDecides(q: Query, pairs: seq<Pair>)
    ensures ApplyPairs(q, pairs).limit == if LastLimit(pairs).Some? then LastLimit(pairs).value else q.limit
  {
    if pairs != [] {
      var n := |pairs| - 1;
      LimitDecides(q, pairs[..n]);
      ValueKeys(ApplyPairs(q, pairs[..n]), pairs[n].1);
      ValuesKept(ApplyPairs(q, pairs[..n]), pairs[n].0, pairs[n].1);
    }
    hide ApplyPair, ParseInt;
  }

  lemma FlagDecides(q: Query, pairs: seq<Pair>, key: string, get: Query -> bool)
    requires forall x, k, v {:trigger ApplyPair(x, k, v)} ::
               get(ApplyPair(x, k, v)) == if k == key then ParseBool(v) else get(x)
    ensures FlagIs(pairs, key, get(q), get(ApplyPairs(q, pairs)))
  {
    hide ApplyPair, ParseBool, SaysYes;
    LastDecides(q, pairs, key, get, ParseBool);
    if LastValue(pairs, key).Some? {
      YesExactly(LastValue(pairs, key).value);
    }
  }

  lemma TextDecides(q: Query, pairs: seq<Pair>, key: string, get: Query -> Option<string>)
    requires forall x, k, v {:trigger ApplyPair(x, k, v)} ::
               get(ApplyPair(x, k, v)) == if k == key then NormalizedText(Some(v)) else get(x)
    ensures TextIs(pairs, key, get(q), get(ApplyPairs(q, pairs)))
  {
    hide ApplyPair, NormalizedText, TextKept;
    LastDecides(q, pairs, key, get, v => NormalizedText(Some(v)));
    if LastValue(pairs, key).Some? {
      NormalizedTextExactly(Some(LastValue(pairs, key).value), get(ApplyPairs(q, pairs)));
    }
  }

  lemma FlagsDecide(q: Query, pairs: seq<Pair>)
    ensures FlagIs(pairs, "include_bots", q.includeBots, ApplyPairs(q, pairs).includeBots)
    ensures FlagIs(pairs, "unpatrolled_only", q.unpatrolledOnly, ApplyPairs(q, pairs).unpatrolledOnly)
    ensures FlagIs(pairs, "include_minor", q.includeMinor, ApplyPairs(q, pairs).includeMinor)
    ensures FlagIs(pairs, "include_registered", q.includeRegistered, ApplyPairs(q, pairs).includeRegistered)
  {
    hide ApplyPair, ParseBool, FlagIs;
    forall x: Query, k: string, v: string
      ensures ApplyPair(x, k, v).includeBots == if k == "include_bots" then ParseBool(v) else x.includeBots
      ensures ApplyPair(x, k, v).unpatrolledOnly == if k == "unpatrolled_only" then ParseBool(v) else x.unpatrolledOnly
      ensures ApplyPair(x, k, v).includeMinor == if k == "include_minor" then ParseBool(v) else x.includeMinor
      ensures ApplyPair(x, k, v).includeRegistered ==
              if k == "include_registered" then ParseBool(v) else x.includeRegistered
    {
      FlagKeys(x, v);
      FlagsKept(x, k, v);
      EditorsKept(x, k, v);
    }
    FlagDecides(q, pairs, "include_bots", (x: Query) => x.includeBots);
    FlagDecides(q, pairs, "unpatrolled_only", (x: Query) => x.unpatrolledOnly);
    FlagDecides(q, pairs, "include_minor", (x: Query) => x.includeMinor);
    FlagDecides(q, pairs, "include_registered", (x: Query) => x.includeRegistered);
  }

  lemma KindsDecide(q: Query, pairs: seq<Pair>)
    ensures FlagIs(pairs, "include_anonymous", q.includeAnonymous, ApplyPairs(q, pairs).includeAnonymous)
    ensures FlagIs(pairs, "include_temporary", q.includeTemporary, ApplyPairs(q, pairs).includeTemporary)
    ensures FlagIs(pairs, "include_new_pages", q.includeNewPages, ApplyPairs(q, pairs).includeNewPages)
  {
    hide ApplyPair, ParseBool, FlagIs;
    forall x: Query, k: string, v: string
      ensures ApplyPair(x, k, v).includeAnonymous ==
              if k == "include_anonymous" then ParseBool(v) else x.includeAnonymous
      ensures ApplyPair(x, k, v).includeTemporary ==
              if k == "include_temporary" then ParseBool(v) else x.includeTemporary
      ensures ApplyPair(x, k, v).includeNewPages == if k == "include_new_pages" then ParseBool(v) else x.includeNewPages
    {
      FlagKeys(x, v);
      EditorsKept(x, k, v);
      NewcomersKept(x, k, v);
    }
    FlagDecides(q, pairs, "include_anonymous", (x: Query) => x.includeAnonymous);
    FlagDecides(q, pairs, "include_temporary", (x: Query) => x.includeTemporary);
    FlagDecides(q, pairs, "include_new_pages", (x: Query) => x.includeNewPages);
  }

  lemma ValuesDecide(q: Query, pairs: seq<Pair>)
    ensures var ns := LastValue(pairs, "namespaces");
            ApplyPairs(q, pairs).namespaces == if ns.Some? then ParseNamespaces(ns.value) else q.namespaces
    ensures var score := LastValue(pairs, "min_score");
            ApplyPairs(q, pairs).minScore ==
            if score.Some? then ParseInt(score.value, I32_MIN, I32_MAX) else q.minScore
    ensures TextIs(pairs, "tag_filter", q.tagFilter, ApplyPairs(q, pairs).tagFilter)
    ensures TextIs(pairs, "rccontinue", q.rccontinue, ApplyPairs(q, pairs).rccontinue)
  {
    hide ApplyPair, ParseInt, ParseNamespaces, NormalizedText, TextIs;
    forall x: Query, k: string, v: string
      ensures ApplyPair(x, k, v).namespaces == if k == "namespaces" then ParseNamespaces(v) else x.namespaces
      ensures ApplyPair(x, k, v).minScore == if k == "min_score" then ParseInt(v, I32_MIN, I32_MAX) else x.minScore
      ensures ApplyPair(x, k, v).tagFilter == if k == "tag_filter" then NormalizedText(Some(v)) else x.tagFilter
      ensures ApplyPair(x, k, v).rccontinue == if k == "rccontinue" then NormalizedText(Some(v)) else x.rccontinue
    {
      ValueKeys(x, v);
      ValuesKept(x, k, v);
    }
    LastDecides<seq<i32>>(q, pairs, "namespaces", (x: Query) => x.namespaces, ParseNamespaces);
    LastDecides<Option<int>>(q, pairs, "min_score", (x: Query) => x.minScore, v => ParseInt(v, I32_MIN, I32_MAX));
    TextDecides(q, pairs, "tag_filter", (x: Query) => x.tagFilter);
    TextDecides(q, pairs, "rccontinue", (x: Query) => x.rccontinue);
  }

  /** The fold sets every field by the last pair with its key: earlier pairs, pairs with other keys and limits that
      cannot be read make no difference. */
  lemma LastPairDecides(q: Query, pairs: seq<Pair>)
    ensures SetByLast(q, pairs, ApplyPairs(q, pairs))
  {
    hide ApplyPairs, ParseInt, ParseNamespaces, FlagIs, TextIs, LastValue, LastLimit;
    LimitDecides(q, pairs);
    FlagsDecide(q, pairs);
    KindsDecide(q, pairs);
    ValuesDecide(q, pairs);
  }

  function Unless(absent: bool, key: string, value: string): seq<Pair>
  {
    if absent then [] else [(key, value)]
  }

  /** The limit and the flags, in printing order; a flag at its expected value is not printed. */
  function FlagPairs(q: Query): seq<Pair>
  {
    [("limit", PrintInt(q.limit))]
    + Unless(!q.includeBots, "include_bots", "true")
    + Unless(!q.unpatrolledOnly, "unpatrolled_only", "true")
    + Unless(q.includeMinor, "include_minor", "false")
    + Unless(q.includeRegistered, "include_registered", "false")
    + Unless(q.includeAnonymous, "include_anonymous", "false")
    + Unless(q.includeTemporary, "include_temporary", "false")
    + Unless(q.includeNewPages, "include_new_pages", "false")
  }

  function EncodedNormal(q: Query): seq<Pair>
  {
    FlagPairs(q)
    + Unless(q.namespaces == [], "namespaces", Join(PrintAll(q.namespaces)))
    + Unless(q.minScore.None?, "min_score", PrintInt(if q.minScore.Some? then q.minScore.value else 0))
    + Unless(q.tagFilter.None?, "tag_filter", if q.tagFilter.Some? then q.tagFilter.value else "")
    + Unless(q.rccontinue.None?, "rccontinue", if q.rccontinue.Some? then q.rccontinue.value else "")
  }

  function Encoded(q: Query): seq<Pair>
  {
    EncodedNormal(Normalized(q))
  }

  /** Printing the limit and the flags, one push at a time. */
  method PushFlags(query: Query) returns (pairs: seq<Pair>)
    ensures pairs == FlagPairs(query)
  {
    hide PrintInt;
    pairs := [("limit", PrintInt(query.limit))];
    ghost var spec := pairs;
    if query.includeBots {
      pairs := pairs + [("include_bots", "true")];
    }
    spec := spec + Unless(!query.includeBots, "include_bots", "true");
    assert pairs == spec;
    if query.unpatrolledOnly {
      pairs := pairs + [("unpatrolled_only", "true")];
    }
    spec := spec + Unless(!query.unpatrolledOnly, "unpatrolled_only", "true");
    assert pairs == spec;
    if !query.includeMinor {
      pairs := pairs + [("include_minor", "false")];
    }
    spec := spec + Unless(query.includeMinor, "include_minor", "false");
    assert pairs == spec;
    if !query.includeRegistered {
      pairs := pairs + [("include_registered", "false")];
    }
    spec := spec + Unless(query.includeRegistered, "include_registered", "false");
    assert pairs == spec;
    if !query.includeAnonymous {
      pairs := pairs + [("include_anonymous", "false")];
    }
    spec := spec + Unless(query.includeAnonymous, "include_anonymous", "false");
    assert pairs == spec;
    if !query.includeTemporary {
      pairs := pairs + [("include_temporary", "false")];
    }
    spec := spec + Unless(query.includeTemporary, "include_temporary", "false");
    assert pairs == spec;
    if !query.includeNewPages {
      pairs := pairs + [("include_new_pages", "false")];
    }
    spec := spec + Unless(query.includeNewPages, "include_new_pages", "false");
    assert pairs == spec;
    assert spec == FlagPairs(query);
  }

  /** `to_query_pairs`. */
  method ToQueryPairs(self: Query) returns (pairs: seq<Pair>)
    ensures pairs == Encoded(self)
  {
    hide PrintInt, PrintAll, Join, Normalized, FlagPairs;
    var query := Normalized(self);
    pairs := PushFlags(query);
    ghost var spec := pairs;
    if query.namespaces != [] {
      pairs := pairs + [("namespaces", Join(PrintAll(query.namespaces)))];
    }
    spec := spec + Unless(query.namespaces == [], "namespaces", Join(PrintAll(query.namespaces)));
    assert pairs == spec;
    if query.minScore.Some? {
      pairs := pairs + [("min_score", PrintInt(query.minScore.value))];
    }
    spec := spec + Unless(query.minScore.None?, "min_score",
                         PrintInt(if query.minScore.Some? then query.minScore.value else 0));
    assert pairs == spec;
    if query.tagFilter.Some? {
      pairs := pairs + [("tag_filter", query.tagFilter.value)];
    }
    spec := spec + Unless(query.tagFilter.None?, "tag_filter",
                         if query.tagFilter.Some? then query.tagFilter.value else "");
    assert pairs == spec;
    if query.rccontinue.Some? {
      pairs := pairs + [("rccontinue", query.rccontinue.value)];
    }
    spec := spec + Unless(query.rccontinue.None?, "rccontinue",
                         if query.rccontinue.Some? then query.rccontinue.value else "");
    assert pairs == spec;
  }

  // ---------------------------------------------------------------------------
  // The exact codec theorem.

  lemma BoolTexts()
    ensures ParseBool("true") && !ParseBool("false")
  {
    assert IsTrimmed("true") && IsTrimmed("false");
    TrimFixesTrimmed("true");
    TrimFixesTrimmed("false");
  }

  lemma ApplyLast(q: Query, pairs: seq<Pair>, absent: bool, key: string, value: string)
    ensures ApplyPairs(q, pairs + Unless(absent, key, value))
         == if absent then ApplyPairs(q, pairs) else ApplyPair(ApplyPairs(q, pairs), key, value)
  {
    if absent {
      assert pairs + [] == pairs;
    } else {
      assert (pairs + [(key, value)])[..|pairs|] == pairs;
    }
  }

  lemma LimitDecodes(limit: u16)
    ensures ApplyPairs(DEFAULT, [("limit", PrintInt(limit))]) == DEFAULT.(limit := limit)
  {
    assert [("limit", PrintInt(limit))][..0] == [];
    ParseOfPrint(limit, 0, U16_MAX);
  }

  /** The printed limit and flags decode to themselves, except the two flags whose printed value is also
      their value by default. */
  lemma FlagsDecode(q: Query)
    ensures ApplyPairs(DEFAULT, FlagPairs(q)) == DEFAULT.(
              limit := q.limit, includeBots := q.includeBots, includeMinor := q.includeMinor,
              includeAnonymous := q.includeAnonymous, includeTemporary := q.includeTemporary,
              includeNewPages := q.includeNewPages)
  {
    hide ApplyPairs, PrintInt, Unless, ParseBool, ParseNamespaces, NormalizedText;
    KeysDiffer();
    BoolTexts();
    LimitDecodes(q.limit);
    var ps := [("limit", PrintInt(q.limit))];
    ApplyLast(DEFAULT, ps, !q.includeBots, "include_bots", "true");
    ps := ps + Unless(!q.includeBots, "include_bots", "true");
    ApplyLast(DEFAULT, ps, !q.unpatrolledOnly, "unpatrolled_only", "true");
    ps := ps + Unless(!q.unpatrolledOnly, "unpatrolled_only", "true");
    ApplyLast(DEFAULT, ps, q.includeMinor, "include_minor", "false");
    ps := ps + Unless(q.includeMinor, "include_minor", "false");
    ApplyLast(DEFAULT, ps, q.includeRegistered, "include_registered", "false");
    ps := ps + Unless(q.includeRegistered, "include_registered", "false");
    ApplyLast(DEFAULT, ps, q.includeAnonymous, "include_anonymous", "false");
    ps := ps + Unless(q.includeAnonymous, "include_anonymous", "false");
    ApplyLast(DEFAULT, ps, q.includeTemporary, "include_temporary", "false");
    ps := ps + Unless(q.includeTemporary, "include_temporary", "false");
    ApplyLast(DEFAULT, ps, q.includeNewPages, "include_new_pages", "false");
  }

  /** The query the pairs of `q` decode to. */
  function Shared(q: Query): Query
  {
    Normalized(q).(unpatrolledOnly := true, includeRegistered := false)
  }

  /** The list and number fields decode on top of anything decoded before. */
  lemma NumbersDecode(q: Query, ps: seq<Pair>, base: Query)
    requires StrictlyAscending(q.namespaces) && ApplyPairs(DEFAULT, ps) == base
    requires base.namespaces == [] && base.minScore == None
    ensures ApplyPairs(DEFAULT, ps
              + Unless(q.namespaces == [], "namespaces", Join(PrintAll(q.namespaces)))
              + Unless(q.minScore.None?, "min_score", PrintInt(if q.minScore.Some? then q.minScore.value else 0)))
         == base.(namespaces := q.namespaces, minScore := q.minScore)
  {
    hide ApplyPairs, PrintInt, PrintAll, Join, Unless, ParseBool, ParseNamespaces, NormalizedText, ParseInt;
    var list := Join(PrintAll(q.namespaces));
    if q.namespaces != [] {
      NamespacesRoundTrip(q.namespaces);
    }
    ApplyLast(DEFAULT, ps, q.namespaces == [], "namespaces", list);
    var score := if q.minScore.Some? then q.minScore.value else 0;
    ParseOfPrint(score, I32_MIN, I32_MAX);
    ApplyLast(DEFAULT, ps + Unless(q.namespaces == [], "namespaces", list), q.minScore.None?, "min_score",
        PrintInt(score));
  }

  lemma TextsDecode(q: Query, ps: seq<Pair>, base: Query)
    requires NormalizedText(q.tagFilter) == q.tagFilter && NormalizedText(q.rccontinue) == q.rccontinue
    requires ApplyPairs(DEFAULT, ps) == base && base.tagFilter == None && base.rccontinue == None
    ensures ApplyPairs(DEFAULT, ps
              + Unless(q.tagFilter.None?, "tag_filter", if q.tagFilter.Some? then q.tagFilter.value else "")
              + Unless(q.rccontinue.None?, "rccontinue", if q.rccontinue.Some? then q.rccontinue.value else ""))
         == base.(tagFilter := q.tagFilter, rccontinue := q.rccontinue)
  {
    hide ApplyPairs, Unless, ParseBool, ParseNamespaces, NormalizedText, ParseInt;
    KeysDiffer();
    var tag := if q.tagFilter.Some? then q.tagFilter.value else "";
    ApplyLast(DEFAULT, ps, q.tagFilter.None?, "tag_filter", tag);
    var token := if q.rccontinue.Some? then q.rccontinue.value else "";
    ApplyLast(DEFAULT, ps + Unless(q.tagFilter.None?, "tag_filter", tag), q.rccontinue.None?, "rccontinue", token);
  }

  lemma NormalQueryDecodes(q: Query)
    requires Normalized(q) == q
    ensures ApplyPairs(DEFAULT, EncodedNormal(q)) == q.(unpatrolledOnly := true, includeRegistered := false)
  {
    hide ApplyPairs, FlagPairs, PrintInt, PrintAll, Join, Unless, NormalizedText, SortDedup;
    SortDedupCanonical(q.namespaces);
    FlagsDecode(q);
    var base := ApplyPairs(DEFAULT, FlagPairs(q));
    NumbersDecode(q, FlagPairs(q), base);
    TextsDecode(q,
      FlagPairs(q)
      + Unless(q.namespaces == [], "namespaces", Join(PrintAll(q.namespaces)))
      + Unless(q.minScore.None?, "min_score", PrintInt(if q.minScore.Some? then q.minScore.value else 0)),
      base.(namespaces := q.namespaces, minScore := q.minScore));
  }

  /** Decoding the pairs of any query gives the normalized query with `unpatrolled_only` on and
      `include_registered` off: the pairs cannot say otherwise. */
  lemma CodecExactly(q: Query)
    ensures Decoded(Encoded(q)) == Shared(q)
    ensures NormalFormOf(q.(unpatrolledOnly := true, includeRegistered := false), Decoded(Encoded(q)))
  {
    hide ApplyPairs, EncodedNormal, SortDedup, NormalizedText, NormalFormOf;
    NormalizedExactly(q.(unpatrolledOnly := true, includeRegistered := false));
    NormalizedTwice(q);
    NormalQueryDecodes(Normalized(q));
    NormalizedTwice(Normalized(q));
  }

  /** So a query survives the round trip exactly when it is in normal form and has those two flag values. */
  lemma RoundTripIff(q: Query)
    ensures Decoded(Encoded(q)) == q <==> IsNormal(q) && q.unpatrolledOnly && !q.includeRegistered
  {
    hide Decoded, Encoded, SortDedup, NormalizedText, NormalFormOf, IsNormal;
    CodecExactly(q);
    NormalizedExactly(q);
    NormalizedTwice(q);
  }

  /** A second round trip changes nothing more. */
  lemma RoundTripTwice(q: Query)
    ensures Decoded(Encoded(Decoded(Encoded(q)))) == Decoded(Encoded(q))
  {
    hide Decoded, Encoded, SortDedup, NormalizedText, NormalFormOf, IsNormal;
    CodecExactly(q);
    CodecExactly(Shared(q));
    NormalizedTwice(q);
  }

  predicate UsesDefaultFilters(q: Query)
  {
    var n := Normalized(q);
    n == DEFAULT
  }

  predicate CanUseSupervisorSnapshot(q: Query)
  {
    var n := Normalized(q);
    n.rccontinue.None? && !n.includeBots && !n.unpatrolledOnly && n.includeMinor && n.includeAnonymous
    && n.includeRegistered && n.includeTemporary && n.includeNewPages && n.tagFilter.None?
    && n.namespaces == [] && n.minScore.None?
  }

  /** No query that may use the supervisor snapshot is still one after a round trip, and every snapshot
      query at the default limit turns into the default filters instead. */
  lemma SnapshotQueriesDoNotSurvive(q: Query)
    requires CanUseSupervisorSnapshot(q)
    ensures Decoded(Encoded(q)) != Normalized(q) && !CanUseSupervisorSnapshot(Decoded(Encoded(q)))
    ensures UsesDefaultFilters(Decoded(Encoded(q))) <==> Normalized(q).limit == DEFAULT_LIMIT
  {
    hide Decoded, Encoded, SortDedup, NormalizedText, NormalFormOf;
    CodecExactly(q);
    NormalizedTwice(q);
  }

  // ---------------------------------------------------------------------------
  // The queue filter.

  datatype EditorKind = Registered | Anonymous | Temporary

  datatype QueuedEdit = QueuedEdit(
    score: i32, performer: EditorKind, isBot: bool, isMinor: bool, isNewPage: bool, isPatrolled: bool,
    namespace: i32, tags: seq<string>)

  /** `live_operator_query_matches`. */
  predicate Matches(item: QueuedEdit, q: Query)
  {
    if q.minScore.Some? && item.score < q.minScore.value then false
    else if !q.includeRegistered && item.performer.Registered? then false
    else if !q.includeTemporary && item.performer.Temporary? then false
    else if !q.includeAnonymous && item.performer.Anonymous? then false
    else if !q.includeBots && item.isBot then false
    else if !q.includeMinor && item.isMinor then false
    else if !q.includeNewPages && item.isNewPage then false
    else if q.unpatrolledOnly && item.isPatrolled then false
    else if q.namespaces != [] && item.namespace !in q.namespaces then false
    else if q.tagFilter.Some? && q.tagFilter.value !in item.tags then false
    else true
  }

  /** The edit is of every kind the query asks for: each clause names what can keep it out. */
  ghost predicate Shows(item: QueuedEdit, q: Query)
  {
    && (q.minScore.Some? ==> q.minScore.value <= item.score)
    && (match item.performer
        case Registered => q.includeRegistered
        case Anonymous => q.includeAnonymous
        case Temporary => q.includeTemporary)
    && (item.isBot ==> q.includeBots) && (item.isMinor ==> q.includeMinor) && (item.isNewPage ==> q.includeNewPages)
    && (item.isPatrolled ==> !q.unpatrolledOnly)
    && (q.namespaces == [] || item.namespace in q.namespaces)
    && (q.tagFilter.Some? && HasText(q.tagFilter.value) ==>
          exists tag :: tag in item.tags && TrimsTo(q.tagFilter.value, tag))
  }

  lemma TagMatches(item: QueuedEdit, tag: Option<string>)
    ensures (NormalizedText(tag).Some? ==> NormalizedText(tag).value in item.tags)
       <==> (tag.Some? && HasText(tag.value) ==> exists t :: t in item.tags && TrimsTo(tag.value, t))
  {
    hide HasText, TrimsTo, NormalizedText;
    NormalizedTextExactly(tag, NormalizedText(tag));
    NormalizedTextExactly(tag, None);
    if tag.Some? {
      forall t | t in item.tags && TrimsTo(tag.value, t) ensures NormalizedText(tag) == Some(t) {
        NormalizedTextExactly(tag, Some(t));
      }
    }
  }

  /** The filter lets through, of a query in any form, exactly the edits it shows. */
  lemma MatchesExactly(item: QueuedEdit, q: Query)
    ensures Matches(item, Normalized(q)) <==> Shows(item, q)
  {
    hide HasText, TrimsTo, NormalizedText, SortDedup;
    SortDedupCanonical(q.namespaces);
    SameEmptiness(q.namespaces, SortDedup(q.namespaces));
    TagMatches(item, q.tagFilter);
  }

  lemma SameEmptiness(ns: seq<i32>, ms: seq<i32>)
    requires forall x :: x in ms <==> x in ns
    ensures ns == [] <==> ms == []
  {
    assert ns != [] ==> ns[0] in ms;
    assert ms != [] ==> ms[0] in ns;
  }

  /** `filter_live_operator_queue`: the first matching edits, up to the limit. */
  function FilterQueue(queue: seq<QueuedEdit>, q: Query): seq<QueuedEdit>
  {
    var n := Normalized(q);
    TakeMatching(queue, n, n.limit)
  }

  function TakeMatching(queue: seq<QueuedEdit>, q: Query, limit: nat): (r: seq<QueuedEdit>)
    ensures |r| <= limit && forall i :: 0 <= i < |r| ==> r[i] in queue && Matches(r[i], q)
    ensures |r| < limit ==> forall item :: item in queue && Matches(item, q) ==> item in r
  {
    if queue == [] || limit == 0 then []
    else if Matches(queue[0], q) then [queue[0]] + TakeMatching(queue[1..], q, limit - 1)
    else TakeMatching(queue[1..], q, limit)
  }

  /** The positions from `from` on of the first `limit` matching edits. */
  function MatchPositions(queue: seq<QueuedEdit>, q: Query, from: nat, limit: nat): (at: seq<nat>)
    requires from <= |queue|
    ensures |at| <= limit && forall i :: 0 <= i < |at| ==> from <= at[i] < |queue|
    decreases |queue| - from
  {
    if from == |queue| || limit == 0 then []
    else if Matches(queue[from], q) then [from] + MatchPositions(queue, q, from + 1, limit - 1)
    else MatchPositions(queue, q, from + 1, limit)
  }

  lemma {:induction false} TakenAt(queue: seq<QueuedEdit>, q: Query, from: nat, limit: nat)
    requires from <= |queue|
    ensures var at, taken := MatchPositions(queue, q, from, limit), TakeMatching(queue[from..], q, limit);
            |at| == |taken| && forall i :: 0 <= i < |at| ==> taken[i] == queue[at[i]]
    decreases |queue| - from
  {
    hide Matches;
    if from < |queue| && limit > 0 {
      assert queue[from..][1..] == queue[from + 1..] && queue[from..][0] == queue[from];
      TakenAt(queue, q, from + 1, if Matches(queue[from], q) then limit - 1 else limit);
    }
  }

  predicate Increasing(at: seq<nat>)
  {
    forall i, j :: 0 <= i < j < |at| ==> at[i] < at[j]
  }

  lemma PrependSmaller(x: nat, rest: seq<nat>)
    requires Increasing(rest) && forall i :: 0 <= i < |rest| ==> x < rest[i]
    ensures Increasing([x] + rest)
  {
    var at := [x] + rest;
    assert forall j :: 0 < j < |at| ==> at[j] == rest[j - 1];
  }

  lemma {:induction false} PositionsIncrease(queue: seq<QueuedEdit>, q: Query, from: nat, limit: nat)
    requires from <= |queue|
    ensures Increasing(MatchPositions(queue, q, from, limit))
    decreases |queue| - from
  {
    if from < |queue| && limit > 0 {
      if Matches(queue[from], q) {
        PositionsIncrease(queue, q, from + 1, limit - 1);
        PrependSmaller(from, MatchPositions(queue, q, from + 1, limit - 1));
      } else {
        PositionsIncrease(queue, q, from + 1, limit);
      }
    }
    hide Matches, Increasing;
  }

  /** A matching edit at `p` is listed, unless the limit was reached before it. */
  lemma {:induction false} ListedOrCutOff(queue: seq<QueuedEdit>, q: Query, from: nat, limit: nat, p: nat)
    requires from <= p < |queue| && Matches(queue[p], q)
    ensures var at := MatchPositions(queue, q, from, limit);
            p in at || (|at| == limit && forall i :: 0 <= i < |at| ==> at[i] < p)
    decreases |queue| - from
  {
    hide Matches;
    if limit > 0 && from < p {
      ListedOrCutOff(queue, q, from + 1, if Matches(queue[from], q) then limit - 1 else limit, p);
    }
  }

  /** The filtered queue keeps the order of the queue, shows no edit twice, and leaves a matching edit out
      only when the limit was reached before it. */
  lemma FilteredInOrder(queue: seq<QueuedEdit>, q: Query) returns (at: seq<nat>)
    ensures |at| == |FilterQueue(queue, q)| <= 500
    ensures forall i :: 0 <= i < |at| ==>
              at[i] < |queue| && FilterQueue(queue, q)[i] == queue[at[i]] && Shows(queue[at[i]], q)
    ensures Increasing(at)
    ensures forall p :: 0 <= p < |queue| && Shows(queue[p], q) && p !in at ==>
              && |at| == (if q.limit == 0 then 1 else if q.limit > 500 then 500 else q.limit)
              && forall i :: 0 <= i < |at| ==> at[i] < p
  {
    hide Matches, Shows, TakeMatching, MatchPositions, SortDedup, NormalizedText, Increasing;
    var n := Normalized(q);
    at := MatchPositions(queue, n, 0, n.limit);
    assert queue[0..] == queue;
    TakenAt(queue, n, 0, n.limit);
    PositionsIncrease(queue, n, 0, n.limit);
    forall i | 0 <= i < |at| ensures Shows(queue[at[i]], q) {
      assert Matches(FilterQueue(queue, q)[i], n);
      MatchesExactly(queue[at[i]], q);
    }
    forall p | 0 <= p < |queue| && Shows(queue[p], q) && p !in at
      ensures |at| == n.limit && forall i :: 0 <= i < |at| ==> at[i] < p
    {
      MatchesExactly(queue[p], q);
      ListedOrCutOff(queue, n, 0, n.limit, p);
    }
  }

  /** A shared query hides exactly the registered editors and the patrolled edits of the original besides;
      it never shows an edit the original hides. */
  lemma SharedQueryNeverWidens(item: QueuedEdit, q: Query)
    ensures Shows(item, Decoded(Encoded(q))) <==> Shows(item, q) && !item.performer.Registered? && !item.isPatrolled
  {
    hide Decoded, Encoded, Normalized, NormalFormOf, Shows;
    CodecExactly(q);
    NormalizedTwice(q);
    MatchesExactly(item, q);
    MatchesExactly(item, Shared(q));
    SharedIsNormal(q);
  }

  lemma SharedIsNormal(q: Query)
    ensures Normalized(Shared(q)) == Shared(q)
  {
    hide SortDedup, NormalizedText;
    NormalizedTwice(q);
  }

  /** Duplicate or unordered namespaces make no difference to the filter. */
  lemma {:induction false} FilterIgnoresNamespaceOrder(queue: seq<QueuedEdit>, q: Query, limit: nat)
    ensures TakeMatching(queue, q, limit) == TakeMatching(queue, q.(namespaces := SortDedup(q.namespaces)), limit)
  {
    SortDedupCanonical(q.namespaces);
    hide SortDedup;
    if queue != [] && limit > 0 {
      SameEmptiness(q.namespaces, SortDedup(q.namespaces));
      assert Matches(queue[0], q) <==> Matches(queue[0], q.(namespaces := SortDedup(q.namespaces)));
      FilterIgnoresNamespaceOrder(queue[1..], q, limit);
      FilterIgnoresNamespaceOrder(queue[1..], q, limit - 1);
    }
  }
}
