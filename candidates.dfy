// The candidate list of getSuggestions and what is shown and inserted for a
// chosen candidate (renderSuggestion, selectSuggestion).
module Candidates {
  import opened Wrappers
  import opened Text
  import opened Seqs
  import opened Settings

  // ---------------------------------------------------------------------------
  // Sorting a pool by length

  /** The pool is ordered by non-decreasing length. */
  predicate SortedByLength(s: seq<string>)
  {
    forall i, j :: 0 <= i < j < |s| ==> |s[i]| <= |s[j]|
  }

  /** Places x before the first element at least as long. */
  function Insert(x: string, s: seq<string>): seq<string>
  {
    if s == [] || |x| <= |s[0]| then [x] + s else [s[0]] + Insert(x, s[1..])
  }

  /** `pool.sort((a, b) => a.length - b.length)`: a stable sort by length. */
  function SortByLength(s: seq<string>): seq<string>
  {
    if s == [] then [] else Insert(s[0], SortByLength(s[1..]))
  }

  /** The elements of a given length, in order. */
  function OfLength(s: seq<string>, n: nat): seq<string>
  {
    if s == [] then [] else (if |s[0]| == n then [s[0]] else []) + OfLength(s[1..], n)
  }

  lemma {:induction false} InsertPermutes(x: string, s: seq<string>)
    ensures multiset(Insert(x, s)) == multiset(s) + multiset{x}
    decreases |s|
  {
    if s != [] && |x| > |s[0]| {
      InsertPermutes(x, s[1..]);
      assert s == [s[0]] + s[1..];
    }
  }

  lemma {:induction false} InsertSorted(x: string, s: seq<string>)
    requires SortedByLength(s)
    ensures SortedByLength(Insert(x, s))
    decreases |s|
  {
    if s != [] && |x| > |s[0]| {
      InsertSorted(x, s[1..]);
      InsertPermutes(x, s[1..]);
      var r := Insert(x, s[1..]);
      forall k | 0 <= k < |r| ensures |s[0]| <= |r[k]| {
        assert r[k] in multiset(r);
        assert r[k] == x || r[k] in s[1..];
      }
    }
  }

  /** Inserting x passes only shorter elements, so among the elements of
      x's length it lands first, as it was. */
  lemma {:induction false} InsertStable(x: string, s: seq<string>, n: nat)
    ensures OfLength(Insert(x, s), n) == OfLength([x] + s, n)
    decreases |s|
  {
    if s != [] && |x| > |s[0]| {
      InsertStable(x, s[1..], n);
      var r := Insert(x, s[1..]);
      assert ([s[0]] + r)[1..] == r;
      assert ([x] + s)[1..] == s;
      assert ([x] + s[1..])[1..] == s[1..];
      assert s == [s[0]] + s[1..];
    }
  }

  /** Sorting by length orders the pool and keeps exactly its elements with
      their multiplicities. */
  lemma {:induction false} SortByLengthCorrect(s: seq<string>)
    ensures SortedByLength(SortByLength(s))
    ensures multiset(SortByLength(s)) == multiset(s)
    decreases |s|
  {
    if s != [] {
      var t := SortByLength(s[1..]);
      SortByLengthCorrect(s[1..]);
      InsertSorted(s[0], t);
      InsertPermutes(s[0], t);
      assert s == [s[0]] + s[1..];
    }
  }

  /** The sort is stable: the elements of each length keep their order. */
  lemma {:induction false} SortByLengthStable(s: seq<string>, n: nat)
    ensures OfLength(SortByLength(s), n) == OfLength(s, n)
    decreases |s|
  {
    if s != [] {
      var t := SortByLength(s[1..]);
      SortByLengthStable(s[1..], n);
      InsertStable(s[0], t, n);
      assert ([s[0]] + t)[1..] == t;
      assert ([s[0]] + s[1..])[1..] == s[1..];
      assert s == [s[0]] + s[1..];
    }
  }

  // ---------------------------------------------------------------------------
  // The pools a mode draws from

  predicate UsesFileLinks(mode: Mode) { mode != YamlComplete }

  predicate UsesYamlLinks(mode: Mode) { mode != Unset }

  predicate UsesVaultLinks(mode: Mode) { mode == All || mode == AllSemi }

  /** The pool after sorting, when the mode uses it; sorting happens in
      place, so the sorted pool is also the pool's new content. */
  function SortedIf(uses: bool, pool: seq<string>): seq<string>
  {
    if uses then SortByLength(pool) else pool
  }

  /** The candidates of a mode before de-duplication: the note's links, the
      related links and the vault titles, each sorted by length, in that
      order; `yaml-complete` offers only the values, an unset mode only the
      note's links. */
  function ModePool(mode: Mode, fileLinks: seq<string>, yamlLinks: seq<string>, vaultLinks: seq<string>): seq<string>
  {
    (if UsesFileLinks(mode) then SortByLength(fileLinks) else []) +
    (if UsesYamlLinks(mode) then SortByLength(yamlLinks) else []) +
    (if UsesVaultLinks(mode) then SortByLength(vaultLinks) else [])
  }

  /** A candidate is offered by a mode exactly when it is in a pool the mode uses. */
  lemma ModePoolMembers(mode: Mode, fileLinks: seq<string>, yamlLinks: seq<string>, vaultLinks: seq<string>, x: string)
    ensures x in ModePool(mode, fileLinks, yamlLinks, vaultLinks) <==>
      (UsesFileLinks(mode) && x in fileLinks) ||
      (UsesYamlLinks(mode) && x in yamlLinks) ||
      (UsesVaultLinks(mode) && x in vaultLinks)
  {
    SortByLengthCorrect(fileLinks);
    SortByLengthCorrect(yamlLinks);
    SortByLengthCorrect(vaultLinks);
    assert x in SortByLength(fileLinks) <==> x in multiset(SortByLength(fileLinks));
    assert x in SortByLength(yamlLinks) <==> x in multiset(SortByLength(yamlLinks));
    assert x in SortByLength(vaultLinks) <==> x in multiset(SortByLength(vaultLinks));
  }

  // ---------------------------------------------------------------------------
  // Matching the query

  /** A candidate matches when its lower-cased text, or that text without
      spaces, contains the lower-cased query. */
  predicate Matches(candidate: string, query: string)
  {
    Contains(Lower(candidate), Lower(query)) || Contains(RemoveSpaces(Lower(candidate)), Lower(query))
  }

  /** `pool.filter(link => Matches(link, query))` */
  function FilterMatching(pool: seq<string>, query: string): seq<string>
  {
    if pool == [] then []
    else (if Matches(pool[0], query) then [pool[0]] else []) + FilterMatching(pool[1..], query)
  }

  lemma {:induction false} FilterMatchingMembers(pool: seq<string>, query: string, x: string)
    ensures x in FilterMatching(pool, query) <==> x in pool && Matches(x, query)
    decreases |pool|
  {
    if pool != [] {
      FilterMatchingMembers(pool[1..], query, x);
      assert pool == [pool[0]] + pool[1..];
    }
  }

  lemma {:induction false} FilterMatchingNoDup(pool: seq<string>, query: string)
    requires NoDup(pool)
    ensures NoDup(FilterMatching(pool, query))
    decreases |pool|
  {
    if pool != [] {
      FilterMatchingNoDup(pool[1..], query);
      FilterMatchingMembers(pool[1..], query, pool[0]);
      var rest := FilterMatching(pool[1..], query);
      if Matches(pool[0], query) {
        assert FilterMatching(pool, query) == [pool[0]] + rest;
      }
    }
  }

  /** Filtering keeps the pool's order. */
  lemma {:induction false} FilterMatchingKeepsOrder(pool: seq<string>, query: string)
    ensures IsSubsequence(FilterMatching(pool, query), pool)
    decreases |pool|
  {
    if pool != [] {
      FilterMatchingKeepsOrder(pool[1..], query);
      var rest := FilterMatching(pool[1..], query);
      if Matches(pool[0], query) {
        assert FilterMatching(pool, query) == [pool[0]] + rest;
        assert ([pool[0]] + rest)[1..] == rest;
      } else {
        assert FilterMatching(pool, query) == rest;
      }
    }
  }

  /** The query is matched whatever the case of either side, and ignoring the
      spaces of the candidate. */
  lemma MatchesIgnoresCaseAndSpaces(candidate: string, query: string)
    requires RemoveSpaces(Lower(candidate)) == Lower(query) || Lower(candidate) == Lower(query)
    ensures Matches(candidate, query)
  {
    assert Lower(query) <= RemoveSpaces(Lower(candidate))[0..] || Lower(query) <= Lower(candidate)[0..];
  }

  /** Every candidate matches the empty query, and every candidate matches
      its own text. */
  lemma MatchesTrivially(candidate: string)
    ensures Matches(candidate, "")
    ensures Matches(candidate, candidate)
  {
    assert Lower(candidate) <= Lower(candidate)[0..];
    assert Lower("") <= Lower(candidate)[0..];
  }

  /** Two words typed together find the candidate that writes them with a
      space between, in any case: "hotreload" finds "Hot Reload". */
  lemma JoinedWordsMatch(w1: string, w2: string, query: string)
    requires ' ' !in w1 && ' ' !in w2 && Lower(query) == Lower(w1 + w2)
    ensures Matches(w1 + " " + w2, query)
  {
    var a, b := Lower(w1), Lower(w2);
    LowerSpacedWords(w1, w2);
    LowerKeepsSpaces(w1);
    LowerKeepsSpaces(w2);
    RemoveSpaceBetween(a, b);
    LowerAppend(w1, w2);
    var squeezed := RemoveSpaces(Lower(w1 + " " + w2));
    assert squeezed == Lower(query);
    assert Lower(query) <= squeezed[0..];
  }

  /** Lower-casing two words with a space between. */
  lemma LowerSpacedWords(w1: string, w2: string)
    ensures Lower(w1 + " " + w2) == Lower(w1) + " " + Lower(w2)
  {
    LowerAppend(w1 + " ", w2);
    LowerAppend(w1, " ");
    assert Lower(" ") == " ";
  }

  /** Removing the one space between two words without spaces joins them. */
  lemma RemoveSpaceBetween(a: string, b: string)
    requires ' ' !in a && ' ' !in b
    ensures RemoveSpaces(a + " " + b) == a + b
  {
    var sp: string := " ";
    assert sp[1..] == [] && sp[0] == ' ';
    assert RemoveSpaces(sp) == [];
    RemoveSpacesAppend(a, sp);
    assert RemoveSpaces(a + sp) == a;
    RemoveSpacesAppend(a + sp, b);
  }

  // ---------------------------------------------------------------------------
  // The suggestion list

  /** The list getSuggestions returns, or None (`null`) when it is empty:
      the pool without repetitions, filtered by the query except in
      `yaml-complete` mode, de-duplicated once more. */
  function Suggestions(mode: Mode, pool: seq<string>, query: string): Option<seq<string>>
  {
    var all := Dedup(pool);
    var matching := if mode == YamlComplete then all else FilterMatching(all, query);
    var finalItems := Dedup(matching);
    if |finalItems| > 0 then Some(finalItems) else None
  }

  /** The suggestions hold no repetition, keep the order of the pool's first
      occurrences, and are exactly the pool's candidates that match the query
      (all of them in `yaml-complete` mode); there are none exactly when no
      candidate qualifies. */
  lemma SuggestionsCorrect(mode: Mode, pool: seq<string>, query: string, x: string)
    ensures var r := Suggestions(mode, pool, query);
      (r.Some? ==> NoDup(r.value) && |r.value| <= |pool| && IsSubsequence(r.value, Dedup(pool))) &&
      (r.Some? && x in r.value <==> x in pool && (mode == YamlComplete || Matches(x, query))) &&
      (r.None? ==> forall y :: y in pool ==> mode != YamlComplete && !Matches(y, query))
  {
    var all := Dedup(pool);
    FilterMatchingMembers(all, query, x);
    forall y | y in pool && (mode == YamlComplete || Matches(y, query))
      ensures Suggestions(mode, pool, query).Some?
    {
      FilterMatchingMembers(all, query, y);
    }
    if mode != YamlComplete {
      FilterMatchingLength(all, query);
      FilterMatchingKeepsOrder(all, query);
    } else {
      IsSubsequenceOfItself(all);
    }
    SecondDedupChangesNothing(mode, pool, query);
  }

  lemma {:induction false} FilterMatchingLength(pool: seq<string>, query: string)
    ensures |FilterMatching(pool, query)| <= |pool|
    decreases |pool|
  {
    if pool != [] {
      FilterMatchingLength(pool[1..], query);
    }
  }

  /** The final de-duplication changes nothing: filtering a list without
      repetitions leaves none. */
  lemma SecondDedupChangesNothing(mode: Mode, pool: seq<string>, query: string)
    ensures var all := Dedup(pool);
      var matching := if mode == YamlComplete then all else FilterMatching(all, query);
      Dedup(matching) == matching
  {
    var all := Dedup(pool);
    FilterMatchingNoDup(all, query);
    DedupOfNoDup(all);
    DedupOfNoDup(FilterMatching(all, query));
  }

  // ---------------------------------------------------------------------------
  // Rendering and inserting a candidate

  /** `renderSuggestion`: the text after the first bar of an alias entry,
      otherwise the value itself. */
  function Label(value: string): string
  {
    var parts := Split(value, '|');
    if |parts| > 1 then parts[1] else value
  }

  /** A value without a bar is shown as it is; an alias entry
      `target|alias` is shown as its alias. */
  lemma LabelShowsAlias(target: string, alias: string)
    requires '|' !in target && '|' !in alias
    ensures Label(target) == target
    ensures Label(target + "|" + alias) == alias
  {
    SplitWithoutSeparator(target, '|');
    SplitAtSeparator(target, alias, '|');
  }

  /** `selectSuggestion`'s inserted text: the value as a wiki link, with a
      space after it when the space trigger opened the session. */
  function FormatLink(cfg: Config, trigCharMatch: string, value: string): string
  {
    var prim := PrimaryTrigger(cfg);
    if prim == " " && (trigCharMatch == prim || trigCharMatch == prim + AllLinksTrigger)
    then "[[" + value + "]] " else "[[" + value + "]]"
  }

  /** Reading a wiki link back: drops one trailing space and the brackets. */
  function LinkTarget(link: string): string
  {
    var t := if |link| > 0 && link[|link| - 1] == ' ' then link[..|link| - 1] else link;
    if |t| >= 4 then t[2..|t| - 2] else t
  }

  /** The inserted text is a wiki link to exactly the chosen value, followed
      by a space precisely when auto space is on and the space trigger (alone
      or with the comma) opened the session. */
  lemma FormatLinkRoundTrip(cfg: Config, trigCharMatch: string, value: string)
    ensures var link := FormatLink(cfg, trigCharMatch, value);
      var spaced := cfg.autoSpace && (trigCharMatch == " " || trigCharMatch == " ,");
      link == "[[" + value + "]]" + (if spaced then " " else "") &&
      LinkTarget(link) == value &&
      (link[|link| - 1] == ' ' <==> spaced)
  {
  }
}
