// The link extractor: addlink and getLinksFromFile turn a note's cached link
// references into the de-duplicated strings offered as suggestions.
module Links {
  import opened Wrappers
  import opened Seqs

  /** A cached link of a note: its target and the optional text shown for it. */
  datatype LinkRef = LinkRef(link: string, displayText: Option<string>)

  /** `addlink(linkArr, myLink)`: whether myLink should be pushed, i.e. the
      array is absent or does not include it yet. */
  function AddLink(linkArr: Option<seq<string>>, myLink: string): bool
  {
    match linkArr
    case None => true
    case Some(arr) => myLink !in arr
  }

  /** The guarded push `if (addlink(arr, x)) arr.push(x)`. */
  function PushNew(acc: seq<string>, x: string): seq<string>
  {
    if AddLink(Some(acc), x) then acc + [x] else acc
  }

  /** The guarded push adds x exactly when it is missing, at the end, so a
      list without repetitions stays without repetitions. */
  lemma PushNewAddsOnce(acc: seq<string>, x: string)
    ensures var r := PushNew(acc, x);
      acc <= r && x in r &&
      (r == acc <==> x in acc) &&
      (forall y :: y in r <==> y in acc || y == x) &&
      (NoDup(acc) ==> NoDup(r))
  {
  }

  /** The display text is present and non-empty (truthy). */
  predicate HasDisplayText(r: LinkRef)
  {
    r.displayText.Some? && r.displayText.value != ""
  }

  /** The reference carries an alias worth offering: a non-empty display text
      that differs from the target. */
  predicate HasAlias(r: LinkRef)
  {
    HasDisplayText(r) && r.displayText.value != r.link
  }

  function AliasLink(r: LinkRef): string
    requires HasAlias(r)
  {
    r.link + "|" + r.displayText.value
  }

  /** What one reference contributes to the list built so far. */
  function AddRef(acc: seq<string>, r: LinkRef): seq<string>
  {
    if HasDisplayText(r) then
      if r.displayText.value == r.link then PushNew(acc, r.link)
      else PushNew(PushNew(acc, r.link), r.link + "|" + r.displayText.value)
    else PushNew(acc, r.link)
  }

  /** The list getLinksFromFile builds from the references, in order. */
  function ExtractLinks(refs: seq<LinkRef>): seq<string>
    decreases |refs|
  {
    if refs == [] then [] else AddRef(ExtractLinks(refs[..|refs| - 1]), refs[|refs| - 1])
  }

  /** The strings a single reference may contribute. */
  predicate Emits(r: LinkRef, x: string)
  {
    x == r.link || (HasAlias(r) && x == AliasLink(r))
  }

  /** `getLinksFromFile(plugin, file, allLinks)`: when no link array is passed,
      the file's cached links are used; without links the result is empty. */
  method GetLinksFromFile(cachedLinks: Option<seq<LinkRef>>, allLinks: Option<seq<LinkRef>>)
    returns (myLinks: seq<string>)
    ensures var used := if allLinks.Some? then allLinks else cachedLinks;
      myLinks == if used.Some? then ExtractLinks(used.value) else []
  {
    var links := allLinks;
    if links.None? {
      links := cachedLinks;
    }
    if links.Some? {
      var refs := links.value;
      myLinks := [];
      var i := 0;
      while i < |refs|
        invariant 0 <= i <= |refs|
        invariant myLinks == ExtractLinks(refs[..i])
      {
        var each := refs[i];
        if each.displayText.Some? && each.displayText.value != "" {
          if each.displayText.value == each.link {
            if AddLink(Some(myLinks), each.link) { myLinks := myLinks + [each.link]; }
          } else {
            if AddLink(Some(myLinks), each.link) { myLinks := myLinks + [each.link]; }
            var aliasLink := each.link + "|" + each.displayText.value;
            if AddLink(Some(myLinks), aliasLink) { myLinks := myLinks + [aliasLink]; }
          }
        } else {
          if AddLink(Some(myLinks), each.link) { myLinks := myLinks + [each.link]; }
        }
        assert refs[..i + 1][..i] == refs[..i];
        i := i + 1;
      }
      assert refs[..|refs|] == refs;
    } else {
      myLinks := [];
    }
  }

  /** The extracted list never holds the same string twice. */
  lemma {:induction false} ExtractLinksNoDup(refs: seq<LinkRef>)
    ensures NoDup(ExtractLinks(refs))
    decreases |refs|
  {
    if refs != [] {
      ExtractLinksNoDup(refs[..|refs| - 1]);
    }
  }

  /** A string is extracted exactly when some reference emits it: its target,
      or `target|displayText` for a reference with an alias. */
  lemma {:induction false} ExtractLinksMembers(refs: seq<LinkRef>, x: string)
    ensures x in ExtractLinks(refs) <==> exists i :: 0 <= i < |refs| && Emits(refs[i], x)
    decreases |refs|
  {
    if refs != [] {
      var init := refs[..|refs| - 1];
      ExtractLinksMembers(init, x);
      if x in ExtractLinks(refs) && x !in ExtractLinks(init) {
        assert Emits(refs[|refs| - 1], x);
      }
      if x !in ExtractLinks(refs) {
        forall i | 0 <= i < |refs| ensures !Emits(refs[i], x) {
          if i < |refs| - 1 {
            assert refs[i] == init[i];
          }
        }
      }
    }
  }

  /** Splitting `a|b` at its first bar recovers a when a has no bar. */
  lemma PipeSplitUnique(a: string, b: string, c: string, d: string)
    requires '|' !in a && '|' !in c
    requires a + "|" + b == c + "|" + d
    ensures a == c
  {
    var s := a + "|" + b;
    assert s[..|a|] == a && s[|a|] == '|';
    assert s[..|c|] == c && s[|c|] == '|';
    FirstIndexIs(s, '|', |a|);
    FirstIndexIs(s, '|', |c|);
  }

  /** When link targets contain no bar (the alias separator), the target is
      always emitted before its `target|displayText` entry. */
  lemma {:induction false} LinkPrecedesAlias(refs: seq<LinkRef>)
    requires forall i :: 0 <= i < |refs| ==> '|' !in refs[i].link
    ensures var out := ExtractLinks(refs);
      forall i, q :: 0 <= i < |refs| && 0 <= q < |out| && HasAlias(refs[i]) && out[q] == AliasLink(refs[i])
        ==> refs[i].link in out[..q]
    decreases |refs|
  {
    if refs != [] {
      var init := refs[..|refs| - 1];
      var r := refs[|refs| - 1];
      var acc := ExtractLinks(init);
      var out := ExtractLinks(refs);
      LinkPrecedesAlias(init);
      var acc1 := PushNew(acc, r.link);
      assert out == AddRef(acc, r);
      assert acc <= acc1 <= out && r.link in acc1;
      forall i, q | 0 <= i < |refs| && 0 <= q < |out| && HasAlias(refs[i]) && out[q] == AliasLink(refs[i])
        ensures refs[i].link in out[..q]
      {
        var a := refs[i];
        if q < |acc| {
          // The entry was already there: it was emitted by an earlier reference j.
          assert acc[q] == out[q];
          ExtractLinksMembers(init, out[q]);
          var j :| 0 <= j < |init| && Emits(init[j], out[q]);
          assert init[j] == refs[j];
          assert '|' in AliasLink(a);
          PipeSplitUnique(a.link, a.displayText.value, init[j].link, init[j].displayText.value);
          assert acc[..q] == out[..q];
        } else {
          // A new entry: it can only be r's alias, pushed after r's target.
          assert '|' in AliasLink(a);
          assert out[q] != r.link;
          assert HasAlias(r) && out[q] == AliasLink(r) && q >= |acc1|;
          PipeSplitUnique(a.link, a.displayText.value, r.link, r.displayText.value);
          assert acc1 <= out[..q];
        }
      }
    }
  }
}
