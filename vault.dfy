// The vault as the suggester sees it, and getAllVaultLinks: every note title
// and every unresolved link target, without repetitions.
module Vault {
  import opened Wrappers
  import opened Seqs
  import opened Links
  import opened Frontmatter

  /** A markdown file of the vault: its basename and what the metadata cache
      holds for it (absent when the cache has no links or no frontmatter). */
  datatype VaultFile = VaultFile(basename: string, links: Option<seq<LinkRef>>, frontmatter: Option<Record>)

  /** The markdown files in `getMarkdownFiles()` order, and for each note with
      unresolved links the targets of those links (the keys of its entry in
      `metadataCache.unresolvedLinks`). */
  datatype Vault = Vault(files: seq<VaultFile>, unresolved: seq<seq<string>>)

  function Basenames(files: seq<VaultFile>): seq<string>
  {
    seq(|files|, i requires 0 <= i < |files| => files[i].basename)
  }

  /** The concatenation of the lists, in order. */
  function Flatten(ss: seq<seq<string>>): seq<string>
    decreases |ss|
  {
    if ss == [] then [] else Flatten(ss[..|ss| - 1]) + ss[|ss| - 1]
  }

  /** A string is in the flattened list exactly when it is in one of the lists. */
  lemma {:induction false} FlattenMembers(ss: seq<seq<string>>, x: string)
    ensures x in Flatten(ss) <==> exists j :: 0 <= j < |ss| && x in ss[j]
    decreases |ss|
  {
    if ss != [] {
      var init := ss[..|ss| - 1];
      FlattenMembers(init, x);
      if x in Flatten(init) {
        var j :| 0 <= j < |init| && x in init[j];
        assert ss[j] == init[j];
      }
      if exists j :: 0 <= j < |ss| && x in ss[j] {
        var j :| 0 <= j < |ss| && x in ss[j];
        if j < |ss| - 1 {
          assert ss[j] == init[j];
        }
      }
    }
  }

  /** `getAllVaultLinks()`: the basenames, then the unresolved targets, with
      repetitions removed in first-seen order. */
  method GetAllVaultLinks(vault: Vault) returns (uniq: seq<string>)
    ensures uniq == Dedup(Basenames(vault.files) + Flatten(vault.unresolved))
    ensures NoDup(uniq)
    ensures forall x :: x in uniq <==>
      (exists i :: 0 <= i < |vault.files| && vault.files[i].basename == x) ||
      (exists j :: 0 <= j < |vault.unresolved| && x in vault.unresolved[j])
  {
    var files := vault.files;
    var links: seq<string> := [];
    var i := 0;
    while i < |files|
      invariant 0 <= i <= |files|
      invariant links == Basenames(files[..i])
    {
      links := links + [files[i].basename];
      i := i + 1;
    }
    assert files[..|files|] == files;
    var unResLinks := vault.unresolved;
    var j := 0;
    while j < |unResLinks|
      invariant 0 <= j <= |unResLinks|
      invariant links == Basenames(files) + Flatten(unResLinks[..j])
    {
      var theValues := unResLinks[j];
      assert unResLinks[..j + 1][..j] == unResLinks[..j];
      if |theValues| > 0 {
        links := links + theValues;
      }
      j := j + 1;
    }
    assert unResLinks[..|unResLinks|] == unResLinks;
    uniq := Dedup(links);
    forall x ensures x in uniq <==>
      (exists i :: 0 <= i < |files| && files[i].basename == x) ||
      (exists j :: 0 <= j < |unResLinks| && x in unResLinks[j])
    {
      FlattenMembers(unResLinks, x);
      assert x in links <==> x in Basenames(files) || x in Flatten(unResLinks);
      if x in Basenames(files) {
        var i :| 0 <= i < |files| && Basenames(files)[i] == x;
      }
      if exists i :: 0 <= i < |files| && files[i].basename == x {
        var i :| 0 <= i < |files| && files[i].basename == x;
        assert Basenames(files)[i] == x;
      }
    }
  }
}
