// The related-frontmatter resolver, findLinksRelatedYamlKeyValue: the
// field-value index built from every other note's frontmatter, and the links
// of notes that share an eligible field value with the active note.
module Related {
  import opened Wrappers
  import opened Text
  import opened Seqs
  import opened Frontmatter
  import opened Links
  import opened Vault

  /** The active note's keys that take part in relation matching. */
  const IncludeKeys: seq<string> := ["company", "related", "test", "projectId", "clientId", "description"]

  /** What the resolver returns: the related links, and the field-value index
      (absent when the active note has no frontmatter). */
  datatype RelatedYamlLinks = RelatedYamlLinks(links: seq<string>, yamlKeyValues: Option<ValueIndex>)

  // ---------------------------------------------------------------------------
  // The field-value index

  /** Pushing every value that the list does not include yet, in order. */
  function MergeValues(cur: seq<Scalar>, vals: seq<Scalar>): seq<Scalar>
    decreases |vals|
  {
    if vals == [] then cur
    else
      var m := MergeValues(cur, vals[..|vals| - 1]);
      var x := vals[|vals| - 1];
      if x in m then m else m + [x]
  }

  /** One key of another note's frontmatter entering the index: `position`
      and falsy values are skipped; a non-empty entry is extended with the new
      values, otherwise the entry becomes the value's array as it is. */
  function AddKey(m: ValueIndex, key: string, v: Value): ValueIndex
  {
    if key == "position" || !ValueTruthy(v) then m
    else
      var arr := ConvertToArray(v);
      if key in m && |m[key]| > 0 then m[key := MergeValues(m[key], arr)] else m[key := arr]
  }

  /** The keys of one frontmatter record entering the index, in order. */
  function AddKeys(m: ValueIndex, fm: Record, keys: seq<string>): ValueIndex
    decreases |keys|
  {
    if keys == [] then m
    else
      var k := keys[|keys| - 1];
      AddKey(AddKeys(m, fm, keys[..|keys| - 1]), k, Lookup(fm, k))
  }

  /** A note other than the active one that has frontmatter (`active` is the
      position of the active note among the files). */
  predicate IsYamlFile(files: seq<VaultFile>, active: int, i: int)
    requires 0 <= i < |files|
  {
    i != active && files[i].frontmatter.Some?
  }

  /** The index built by the first pass over all files. */
  function BuildIndex(files: seq<VaultFile>, active: int): ValueIndex
    decreases |files|
  {
    if files == [] then map[]
    else
      var m := BuildIndex(files[..|files| - 1], active);
      var f := files[|files| - 1];
      if IsYamlFile(files, active, |files| - 1) then AddKeys(m, f.frontmatter.value, Keys(f.frontmatter.value)) else m
  }

  /** The `yamlFiles` list gathered by the same pass. */
  function YamlFiles(files: seq<VaultFile>, active: int): seq<VaultFile>
    decreases |files|
  {
    if files == [] then []
    else
      var init := YamlFiles(files[..|files| - 1], active);
      if IsYamlFile(files, active, |files| - 1) then init + [files[|files| - 1]] else init
  }

  // ---------------------------------------------------------------------------
  // Relation matching

  predicate IsIncludedKey(key: string)
  {
    exists inc :: inc in IncludeKeys && IsMatchAnyCase(key, inc)
  }

  /** The active note's keys that match an include key (`matchedKeys`). */
  function MatchedKeys(keys: seq<string>): seq<string>
    decreases |keys|
  {
    if keys == [] then []
    else
      var init := MatchedKeys(keys[..|keys| - 1]);
      var k := keys[|keys| - 1];
      if IsIncludedKey(k) then init + [k] else init
  }

  /** The value x matches one of the first n values of the list. */
  predicate MatchesAmong(x: Scalar, vals: seq<Scalar>, n: int)
    requires 0 <= n <= |vals|
  {
    exists j :: 0 <= j < n && IsMatchAnyCase(ScalarToString(x), ScalarToString(vals[j]))
  }

  /** One of the first n values of the first list matches a value of the
      second. */
  predicate SomeValueMatches(actVals: seq<Scalar>, fileVals: seq<Scalar>, n: int)
    requires 0 <= n <= |actVals|
  {
    exists i :: 0 <= i < n && MatchesAmong(actVals[i], fileVals, |fileVals|)
  }

  /** Some value of the first list matches some value of the second. */
  predicate ValuesMatch(actVals: seq<Scalar>, fileVals: seq<Scalar>)
  {
    SomeValueMatches(actVals, fileVals, |actVals|)
  }

  /** A key of the other note matches an eligible key of the active note, and
      their values share a match. */
  predicate KeysMatch(activeFm: Record, fileFm: Record, fileKey: string, matchKey: string)
  {
    IsMatchAnyCase(fileKey, matchKey) &&
    ValuesMatch(ConvertToArray(Lookup(activeFm, matchKey)), ConvertToArray(Lookup(fileFm, fileKey)))
  }

  /** The key matches one of the first n matched keys. */
  predicate KeyMatchesAmong(activeFm: Record, fileFm: Record, fileKey: string, matched: seq<string>, n: int)
    requires 0 <= n <= |matched|
  {
    exists b :: 0 <= b < n && KeysMatch(activeFm, fileFm, fileKey, matched[b])
  }

  /** One of the first n keys of the other note matches a matched key. */
  predicate SomeKeyMatches(activeFm: Record, matched: seq<string>, fileFm: Record, n: int)
    requires 0 <= n <= |fileFm|
  {
    exists a :: 0 <= a < n && KeyMatchesAmong(activeFm, fileFm, fileFm[a].0, matched, |matched|)
  }

  lemma MatchesAmongStep(x: Scalar, vals: seq<Scalar>, n: int)
    requires 0 <= n < |vals|
    ensures MatchesAmong(x, vals, n + 1) <==>
      MatchesAmong(x, vals, n) || IsMatchAnyCase(ScalarToString(x), ScalarToString(vals[n]))
  {
    if MatchesAmong(x, vals, n + 1) && !MatchesAmong(x, vals, n) {
      var j :| 0 <= j < n + 1 && IsMatchAnyCase(ScalarToString(x), ScalarToString(vals[j]));
      assert j == n;
    }
  }

  lemma SomeValueMatchesStep(actVals: seq<Scalar>, fileVals: seq<Scalar>, n: int)
    requires 0 <= n < |actVals|
    ensures SomeValueMatches(actVals, fileVals, n + 1) <==>
      SomeValueMatches(actVals, fileVals, n) || MatchesAmong(actVals[n], fileVals, |fileVals|)
  {
    if SomeValueMatches(actVals, fileVals, n + 1) && !SomeValueMatches(actVals, fileVals, n) {
      var i :| 0 <= i < n + 1 && MatchesAmong(actVals[i], fileVals, |fileVals|);
      assert i == n;
    }
  }

  lemma KeyMatchesAmongStep(activeFm: Record, fileFm: Record, fileKey: string, matched: seq<string>, n: int)
    requires 0 <= n < |matched|
    ensures KeyMatchesAmong(activeFm, fileFm, fileKey, matched, n + 1) <==>
      KeyMatchesAmong(activeFm, fileFm, fileKey, matched, n) || KeysMatch(activeFm, fileFm, fileKey, matched[n])
  {
    if KeyMatchesAmong(activeFm, fileFm, fileKey, matched, n + 1) && !KeyMatchesAmong(activeFm, fileFm, fileKey, matched, n) {
      var b :| 0 <= b < n + 1 && KeysMatch(activeFm, fileFm, fileKey, matched[b]);
      assert b == n;
    }
  }

  lemma SomeKeyMatchesStep(activeFm: Record, matched: seq<string>, fileFm: Record, n: int)
    requires 0 <= n < |fileFm|
    ensures SomeKeyMatches(activeFm, matched, fileFm, n + 1) <==>
      SomeKeyMatches(activeFm, matched, fileFm, n) || KeyMatchesAmong(activeFm, fileFm, fileFm[n].0, matched, |matched|)
  {
    if SomeKeyMatches(activeFm, matched, fileFm, n + 1) && !SomeKeyMatches(activeFm, matched, fileFm, n) {
      var a :| 0 <= a < n + 1 && KeyMatchesAmong(activeFm, fileFm, fileFm[a].0, matched, |matched|);
      assert a == n;
    }
  }

  /** The other note is related to the active one. */
  predicate FileRelated(activeFm: Record, matched: seq<string>, fileFm: Record)
  {
    SomeKeyMatches(activeFm, matched, fileFm, |fileFm|)
  }

  function LinksOf(f: VaultFile): seq<string>
  {
    if f.links.Some? then ExtractLinks(f.links.value) else []
  }

  /** The links gathered by the second pass: for each related note, its
      basename (unless already present) followed by all of its links. */
  function RelatedLinks(yamlFiles: seq<VaultFile>, activeFm: Record, matched: seq<string>): seq<string>
    decreases |yamlFiles|
  {
    if yamlFiles == [] then []
    else
      var acc := RelatedLinks(yamlFiles[..|yamlFiles| - 1], activeFm, matched);
      var f := yamlFiles[|yamlFiles| - 1];
      if f.frontmatter.Some? && FileRelated(activeFm, matched, f.frontmatter.value)
      then PushNew(acc, f.basename) + LinksOf(f)
      else acc
  }

  /** The frontmatter the resolver works on: the one passed in, or else the
      active note's cached frontmatter. */
  function ActiveFrontmatter(files: seq<VaultFile>, active: int, mdYaml: Option<Record>): Option<Record>
  {
    if mdYaml.Some? then mdYaml
    else if 0 <= active < |files| then files[active].frontmatter
    else None
  }

  /** What findLinksRelatedYamlKeyValue returns. */
  function Resolve(files: seq<VaultFile>, active: int, mdYaml: Option<Record>): RelatedYamlLinks
  {
    var fm := ActiveFrontmatter(files, active, mdYaml);
    if fm.None? then RelatedYamlLinks([], None)
    else
      RelatedYamlLinks(
        RelatedLinks(YamlFiles(files, active), fm.value, MatchedKeys(Keys(fm.value))),
        Some(BuildIndex(files, active)))
  }

  /** One more file in the first pass. */
  lemma FirstPassStep(files: seq<VaultFile>, active: int, i: int)
    requires 0 <= i < |files|
    ensures var fm := files[i].frontmatter; var yaml := i != active && fm.Some?;
      BuildIndex(files[..i + 1], active) ==
        (if yaml then AddKeys(BuildIndex(files[..i], active), fm.value, Keys(fm.value)) else BuildIndex(files[..i], active)) &&
      YamlFiles(files[..i + 1], active) ==
        (if yaml then YamlFiles(files[..i], active) + [files[i]] else YamlFiles(files[..i], active))
  {
    assert files[..i + 1][..i] == files[..i];
  }

  /** One more note in the second pass. */
  lemma SecondPassStep(yamlFiles: seq<VaultFile>, activeFm: Record, matched: seq<string>, k: int)
    requires 0 <= k < |yamlFiles|
    ensures var f, acc := yamlFiles[k], RelatedLinks(yamlFiles[..k], activeFm, matched);
      RelatedLinks(yamlFiles[..k + 1], activeFm, matched) ==
        if f.frontmatter.Some? && FileRelated(activeFm, matched, f.frontmatter.value)
        then PushNew(acc, f.basename) + LinksOf(f) else acc
  {
    assert yamlFiles[..k + 1][..k] == yamlFiles[..k];
  }

  // ---------------------------------------------------------------------------
  // The resolver's loops

  /** Extends an index entry with the values it lacks. */
  method MergeInto(cur: seq<Scalar>, vals: seq<Scalar>) returns (curMap: seq<Scalar>)
    ensures curMap == MergeValues(cur, vals)
  {
    curMap := cur;
    var i := 0;
    while i < |vals|
      invariant 0 <= i <= |vals|
      invariant curMap == MergeValues(cur, vals[..i])
    {
      assert vals[..i + 1][..i] == vals[..i];
      if vals[i] !in curMap {
        curMap := curMap + [vals[i]];
      }
      i := i + 1;
    }
    assert vals[..|vals|] == vals;
  }

  /** The keys of one other note entering the index. */
  method IndexRecord(yamlKVMap: ValueIndex, eachYaml: Record) returns (m: ValueIndex)
    ensures m == AddKeys(yamlKVMap, eachYaml, Keys(eachYaml))
  {
    m := yamlKVMap;
    var theKeys := Keys(eachYaml);
    var i := 0;
    while i < |theKeys|
      invariant 0 <= i <= |theKeys|
      invariant m == AddKeys(yamlKVMap, eachYaml, theKeys[..i])
    {
      var eachKey := theKeys[i];
      assert theKeys[..i + 1][..i] == theKeys[..i];
      if eachKey != "position" {
        var eachValS := Lookup(eachYaml, eachKey);
        if ValueTruthy(eachValS) {
          var eachValSArray := ConvertToArray(eachValS);
          var curMap: seq<Scalar>;
          if eachKey in m && |m[eachKey]| > 0 {
            curMap := MergeInto(m[eachKey], eachValSArray);
          } else {
            curMap := eachValSArray;
          }
          m := m[eachKey := curMap];
        }
      }
      i := i + 1;
    }
    assert theKeys[..|theKeys|] == theKeys;
  }

  /** The innermost loops: every pair of values is compared, and on a match the
      basename is pushed unless already present. */
  method MatchValues(actVals: seq<Scalar>, fileVals: seq<Scalar>, basename: string, links: seq<string>)
    returns (hit: bool, myLinks: seq<string>)
    ensures hit == ValuesMatch(actVals, fileVals)
    ensures myLinks == if hit then PushNew(links, basename) else links
  {
    hit := false;
    myLinks := links;
    var i := 0;
    while i < |actVals|
      invariant 0 <= i <= |actVals|
      invariant hit == SomeValueMatches(actVals, fileVals, i)
      invariant myLinks == if hit then PushNew(links, basename) else links
    {
      var before := hit;
      var j := 0;
      while j < |fileVals|
        invariant 0 <= j <= |fileVals|
        invariant hit == (before || MatchesAmong(actVals[i], fileVals, j))
        invariant myLinks == if hit then PushNew(links, basename) else links
      {
        MatchesAmongStep(actVals[i], fileVals, j);
        if IsMatchAnyCase(ScalarToString(actVals[i]), ScalarToString(fileVals[j])) {
          hit := true;
          if AddLink(Some(myLinks), basename) {
            myLinks := myLinks + [basename];
          }
        }
        j := j + 1;
      }
      SomeValueMatchesStep(actVals, fileVals, i);
      i := i + 1;
    }
  }

  /** The loops over one other note's keys and the matched keys, with the
      `fileMatch` flag that skips the remaining keys once the note matched. */
  method MatchFile(activeFm: Record, matchedKeys: seq<string>, fileFm: Record, basename: string, links: seq<string>)
    returns (fileMatch: bool, myLinks: seq<string>)
    ensures fileMatch == FileRelated(activeFm, matchedKeys, fileFm)
    ensures myLinks == if fileMatch then PushNew(links, basename) else links
  {
    fileMatch := false;
    myLinks := links;
    var fmKeys := Keys(fileFm);
    var a := 0;
    while a < |fmKeys|
      invariant 0 <= a <= |fmKeys|
      invariant fileMatch == SomeKeyMatches(activeFm, matchedKeys, fileFm, a)
      invariant myLinks == if fileMatch then PushNew(links, basename) else links
    {
      var eachFileKey := fmKeys[a];
      assert eachFileKey == fileFm[a].0;
      if !fileMatch {
        var b := 0;
        while b < |matchedKeys|
          invariant 0 <= b <= |matchedKeys|
          invariant fileMatch == KeyMatchesAmong(activeFm, fileFm, eachFileKey, matchedKeys, b)
          invariant myLinks == if fileMatch then PushNew(links, basename) else links
        {
          var eachMatchKey := matchedKeys[b];
          KeyMatchesAmongStep(activeFm, fileFm, eachFileKey, matchedKeys, b);
          if IsMatchAnyCase(eachFileKey, eachMatchKey) {
            var actFileValsArray := ConvertToArray(Lookup(activeFm, eachMatchKey));
            var eachFileValsArray := ConvertToArray(Lookup(fileFm, eachFileKey));
            var hit;
            hit, myLinks := MatchValues(actFileValsArray, eachFileValsArray, basename, myLinks);
            fileMatch := fileMatch || hit;
          }
          b := b + 1;
        }
      }
      SomeKeyMatchesStep(activeFm, matchedKeys, fileFm, a);
      a := a + 1;
    }
  }

  /** `findLinksRelatedYamlKeyValue(plugin, activeFile, mdYaml)` */
  method FindLinksRelatedYamlKeyValue(files: seq<VaultFile>, active: int, mdYaml: Option<Record>)
    returns (result: RelatedYamlLinks)
    ensures result == Resolve(files, active, mdYaml)
  {
    var fm := mdYaml;
    if fm.None? && 0 <= active < |files| {
      fm := files[active].frontmatter;
    }
    if fm.None? {
      return RelatedYamlLinks([], None);
    }
    var patchedFrontMatter := fm.value;
    // First pass: the index and the notes with frontmatter.
    var yamlKVMap: ValueIndex := map[];
    var yamlFiles: seq<VaultFile> := [];
    var i := 0;
    while i < |files|
      invariant 0 <= i <= |files|
      invariant yamlKVMap == BuildIndex(files[..i], active)
      invariant yamlFiles == YamlFiles(files[..i], active)
    {
      FirstPassStep(files, active, i);
      if i != active {
        var eachYaml := files[i].frontmatter;
        if eachYaml.Some? {
          yamlFiles := yamlFiles + [files[i]];
          yamlKVMap := IndexRecord(yamlKVMap, eachYaml.value);
        }
      }
      i := i + 1;
    }
    assert files[..|files|] == files;
    // Second pass: the related notes' links.
    var matchedKeys := MatchedKeys(Keys(patchedFrontMatter));
    var myLinks: seq<string> := [];
    var k := 0;
    while k < |yamlFiles|
      invariant 0 <= k <= |yamlFiles|
      invariant myLinks == RelatedLinks(yamlFiles[..k], patchedFrontMatter, matchedKeys)
    {
      var eachYamlFile := yamlFiles[k];
      SecondPassStep(yamlFiles, patchedFrontMatter, matchedKeys, k);
      var fileMatch := false;
      if eachYamlFile.frontmatter.Some? {
        fileMatch, myLinks := MatchFile(patchedFrontMatter, matchedKeys, eachYamlFile.frontmatter.value,
                                        eachYamlFile.basename, myLinks);
      }
      if fileMatch {
        var myNewLinks := GetLinksFromFile(eachYamlFile.links, eachYamlFile.links);
        myLinks := myLinks + myNewLinks;
      }
      k := k + 1;
    }
    assert yamlFiles[..|yamlFiles|] == yamlFiles;
    result := RelatedYamlLinks(myLinks, Some(yamlKVMap));
  }

  // ---------------------------------------------------------------------------
  // Properties of the index

  /** A key enters the index through one record exactly when it is not
      `position` and its value is truthy. */
  lemma {:induction false} AddKeysKeys(m: ValueIndex, fm: Record, keys: seq<string>, k: string)
    ensures k in AddKeys(m, fm, keys) <==>
      k in m || (k in keys && k != "position" && ValueTruthy(Lookup(fm, k)))
    decreases |keys|
  {
    if keys != [] {
      var init := keys[..|keys| - 1];
      AddKeysKeys(m, fm, init, k);
      assert keys == init + [keys[|keys| - 1]];
    }
  }

  /** The values recorded for a key through one record are those it had
      before together with the record's values for that key. */
  lemma {:induction false} AddKeysValues(m: ValueIndex, fm: Record, keys: seq<string>, k: string, x: Scalar)
    requires k in AddKeys(m, fm, keys)
    ensures x in AddKeys(m, fm, keys)[k] <==>
      (k in m && x in m[k]) || (k in keys && k != "position" && x in ConvertToArray(Lookup(fm, k)))
    decreases |keys|
  {
    if keys != [] {
      var init := keys[..|keys| - 1];
      var last := keys[|keys| - 1];
      assert keys == init + [last];
      var m0 := AddKeys(m, fm, init);
      AddKeysKeys(m, fm, init, k);
      if k in m0 {
        AddKeysValues(m, fm, init, k, x);
      }
      if k == last && k != "position" && ValueTruthy(Lookup(fm, k)) && k in m0 && |m0[k]| > 0 {
        MergeValuesMembers(m0[k], ConvertToArray(Lookup(fm, k)), x);
      }
    }
  }

  /** Merging keeps what the list had and adds exactly the new values. */
  lemma {:induction false} MergeValuesMembers(cur: seq<Scalar>, vals: seq<Scalar>, x: Scalar)
    ensures x in MergeValues(cur, vals) <==> x in cur || x in vals
    decreases |vals|
  {
    if vals != [] {
      MergeValuesMembers(cur, vals[..|vals| - 1], x);
      assert vals == vals[..|vals| - 1] + [vals[|vals| - 1]];
    }
  }

  /** Merging extends the list in place: the old values stay first, in their
      order, and every appended value comes from the new values and was not
      in the list before it. */
  lemma {:induction false} MergeValuesExtends(cur: seq<Scalar>, vals: seq<Scalar>)
    ensures var r := MergeValues(cur, vals);
      |cur| <= |r| && r[..|cur|] == cur &&
      forall k :: |cur| <= k < |r| ==> r[k] in vals && r[k] !in r[..k]
    decreases |vals|
  {
    if vals != [] {
      var init := vals[..|vals| - 1];
      var x := vals[|vals| - 1];
      var m := MergeValues(cur, init);
      MergeValuesExtends(cur, init);
      assert forall y :: y in init ==> y in vals;
      if x !in m {
        var r := m + [x];
        assert r[..|m|] == m;
        assert r[..|cur|] == m[..|cur|];
        forall k | |cur| <= k < |r| ensures r[k] in vals && r[k] !in r[..k] {
          if k < |m| {
            assert r[..k] == m[..k];
          }
        }
      }
    }
  }

  /** The index never has a `position` entry. */
  lemma {:induction false} IndexHasNoPositionKey(files: seq<VaultFile>, active: int)
    ensures "position" !in BuildIndex(files, active)
    decreases |files|
  {
    if files != [] {
      var f := files[|files| - 1];
      IndexHasNoPositionKey(files[..|files| - 1], active);
      if IsYamlFile(files, active, |files| - 1) {
        AddKeysKeys(BuildIndex(files[..|files| - 1], active), f.frontmatter.value, Keys(f.frontmatter.value), "position");
      }
    }
  }

  /** A field is indexed exactly when some other note with frontmatter has it
      with a truthy value (and it is not `position`). */
  lemma {:induction false} IndexKeys(files: seq<VaultFile>, active: int, k: string)
    ensures k in BuildIndex(files, active) <==>
      exists i :: 0 <= i < |files| && IsYamlFile(files, active, i) && k != "position" &&
        k in Keys(files[i].frontmatter.value) && ValueTruthy(Lookup(files[i].frontmatter.value, k))
    decreases |files|
  {
    if files != [] {
      var init := files[..|files| - 1];
      var n := |files| - 1;
      IndexKeys(init, active, k);
      if IsYamlFile(files, active, n) {
        var fm := files[n].frontmatter.value;
        AddKeysKeys(BuildIndex(init, active), fm, Keys(fm), k);
      }
      forall i | 0 <= i < n ensures IsYamlFile(files, active, i) == IsYamlFile(init, active, i) && files[i] == init[i] { }
    }
  }

  /** A value is recorded for a field exactly when some other note with
      frontmatter has that value for the field: values are gathered, none is
      invented and none is dropped. */
  lemma {:induction false} IndexValues(files: seq<VaultFile>, active: int, k: string, x: Scalar)
    requires k in BuildIndex(files, active)
    ensures x in BuildIndex(files, active)[k] <==>
      exists i :: 0 <= i < |files| && IsYamlFile(files, active, i) && k != "position" &&
        k in Keys(files[i].frontmatter.value) && x in ConvertToArray(Lookup(files[i].frontmatter.value, k))
    decreases |files|
  {
    var init := files[..|files| - 1];
    var n := |files| - 1;
    forall i | 0 <= i < n ensures IsYamlFile(files, active, i) == IsYamlFile(init, active, i) && files[i] == init[i] { }
    var m0 := BuildIndex(init, active);
    if k in m0 {
      IndexValues(init, active, k, x);
    } else {
      IndexKeys(init, active, k);
      forall i | 0 <= i < n && IsYamlFile(files, active, i) && k != "position" && k in Keys(files[i].frontmatter.value)
        ensures x !in ConvertToArray(Lookup(files[i].frontmatter.value, k))
      {
        assert !ValueTruthy(Lookup(init[i].frontmatter.value, k));
      }
    }
    if IsYamlFile(files, active, n) {
      var fm := files[n].frontmatter.value;
      AddKeysValues(m0, fm, Keys(fm), k, x);
    }
  }

  // ---------------------------------------------------------------------------
  // Properties of the related links

  /** The notes considered for relations are the other notes that have
      frontmatter. */
  lemma {:induction false} YamlFilesMembers(files: seq<VaultFile>, active: int, f: VaultFile)
    ensures f in YamlFiles(files, active) <==> exists i :: 0 <= i < |files| && IsYamlFile(files, active, i) && files[i] == f
    decreases |files|
  {
    if files != [] {
      var init := files[..|files| - 1];
      var n := |files| - 1;
      YamlFilesMembers(init, active, f);
      forall i | 0 <= i < n ensures IsYamlFile(files, active, i) == IsYamlFile(init, active, i) && files[i] == init[i] { }
    }
  }

  /** A note counts as related when it is related to the active note. */
  predicate RelatedNote(f: VaultFile, activeFm: Record, matched: seq<string>)
  {
    f.frontmatter.Some? && FileRelated(activeFm, matched, f.frontmatter.value)
  }

  /** The note is related and x is its basename or one of its links. */
  predicate Contributes(f: VaultFile, activeFm: Record, matched: seq<string>, x: string)
  {
    RelatedNote(f, activeFm, matched) && (x == f.basename || x in LinksOf(f))
  }

  /** One more note adds exactly what that note contributes. */
  lemma RelatedLinksStep(yamlFiles: seq<VaultFile>, activeFm: Record, matched: seq<string>, x: string)
    requires yamlFiles != []
    ensures x in RelatedLinks(yamlFiles, activeFm, matched) <==>
      x in RelatedLinks(yamlFiles[..|yamlFiles| - 1], activeFm, matched) ||
      Contributes(yamlFiles[|yamlFiles| - 1], activeFm, matched, x)
  {
    var acc := RelatedLinks(yamlFiles[..|yamlFiles| - 1], activeFm, matched);
    var f := yamlFiles[|yamlFiles| - 1];
    if RelatedNote(f, activeFm, matched) {
      assert RelatedLinks(yamlFiles, activeFm, matched) == PushNew(acc, f.basename) + LinksOf(f);
    }
  }

  /** A string is among the related links exactly when it is the basename or
      one of the links of a related note. */
  lemma {:induction false} RelatedLinksMembers(yamlFiles: seq<VaultFile>, activeFm: Record, matched: seq<string>, x: string)
    ensures x in RelatedLinks(yamlFiles, activeFm, matched) <==>
      exists j :: 0 <= j < |yamlFiles| && Contributes(yamlFiles[j], activeFm, matched, x)
    decreases |yamlFiles|
  {
    if yamlFiles != [] {
      var n := |yamlFiles| - 1;
      var init := yamlFiles[..n];
      RelatedLinksMembers(init, activeFm, matched, x);
      RelatedLinksStep(yamlFiles, activeFm, matched, x);
      if x in RelatedLinks(init, activeFm, matched) {
        var j :| 0 <= j < n && Contributes(init[j], activeFm, matched, x);
        assert yamlFiles[j] == init[j];
      } else if !Contributes(yamlFiles[n], activeFm, matched, x) {
        forall j | 0 <= j < |yamlFiles| ensures !Contributes(yamlFiles[j], activeFm, matched, x) {
          if j < n {
            assert yamlFiles[j] == init[j];
          } else {
            assert j == n;
          }
        }
      }
    }
  }

  /** The active note's keys used for matching are those equal, ignoring case,
      to one of the allow-listed keys. */
  lemma MatchedKeysMembers(keys: seq<string>, k: string)
    ensures k in MatchedKeys(keys) <==> k in keys && exists inc :: inc in IncludeKeys && Lower(k) == Lower(inc)
    decreases |keys|
  {
    forall inc ensures IsMatchAnyCase(k, inc) <==> Lower(k) == Lower(inc) {
      IsMatchAnyCaseIsCaseInsensitiveEquality(k, inc);
    }
    if keys != [] {
      MatchedKeysMembers(keys[..|keys| - 1], k);
      assert keys == keys[..|keys| - 1] + [keys[|keys| - 1]];
    }
  }

  /** Notes are related only through a field that is allow-listed on the
      active note's side and present, with a value in common, on both. */
  lemma RelatedOnlyThroughIncludedKeys(activeFm: Record, fileFm: Record)
    requires FileRelated(activeFm, MatchedKeys(Keys(activeFm)), fileFm)
    ensures exists a, mk ::
              0 <= a < |fileFm| && mk in Keys(activeFm) && IsIncludedKey(mk) &&
              Lower(fileFm[a].0) == Lower(mk) &&
              ValuesMatch(ConvertToArray(Lookup(activeFm, mk)), ConvertToArray(Lookup(fileFm, fileFm[a].0)))
  {
    var matched := MatchedKeys(Keys(activeFm));
    var a :| 0 <= a < |fileFm| && KeyMatchesAmong(activeFm, fileFm, fileFm[a].0, matched, |matched|);
    var b :| 0 <= b < |matched| && KeysMatch(activeFm, fileFm, fileFm[a].0, matched[b]);
    var mk := matched[b];
    MatchedKeysMembers(Keys(activeFm), mk);
    IsMatchAnyCaseIsCaseInsensitiveEquality(fileFm[a].0, mk);
    var inc :| inc in IncludeKeys && Lower(mk) == Lower(inc);
    IsMatchAnyCaseIsCaseInsensitiveEquality(mk, inc);
  }

  /** Without frontmatter on the active note the resolver yields nothing and
      no index; otherwise the index is always present. */
  lemma ResolveIndexPresence(files: seq<VaultFile>, active: int, mdYaml: Option<Record>)
    ensures Resolve(files, active, mdYaml).yamlKeyValues.Some? <==> ActiveFrontmatter(files, active, mdYaml).Some?
    ensures ActiveFrontmatter(files, active, mdYaml).None? ==> Resolve(files, active, mdYaml).links == []
  {
  }

  /** A string is among the resolved links exactly when it is the basename or
      a link of another note with frontmatter related to the active note. */
  lemma ResolveLinksMembers(files: seq<VaultFile>, active: int, mdYaml: Option<Record>, x: string)
    requires ActiveFrontmatter(files, active, mdYaml).Some?
    ensures var fm := ActiveFrontmatter(files, active, mdYaml).value;
      x in Resolve(files, active, mdYaml).links <==>
        exists i :: 0 <= i < |files| && IsYamlFile(files, active, i) && Contributes(files[i], fm, MatchedKeys(Keys(fm)), x)
  {
    var fm := ActiveFrontmatter(files, active, mdYaml).value;
    var matched := MatchedKeys(Keys(fm));
    var yf := YamlFiles(files, active);
    RelatedLinksMembers(yf, fm, matched, x);
    if x in Resolve(files, active, mdYaml).links {
      var j :| 0 <= j < |yf| && Contributes(yf[j], fm, matched, x);
      YamlFilesMembers(files, active, yf[j]);
    }
    if exists i :: 0 <= i < |files| && IsYamlFile(files, active, i) && Contributes(files[i], fm, matched, x) {
      var i :| 0 <= i < |files| && IsYamlFile(files, active, i) && Contributes(files[i], fm, matched, x);
      YamlFilesMembers(files, active, files[i]);
      var j :| 0 <= j < |yf| && yf[j] == files[i];
      assert Contributes(yf[j], fm, matched, x);
    }
  }
}
