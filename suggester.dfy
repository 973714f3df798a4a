// The page-link suggester: its session state and the editor callbacks
// close, onTrigger, getSuggestions, selectSuggestion, plus the pool refresh
// that runs when another note is opened.
module Suggester {
  import opened Wrappers
  import opened Text
  import opened Seqs
  import opened Settings
  import opened Frontmatter
  import opened Links
  import opened Vault
  import opened Related
  import opened Trigger
  import opened Candidates

  /** The caret's line in the editor and the caret column on it. */
  class EditorLine {
    var text: string
    var ch: nat

    predicate Valid()
      reads this
    {
      ch <= |text|
    }

    constructor (text: string, ch: nat)
      requires ch <= |text|
      ensures Valid() && this.text == text && this.ch == ch
    {
      this.text := text;
      this.ch := ch;
    }

    /** `replaceRange(insert, from, to)`: columns are clipped to the line and
        the caret moves with the text. */
    method ReplaceRange(insert: string, from: int, to: int)
      requires Valid() && from <= to
      modifies this
      ensures Valid()
      ensures text == Splice(old(text), from, to, insert)
      ensures ch == MapCursor(old(text), old(ch), from, to, insert)
    {
      ch := MapCursor(text, ch, from, to, insert);
      text := Splice(text, from, to, insert);
    }
  }

  class PageLinkSuggester {
    const cfg: Config
    /** The candidate pools: the active note's links, the related notes'
        links (or a field's values while completing one), the vault titles. */
    var fileLinks: seq<string>
    var yamlLinks: seq<string>
    var vaultLinks: seq<string>
    /** The field-value index of the other notes; None is `null`. */
    var yamlKVPairs: Option<ValueIndex>
    var linkMode: Mode
    var linkMatches: nat
    var trigCharMatch: string

    /** The part of the state that onTrigger reads and writes. */
    function SessionState(): Session
      reads this
    {
      Session(yamlLinks, yamlKVPairs, linkMode, linkMatches, trigCharMatch)
    }

    /** The suggester with the plugin's default temporary data. */
    constructor (cfg: Config)
      ensures this.cfg == cfg
      ensures fileLinks == [] && yamlLinks == [] && vaultLinks == [] && yamlKVPairs == Some(map[])
      ensures linkMode == Unset && linkMatches == 0 && trigCharMatch == ""
    {
      this.cfg := cfg;
      fileLinks := [];
      yamlLinks := [];
      vaultLinks := [];
      yamlKVPairs := Some(map[]);
      linkMode := Unset;
      linkMatches := 0;
      trigCharMatch := "";
    }

    /** `close()`: the session is reset; the pools stay. */
    method Close()
      modifies this
      ensures trigCharMatch == "" && linkMode == Yaml && linkMatches == 0
      ensures fileLinks == old(fileLinks) && yamlLinks == old(yamlLinks) && vaultLinks == old(vaultLinks)
      ensures yamlKVPairs == old(yamlKVPairs)
    {
      trigCharMatch := "";
      linkMode := Yaml;
      linkMatches := 0;
    }

    /** `onTrigger(cursor, editor, file)`. `context` is the start column of
        the suggestion the host has open, if any; `datesPhrase` the trigger
        phrase of an enabled date-autosuggest plugin, if any. */
    method OnTrigger(editor: EditorLine, context: Option<int>, datesPhrase: Option<string>)
      returns (info: Option<TriggerInfo>)
      requires editor.Valid()
      modifies this, editor
      ensures editor.Valid()
      ensures var st := OnTriggerSpec(cfg, old(SessionState()), old(editor.text), old(editor.ch), context, datesPhrase);
        SessionState() == st.session && editor.text == st.line && editor.ch == st.ch && info == st.info
      ensures fileLinks == old(fileLinks) && vaultLinks == old(vaultLinks)
    {
      OnTriggerDispatch(cfg, SessionState(), editor.text, editor.ch, context, datesPhrase);
      var caret: int := editor.ch;
      if caret == 0 {
        // At the start of the line (Enter may have been pressed).
        linkMatches := 0;
        return None;
      }
      var cursorChar1 := GetRange(editor.text, caret - 2, caret);
      if cursorChar1 == ": " {
        info := CompleteYamlValue(editor);
      } else if context.Some? && linkMatches > 0 {
        info := NarrowOpenSuggestion(editor, context.value);
      } else {
        info := OpenFresh(editor, datesPhrase);
      }
    }

    /** onTrigger after `key: `: the key's indexed values become the pool. */
    method CompleteYamlValue(editor: EditorLine) returns (info: Option<TriggerInfo>)
      requires editor.Valid() && 2 <= editor.ch
      modifies this
      ensures var st := YamlStep(old(SessionState()), editor.text, editor.ch);
        SessionState() == st.session && info == st.info
      ensures fileLinks == old(fileLinks) && vaultLinks == old(vaultLinks)
    {
      var caret := editor.ch;
      var curLineStr1 := editor.text;
      var curLineStrMatch1 := JsSubstring(curLineStr1, 0, caret);
      var curLineProp := JsSubstring(curLineStr1, 0, caret - 2);
      linkMode := YamlComplete;
      var foundValues: Option<seq<Scalar>> := None;
      if yamlKVPairs.Some? && curLineProp in yamlKVPairs.value {
        foundValues := Some(yamlKVPairs.value[curLineProp]);
      }
      if foundValues.Some? {
        yamlLinks := ScalarsToStrings(foundValues.value);
        return Some(TriggerInfo(|curLineStrMatch1|, |curLineStrMatch1|, "test"));
      } else {
        linkMatches := 0;
        return None;
      }
    }

    /** onTrigger while a suggestion is open: a comma right after the trigger
        broadens the session to all links and is cleaned up, and the query
        runs from the open suggestion's start to the caret. */
    method NarrowOpenSuggestion(editor: EditorLine, contextStart: int) returns (info: Option<TriggerInfo>)
      requires editor.Valid()
      modifies this, editor
      ensures editor.Valid()
      ensures var st := ContinueStep(cfg, old(SessionState()), old(editor.text), old(editor.ch), contextStart);
        SessionState() == st.session && editor.text == st.line && editor.ch == st.ch && info == st.info
      ensures fileLinks == old(fileLinks) && vaultLinks == old(vaultLinks)
    {
      ghost var s0, line0, caret0 := SessionState(), editor.text, editor.ch;
      var caret: int := editor.ch;
      var sec, prim := cfg.secondaryTrigger, PrimaryTrigger(cfg);
      var origLineStr := editor.text;
      var lastChar := JsSubstring(origLineStr, caret - 1, caret);
      var myOffset: int := 0;
      var trig, mode := trigCharMatch, linkMode;
      if trig == sec && lastChar == AllLinksTrigger {
        trig, mode := sec + AllLinksTrigger, AllSemi;
        myOffset := 1;
      }
      if trig == prim && lastChar == AllLinksTrigger {
        trig, mode := prim + AllLinksTrigger, All;
        myOffset := 1;
      }
      assert (trig, mode, myOffset) == Broaden(cfg, s0, lastChar);
      trigCharMatch, linkMode := trig, mode;
      CleanUpTrigger(editor, myOffset);
      ContinueStepIs(cfg, s0, line0, caret0, contextStart, trig, mode, myOffset, editor.text, editor.ch);
      info := ReadNewQuery(editor, contextStart, myOffset);
    }

    /** The end of the continuing path: the caret is read again, as a trigger
        character may have been removed, and the suggestion stays open while
        the query from its start has four characters or more. */
    method ReadNewQuery(editor: EditorLine, contextStart: int, myOffset: int) returns (info: Option<TriggerInfo>)
      requires editor.Valid()
      modifies this
      ensures var st := NarrowStep(old(SessionState()), old(trigCharMatch), old(linkMode), myOffset,
                                   editor.text, editor.ch, contextStart);
        SessionState() == st.session && info == st.info
      ensures fileLinks == old(fileLinks) && vaultLinks == old(vaultLinks)
    {
      var curCursor: int := editor.ch;
      var curLineStr := editor.text;
      var newQuery := JsSubstring(curLineStr, contextStart, curCursor);
      if |newQuery| < 4 {
        linkMatches := 0;
        return None;
      }
      return Some(TriggerInfo(contextStart, curCursor - myOffset, newQuery));
    }

    /** Removes the trigger characters a broadened session no longer needs:
        the secondary trigger and comma, or the comma after the primary
        trigger, when the line still holds them before the caret. */
    method CleanUpTrigger(editor: EditorLine, myOffset: int)
      requires editor.Valid()
      modifies editor
      ensures editor.Valid()
      ensures (editor.text, editor.ch) == BroadenDeletion(cfg, trigCharMatch, old(editor.text), old(editor.ch), myOffset)
    {
      var caret: int := editor.ch;
      var sec, prim := cfg.secondaryTrigger, PrimaryTrigger(cfg);
      if trigCharMatch == sec {
      } else if trigCharMatch == sec + AllLinksTrigger {
        var startRange: int, endRange: int := caret - 3 + myOffset, caret - 1 + myOffset;
        if GetRange(editor.text, startRange, endRange) == sec + AllLinksTrigger {
          editor.ReplaceRange("", startRange, endRange);
        }
      } else if trigCharMatch == prim {
      } else if trigCharMatch == prim + AllLinksTrigger {
        var startRange: int, endRange: int := caret - 2 + myOffset, caret - 1 + myOffset;
        if GetRange(editor.text, startRange, endRange) == AllLinksTrigger {
          editor.ReplaceRange("", startRange, endRange);
        }
      }
    }

    /** onTrigger with no open suggestion: a trigger character after a word
        opens one for that word (or the last two words after a doubled
        trigger). */
    method OpenFresh(editor: EditorLine, datesPhrase: Option<string>) returns (info: Option<TriggerInfo>)
      requires editor.Valid() && 0 < editor.ch
      modifies this
      ensures var st := FreshStep(cfg, old(SessionState()), editor.text, editor.ch, datesPhrase);
        SessionState() == st.session && info == st.info
      ensures fileLinks == old(fileLinks) && vaultLinks == old(vaultLinks)
    {
      ghost var s0 := SessionState();
      var caret: int := editor.ch;
      var sec, prim := cfg.secondaryTrigger, PrimaryTrigger(cfg);
      var cursorChar := GetRange(editor.text, caret - 1, caret);
      if cursorChar != prim && cursorChar != sec && cursorChar != AllLinksTrigger {
        FreshStepNotTyped(cfg, s0, editor.text, editor.ch, datesPhrase);
        linkMatches := 0;
        return None;
      }
      linkMode := Yaml;
      linkMatches := 0;
      var curLineStr := editor.text;
      if datesPhrase.Some? && Contains(curLineStr, datesPhrase.value) {
        // Leaves the line to the date plugin's own suggester.
        FreshStepDates(cfg, s0, editor.text, editor.ch, datesPhrase);
        linkMatches := 0;
        return None;
      }
      FreshStepWord(cfg, s0, editor.text, editor.ch, datesPhrase);
      assert SessionState() == s0.(linkMode := Yaml, linkMatches := 0);
      info := OpenForWord(editor);
    }

    /** The end of the fresh path: analyses the word before the typed trigger
        and, when it is accepted, opens the suggestion for it. */
    method OpenForWord(editor: EditorLine) returns (info: Option<TriggerInfo>)
      requires editor.Valid() && 0 < editor.ch
      requires linkMode == Yaml && linkMatches == 0
      modifies this
      ensures var st := WordStep(cfg, old(SessionState()), editor.text, editor.ch);
        SessionState() == st.session && info == st.info
      ensures fileLinks == old(fileLinks) && vaultLinks == old(vaultLinks)
    {
      ghost var s0 := SessionState();
      var caret: int := editor.ch;
      var cursorChar := GetRange(editor.text, caret - 1, caret);
      var curLineStrMatch := JsSubstring(editor.text, 0, caret);
      var analysis := AnalyzeFresh(cfg, cursorChar, curLineStrMatch);
      if analysis.None? {
        WordStepRejected(cfg, s0, editor.text, editor.ch);
        linkMatches := 0;
        return None;
      }
      WordStepAccepted(cfg, s0, editor.text, editor.ch, analysis.value);
      var lastWord, charsBack := analysis.value.query, analysis.value.charsBack;
      var start := |curLineStrMatch| - charsBack - |lastWord|;
      ghost var kind := analysis.value.kind;
      ghost var st := WordStep(cfg, s0, editor.text, editor.ch);
      assert st.info == Some(TriggerInfo(start, |curLineStrMatch|, lastWord));
      assert kind == KindOf(cfg, cursorChar, curLineStrMatch);
      RecordTrigger(cursorChar, curLineStrMatch);
      assert SessionState() == s0.(linkMode := KindMode(kind), trigCharMatch := KindTrigger(cfg, kind)) == st.session;
      return Some(TriggerInfo(start, |curLineStrMatch|, lastWord));
    }

    /** Records how the suggestion was opened: the trigger text, and the
        all-links modes after a trigger followed by the comma. */
    method RecordTrigger(cursorChar: string, curLineStrMatch: string)
      requires linkMode == Yaml
      modifies this
      ensures var kind := KindOf(cfg, cursorChar, curLineStrMatch);
        linkMode == KindMode(kind) && trigCharMatch == KindTrigger(cfg, kind)
      ensures fileLinks == old(fileLinks) && yamlLinks == old(yamlLinks) && vaultLinks == old(vaultLinks)
      ensures yamlKVPairs == old(yamlKVPairs) && linkMatches == old(linkMatches)
    {
      var sec, prim := cfg.secondaryTrigger, PrimaryTrigger(cfg);
      var cursorTwoChar := TwoChars(curLineStrMatch);
      if cursorChar == sec {
        trigCharMatch := sec;
      } else if cursorTwoChar == sec + AllLinksTrigger {
        linkMode := AllSemi;
        trigCharMatch := sec + AllLinksTrigger;
      } else if cursorTwoChar == prim + AllLinksTrigger {
        linkMode := All;
        trigCharMatch := prim + AllLinksTrigger;
      } else {
        trigCharMatch := prim;
      }
    }

    /** The switch on the mode in getSuggestions: sorts the pools the mode
        uses, in place, and concatenates them. */
    method CollectModePool() returns (allLinks: seq<string>)
      modifies this
      ensures allLinks == ModePool(linkMode, old(fileLinks), old(yamlLinks), old(vaultLinks))
      ensures fileLinks == SortedIf(UsesFileLinks(linkMode), old(fileLinks))
      ensures yamlLinks == SortedIf(UsesYamlLinks(linkMode), old(yamlLinks))
      ensures vaultLinks == SortedIf(UsesVaultLinks(linkMode), old(vaultLinks))
      ensures linkMode == old(linkMode) && linkMatches == old(linkMatches)
      ensures trigCharMatch == old(trigCharMatch) && yamlKVPairs == old(yamlKVPairs)
    {
      var f, y, v := fileLinks, yamlLinks, vaultLinks;
      allLinks := [];
      match linkMode {
        case Yaml =>
          f := SortByLength(f);
          allLinks := allLinks + f;
          y := SortByLength(y);
          allLinks := allLinks + y;
        case All =>
          f := SortByLength(f);
          allLinks := allLinks + f;
          y := SortByLength(y);
          allLinks := allLinks + y;
          v := SortByLength(v);
          allLinks := allLinks + v;
        case AllSemi =>
          f := SortByLength(f);
          allLinks := allLinks + f;
          y := SortByLength(y);
          allLinks := allLinks + y;
          v := SortByLength(v);
          allLinks := allLinks + v;
        case YamlComplete =>
          y := SortByLength(y);
          allLinks := allLinks + y;
        case Unset =>
          f := SortByLength(f);
          allLinks := allLinks + f;
      }
      // The sorts work in place on the suggester's own lists.
      fileLinks, yamlLinks, vaultLinks := f, y, v;
    }

    /** `getSuggestions(context)`: sorts the pools the mode uses (in place),
        and returns the matching candidates, recording how many there are. */
    method GetSuggestions(query: string) returns (items: Option<seq<string>>)
      modifies this
      ensures items == Suggestions(linkMode, ModePool(linkMode, old(fileLinks), old(yamlLinks), old(vaultLinks)), query)
      ensures linkMatches == if items.Some? then |items.value| else 0
      ensures fileLinks == SortedIf(UsesFileLinks(linkMode), old(fileLinks))
      ensures yamlLinks == SortedIf(UsesYamlLinks(linkMode), old(yamlLinks))
      ensures vaultLinks == SortedIf(UsesVaultLinks(linkMode), old(vaultLinks))
      ensures linkMode == old(linkMode) && trigCharMatch == old(trigCharMatch) && yamlKVPairs == old(yamlKVPairs)
    {
      var allLinks := CollectModePool();
      // The unique values of the pool, in first-seen order.
      allLinks := Dedup(allLinks);
      var matchingItems: seq<string>;
      if linkMode == YamlComplete {
        matchingItems := allLinks;
      } else {
        matchingItems := FilterMatching(allLinks, query);
      }
      var finalItems := Dedup(matchingItems);
      if |finalItems| > 0 {
        linkMatches := |finalItems|;
        return Some(finalItems);
      } else {
        linkMatches := 0;
        return None;
      }
    }

    /** `selectSuggestion(value)`: the suggestion's range becomes the link. */
    method SelectSuggestion(editor: EditorLine, value: string, start: int, end: int)
      requires editor.Valid() && start <= end
      modifies editor
      ensures editor.Valid()
      ensures editor.text == Splice(old(editor.text), start, end, FormatLink(cfg, trigCharMatch, value))
      ensures editor.ch == MapCursor(old(editor.text), old(editor.ch), start, end, FormatLink(cfg, trigCharMatch, value))
    {
      var newLink := "[[" + value + "]]";
      if PrimaryTrigger(cfg) == " " &&
         (trigCharMatch == PrimaryTrigger(cfg) || trigCharMatch == PrimaryTrigger(cfg) + AllLinksTrigger) {
        newLink := "[[" + value + "]] ";
      }
      editor.ReplaceRange(newLink, start, end);
    }

    /** `onFileChange()`: the pools are cleared, then, once the layout is
        ready and a note is active (its position among the vault's files),
        recomputed for that note. */
    method OnFileChange(vault: Vault, layoutReady: bool, active: Option<nat>)
      requires active.Some? ==> active.value < |vault.files|
      modifies this
      ensures linkMode == old(linkMode) && linkMatches == old(linkMatches) && trigCharMatch == old(trigCharMatch)
      ensures !(layoutReady && active.Some?) ==>
        fileLinks == [] && yamlLinks == [] && yamlKVPairs == Some(map[]) && vaultLinks == []
      ensures layoutReady && active.Some? ==>
        var f := vault.files[active.value];
        var related := Resolve(vault.files, active.value, f.frontmatter);
        fileLinks == LinksOf(f) &&
        yamlLinks == related.links && yamlKVPairs == related.yamlKeyValues &&
        vaultLinks == Dedup(Basenames(vault.files) + Flatten(vault.unresolved))
    {
      fileLinks := [];
      yamlLinks := [];
      yamlKVPairs := Some(map[]);
      vaultLinks := [];
      if layoutReady && active.Some? {
        var actFile := vault.files[active.value];
        fileLinks := GetLinksFromFile(actFile.links, actFile.links);
        var theseResults := FindLinksRelatedYamlKeyValue(vault.files, active.value, actFile.frontmatter);
        yamlLinks := theseResults.links;
        yamlKVPairs := theseResults.yamlKeyValues;
        vaultLinks := GetAllVaultLinks(vault);
      }
    }
  }
}
