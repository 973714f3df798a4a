// When the suggester opens: the decision `onTrigger` takes for a keystroke,
// written as a function of the suggestion session, the current line and the
// caret column. The suggester class runs the same steps imperatively.
module Trigger {
  import opened Wrappers
  import opened Text
  import opened Frontmatter
  import opened Settings

  /** The replaced range (columns on the caret's line) and the query typed. */
  datatype TriggerInfo = TriggerInfo(start: int, end: int, query: string)

  /** The suggestion session state that `onTrigger` reads and writes. */
  datatype Session = Session(
    yamlLinks: seq<string>,
    yamlKVPairs: Option<ValueIndex>,
    linkMode: Mode,
    linkMatches: nat,
    trigCharMatch: string)

  /** The outcome of one keystroke: the new session, the line and caret after
      any trigger-character clean-up, and the trigger (None is `null`). */
  datatype Step = Step(session: Session, line: string, ch: nat, info: Option<TriggerInfo>)

  /** How a fresh suggestion was opened. */
  datatype Kind =
    | Secondary     // the secondary trigger, alone or doubled
    | SecondaryAll  // secondary trigger followed by the all-links comma
    | PrimaryAll    // primary trigger followed by the all-links comma
    | Primary       // the primary trigger, alone or doubled

  /** The accepted word (or two words) before the trigger, and how many
      trigger characters follow it. */
  datatype Fresh = Fresh(kind: Kind, query: string, charsBack: nat)

  // ---------------------------------------------------------------------------
  // Opening a fresh suggestion

  /** The last two characters of the text up to the caret (fewer on a short line). */
  function TwoChars(upToCaret: string): string
  {
    JsSubstring(upToCaret, |upToCaret| - 2, |upToCaret|)
  }

  /** The last two characters end the text. */
  lemma TwoCharsEnd(upToCaret: string)
    ensures EndsWith(upToCaret, TwoChars(upToCaret))
  {
    var n := |upToCaret|;
    if n >= 2 {
      assert TwoChars(upToCaret) == upToCaret[n - 2..];
    } else {
      assert TwoChars(upToCaret) == upToCaret;
    }
  }

  /** The last character ends the text. */
  lemma LastCharEnds(upToCaret: string)
    requires |upToCaret| >= 1
    ensures EndsWith(upToCaret, [upToCaret[|upToCaret| - 1]])
  {
    assert upToCaret[|upToCaret| - 1..] == [upToCaret[|upToCaret| - 1]];
  }

  predicate SemiAll(cfg: Config, upToCaret: string)
  {
    TwoChars(upToCaret) == cfg.secondaryTrigger + AllLinksTrigger
  }

  predicate SpaceAll(cfg: Config, upToCaret: string)
  {
    TwoChars(upToCaret) == PrimaryTrigger(cfg) + AllLinksTrigger
  }

  /** The typed character (or last two) can open a suggestion. */
  predicate Continues(cfg: Config, typed: string, upToCaret: string)
  {
    typed == PrimaryTrigger(cfg) || typed == cfg.secondaryTrigger || SemiAll(cfg, upToCaret) || SpaceAll(cfg, upToCaret)
  }

  /** Two trigger characters were typed: a doubled trigger, or a trigger and the comma. */
  predicate Doubled(cfg: Config, upToCaret: string)
  {
    var two := TwoChars(upToCaret);
    two == cfg.secondaryTrigger + cfg.secondaryTrigger || two == PrimaryTrigger(cfg) + PrimaryTrigger(cfg) ||
    SemiAll(cfg, upToCaret) || SpaceAll(cfg, upToCaret)
  }

  function CharsBack(cfg: Config, upToCaret: string): nat
  {
    if Doubled(cfg, upToCaret) then 2 else 1
  }

  /** The query: the last space-separated word before the trigger; after a
      doubled trigger, the last two words. */
  function LastWord(cfg: Config, upToCaret: string): string
  {
    if Doubled(cfg, upToCaret) then
      var ws := Split(JsSubstring(upToCaret, 0, |upToCaret| - 2), ' ');
      if SemiAll(cfg, upToCaret) || SpaceAll(cfg, upToCaret) then Last(ws)
      else if |ws| <= 1 then ws[0]
      else ws[|ws| - 2] + " " + ws[|ws| - 1]
    else Last(Split(JsSubstring(upToCaret, 0, |upToCaret| - 1), ' '))
  }

  /** After the primary trigger or the comma, words of one or two letters and
      three-letter words that are not all upper-case (acronyms) are ignored. */
  predicate TooShort(cfg: Config, typed: string, word: string)
  {
    (typed == PrimaryTrigger(cfg) || typed == AllLinksTrigger) &&
    (|word| <= 2 || (|word| == 3 && word != Upper(word)))
  }

  function KindOf(cfg: Config, typed: string, upToCaret: string): Kind
  {
    if typed == cfg.secondaryTrigger then Secondary
    else if SemiAll(cfg, upToCaret) then SecondaryAll
    else if SpaceAll(cfg, upToCaret) then PrimaryAll
    else Primary
  }

  /** The `trigCharMatch` recorded for a kind. */
  function KindTrigger(cfg: Config, kind: Kind): string
  {
    match kind
    case Secondary => cfg.secondaryTrigger
    case SecondaryAll => cfg.secondaryTrigger + AllLinksTrigger
    case PrimaryAll => PrimaryTrigger(cfg) + AllLinksTrigger
    case Primary => PrimaryTrigger(cfg)
  }

  /** The `linkMode` a kind leaves: the all-links kinds broaden the pool. */
  function KindMode(kind: Kind): Mode
  {
    match kind
    case Secondary => Yaml
    case SecondaryAll => AllSemi
    case PrimaryAll => All
    case Primary => Yaml
  }

  /** The fresh-trigger analysis of the text up to the caret. */
  function AnalyzeFresh(cfg: Config, typed: string, upToCaret: string): Option<Fresh>
  {
    if !Continues(cfg, typed, upToCaret) then None
    else
      var word := LastWord(cfg, upToCaret);
      if IsBlank(word) || TooShort(cfg, typed, word) then None
      else Some(Fresh(KindOf(cfg, typed, upToCaret), word, CharsBack(cfg, upToCaret)))
  }

  /** The range an accepted analysis opens: the query and the trigger
      characters after it, ending at the caret. */
  function AnalyzedTrigger(cfg: Config, typed: string, upToCaret: string): Option<TriggerInfo>
  {
    match AnalyzeFresh(cfg, typed, upToCaret)
    case None => None
    case Some(fr) => Some(TriggerInfo(|upToCaret| - fr.charsBack - |fr.query|, |upToCaret|, fr.query))
  }

  /** An accepted analysis opens the range of the last word and the trigger
      characters after it; the word is not blank. */
  lemma AnalyzedTriggerOf(cfg: Config, typed: string, upToCaret: string)
    requires AnalyzeFresh(cfg, typed, upToCaret).Some?
    ensures var w, cb := LastWord(cfg, upToCaret), CharsBack(cfg, upToCaret);
      !IsBlank(w) &&
      AnalyzedTrigger(cfg, typed, upToCaret) == Some(TriggerInfo(|upToCaret| - cb - |w|, |upToCaret|, w))
  {
  }

  /** The typed character is one that may open a suggestion at all. */
  predicate IsTriggerChar(cfg: Config, typed: string)
  {
    typed == PrimaryTrigger(cfg) || typed == cfg.secondaryTrigger || typed == AllLinksTrigger
  }

  /** The fresh path: no open suggestion to narrow. `datesPhrase` is the
      trigger phrase of an enabled date-autosuggest plugin, if any. */
  function FreshStep(cfg: Config, s: Session, line: string, caret: nat, datesPhrase: Option<string>): (r: Step)
    requires 0 < caret <= |line|
    ensures r.line == line && r.ch == caret && r.session.linkMatches == 0
  {
    var typed := GetRange(line, caret - 1, caret);
    if !IsTriggerChar(cfg, typed) then Step(s.(linkMatches := 0), line, caret, None)
    else
      var s1 := s.(linkMode := Yaml, linkMatches := 0);
      if datesPhrase.Some? && Contains(line, datesPhrase.value) then Step(s1, line, caret, None)
      else WordStep(cfg, s1, line, caret)
  }

  /** The end of the fresh path: the analysis of the word before the typed
      trigger decides whether a suggestion opens, and in which mode. */
  function WordStep(cfg: Config, s: Session, line: string, caret: nat): (r: Step)
    requires 0 < caret <= |line|
    ensures r.line == line && r.ch == caret && r.session.linkMatches == s.linkMatches
  {
    var typed := GetRange(line, caret - 1, caret);
    var upToCaret := JsSubstring(line, 0, caret);
    match AnalyzeFresh(cfg, typed, upToCaret)
    case None => Step(s, line, caret, None)
    case Some(fr) =>
      Step(s.(linkMode := KindMode(fr.kind), trigCharMatch := KindTrigger(cfg, fr.kind)), line, caret,
           AnalyzedTrigger(cfg, typed, upToCaret))
  }

  /** FreshStep when the typed character is not a trigger. */
  lemma FreshStepNotTyped(cfg: Config, s: Session, line: string, caret: nat, datesPhrase: Option<string>)
    requires 0 < caret <= |line|
    requires !IsTriggerChar(cfg, GetRange(line, caret - 1, caret))
    ensures FreshStep(cfg, s, line, caret, datesPhrase) == Step(s.(linkMatches := 0), line, caret, None)
  {
  }

  /** FreshStep when the typed character is a trigger but a date phrase is on
      the line. */
  lemma FreshStepDates(cfg: Config, s: Session, line: string, caret: nat, datesPhrase: Option<string>)
    requires 0 < caret <= |line|
    requires IsTriggerChar(cfg, GetRange(line, caret - 1, caret))
    requires datesPhrase.Some? && Contains(line, datesPhrase.value)
    ensures FreshStep(cfg, s, line, caret, datesPhrase) == Step(s.(linkMode := Yaml, linkMatches := 0), line, caret, None)
  {
  }

  /** FreshStep when the typed character is a trigger and no date phrase is on
      the line: the word analysis, in the default mode with no matches. */
  lemma FreshStepWord(cfg: Config, s: Session, line: string, caret: nat, datesPhrase: Option<string>)
    requires 0 < caret <= |line|
    requires IsTriggerChar(cfg, GetRange(line, caret - 1, caret))
    requires !(datesPhrase.Some? && Contains(line, datesPhrase.value))
    ensures FreshStep(cfg, s, line, caret, datesPhrase) == WordStep(cfg, s.(linkMode := Yaml, linkMatches := 0), line, caret)
  {
  }

  /** WordStep when the analysis rejects the word. */
  lemma WordStepRejected(cfg: Config, s: Session, line: string, caret: nat)
    requires 0 < caret <= |line|
    requires AnalyzeFresh(cfg, GetRange(line, caret - 1, caret), JsSubstring(line, 0, caret)).None?
    ensures WordStep(cfg, s, line, caret) == Step(s, line, caret, None)
  {
  }

  /** WordStep when the analysis accepts the word. */
  lemma WordStepAccepted(cfg: Config, s: Session, line: string, caret: nat, fr: Fresh)
    requires 0 < caret <= |line|
    requires AnalyzeFresh(cfg, GetRange(line, caret - 1, caret), JsSubstring(line, 0, caret)) == Some(fr)
    ensures var n := |JsSubstring(line, 0, caret)|;
      WordStep(cfg, s, line, caret) ==
        Step(s.(linkMode := KindMode(fr.kind), trigCharMatch := KindTrigger(cfg, fr.kind)), line, caret,
             Some(TriggerInfo(n - fr.charsBack - |fr.query|, n, fr.query)))
  {
  }

  // ---------------------------------------------------------------------------
  // Completing a frontmatter value after `key: `

  /** The values offered after `key: `, each as its `toString` text. */
  function ScalarsToStrings(vals: seq<Scalar>): (r: seq<string>)
    ensures |r| == |vals|
    ensures forall i :: 0 <= i < |vals| ==> r[i] == ScalarToString(vals[i])
  {
    seq(|vals|, i requires 0 <= i < |vals| => ScalarToString(vals[i]))
  }

  /** The caret follows `: `: the text before it is the key looked up in the
      field-value index. */
  function YamlStep(s: Session, line: string, caret: nat): (r: Step)
    requires 2 <= caret <= |line|
    ensures r.line == line && r.ch == caret && r.session.linkMode == YamlComplete
    ensures r.info.None? ==> r.session.linkMatches == 0
  {
    var prop := JsSubstring(line, 0, caret - 2);
    var s1 := s.(linkMode := YamlComplete);
    if s.yamlKVPairs.Some? && prop in s.yamlKVPairs.value then
      Step(s1.(yamlLinks := ScalarsToStrings(s.yamlKVPairs.value[prop])), line, caret,
           Some(TriggerInfo(caret, caret, "test")))
    else Step(s1.(linkMatches := 0), line, caret, None)
  }

  // ---------------------------------------------------------------------------
  // Narrowing an open suggestion

  /** Removes the range when it holds exactly the expected text; returns the
      new line and caret. */
  function DeleteIfEquals(line: string, caret: nat, from: int, to: int, expected: string): (r: (string, nat))
    requires from <= to && caret <= |line|
    ensures r.1 <= |r.0| && r.1 <= caret
  {
    if GetRange(line, from, to) == expected then (Splice(line, from, to, ""), MapCursor(line, caret, from, to, ""))
    else (line, caret)
  }

  /** When the range holds the expected text, it is removed and a caret after
      it moves back by its length. */
  lemma DeleteIfEqualsHit(line: string, caret: nat, from: nat, to: nat, expected: string)
    requires from <= to <= caret <= |line| && line[from..to] == expected
    ensures DeleteIfEquals(line, caret, from, to, expected) == (line[..from] + line[to..], caret - (to - from))
  {
    assert GetRange(line, from, to) == expected;
  }

  /** The clean-up of the trigger characters once the session was broadened
      to all links, by the recorded trigger. */
  function BroadenDeletion(cfg: Config, trig: string, line: string, caret: nat, offset: int): (r: (string, nat))
    requires caret <= |line|
    ensures r.1 <= |r.0| && r.1 <= caret
  {
    var sec := cfg.secondaryTrigger;
    var prim := PrimaryTrigger(cfg);
    if trig == sec then (line, caret)
    else if trig == sec + AllLinksTrigger then
      DeleteIfEquals(line, caret, caret - 3 + offset, caret - 1 + offset, sec + AllLinksTrigger)
    else if trig == prim then (line, caret)
    else if trig == prim + AllLinksTrigger then
      DeleteIfEquals(line, caret, caret - 2 + offset, caret - 1 + offset, AllLinksTrigger)
    else (line, caret)
  }

  /** A comma typed right after the trigger broadens the session to all links. */
  function Broaden(cfg: Config, s: Session, lastChar: string): (r: (string, Mode, int))
  {
    var sec := cfg.secondaryTrigger;
    var prim := PrimaryTrigger(cfg);
    var (trig1, mode1, off1) :=
      if s.trigCharMatch == sec && lastChar == AllLinksTrigger then (sec + AllLinksTrigger, AllSemi, 1)
      else (s.trigCharMatch, s.linkMode, 0);
    if trig1 == prim && lastChar == AllLinksTrigger then (prim + AllLinksTrigger, All, 1)
    else (trig1, mode1, off1)
  }

  /** The continuing path: a suggestion is open (its range starts at
      `contextStart`) and had matches; the query runs from that start to the
      caret, re-read after the clean-up. */
  function ContinueStep(cfg: Config, s: Session, line: string, caret: nat, contextStart: int): (r: Step)
    requires caret <= |line|
    ensures r.info.None? ==> r.session.linkMatches == 0
  {
    var b := Broaden(cfg, s, JsSubstring(line, caret - 1, caret));
    var d := BroadenDeletion(cfg, b.0, line, caret, b.2);
    NarrowStep(s, b.0, b.1, b.2, d.0, d.1, contextStart)
  }

  /** The end of the continuing path, once the session is broadened to
      `trig` and `mode` and the clean-up left `line2` with the caret at
      `caret2`: the suggestion stays open while its query has four
      characters or more. */
  function NarrowStep(s: Session, trig: string, mode: Mode, offset: int, line2: string, caret2: nat,
                      contextStart: int): (r: Step)
    ensures r.info.None? ==> r.session.linkMatches == 0
    ensures r.session.trigCharMatch == trig && r.session.linkMode == mode && r.line == line2 && r.ch == caret2
    ensures r.info.Some? ==> r.info.value.end == caret2 - offset
  {
    var query := JsSubstring(line2, contextStart, caret2);
    var s2 := s.(trigCharMatch := trig, linkMode := mode);
    if |query| < 4 then Step(s2.(linkMatches := 0), line2, caret2, None)
    else Step(s2, line2, caret2, Some(TriggerInfo(contextStart, caret2 - offset, query)))
  }

  /** The session and the line after the continuing path, by Broaden and
      BroadenDeletion. */
  lemma ContinueStepOf(cfg: Config, s: Session, line: string, caret: nat, contextStart: int)
    requires caret <= |line|
    ensures var st := ContinueStep(cfg, s, line, caret, contextStart);
      var b := Broaden(cfg, s, JsSubstring(line, caret - 1, caret));
      st.session.trigCharMatch == b.0 && st.session.linkMode == b.1 &&
      (st.line, st.ch) == BroadenDeletion(cfg, b.0, line, caret, b.2)
  {
  }

  /** The continuing path once the broadening and the clean-up are known. */
  lemma ContinueStepIs(cfg: Config, s: Session, line: string, caret: nat, contextStart: int,
                       trig: string, mode: Mode, offset: int, line2: string, caret2: nat)
    requires caret <= |line|
    requires (trig, mode, offset) == Broaden(cfg, s, JsSubstring(line, caret - 1, caret))
    requires (line2, caret2) == BroadenDeletion(cfg, trig, line, caret, offset)
    ensures ContinueStep(cfg, s, line, caret, contextStart) == NarrowStep(s, trig, mode, offset, line2, caret2, contextStart)
  {
    var b := Broaden(cfg, s, JsSubstring(line, caret - 1, caret));
    assert (b.0, b.1, b.2) == (trig, mode, offset);
    var d := BroadenDeletion(cfg, b.0, line, caret, b.2);
    assert (d.0, d.1) == (line2, caret2);
  }

  // ---------------------------------------------------------------------------
  // The whole decision

  predicate AfterColon(line: string, caret: nat)
    requires caret <= |line|
  {
    caret > 0 && GetRange(line, caret - 2, caret) == ": "
  }

  predicate IsContinuing(s: Session, line: string, caret: nat, context: Option<int>)
    requires caret <= |line|
  {
    caret > 0 && !AfterColon(line, caret) && context.Some? && s.linkMatches > 0
  }

  predicate IsFresh(s: Session, line: string, caret: nat, context: Option<int>)
    requires caret <= |line|
  {
    caret > 0 && !AfterColon(line, caret) && !(context.Some? && s.linkMatches > 0)
  }

  /** `onTrigger(cursor, editor, file)` on the caret's line. `context` is the
      start column of the suggestion the host has open, if any. */
  function OnTriggerSpec(cfg: Config, s: Session, line: string, caret: nat, context: Option<int>,
                         datesPhrase: Option<string>): Step
    requires caret <= |line|
  {
    if caret == 0 then Step(s.(linkMatches := 0), line, caret, None)
    else if AfterColon(line, caret) then YamlStep(s, line, caret)
    else if context.Some? && s.linkMatches > 0 then ContinueStep(cfg, s, line, caret, context.value)
    else FreshStep(cfg, s, line, caret, datesPhrase)
  }

  /** Which path a keystroke takes. */
  lemma OnTriggerDispatch(cfg: Config, s: Session, line: string, caret: nat, context: Option<int>,
                          datesPhrase: Option<string>)
    requires caret <= |line|
    ensures var st := OnTriggerSpec(cfg, s, line, caret, context, datesPhrase);
      if caret == 0 then st == Step(s.(linkMatches := 0), line, caret, None)
      else if GetRange(line, caret - 2, caret) == ": " then st == YamlStep(s, line, caret)
      else if context.Some? && s.linkMatches > 0 then st == ContinueStep(cfg, s, line, caret, context.value)
      else st == FreshStep(cfg, s, line, caret, datesPhrase)
  {
  }

  /** With no open suggestion and no `key: ` before the caret, the keystroke
      takes the fresh path. */
  lemma FreshDispatch(cfg: Config, s: Session, line: string, caret: nat, context: Option<int>,
                      datesPhrase: Option<string>)
    requires caret <= |line| && IsFresh(s, line, caret, context)
    ensures OnTriggerSpec(cfg, s, line, caret, context, datesPhrase) == FreshStep(cfg, s, line, caret, datesPhrase)
  {
  }

  /** The typed character and the text up to the caret, as the editor and
      `substring` read them. */
  lemma TypedAndPrefix(line: string, caret: nat)
    requires 0 < caret <= |line|
    ensures GetRange(line, caret - 1, caret) == [line[caret - 1]]
    ensures JsSubstring(line, 0, caret) == line[..caret]
  {
  }

  // ---------------------------------------------------------------------------
  // Properties

  /** At the start of a line nothing opens, and only the match count changes. */
  lemma ColumnZeroNeverTriggers(cfg: Config, s: Session, line: string, context: Option<int>, datesPhrase: Option<string>)
    ensures var st := OnTriggerSpec(cfg, s, line, 0, context, datesPhrase);
      st.info.None? && st.session == s.(linkMatches := 0) && st.line == line && st.ch == 0
  {
  }

  /** Whenever no suggestion opens, the match count is reset. */
  lemma NullResetsMatches(cfg: Config, s: Session, line: string, caret: nat, context: Option<int>,
                          datesPhrase: Option<string>)
    requires caret <= |line|
    ensures var st := OnTriggerSpec(cfg, s, line, caret, context, datesPhrase);
      st.info.None? ==> st.session.linkMatches == 0
  {
    OnTriggerDispatch(cfg, s, line, caret, context, datesPhrase);
  }

  /** Only the continuing path edits the line; elsewhere line and caret stay. */
  lemma LineUntouchedOutsideContinuation(cfg: Config, s: Session, line: string, caret: nat, context: Option<int>,
                                         datesPhrase: Option<string>)
    requires caret <= |line|
    requires !IsContinuing(s, line, caret, context)
    ensures var st := OnTriggerSpec(cfg, s, line, caret, context, datesPhrase);
      st.line == line && st.ch == caret
  {
    OnTriggerDispatch(cfg, s, line, caret, context, datesPhrase);
  }

  /** After `key: ` the session switches to completing values; it opens an
      empty range at the caret exactly when the key is indexed, offering the
      key's values as text, and touches the value list only then. */
  lemma YamlValueCompletion(cfg: Config, s: Session, line: string, caret: nat, context: Option<int>,
                            datesPhrase: Option<string>)
    requires caret <= |line| && AfterColon(line, caret)
    ensures var st := OnTriggerSpec(cfg, s, line, caret, context, datesPhrase);
      var key := line[..caret - 2];
      caret >= 2 &&
      line[caret - 2..caret] == ": " &&
      st.session.linkMode == YamlComplete &&
      (st.info.Some? <==> s.yamlKVPairs.Some? && key in s.yamlKVPairs.value) &&
      (st.info.Some? ==>
         st.info.value == TriggerInfo(caret, caret, "test") &&
         st.session.yamlLinks == ScalarsToStrings(s.yamlKVPairs.value[key])) &&
      (st.info.None? ==> st.session.yamlLinks == s.yamlLinks)
  {
  }

  /** On the fresh path, a keystroke that is not a trigger character, or a
      line holding the date plugin's phrase, never opens a suggestion. */
  lemma FreshNeedsTriggerChar(cfg: Config, s: Session, line: string, caret: nat, context: Option<int>,
                              datesPhrase: Option<string>)
    requires caret <= |line| && IsFresh(s, line, caret, context)
    ensures var st := OnTriggerSpec(cfg, s, line, caret, context, datesPhrase);
      var typed := [line[caret - 1]];
      (!IsTriggerChar(cfg, typed) ==> st.info.None?) &&
      (datesPhrase.Some? && Contains(line, datesPhrase.value) ==> st.info.None?)
  {
    TypedAndPrefix(line, caret);
  }

  /** With the space trigger off, typing a space alone opens nothing (unless
      the space is the configured secondary trigger). */
  lemma SpaceNeverOpensWhenAutoSpaceOff(cfg: Config, s: Session, line: string, caret: nat, context: Option<int>,
                                        datesPhrase: Option<string>)
    requires caret <= |line| && IsFresh(s, line, caret, context)
    requires !cfg.autoSpace && cfg.secondaryTrigger != " " && line[caret - 1] == ' '
    ensures OnTriggerSpec(cfg, s, line, caret, context, datesPhrase).info.None?
  {
    FreshNeedsTriggerChar(cfg, s, line, caret, context, datesPhrase);
  }

  /** A comma alone is not a trigger: it opens a suggestion only right after
      the primary or secondary trigger. */
  lemma CommaNeedsPrecedingTrigger(cfg: Config, s: Session, line: string, caret: nat, context: Option<int>,
                                   datesPhrase: Option<string>)
    requires caret <= |line| && IsFresh(s, line, caret, context)
    requires line[caret - 1] == ',' && cfg.secondaryTrigger != ","
    requires !SemiAll(cfg, line[..caret]) && !SpaceAll(cfg, line[..caret])
    ensures OnTriggerSpec(cfg, s, line, caret, context, datesPhrase).info.None?
  {
    assert GetRange(line, caret - 1, caret) == ",";
    TypedAndPrefix(line, caret);
  }

  /** The kind of trigger decides the recorded trigger text and the pool mode;
      the match count always starts at zero. */
  lemma FreshKindEffects(cfg: Config, s: Session, line: string, caret: nat, context: Option<int>,
                         datesPhrase: Option<string>)
    requires caret <= |line| && IsFresh(s, line, caret, context)
    ensures var st := OnTriggerSpec(cfg, s, line, caret, context, datesPhrase);
      var typed := GetRange(line, caret - 1, caret);
      var kind := KindOf(cfg, typed, line[..caret]);
      st.info.Some? ==>
        st.session == s.(linkMode := KindMode(kind), linkMatches := 0, trigCharMatch := KindTrigger(cfg, kind))
  {
    TypedAndPrefix(line, caret);
  }

  /** An accepted word is never blank; after the primary trigger or the comma
      it has at least three letters, and exactly three only when upper-case. */
  lemma FreshQueryRules(cfg: Config, s: Session, line: string, caret: nat, context: Option<int>,
                        datesPhrase: Option<string>)
    requires caret <= |line| && IsFresh(s, line, caret, context)
    ensures var st := OnTriggerSpec(cfg, s, line, caret, context, datesPhrase);
      var typed := [line[caret - 1]];
      st.info.Some? ==>
        !IsBlank(st.info.value.query) &&
        ((typed == PrimaryTrigger(cfg) || typed == AllLinksTrigger) ==>
           |st.info.value.query| >= 3 && (|st.info.value.query| == 3 ==> Upper(st.info.value.query) == st.info.value.query))
  {
    TypedAndPrefix(line, caret);
  }

  /** When the fresh path opens a suggestion: exactly when a trigger
      character was typed, no date phrase is on the line and the analysis of
      the text up to the caret accepts a word. The range then runs from the
      start of that word to the caret, the query is the word, and the session
      records the trigger's kind with no matches yet. */
  lemma FreshOutcome(cfg: Config, s: Session, line: string, caret: nat, context: Option<int>,
                     datesPhrase: Option<string>)
    requires caret <= |line| && IsFresh(s, line, caret, context)
    ensures var st := OnTriggerSpec(cfg, s, line, caret, context, datesPhrase);
      var typed := [line[caret - 1]];
      var fr := AnalyzeFresh(cfg, typed, line[..caret]);
      var opens := IsTriggerChar(cfg, typed) && !(datesPhrase.Some? && Contains(line, datesPhrase.value)) && fr.Some?;
      (st.info.Some? <==> opens) &&
      (opens ==>
         st.info == Some(TriggerInfo(caret - fr.value.charsBack - |fr.value.query|, caret, fr.value.query)) &&
         st.session == s.(linkMode := KindMode(fr.value.kind), linkMatches := 0,
                          trigCharMatch := KindTrigger(cfg, fr.value.kind)))
  {
    var typed, upToCaret := [line[caret - 1]], line[..caret];
    var dates := datesPhrase.Some? && Contains(line, datesPhrase.value);
    match AnalyzeFresh(cfg, typed, upToCaret)
    case Some(fr) =>
      if IsTriggerChar(cfg, typed) && !dates {
        FreshAccepted(cfg, s, line, caret, context, datesPhrase, fr);
      } else {
        FreshRejected(cfg, s, line, caret, context, datesPhrase);
      }
    case None =>
      FreshRejected(cfg, s, line, caret, context, datesPhrase);
  }

  /** A fresh suggestion's range is the analysed range of the text up to the
      caret, once a trigger was typed away from the date plugin's phrase. */
  lemma FreshInfoIsAnalyzed(cfg: Config, s: Session, line: string, caret: nat, context: Option<int>,
                            datesPhrase: Option<string>)
    requires caret <= |line| && IsFresh(s, line, caret, context)
    ensures var typed := [line[caret - 1]];
      OnTriggerSpec(cfg, s, line, caret, context, datesPhrase).info ==
        if IsTriggerChar(cfg, typed) && !(datesPhrase.Some? && Contains(line, datesPhrase.value))
        then AnalyzedTrigger(cfg, typed, line[..caret])
        else None
  {
    var typed, upToCaret := [line[caret - 1]], line[..caret];
    var dates := datesPhrase.Some? && Contains(line, datesPhrase.value);
    match AnalyzeFresh(cfg, typed, upToCaret)
    case Some(fr) =>
      assert |upToCaret| == caret;
      assert AnalyzedTrigger(cfg, typed, upToCaret) == Some(TriggerInfo(caret - fr.charsBack - |fr.query|, caret, fr.query));
      if IsTriggerChar(cfg, typed) && !dates {
        FreshAccepted(cfg, s, line, caret, context, datesPhrase, fr);
      } else {
        FreshRejected(cfg, s, line, caret, context, datesPhrase);
      }
    case None =>
      assert AnalyzedTrigger(cfg, typed, upToCaret) == None;
      FreshRejected(cfg, s, line, caret, context, datesPhrase);
  }

  /** A fresh keystroke that is not a trigger, that meets the date plugin's
      phrase or whose word is rejected opens nothing. */
  lemma FreshRejected(cfg: Config, s: Session, line: string, caret: nat, context: Option<int>,
                      datesPhrase: Option<string>)
    requires caret <= |line| && IsFresh(s, line, caret, context)
    requires !(IsTriggerChar(cfg, [line[caret - 1]]) && !(datesPhrase.Some? && Contains(line, datesPhrase.value)) &&
               AnalyzeFresh(cfg, [line[caret - 1]], line[..caret]).Some?)
    ensures OnTriggerSpec(cfg, s, line, caret, context, datesPhrase).info.None?
  {
    var typed, upToCaret := GetRange(line, caret - 1, caret), JsSubstring(line, 0, caret);
    TypedAndPrefix(line, caret);
    FreshDispatch(cfg, s, line, caret, context, datesPhrase);
    if !IsTriggerChar(cfg, typed) {
      FreshStepNotTyped(cfg, s, line, caret, datesPhrase);
    } else if datesPhrase.Some? && Contains(line, datesPhrase.value) {
      FreshStepDates(cfg, s, line, caret, datesPhrase);
    } else {
      FreshStepWord(cfg, s, line, caret, datesPhrase);
      WordStepRejected(cfg, s.(linkMode := Yaml, linkMatches := 0), line, caret);
    }
  }

  /** After the secondary trigger the length rules do not apply: every word
      that is not blank opens a suggestion, one or two letters included. */
  lemma SecondaryAcceptsAnyWord(cfg: Config, s: Session, line: string, caret: nat, context: Option<int>,
                                datesPhrase: Option<string>)
    requires caret <= |line| && IsFresh(s, line, caret, context)
    requires cfg.secondaryTrigger == [line[caret - 1]]
    requires cfg.secondaryTrigger != PrimaryTrigger(cfg) && cfg.secondaryTrigger != AllLinksTrigger
    requires !(datesPhrase.Some? && Contains(line, datesPhrase.value))
    requires !IsBlank(LastWord(cfg, line[..caret]))
    ensures var st := OnTriggerSpec(cfg, s, line, caret, context, datesPhrase);
      var w := LastWord(cfg, line[..caret]);
      st.info == Some(TriggerInfo(caret - CharsBack(cfg, line[..caret]) - |w|, caret, w)) &&
      st.session.trigCharMatch == cfg.secondaryTrigger
  {
    var typed, upToCaret := [line[caret - 1]], line[..caret];
    var w, cb := LastWord(cfg, upToCaret), CharsBack(cfg, upToCaret);
    assert IsTriggerChar(cfg, typed) && Continues(cfg, typed, upToCaret);
    assert !TooShort(cfg, typed, w);
    assert KindOf(cfg, typed, upToCaret) == Secondary;
    assert AnalyzeFresh(cfg, typed, upToCaret) == Some(Fresh(Secondary, w, cb));
    FreshAccepted(cfg, s, line, caret, context, datesPhrase, Fresh(Secondary, w, cb));
  }

  /** The fresh path once the analysis has accepted a word. */
  lemma FreshAccepted(cfg: Config, s: Session, line: string, caret: nat, context: Option<int>,
                      datesPhrase: Option<string>, fr: Fresh)
    requires caret <= |line| && IsFresh(s, line, caret, context)
    requires IsTriggerChar(cfg, [line[caret - 1]]) && !(datesPhrase.Some? && Contains(line, datesPhrase.value))
    requires AnalyzeFresh(cfg, [line[caret - 1]], line[..caret]) == Some(fr)
    ensures OnTriggerSpec(cfg, s, line, caret, context, datesPhrase) ==
      Step(s.(linkMode := KindMode(fr.kind), linkMatches := 0, trigCharMatch := KindTrigger(cfg, fr.kind)),
           line, caret, Some(TriggerInfo(caret - fr.charsBack - |fr.query|, caret, fr.query)))
  {
    var typed, upToCaret := GetRange(line, caret - 1, caret), JsSubstring(line, 0, caret);
    TypedAndPrefix(line, caret);
    var s1 := s.(linkMode := Yaml, linkMatches := 0);
    FreshDispatch(cfg, s, line, caret, context, datesPhrase);
    FreshStepWord(cfg, s, line, caret, datesPhrase);
    assert |upToCaret| == caret;
    WordStepAccepted(cfg, s1, line, caret, fr);
    var s2 := s1.(linkMode := KindMode(fr.kind), trigCharMatch := KindTrigger(cfg, fr.kind));
    assert s2 == s.(linkMode := KindMode(fr.kind), linkMatches := 0, trigCharMatch := KindTrigger(cfg, fr.kind));
    assert WordStep(cfg, s1, line, caret) ==
      Step(s2, line, caret, Some(TriggerInfo(caret - fr.charsBack - |fr.query|, caret, fr.query)));
  }

  /** With the default settings, the analysis of `ab;` accepts the two-letter
      word before the semicolon; the suggestion then covers the word and the
      semicolon (FreshOutcome). */
  lemma ShortWordBeforeSemicolon(line: string)
    requires |line| == 3 && line[0] == 'a' && line[1] == 'b' && line[2] == ';'
    ensures AnalyzeFresh(DefaultConfig, line[2..], line) == Some(Fresh(Secondary, line[..2], 1))
    ensures AnalyzedTrigger(DefaultConfig, line[2..], line) == Some(TriggerInfo(0, 3, line[..2]))
  {
    AbWord(line);
    assert line[2..] == DefaultConfig.secondaryTrigger;
  }

  /** The word part of ShortWordBeforeSemicolon: `ab;` is a single trigger
      after the non-blank word `ab`. */
  lemma AbWord(line: string)
    requires |line| == 3 && line[0] == 'a' && line[1] == 'b' && line[2] == ';'
    ensures !Doubled(DefaultConfig, line) && LastWord(DefaultConfig, line) == line[..2] && !IsBlank(line[..2])
  {
    AbNotDoubled(line);
    var body := JsSubstring(line, 0, 2);
    assert body == line[..2];
    SplitWithoutSeparator(body, ' ');
    assert !IsBlank(body) by { assert !IsJsWhitespace(body[0]); }
  }

  /** `ab;` ends in neither a doubled trigger nor a trigger and the comma. */
  lemma AbNotDoubled(line: string)
    requires |line| == 3 && line[0] == 'a' && line[1] == 'b' && line[2] == ';'
    ensures !Doubled(DefaultConfig, line)
  {
    var cfg := DefaultConfig;
    var two := line[1..3];
    assert TwoChars(line) == two;
    assert two != ";;" by { assert ";;"[0] == ';'; }
    assert |PrimaryTrigger(cfg) + PrimaryTrigger(cfg)| != 2;
    assert |PrimaryTrigger(cfg) + AllLinksTrigger| != 2;
  }

  /** The range's query is whole words of the text: it starts the text or
      follows a space, and holds at most two words. */
  predicate StartsWholeWords(text: string, info: Option<TriggerInfo>)
  {
    info.Some? ==>
      var t := info.value;
      0 <= t.start <= |text| && (t.start == 0 || text[t.start - 1] == ' ') && |Split(t.query, ' ')| <= 2
  }

  /** An accepted analysis opens a range of whole words of the text it
      analysed. */
  lemma AnalyzedTriggerIsWholeWords(cfg: Config, typed: string, upToCaret: string)
    ensures StartsWholeWords(upToCaret, AnalyzedTrigger(cfg, typed, upToCaret))
  {
    var info := AnalyzedTrigger(cfg, typed, upToCaret);
    if info.Some? {
      var w, cb := LastWord(cfg, upToCaret), CharsBack(cfg, upToCaret);
      AnalyzedTriggerOf(cfg, typed, upToCaret);
      assert info == Some(TriggerInfo(|upToCaret| - cb - |w|, |upToCaret|, w)) == Some(WordInfo(cfg, upToCaret));
      LastWordInPlace(cfg, upToCaret);
    }
  }

  /** The range the trigger analysis gives the last word: from its first
      character to the caret. */
  function WordInfo(cfg: Config, upToCaret: string): (r: TriggerInfo)
    ensures r.query == LastWord(cfg, upToCaret) && r.end == |upToCaret|
  {
    TriggerInfo(|upToCaret| - CharsBack(cfg, upToCaret) - |LastWord(cfg, upToCaret)|, |upToCaret|, LastWord(cfg, upToCaret))
  }

  /** Whole words of the text up to the caret are whole words of the line. */
  lemma StartsWholeWordsInLine(line: string, caret: nat, info: Option<TriggerInfo>)
    requires caret <= |line| && StartsWholeWords(line[..caret], info)
    ensures StartsWholeWords(line, info)
  {
    if info.Some? && info.value.start > 0 {
      assert line[..caret][info.value.start - 1] == line[info.value.start - 1];
    }
  }

  /** A fresh query is whole words: it starts the line or follows a space,
      and holds at most two words. */
  lemma FreshQueryIsWholeWords(cfg: Config, s: Session, line: string, caret: nat, context: Option<int>,
                               datesPhrase: Option<string>)
    requires caret <= |line| && IsFresh(s, line, caret, context)
    ensures StartsWholeWords(line, OnTriggerSpec(cfg, s, line, caret, context, datesPhrase).info)
  {
    var st := OnTriggerSpec(cfg, s, line, caret, context, datesPhrase);
    FreshInfoIsAnalyzed(cfg, s, line, caret, context, datesPhrase);
    if st.info.Some? {
      AnalyzedTriggerIsWholeWords(cfg, [line[caret - 1]], line[..caret]);
      StartsWholeWordsInLine(line, caret, st.info);
    }
  }

  /** An accepted analysis ends with the trigger text its kind records. */
  lemma AnalyzedTriggerIsTyped(cfg: Config, typed: string, upToCaret: string)
    requires |upToCaret| >= 1 && typed == [upToCaret[|upToCaret| - 1]]
    requires AnalyzeFresh(cfg, typed, upToCaret).Some?
    ensures EndsWith(upToCaret, KindTrigger(cfg, AnalyzeFresh(cfg, typed, upToCaret).value.kind))
  {
    var two := TwoChars(upToCaret);
    TwoCharsEnd(upToCaret);
    LastCharEnds(upToCaret);
    var kind := KindOf(cfg, typed, upToCaret);
    assert AnalyzeFresh(cfg, typed, upToCaret).value.kind == kind;
    if typed == cfg.secondaryTrigger {
      assert KindTrigger(cfg, kind) == typed;
    } else if SemiAll(cfg, upToCaret) {
      assert KindTrigger(cfg, kind) == two;
    } else if SpaceAll(cfg, upToCaret) {
      assert KindTrigger(cfg, kind) == two;
    } else {
      assert KindTrigger(cfg, kind) == typed;
    }
  }

  /** The text before the caret ends with the trigger text a fresh suggestion
      records. */
  lemma FreshTriggerIsTyped(cfg: Config, s: Session, line: string, caret: nat, context: Option<int>,
                            datesPhrase: Option<string>)
    requires caret <= |line| && IsFresh(s, line, caret, context)
    ensures var st := OnTriggerSpec(cfg, s, line, caret, context, datesPhrase);
      st.info.Some? ==> EndsWith(line[..caret], st.session.trigCharMatch)
  {
    var typed, upToCaret := [line[caret - 1]], line[..caret];
    var dates := datesPhrase.Some? && Contains(line, datesPhrase.value);
    var analysis := AnalyzeFresh(cfg, typed, upToCaret);
    if IsTriggerChar(cfg, typed) && !dates && analysis.Some? {
      FreshAccepted(cfg, s, line, caret, context, datesPhrase, analysis.value);
      AnalyzedTriggerIsTyped(cfg, typed, upToCaret);
    } else {
      FreshRejected(cfg, s, line, caret, context, datesPhrase);
    }
  }

  /** The words before the trigger end where the trigger characters begin,
      and start the line or follow a space: the query is whole words. */
  lemma LastWordIsSuffix(cfg: Config, upToCaret: string)
    requires CharsBack(cfg, upToCaret) <= |upToCaret|
    ensures var body := upToCaret[..|upToCaret| - CharsBack(cfg, upToCaret)];
      EndsWithPiece(body, LastWord(cfg, upToCaret), ' ')
  {
    if Doubled(cfg, upToCaret) {
      LastWordAfterPair(cfg, upToCaret);
    } else {
      LastWordAfterSingle(cfg, upToCaret);
    }
  }

  /** After a single trigger the word is the last piece of the text before it. */
  lemma LastWordAfterSingle(cfg: Config, upToCaret: string)
    requires !Doubled(cfg, upToCaret) && 1 <= |upToCaret|
    ensures EndsWithPiece(upToCaret[..|upToCaret| - 1], LastWord(cfg, upToCaret), ' ')
  {
    var body := upToCaret[..|upToCaret| - 1];
    assert JsSubstring(upToCaret, 0, |upToCaret| - 1) == body;
    assert LastWord(cfg, upToCaret) == Last(Split(body, ' '));
    LastPieceIsSuffix(body, ' ');
  }

  /** After two trigger characters the word, or the two words, end the text
      before them. */
  lemma LastWordAfterPair(cfg: Config, upToCaret: string)
    requires Doubled(cfg, upToCaret) && 2 <= |upToCaret|
    ensures EndsWithPiece(upToCaret[..|upToCaret| - 2], LastWord(cfg, upToCaret), ' ')
  {
    var w := LastWord(cfg, upToCaret);
    var body := upToCaret[..|upToCaret| - 2];
    assert JsSubstring(upToCaret, 0, |upToCaret| - 2) == body;
    var ws := Split(body, ' ');
    if SemiAll(cfg, upToCaret) || SpaceAll(cfg, upToCaret) {
      assert w == Last(ws);
      LastPieceIsSuffix(body, ' ');
    } else if |ws| <= 1 {
      assert w == ws[0];
      SplitSinglePiece(body, ' ');
    } else {
      assert w == ws[|ws| - 2] + [' '] + ws[|ws| - 1];
      LastTwoPiecesAreSuffix(body, ' ');
    }
  }

  /** Without room for the trigger characters there is no word before them. */
  lemma RoomForWord(cfg: Config, upToCaret: string)
    ensures CharsBack(cfg, upToCaret) <= |upToCaret| || LastWord(cfg, upToCaret) == []
  {
    var cb := CharsBack(cfg, upToCaret);
    if cb > |upToCaret| {
      assert JsSubstring(upToCaret, 0, |upToCaret| - 2) == [];
    }
  }

  /** The trigger's range ends at the caret and covers exactly its query
      followed by one or two trigger characters. */
  predicate CoversQuery(line: string, caret: nat, info: Option<TriggerInfo>)
    requires caret <= |line|
  {
    info.Some? ==>
      var t := info.value;
      t.end == caret && 0 <= t.start && t.start + |t.query| < caret && caret - (t.start + |t.query|) <= 2 &&
      line[t.start..t.start + |t.query|] == t.query
  }

  /** An accepted analysis opens a range covering its query and the trigger
      characters, in the text it analysed. */
  lemma AnalyzedTriggerCovers(cfg: Config, typed: string, upToCaret: string, caret: nat)
    requires caret == |upToCaret|
    ensures CoversQuery(upToCaret, caret, AnalyzedTrigger(cfg, typed, upToCaret))
  {
    var info := AnalyzedTrigger(cfg, typed, upToCaret);
    if info.Some? {
      var w, cb := LastWord(cfg, upToCaret), CharsBack(cfg, upToCaret);
      AnalyzedTriggerOf(cfg, typed, upToCaret);
      assert info == Some(TriggerInfo(|upToCaret| - cb - |w|, |upToCaret|, w)) == Some(WordInfo(cfg, upToCaret));
      LastWordInPlace(cfg, upToCaret);
    }
  }

  /** A non-empty word before the trigger sits right before the trigger
      characters in the text it was taken from, at its start or after a
      space. */
  lemma LastWordInPlace(cfg: Config, upToCaret: string)
    requires LastWord(cfg, upToCaret) != []
    ensures var w, n := LastWord(cfg, upToCaret), |upToCaret| - CharsBack(cfg, upToCaret);
      |w| <= n && upToCaret[n - |w|..n] == w && (|w| == n || upToCaret[n - |w| - 1] == ' ')
    ensures StartsWholeWords(upToCaret, Some(WordInfo(cfg, upToCaret)))
    ensures CoversQuery(upToCaret, |upToCaret|, Some(WordInfo(cfg, upToCaret)))
  {
    var n, w := |upToCaret| - CharsBack(cfg, upToCaret), LastWord(cfg, upToCaret);
    RoomForWord(cfg, upToCaret);
    LastWordIsSuffix(cfg, upToCaret);
    LastWordAtMostTwoWords(cfg, upToCaret);
    assert WordInfo(cfg, upToCaret) == TriggerInfo(n - |w|, |upToCaret|, w);
    WordBeforeTriggerChars(upToCaret, n, w);
  }

  /** A word of at most two words that is the last space-separated piece of
      the text up to n, one or two characters before its end, sits right
      before them, at the text's start or after a space: a range of whole
      words covering it. */
  lemma WordBeforeTriggerChars(text: string, n: nat, w: string)
    requires n < |text| <= n + 2 && EndsWithPiece(text[..n], w, ' ')
    requires |Split(w, ' ')| <= 2
    ensures |w| <= n && text[n - |w|..n] == w && (|w| == n || text[n - |w| - 1] == ' ')
    ensures var info := Some(TriggerInfo(n - |w|, |text|, w));
      StartsWholeWords(text, info) && CoversQuery(text, |text|, info)
  {
    EndsWithPieceAt(text, n, w, ' ');
  }

  /** A range covering the query in the text up to the caret covers it in
      the whole line. */
  lemma CoversQueryInLine(line: string, caret: nat, info: Option<TriggerInfo>)
    requires caret <= |line| && CoversQuery(line[..caret], caret, info)
    ensures CoversQuery(line, caret, info)
  {
    if info.Some? {
      var t := info.value;
      assert line[..caret][t.start..t.start + |t.query|] == line[t.start..t.start + |t.query|];
    }
  }

  /** A fresh suggestion covers exactly the query and the one or two trigger
      characters after it, ending at the caret. */
  lemma FreshRangeCoversQuery(cfg: Config, s: Session, line: string, caret: nat, context: Option<int>,
                              datesPhrase: Option<string>)
    requires caret <= |line| && IsFresh(s, line, caret, context)
    ensures CoversQuery(line, caret, OnTriggerSpec(cfg, s, line, caret, context, datesPhrase).info)
  {
    var st := OnTriggerSpec(cfg, s, line, caret, context, datesPhrase);
    FreshInfoIsAnalyzed(cfg, s, line, caret, context, datesPhrase);
    if st.info.Some? {
      AnalyzedTriggerCovers(cfg, [line[caret - 1]], line[..caret], caret);
      CoversQueryInLine(line, caret, st.info);
    }
  }

  /** A query ending in a single trigger, or in a trigger and the comma, is
      one word: it holds no space. */
  lemma FreshSingleWordQuery(cfg: Config, upToCaret: string)
    requires !Doubled(cfg, upToCaret) || SemiAll(cfg, upToCaret) || SpaceAll(cfg, upToCaret)
    ensures ' ' !in LastWord(cfg, upToCaret)
  {
    var n := |upToCaret| - CharsBack(cfg, upToCaret);
    var ws := Split(JsSubstring(upToCaret, 0, n), ' ');
    SplitPiecesFree(JsSubstring(upToCaret, 0, n), ' ');
    assert Last(ws) == ws[|ws| - 1];
  }

  /** The query is at most two words: two only after a doubled trigger. */
  lemma LastWordAtMostTwoWords(cfg: Config, upToCaret: string)
    ensures |Split(LastWord(cfg, upToCaret), ' ')| <= 2
  {
    var w := LastWord(cfg, upToCaret);
    if Doubled(cfg, upToCaret) {
      var body := JsSubstring(upToCaret, 0, |upToCaret| - 2);
      var ws := Split(body, ' ');
      SplitPiecesFree(body, ' ');
      if SemiAll(cfg, upToCaret) || SpaceAll(cfg, upToCaret) {
        assert w == ws[|ws| - 1];
        SplitWithoutSeparator(w, ' ');
      } else if |ws| <= 1 {
        assert w == ws[0];
        SplitWithoutSeparator(w, ' ');
      } else {
        assert w == ws[|ws| - 2] + [' '] + ws[|ws| - 1];
        SplitAtSeparator(ws[|ws| - 2], ws[|ws| - 1], ' ');
      }
    } else {
      var body := JsSubstring(upToCaret, 0, |upToCaret| - 1);
      var ws := Split(body, ' ');
      SplitPiecesFree(body, ' ');
      assert w == ws[|ws| - 1];
      SplitWithoutSeparator(w, ' ');
    }
  }

  /** A comma typed right after the secondary trigger broadens the open
      session to all links and removes the two trigger characters; the range
      then ends one column before the caret. */
  lemma BroadenAfterSecondary(cfg: Config, s: Session, line: string, caret: nat, context: Option<int>,
                              datesPhrase: Option<string>)
    requires caret <= |line| && IsContinuing(s, line, caret, context)
    requires s.trigCharMatch == cfg.secondaryTrigger && line[caret - 1] == ','
    ensures var st := OnTriggerSpec(cfg, s, line, caret, context, datesPhrase);
      st.session.trigCharMatch == cfg.secondaryTrigger + AllLinksTrigger && st.session.linkMode == AllSemi &&
      (st.info.Some? ==> st.info.value.end == st.ch - 1) &&
      (caret >= 2 && line[caret - 2..caret] == cfg.secondaryTrigger + AllLinksTrigger ==>
         st.line == line[..caret - 2] + line[caret..] && st.ch == caret - 2)
  {
    var prim, sec := PrimaryTrigger(cfg), cfg.secondaryTrigger;
    var lastChar := JsSubstring(line, caret - 1, caret);
    assert lastChar == AllLinksTrigger;
    assert sec + AllLinksTrigger != sec;
    assert sec + AllLinksTrigger != prim by {
      assert (sec + AllLinksTrigger)[|sec|] == ',';
    }
    var b := Broaden(cfg, s, lastChar);
    assert b == (sec + AllLinksTrigger, AllSemi, 1);
    var d := BroadenDeletion(cfg, b.0, line, caret, b.2);
    assert d == DeleteIfEquals(line, caret, caret - 2, caret, sec + AllLinksTrigger);
    OnTriggerDispatch(cfg, s, line, caret, context, datesPhrase);
    ContinueStepIs(cfg, s, line, caret, context.value, b.0, b.1, b.2, d.0, d.1);
    if caret >= 2 && line[caret - 2..caret] == sec + AllLinksTrigger {
      DeleteIfEqualsHit(line, caret, caret - 2, caret, sec + AllLinksTrigger);
    }
  }

  /** A comma typed right after the primary trigger broadens the open session
      to all links and removes the comma only, the range ending one column
      before the caret (when the secondary trigger is
      distinct, so the comparisons cannot be confused). */
  lemma BroadenAfterPrimary(cfg: Config, s: Session, line: string, caret: nat, context: Option<int>,
                            datesPhrase: Option<string>)
    requires caret <= |line| && IsContinuing(s, line, caret, context)
    requires cfg.secondaryTrigger != PrimaryTrigger(cfg) && cfg.secondaryTrigger != PrimaryTrigger(cfg) + AllLinksTrigger
    requires s.trigCharMatch == PrimaryTrigger(cfg) && line[caret - 1] == ','
    ensures var st := OnTriggerSpec(cfg, s, line, caret, context, datesPhrase);
      st.session.trigCharMatch == PrimaryTrigger(cfg) + AllLinksTrigger && st.session.linkMode == All &&
      (st.info.Some? ==> st.info.value.end == st.ch - 1) &&
      st.line == line[..caret - 1] + line[caret..] && st.ch == caret - 1
  {
    var prim, sec := PrimaryTrigger(cfg), cfg.secondaryTrigger;
    var lastChar := JsSubstring(line, caret - 1, caret);
    assert lastChar == AllLinksTrigger;
    assert (prim + AllLinksTrigger)[..|prim|] == prim;
    assert (sec + AllLinksTrigger)[..|sec|] == sec;
    var b := Broaden(cfg, s, lastChar);
    assert b == (prim + AllLinksTrigger, All, 1);
    var d := BroadenDeletion(cfg, b.0, line, caret, b.2);
    assert d == DeleteIfEquals(line, caret, caret - 1, caret, AllLinksTrigger);
    DeleteIfEqualsHit(line, caret, caret - 1, caret, AllLinksTrigger);
    OnTriggerDispatch(cfg, s, line, caret, context, datesPhrase);
    ContinueStepIs(cfg, s, line, caret, context.value, b.0, b.1, b.2, d.0, d.1);
  }

  /** While a suggestion is open, the query grows from its start to the caret;
      it stays open while that text has at least four characters. */
  lemma ContinuingQuery(cfg: Config, s: Session, line: string, caret: nat, context: Option<int>,
                        datesPhrase: Option<string>)
    requires caret <= |line| && IsContinuing(s, line, caret, context)
    ensures var st := OnTriggerSpec(cfg, s, line, caret, context, datesPhrase);
      var query := JsSubstring(st.line, context.value, st.ch);
      (st.info.Some? <==> |query| >= 4) &&
      (st.info.Some? ==> st.info.value.start == context.value && st.info.value.query == query &&
                         st.session.linkMatches == s.linkMatches &&
                         st.info.value.end == if st.session.trigCharMatch == s.trigCharMatch then st.ch else st.ch - 1) &&
      (st.info.None? ==> st.session.linkMatches == 0)
  {
    var b := Broaden(cfg, s, JsSubstring(line, caret - 1, caret));
    var d := BroadenDeletion(cfg, b.0, line, caret, b.2);
    OnTriggerDispatch(cfg, s, line, caret, context, datesPhrase);
    ContinueStepIs(cfg, s, line, caret, context.value, b.0, b.1, b.2, d.0, d.1);
    BroadenOffset(cfg, s, JsSubstring(line, caret - 1, caret));
  }

  /** Broadening shifts the range end by one exactly when it changes the
      recorded trigger. */
  lemma BroadenOffset(cfg: Config, s: Session, lastChar: string)
    ensures var b := Broaden(cfg, s, lastChar);
      (b.2 == 0 || b.2 == 1) && (b.2 == 0 <==> b.0 == s.trigCharMatch)
  {
    var sec, prim := cfg.secondaryTrigger, PrimaryTrigger(cfg);
    assert |sec + AllLinksTrigger| == |sec| + 1;
    assert |prim + AllLinksTrigger| == |prim| + 1;
  }

  // ---------------------------------------------------------------------------
  // The clean-up on every keystroke of a broadened session

  /** After the secondary trigger and the comma, the pair is removed when it
      stands in the two columns ending `1 - offset` before the caret, and the
      line is left alone otherwise. */
  lemma CleanUpPair(cfg: Config, line: string, caret: nat, offset: int)
    requires caret <= |line| && 0 <= offset <= 1
    ensures var pair := cfg.secondaryTrigger + AllLinksTrigger;
      var from, to := caret - 3 + offset, caret - 1 + offset;
      var r := BroadenDeletion(cfg, pair, line, caret, offset);
      (0 <= from && line[from..to] == pair ==> r == (line[..from] + line[to..], caret - 2)) &&
      (0 <= from && line[from..to] != pair ==> r == (line, caret))
  {
    var pair := cfg.secondaryTrigger + AllLinksTrigger;
    var from, to := caret - 3 + offset, caret - 1 + offset;
    assert pair != cfg.secondaryTrigger by { assert |pair| == |cfg.secondaryTrigger| + 1; }
    if 0 <= from {
      if line[from..to] == pair {
        DeleteIfEqualsHit(line, caret, from, to, pair);
      } else {
        assert GetRange(line, from, to) == line[from..to];
      }
    }
  }

  /** After the primary trigger and the comma, a comma in the column ending
      `1 - offset` before the caret is removed, and the line is left alone
      otherwise (when the trigger texts cannot be confused). */
  lemma CleanUpComma(cfg: Config, line: string, caret: nat, offset: int)
    requires caret <= |line| && 0 <= offset <= 1
    requires PrimaryTrigger(cfg) != cfg.secondaryTrigger && PrimaryTrigger(cfg) + AllLinksTrigger != cfg.secondaryTrigger
    ensures var from := caret - 2 + offset;
      var r := BroadenDeletion(cfg, PrimaryTrigger(cfg) + AllLinksTrigger, line, caret, offset);
      (0 <= from && line[from] == ',' ==> r == (line[..from] + line[from + 1..], caret - 1)) &&
      (0 <= from && line[from] != ',' ==> r == (line, caret))
  {
    var sec, prim := cfg.secondaryTrigger, PrimaryTrigger(cfg);
    var from := caret - 2 + offset;
    assert prim + AllLinksTrigger != sec + AllLinksTrigger by {
      if |prim| == |sec| { assert (prim + AllLinksTrigger)[..|prim|] == prim; assert (sec + AllLinksTrigger)[..|sec|] == sec; }
    }
    assert prim + AllLinksTrigger != prim by { assert |prim + AllLinksTrigger| == |prim| + 1; }
    if 0 <= from {
      assert line[from..from + 1] == [line[from]];
      if line[from] == ',' {
        DeleteIfEqualsHit(line, caret, from, from + 1, AllLinksTrigger);
      } else {
        assert GetRange(line, from, from + 1) == [line[from]];
      }
    }
  }

  /** In a session broadened by the primary trigger and the comma, every later
      keystroke removes a comma standing just before the typed character, and
      the range then ends at the caret. */
  lemma CommaRemovedOnLaterKeystroke(cfg: Config, s: Session, line: string, caret: nat, context: Option<int>,
                                     datesPhrase: Option<string>)
    requires caret <= |line| && IsContinuing(s, line, caret, context)
    requires PrimaryTrigger(cfg) != cfg.secondaryTrigger && PrimaryTrigger(cfg) + AllLinksTrigger != cfg.secondaryTrigger
    requires s.trigCharMatch == PrimaryTrigger(cfg) + AllLinksTrigger
    ensures var st := OnTriggerSpec(cfg, s, line, caret, context, datesPhrase);
      st.session.trigCharMatch == s.trigCharMatch && st.session.linkMode == s.linkMode &&
      (caret >= 2 && line[caret - 2] == ',' ==> st.line == line[..caret - 2] + line[caret - 1..] && st.ch == caret - 1) &&
      (caret >= 2 && line[caret - 2] != ',' ==> st.line == line && st.ch == caret) &&
      (st.info.Some? ==> st.info.value.end == st.ch)
  {
    var b := Broaden(cfg, s, JsSubstring(line, caret - 1, caret));
    assert s.trigCharMatch != cfg.secondaryTrigger;
    assert s.trigCharMatch != PrimaryTrigger(cfg) by {
      assert |s.trigCharMatch| == |PrimaryTrigger(cfg)| + 1;
    }
    assert b == (s.trigCharMatch, s.linkMode, 0);
    var d := BroadenDeletion(cfg, b.0, line, caret, b.2);
    OnTriggerDispatch(cfg, s, line, caret, context, datesPhrase);
    ContinueStepIs(cfg, s, line, caret, context.value, b.0, b.1, b.2, d.0, d.1);
    CleanUpComma(cfg, line, caret, 0);
  }

  /** In a session broadened by the secondary trigger and the comma, every
      later keystroke removes the pair when it stands in the two columns
      before the typed character, and the range then ends at the caret. */
  lemma PairRemovedOnLaterKeystroke(cfg: Config, s: Session, line: string, caret: nat, context: Option<int>,
                                    datesPhrase: Option<string>)
    requires caret <= |line| && IsContinuing(s, line, caret, context)
    requires cfg.secondaryTrigger + AllLinksTrigger != PrimaryTrigger(cfg)
    requires s.trigCharMatch == cfg.secondaryTrigger + AllLinksTrigger
    ensures var st := OnTriggerSpec(cfg, s, line, caret, context, datesPhrase);
      st.session.trigCharMatch == s.trigCharMatch && st.session.linkMode == s.linkMode &&
      (caret >= 3 && line[caret - 3..caret - 1] == s.trigCharMatch ==>
         st.line == line[..caret - 3] + line[caret - 1..] && st.ch == caret - 2) &&
      (caret >= 3 && line[caret - 3..caret - 1] != s.trigCharMatch ==> st.line == line && st.ch == caret) &&
      (st.info.Some? ==> st.info.value.end == st.ch)
  {
    var b := Broaden(cfg, s, JsSubstring(line, caret - 1, caret));
    assert s.trigCharMatch != cfg.secondaryTrigger by {
      assert |s.trigCharMatch| == |cfg.secondaryTrigger| + 1;
    }
    assert b == (s.trigCharMatch, s.linkMode, 0);
    var d := BroadenDeletion(cfg, b.0, line, caret, b.2);
    OnTriggerDispatch(cfg, s, line, caret, context, datesPhrase);
    ContinueStepIs(cfg, s, line, caret, context.value, b.0, b.1, b.2, d.0, d.1);
    CleanUpPair(cfg, line, caret, 0);
  }

  /** The continuing path reads the query with `substring`, which swaps its
      bounds: when the caret is left of the range's start, a range it
      returns ends before it starts. */
  lemma ContinuingRangeMayBeReversed(cfg: Config, s: Session, line: string, caret: nat, context: Option<int>,
                                     datesPhrase: Option<string>)
    requires caret <= |line| && IsContinuing(s, line, caret, context) && caret < context.value
    ensures var st := OnTriggerSpec(cfg, s, line, caret, context, datesPhrase);
      st.info.Some? ==> st.info.value.end < st.info.value.start
  {
    var b := Broaden(cfg, s, JsSubstring(line, caret - 1, caret));
    var d := BroadenDeletion(cfg, b.0, line, caret, b.2);
    OnTriggerDispatch(cfg, s, line, caret, context, datesPhrase);
    ContinueStepIs(cfg, s, line, caret, context.value, b.0, b.1, b.2, d.0, d.1);
    BroadenOffset(cfg, s, JsSubstring(line, caret - 1, caret));
  }
}
