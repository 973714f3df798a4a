# Page Link Autocomplete — a verified model of the link suggester

Page Link Autocomplete is an Obsidian plugin. It offers wiki links while
you type. After a word it watches for one of these triggers:

- the primary trigger: a space, when "auto space" is on;
- the secondary trigger (`;` by default), typed once or twice;
- either trigger followed by the all-links comma `,`.

It then opens a suggestion list. The candidates come from three places:

- the links of the active note;
- the notes related to it through shared frontmatter values;
- every note title and unresolved link in the vault.

The typed word filters the candidates, ignoring case and spaces. Choosing a
candidate replaces the word and the trigger characters with `[[candidate]]`.
Typing `key: ` in frontmatter offers the values that other notes use for
that key.

This project models that core in Dafny. It proves what the code promises
about it:

- which keystrokes open a suggestion, with which range, query and mode;
- how an open suggestion narrows or is broadened to all links;
- which candidates a mode offers, in which order, with no repetitions;
- how related notes are found through allow-listed frontmatter keys;
- what text is inserted when a candidate is chosen.

Modules:

- `Wrappers`: `Option`.
- `Text`: the JavaScript string operations the code relies on.
  - `substring`, which clamps and swaps its bounds.
  - Editor ranges, clipped to the line.
  - `split`, with `Join` as its inverse.
  - `trim` blankness and ASCII case mapping.
- `Seqs`: `new Set(...)` de-duplication in first-seen order.
- `Settings`: the configuration, the trigger characters and the link modes.
- `Frontmatter`: frontmatter records and values, `convertToArray`, `toCapitalizeFirstLetter` and `isMatchAnyCase`.
- `Links`: `addlink` and `getLinksFromFile`.
- `Vault`: `getAllVaultLinks`.
- `Related`: `findLinksRelatedYamlKeyValue`. It has a functional specification, and imperative methods for its nested loops.
- `Candidates`: the candidate list of `getSuggestions`, the label of `renderSuggestion` and the text of `selectSuggestion`.
- `Trigger`: the decision `onTrigger` takes, written as a function of the session, the caret's line and the caret column.
- `Suggester`: the classes `EditorLine` (the caret's line and column) and `PageLinkSuggester`.
  - `PageLinkSuggester` holds the candidate pools and the session fields that the plugin updates in place.
  - Its methods `Close`, `OnTrigger`, `GetSuggestions`, `SelectSuggestion` and `OnFileChange` change those fields step by step.
  - Each method is proved against the specification functions above.

## Model

| member | source | states |
|---|---|---|
| Seqs.Dedup | src/main.ts:440 | `new Set` de-duplication: the result has no repetition, is no longer than the input and has exactly the input's members |
| Seqs.DedupKeepsFirstSeenOrder | src/main.ts:440 | the de-duplicated list keeps the order in which values are first seen |
| Seqs.DedupOfNoDup | src/main.ts:455 | de-duplicating a list without repetitions returns it unchanged |
| Seqs.DedupIdempotent | src/main.ts:455 | de-duplicating twice is the same as de-duplicating once |
| Seqs.FirstIndex | src/main.ts:440 | the position of a value's first occurrence: the value is there and not earlier |
| Text.JsSubstring | src/main.ts:201-202 | `substring` never exceeds the string; with ordered in-range bounds it is the slice |
| Text.GetRange | src/main.ts:196 | an editor range with in-range columns reads exactly those characters of the line |
| Text.Splice | src/main.ts:253 | `replaceRange` keeps the text before the clipped start and after the clipped end, with the insert between them |
| Text.MapCursor | src/main.ts:253 | the caret after `replaceRange` stays on the new line |
| Text.Split | src/main.ts:331 | `split` always yields at least one piece |
| Text.JoinSplit | src/main.ts:331 | joining the pieces of `split` with the separator gives back the string |
| Text.SplitPiecesFree | src/main.ts:331 | no piece of `split` contains the separator |
| Text.LastPieceIsSuffix | src/main.ts:343 | the last piece of `split(' ')` is a suffix of the split text that is the whole text or follows a separator |
| Text.LastTwoPiecesAreSuffix | src/main.ts:339 | the last two pieces, joined by the separator, are a suffix of the split text that is the whole text or follows a separator |
| Text.SplitSinglePiece | src/main.ts:335-337 | when `split` yields one piece, that piece is the whole text |
| Text.SplitAppendFree | src/main.ts:331 | appending separator-free text only extends the last piece |
| Text.SplitWithoutSeparator | src/main.ts:466 | a string without the separator splits into itself alone |
| Text.SplitAtSeparator | src/main.ts:466 | two separator-free parts joined by the separator split back into exactly those two parts |
| Text.UpperLowerAgree | src/main.ts:682 | two characters agree upper-cased exactly when they agree lower-cased |
| Text.UpperFixedIffNoLower | src/main.ts:355 | a word equals its upper-case form exactly when it has no lower-case letter |
| Text.RemoveSpaces | src/main.ts:448 | removing spaces leaves no space, never lengthens the text and leaves a text without spaces unchanged |
| Text.RemoveSpacesAppend | src/main.ts:448 | removing spaces from two joined texts is removing them from each and joining the results |
| Text.LowerKeepsSpaces | src/main.ts:448 | lower-casing neither adds nor removes a space |
| Frontmatter.ConvertToArrayKeeps | src/main.ts:660-675 | `convertToArray` keeps every element of a list, falsy ones included, and keeps a single value only when it is truthy |
| Frontmatter.CapitalizeFirstLetter | src/main.ts:677-679 | `toCapitalizeFirstLetter` preserves the length |
| Frontmatter.IsMatchAnyCaseIsCaseInsensitiveEquality | src/main.ts:681-683 | `isMatchAnyCase` holds exactly when the lower-cased strings are equal |
| Frontmatter.IsMatchAnyCaseIsEquivalence | src/main.ts:681-683 | `isMatchAnyCase` is reflexive, symmetric and transitive |
| Links.PushNewAddsOnce | src/main.ts:481-487 | the push guarded by `addlink` appends the value exactly when it is missing, so a list without repetitions keeps none |
| Links.GetLinksFromFile | src/main.ts:489-519 | the passed links are used, or else the cached ones; the result is their extracted list, or empty when there are none |
| Links.ExtractLinksNoDup | src/main.ts:500-515 | the extracted links hold no repetition |
| Links.ExtractLinksMembers | src/main.ts:502-514 | a string is extracted exactly when some reference yields it: its target, or the target, a bar and the display text when that text is non-empty and differs from the target |
| Links.PipeSplitUnique | src/main.ts:508 | an alias entry determines its bar-free target |
| Links.LinkPrecedesAlias | src/main.ts:505-509 | with bar-free targets, a target is always emitted before its alias entry |
| Vault.FlattenMembers | src/main.ts:627-631 | a string is among the unresolved targets exactly when some note lists it |
| Vault.GetAllVaultLinks | src/main.ts:619-635 | the basenames followed by the unresolved targets, de-duplicated; no repetition; exactly the titles and unresolved targets |
| Related.MergeInto | src/main.ts:556-566 | the loop extends the entry with exactly the values it lacks, in order, as `MergeValues` says |
| Related.MergeValuesMembers | src/main.ts:557-562 | merging keeps the old values and adds exactly the new ones |
| Related.MergeValuesExtends | src/main.ts:557-562 | merging keeps the old values as a prefix, and each value after them is a new one not already in the list |
| Related.IndexRecord | src/main.ts:551-569 | one note's keys enter the index as the functional specification of that pass says |
| Related.AddKeysKeys | src/main.ts:551-554 | a key enters the index through a note exactly when it is not `position` and its value is truthy |
| Related.AddKeysValues | src/main.ts:553-566 | a key's indexed values are its earlier values together with the note's values for that key |
| Related.IndexHasNoPositionKey | src/main.ts:552 | the index never has a `position` entry |
| Related.IndexKeys | src/main.ts:538-572 | a field is indexed exactly when another note with frontmatter has it, with a truthy value, and it is not `position` |
| Related.IndexValues | src/main.ts:538-572 | a value is indexed for a field exactly when another note with frontmatter has that value for it |
| Related.YamlFilesMembers | src/main.ts:538-550 | the notes considered are exactly the other notes with frontmatter |
| Related.MatchedKeysMembers | src/main.ts:578-582 | the active note's keys used for matching are those equal, ignoring case, to an allow-listed key |
| Related.MatchValues | src/main.ts:593-601 | the value loops report a hit exactly when some pair of values matches, ignoring case; on a hit the note's basename is pushed once |
| Related.MatchFile | src/main.ts:584-604 | a note matches exactly when one of its keys equals an active matched key, ignoring case, with a matching value |
| Related.RelatedOnlyThroughIncludedKeys | src/main.ts:578-604 | notes are related only through an allow-listed key present on both sides with a value in common |
| Related.RelatedLinksMembers | src/main.ts:583-609 | a string is among the related links exactly when it is the basename or one of the links of a related note |
| Related.FindLinksRelatedYamlKeyValue | src/main.ts:521-617 | the loops compute the functional specification: the related links and the field-value index |
| Related.ResolveIndexPresence | src/main.ts:525-616 | without frontmatter on the active note there are no links and the index is `null`; otherwise the index is present |
| Related.ResolveLinksMembers | src/main.ts:534-613 | the resolved links are exactly the basenames and links of the other notes related to the active one |
| Candidates.SortByLengthCorrect | src/main.ts:420-437 | sorting by length yields a length-ordered permutation of the pool |
| Candidates.SortByLengthStable | src/main.ts:420-437 | sorting keeps the original order among candidates of equal length, as `Array.prototype.sort` is stable |
| Candidates.InsertPermutes | src/main.ts:420 | one insertion step adds exactly the inserted candidate |
| Candidates.InsertSorted | src/main.ts:420 | one insertion step keeps a length-ordered list ordered |
| Candidates.InsertStable | src/main.ts:420 | one insertion step keeps equal-length candidates in their order |
| Candidates.ModePoolMembers | src/main.ts:417-438 | a candidate is in a mode's pool exactly when it is in a pool that mode uses |
| Candidates.FilterMatchingMembers | src/main.ts:446-453 | the filter keeps exactly the candidates that contain the query, ignoring case, with or without spaces |
| Candidates.FilterMatchingNoDup | src/main.ts:446-453 | filtering a list without repetitions leaves none |
| Candidates.FilterMatchingLength | src/main.ts:446-453 | filtering never lengthens the list |
| Candidates.FilterMatchingKeepsOrder | src/main.ts:446-453 | the filter keeps the candidates in the pool's order: its result is a subsequence of the pool |
| Candidates.MatchesIgnoresCaseAndSpaces | src/main.ts:448 | a candidate equal to the query, ignoring case, or equal once its spaces are removed, matches |
| Candidates.MatchesTrivially | src/main.ts:448 | every candidate matches the empty query and itself |
| Candidates.JoinedWordsMatch | src/main.ts:447-448 | two words joined by a space match the query that runs them together, ignoring case |
| Candidates.SuggestionsCorrect | src/main.ts:440-462 | the suggestions have no repetition, are exactly the pool's matching candidates (all of them in `yaml-complete`) and keep the de-duplicated pool's order; `null` exactly when none qualifies |
| Candidates.SecondDedupChangesNothing | src/main.ts:455 | the final de-duplication changes nothing |
| Candidates.LabelShowsAlias | src/main.ts:465-468 | a value without a bar is shown as it is; a target, a bar and an alias is shown as the alias |
| Candidates.FormatLinkRoundTrip | src/main.ts:472-475 | the inserted text is `[[`, the chosen value and `]]`, followed by one space exactly when auto space is on and the space trigger, alone or with the comma, opened the session; the link's target is the value |
| Trigger.ColumnZeroNeverTriggers | src/main.ts:190-194 | at column zero nothing opens and only the match count is reset |
| Trigger.NullResetsMatches | src/main.ts:189-403 | whenever no suggestion opens, the match count is zero |
| Trigger.LineUntouchedOutsideContinuation | src/main.ts:196-399 | only the continuing path edits the line; elsewhere the line and the caret stay |
| Trigger.YamlValueCompletion | src/main.ts:196-221 | after `key: ` the mode becomes `yaml-complete`; a suggestion opens exactly when the key is indexed, at the caret with query `test`, and offers that key's values as text |
| Trigger.FreshNeedsTriggerChar | src/main.ts:282-308 | on the fresh path nothing opens unless a trigger character was typed and the line lacks the date plugin's phrase |
| Trigger.SpaceNeverOpensWhenAutoSpaceOff | src/main.ts:282-286 | with auto space off, a typed space opens nothing, unless the space is the configured secondary trigger |
| Trigger.CommaNeedsPrecedingTrigger | src/main.ts:312-326 | a comma opens a suggestion only right after the primary or secondary trigger |
| Trigger.FreshKindEffects | src/main.ts:368-398 | an opened fresh suggestion records the trigger text and the pool mode of its kind, with the match count zero |
| Trigger.FreshQueryRules | src/main.ts:346-359 | an accepted word is not blank; after the space or the comma it has at least three characters, and exactly three only when it is upper-case |
| Trigger.FreshOutcome | src/main.ts:281-399 | a fresh keystroke opens a suggestion exactly when a trigger character was typed, the line lacks the date plugin's phrase and the word is accepted; it then spans the word and the trigger characters up to the caret, and the session takes the kind's mode and trigger text with the match count zero |
| Trigger.FreshInfoIsAnalyzed | src/main.ts:281-399 | on the fresh path the range is the word analysis of the text up to the caret when a trigger character was typed and the line lacks the date plugin's phrase, and none otherwise |
| Trigger.SecondaryAcceptsAnyWord | src/main.ts:346-374 | after the secondary trigger any non-blank word opens a suggestion, short ones included, spanning the word and the trigger characters |
| Trigger.ShortWordBeforeSemicolon | src/main.ts:327-374 | with the default settings, `ab;` opens a suggestion for the two-letter word `ab`, from column 0 to 3 |
| Trigger.FreshQueryIsWholeWords | src/main.ts:327-398 | a fresh query starts the line or follows a space, and holds at most two words |
| Trigger.AnalyzedTriggerIsWholeWords | src/main.ts:327-398 | an accepted analysis opens a range whose query starts the analysed text or follows a space, and holds at most two words |
| Trigger.LastWordInPlace | src/main.ts:327-344 | a non-empty word before the trigger sits right before the trigger characters, at the start of the text or after a space, and holds at most two words |
| Trigger.StartsWholeWordsInLine | src/main.ts:309 | whole words of the text up to the caret are whole words of the line |
| Trigger.LastWordAtMostTwoWords | src/main.ts:329-344 | the query splits into at most two words |
| Trigger.AnalyzedTriggerIsTyped | src/main.ts:309-398 | an accepted analysis ends with the trigger text its kind records |
| Trigger.FreshTriggerIsTyped | src/main.ts:368-398 | the text before the caret ends with the recorded trigger text |
| Trigger.LastWordIsSuffix | src/main.ts:327-344 | the word or two words before the trigger end where the trigger characters begin, and start the text or follow a space |
| Trigger.RoomForWord | src/main.ts:327-344 | without room for the trigger characters the word is empty |
| Trigger.AnalyzedTriggerCovers | src/main.ts:370-397 | the range ends at the caret and covers exactly the query followed by one or two trigger characters |
| Trigger.CoversQueryInLine | src/main.ts:309 | covering the query in the text up to the caret means covering it in the whole line |
| Trigger.FreshRangeCoversQuery | src/main.ts:281-399 | a fresh suggestion's range covers exactly its query and the trigger characters after it |
| Trigger.FreshSingleWordQuery | src/main.ts:329-343 | after a single trigger, or a trigger and the comma, the query is one word without spaces |
| Trigger.BroadenAfterSecondary | src/main.ts:232-280 | a comma right after the secondary trigger switches to `all-semi`; the trigger pair is removed when present, and the range ends one column before the caret |
| Trigger.BroadenAfterPrimary | src/main.ts:238-280 | a comma right after the primary trigger switches to `all`; the comma is removed, and the range ends one column before the caret |
| Trigger.ContinuingQuery | src/main.ts:268-280 | while a suggestion is open the query runs from its start to the caret; it stays open exactly while the query has at least four characters; the range ends at the caret, or one column before it on the keystroke that broadens the session |
| Trigger.BroadenOffset | src/main.ts:232-242 | the broadening offset is one exactly when the keystroke changes the recorded trigger, and zero otherwise |
| Trigger.ContinuingRangeMayBeReversed | src/main.ts:268-280 | with the caret left of the range's start, `substring` swaps its bounds and a range the continuing path returns ends before it starts |
| Trigger.DeleteIfEquals | src/main.ts:250-254 | the guarded deletion keeps the caret on the line |
| Trigger.BroadenDeletion | src/main.ts:243-266 | the trigger clean-up keeps the caret on the line |
| Trigger.CleanUpPair | src/main.ts:249-254 | in a session broadened after the secondary trigger, the secondary trigger and comma are removed when they stand just before the offset column, and the line is kept otherwise |
| Trigger.CleanUpComma | src/main.ts:259-264 | in a session broadened after the primary trigger, a comma just before the offset column is removed, and the line is kept otherwise |
| Trigger.PairRemovedOnLaterKeystroke | src/main.ts:223-280 | on every later keystroke of a session broadened after the secondary trigger, the pair in the two columns before the typed character is removed, and the range ends at the caret |
| Trigger.CommaRemovedOnLaterKeystroke | src/main.ts:223-280 | on every later keystroke of a session broadened after the primary trigger, a comma just before the typed character is removed, and the range ends at the caret |
| Trigger.ScalarsToStrings | src/main.ts:211 | the offered values are the key's values, in order, each as its `toString` text |
| Suggester.EditorLine.ReplaceRange | src/main.ts:476 | `replaceRange` sets the line to the splice and moves the caret as the editor does |
| Suggester.PageLinkSuggester.constructor | src/settings.ts:5-32 | the session starts from the plugin's default temporary data |
| Suggester.PageLinkSuggester.Close | src/main.ts:181-187 | closing resets the trigger text, the mode and the match count and keeps the pools |
| Suggester.PageLinkSuggester.OnTrigger | src/main.ts:189-403 | the method's new session, line and caret, and its result, are those of the functional specification |
| Suggester.PageLinkSuggester.CompleteYamlValue | src/main.ts:196-221 | the `key: ` path computes the specification's step |
| Suggester.PageLinkSuggester.NarrowOpenSuggestion | src/main.ts:223-280 | the continuing path computes the specification's step, with the editor edited by the clean-up |
| Suggester.PageLinkSuggester.ReadNewQuery | src/main.ts:268-280 | the caret is read again after the clean-up; the query runs from the open suggestion's start to it, and the suggestion stays open exactly while the query has four characters or more |
| Suggester.PageLinkSuggester.CleanUpTrigger | src/main.ts:243-266 | the clean-up edits the editor exactly as the specification's deletion says |
| Suggester.PageLinkSuggester.OpenFresh | src/main.ts:281-399 | the fresh path computes the specification's step |
| Suggester.PageLinkSuggester.OpenForWord | src/main.ts:309-399 | the word analysis and the kind returns compute the specification's step |
| Suggester.PageLinkSuggester.RecordTrigger | src/main.ts:368-398 | the recorded trigger text and mode are those of the trigger's kind |
| Suggester.PageLinkSuggester.CollectModePool | src/main.ts:417-438 | the mode's pools are sorted in place and concatenated as the mode's pool says; the pools it does not use are untouched |
| Suggester.PageLinkSuggester.GetSuggestions | src/main.ts:405-463 | the result is the suggestions of the mode's pool for the query; the match count is their number, or zero for `null` |
| Suggester.PageLinkSuggester.SelectSuggestion | src/main.ts:470-478 | the suggestion's range is replaced by the formatted wiki link |
| Suggester.PageLinkSuggester.OnFileChange | src/main.ts:111-131 | the pools are cleared, then recomputed for the active note once the layout is ready: its links, the related links and index, and the vault titles |

## Left out

- Host wiring is not modelled: plugin loading, the settings tab, persistence, layout and file-open events, and the shift-space event listener with its `useEventListener` branch (src/main.ts:315-316).
- The "Natural Language Dates" plugin probe is replaced by the parameter `datesPhrase`. It holds the autocomplete phrase when that plugin is active with its suggester on, and None otherwise.
- `getVariableType` is not modelled. Nothing in the suggester calls it.
- Logging, the DOM element of `renderSuggestion` and `super.close()` are left out. The model keeps the label text and the state changes.
- Case mapping is ASCII only. Unicode `toLowerCase`/`toUpperCase` is not modelled.
- Frontmatter values are strings, integers and booleans. Floats, `NaN`, nested objects and prototype keys are left out.
- Frontmatter records with a repeated key are not considered. `Lookup` reads the first pair.
- The transient fields `curMdCacheLinks` and `curYaml` are left out. They are written but never read by the modelled code.
- Editor positions are columns on the caret's line. The multi-line document is not modelled.
- Lengths and columns are counted in Unicode code points, as Dafny strings are sequences of characters. JavaScript's `length`, `substring` and editor columns count UTF-16 code units. For text outside the Basic Multilingual Plane the two differ: the length rules, the four-character rule of an open suggestion and the range columns are then not those of the plugin. For example, two rocket emoji followed by a space has length 4 in JavaScript and length 2 in the model.
- Suggester.PageLinkSuggester.SelectSuggestion: requires `start <= end`. The continuing path returns a range that ends before it starts whenever the caret is left of the range's start and the swapped `substring` still has four characters, as Trigger.ContinuingRangeMayBeReversed and Trigger.ContinuingQuery show. What the editor's `replaceRange` does with such a reversed range is not modelled.
- Suggester.PageLinkSuggester.OnFileChange: assumes the active note's metadata cache is present. The plugin would throw without one.
- In `findLinksRelatedYamlKeyValue`, another note whose metadata cache is missing would throw. The model treats such a note like one without frontmatter.
- The suggester asks the host for its `context` on every keystroke. The model passes it as the parameter `context`: the start column of the open suggestion, or None.
- Frontmatter.CapitalizeFirstLetter: the contract states only the length. Its meaning is carried by `IsMatchAnyCaseIsCaseInsensitiveEquality`.

Where the code and the plugin's description differ, the model follows the code:

- The keys used for related notes are a fixed allow-list in the code (src/main.ts:578), not a setting.
- The first list recorded for a field in the value index is kept as it is, repetitions included (src/main.ts:563-565). Only later merges skip known values.
- After a session is broadened to all links, the range ends at the re-read caret minus the offset (src/main.ts:278). The caret has already moved back after the clean-up.
