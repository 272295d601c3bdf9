# voice_control: command registry, matcher, dispatcher and history replay

This project is a Dafny model of the command core of `voice_control` (`src/voice.py`). Speech capture and file I/O are not modelled. What remains is:

- **Registry.** The module-global, insertion-ordered dictionary `_action_registry`. The `register_action(pattern, match_type)` decorator fills it, keyed by pattern. Every control instance aliases the same dictionary.
- **Matcher.** `is_match(command, pattern, match_type)` handles five match types. `SUBSTRING` is a search for the pattern. `ALL_KEYWORDS` requires every whitespace-separated word of the pattern to be a substring of the command. `STARTS_WITH` is a prefix test. `STATIC` and `DYNAMIC` have no branch, so they never match.
- **Dispatcher.** `perform_action(command)` walks the registry in insertion order. The first matching entry's handler answers. If nothing matches, the answer is `"Command not recognized"`.
- **History.** `add_to_history(action, args)` appends a `CommandHistory(action, timestamp, args)` record.
- **Replay.** `load_and_replay_history` takes the saved records in order. For each one it looks up the action as a registry key and calls that handler with the saved keyword arguments. An unknown action raises `KeyError`, which stops the replay.

Modules, one per component:

- `matching.dfy` (`Matching`): `MatchType`, `str.split()` (`Split`), substring containment (`Contains`), `startswith`, and `IsMatch`.
- `registry.dfy` (`ActionRegistry`): registry entries, the ordered-dict insert (`Insert`), key lookup (`Lookup`), and the class `Registry`, which holds the shared dictionary as a `seq` field.
- `control.dfy` (`VoiceControl`): first-match dispatch (`FirstMatch` and `Dispatch`, with the method `Control.PerformAction`), the history records, the replay specification (`Replay`, with the method `Control.ReplayRecords`), and the class `Control` with its `history` field.
- `shipped.dfy` (`ShippedControls`): the three registrations made by `TestControl` and `PaintAppControl`, their handlers, and the concrete behaviour of dispatch and replay on them.
- `wrappers.dfy` (`Wrappers`): `Option`.

Handlers are abstract values of a type parameter `H`. Calling a handler is a function `invoke: (H, Args) -> Outcome`, where `Args` is a map from keyword to string. The call either returns text (`Returned`) or raises a named exception (`Raised`). For the shipped handlers, `Invoke` models Python's call rules: any keyword set that does not fit the method's signature raises `TypeError`. Replay reports the calls it made, in order, and how it ended: `Completed`, `UnknownAction` (the `KeyError`) or `HandlerRaised`. Timestamps are an opaque `Instant` that is passed in and never inspected. `perform_action` calls the handler with no arguments, modelled as `invoke(h, map[])`.

Four behaviours a reader might expect to be otherwise; the model follows the code as written:
- `STATIC` never matches. It is neither exact equality nor substring search.
- Registering a pattern a second time overwrites the entry in its original position. It is not rejected.
- `DYNAMIC` entries never fire, so no captures are produced and dispatch never appends to the history. The capture-and-record behaviour exists only in commented-out code.
- Replay aborts at the first unknown action. It does not skip that record and continue.

No live code path calls `add_to_history`. The only call is in the commented-out dispatch variant (`src/voice.py:101-111`), and it records the action as `action.__name__`, such as `"make_rectangle"`. Function names are never registry keys, so replaying such a record raises `KeyError` at its first record (`ShippedControls.ReplayByFunctionName`). Only a record keyed by a registered pattern replays a handler (`ShippedControls.ReplayRectangleExample`).

## Model

| member | source | states |
|---|---|---|
| `Matching.IsMatch` | src/voice.py:53-62 | STATIC and DYNAMIC never match any command; a SUBSTRING or STARTS_WITH match needs a pattern no longer than the command |
| `Matching.IsSpace` | src/voice.py:58 | the whitespace set of `str.split()` with no separator: the characters CPython's `Py_UNICODE_ISSPACE` accepts (ASCII tab to carriage return, 0x1C-0x1F, space, 0x85, 0xA0, 0x1680, 0x2000-0x200A, 0x2028, 0x2029, 0x202F, 0x205F, 0x3000); a predicate whose meaning is given by `Split`, `LeadingWord` and `SplitLayout` |
| `Matching.StartsWithText` | src/voice.py:59 | `command.startswith(pattern)`: the pattern is a prefix of the command; `StartsWithMatchIff` gives its meaning |
| `Matching.SubstringMatchIff` | src/voice.py:55-56 | SUBSTRING matches iff the pattern occurs contiguously at some offset of the command |
| `Matching.ContainsOccurs` | src/voice.py:55-58 | the offset-by-offset walk behind `in` and the search finds the part iff the part occurs at some offset (both directions) |
| `Matching.Contains` | src/voice.py:58 | a contained part is never longer than the whole; the empty string is contained in every string |
| `Matching.StartsWithMatchIff` | src/voice.py:59-60 | STARTS_WITH matches iff the command is the pattern followed by some rest |
| `Matching.StartsWithImpliesSubstring` | src/voice.py:55-60 | every STARTS_WITH match of a pattern is also a literal SUBSTRING match of it (the regular-expression reading is not modelled) |
| `Matching.LeadingWord` | src/voice.py:58 | the result is the maximal whitespace-free prefix: a prefix, free of whitespace, followed by whitespace or the end, and non-empty when the text starts with a non-space |
| `Matching.Split` | src/voice.py:58 | `str.split()` yields only non-empty, whitespace-free words |
| `Matching.SplitJoin` | src/voice.py:58 | splitting a single-space join of words gives back exactly those words, in order |
| `Matching.SplitEmptyIffBlank` | src/voice.py:58 | a pattern splits into no words iff it is empty or all whitespace |
| `Matching.SplitWordThen` | src/voice.py:58 | a word followed by whitespace or by nothing splits off as the first word |
| `Matching.SplitBlankPrefix` | src/voice.py:58 | leading whitespace of any kind and length is dropped by `str.split()` |
| `Matching.SplitWordBlank` | src/voice.py:58 | a word followed by any non-empty run of whitespace splits off as the first word, and splitting goes on after the run |
| `Matching.SplitLayout` | src/voice.py:58 | any text made of words separated by non-empty whitespace runs of any kind, with optional whitespace at either end, splits into exactly those words, in order |
| `Matching.LayoutOf` | src/voice.py:58 | every text is a layout of the words `str.split()` returns, so `SplitLayout` and the ALL_KEYWORDS lemmas over layouts cover every pattern |
| `Matching.AllKeywordsOfLayout` | src/voice.py:57-58 | ALL_KEYWORDS with a pattern made of words and any whitespace separators matches iff every word is a substring of the command |
| `Matching.AllKeywordsOrderFree` | src/voice.py:57-58 | ALL_KEYWORDS gives the same answer for any reordering or repetition of the pattern's words and for any whitespace between and around them |
| `Matching.AllKeywordsBlank` | src/voice.py:57-58 | an empty or all-whitespace ALL_KEYWORDS pattern matches every command (`all` of nothing is true) |
| `Matching.AllKeywordsOneWord` | src/voice.py:55-58 | with a one-word pattern, ALL_KEYWORDS and literal SUBSTRING agree |
| `Matching.ContainsPiece` | src/voice.py:58 | every piece of a concatenation is a substring of it |
| `Matching.MissingCharNotContained` | src/voice.py:58 | a part holding a character the command lacks is not contained in it |
| `ActionRegistry.Lookup` | src/voice.py:134 | `registry[key]` finds an entry with that key exactly when the key is registered (otherwise `KeyError`) |
| `ActionRegistry.Insert` | src/voice.py:41 | `_action_registry[pattern] = (func, match_type)` on the insertion-ordered dict; its meaning is given by `InsertNew`, `InsertExisting`, `InsertKeys`, `InsertLookup` and `InsertAsMap` |
| `ActionRegistry.InsertNew` | src/voice.py:39-43 | registering a new pattern appends its entry after all earlier ones |
| `ActionRegistry.InsertExisting` | src/voice.py:39-43 | re-registering a pattern replaces its (handler, match type) in its original position; every other entry is unchanged |
| `ActionRegistry.InsertKeys` | src/voice.py:39-43 | keys stay unique; the key order is unchanged, or gains the new key at the end |
| `ActionRegistry.InsertLookup` | src/voice.py:39-43 | after registering, the pattern looks up to its new entry and every other key looks up as before |
| `ActionRegistry.InsertAsMap` | src/voice.py:39-43 | the dictionary view after registering is the old view updated at the one key |
| `ActionRegistry.Registry.constructor` | src/voice.py:14 | the shared registry starts empty |
| `ActionRegistry.Registry.Register` | src/voice.py:39-43 | keys stay unique; a new pattern is appended; a re-registered pattern is replaced in place |
| `VoiceControl.FirstMatch` | src/voice.py:47-51 | returns the index of the earliest-registered entry that matches, with no earlier entry matching, or none iff no entry matches |
| `VoiceControl.Dispatch` | src/voice.py:47-51 | the answer is either "Command not recognized" or the result of calling, with no arguments, the handler of some entry that matches; `FirstMatch`, `NoMatchNotRecognized` and the stability lemmas pin down which |
| `VoiceControl.EarlierRegistrationWins` | src/voice.py:47-50 | when two entries match, the answer comes from one registered no later than the first of them |
| `VoiceControl.DispatchPrefixStable` | src/voice.py:47-50 | entries appended after one that already matches a command never change the answer to that command |
| `VoiceControl.RegisterNewKeepsAnswer` | src/voice.py:41-50 | registering a new pattern never changes the answer to a command an existing entry already matches |
| `VoiceControl.ReregisterTakesOver` | src/voice.py:41-50 | re-registering the pattern that decides a command, with the same match type, hands that command to the new handler: an existing key is replaced in place, so re-registration can change an answer already decided |
| `VoiceControl.NoMatchNotRecognized` | src/voice.py:51 | when no entry matches, dispatch answers exactly "Command not recognized" |
| `VoiceControl.Control.PerformAction` | src/voice.py:47-51 | the loop returns the result of calling the first matching entry's handler with no arguments, or "Command not recognized"; it modifies nothing, so the registry and the history are unchanged |
| `VoiceControl.Control.constructor` | src/voice.py:69-71 | a control aliases the given shared registry and starts with an empty history |
| `VoiceControl.Control.AddToHistory` | src/voice.py:113-116 | appends exactly one record carrying the given action, timestamp and args; all earlier records are unchanged |
| `VoiceControl.FirstFailure` | src/voice.py:133-135 | replay gets past every record before the returned index, and not past the record at that index |
| `VoiceControl.Replay` | src/voice.py:133-135 | replay makes at most one call per record; it completes iff every record resolves and its handler returns; an unknown-action stop names a record that does not resolve; a raising stop comes right after that record's call; `ReplayAllRegistered`, `ReplayAbortsAtUnknown` and `ReplayStopsAtRaise` give the calls |
| `VoiceControl.Control.ReplayRecords` | src/voice.py:130-135 | the loop makes exactly the calls, and ends exactly as, the replay specification `Replay` says |
| `VoiceControl.ReplayAllRegistered` | src/voice.py:133-135 | if every saved action is registered and every handler returns, replay completes with one call per record, in record order, each with that record's args |
| `VoiceControl.ReplayAbortsAtUnknown` | src/voice.py:133-135 | the first record with an unregistered action stops replay there with `KeyError`; exactly the records before it have been replayed, just as a replay of those records alone would |
| `VoiceControl.ReplayStopsAtRaise` | src/voice.py:133-135 | a raising handler is called, and then replay stops at its record with that exception |
| `VoiceControl.ReplayExtends` | src/voice.py:133-135 | appending records to a history that replays cleanly only appends to the calls replay makes |
| `ShippedControls.Invoke` | src/voice.py:139-151 | a shipped handler returns iff its keyword arguments fit its signature: none for the two `TestControl` handlers, exactly width, height and position for `make_rectangle` |
| `ShippedControls.Registrations` | src/voice.py:139-149 | the three decorated handlers in class-definition order: light (SUBSTRING), music (STARTS_WITH), rectangle (DYNAMIC); `RegistrationsValid` and `Startup` state its keys and how it is built |
| `ShippedControls.Startup` | src/voice.py:139-155 | after both classes are defined, the one shared registry holds the light, music and rectangle entries in that order, and `PaintAppControl()` aliases it with an empty history |
| `ShippedControls.RegistrationsValid` | src/voice.py:139-149 | the three shipped keys are distinct and in definition order |
| `ShippedControls.LightSubstringExamples` | src/voice.py:139 | "turn on the light please" matches the light pattern; "turn the light on" does not |
| `ShippedControls.TurnOnLightWords` | src/voice.py:58 | "turn on light" splits into turn, on, light |
| `ShippedControls.AllKeywordsAnyOrder` | src/voice.py:57-58 | ALL_KEYWORDS "turn on light" matches "please turn the light on now" |
| `ShippedControls.AllKeywordsMissingWord` | src/voice.py:57-58 | ALL_KEYWORDS "turn on light" does not match "turn the light" |
| `ShippedControls.SpacedLightWords` | src/voice.py:58 | "\tturn  on\nlight " (a tab, a double space, a newline, a trailing blank) splits into turn, on, light |
| `ShippedControls.SpacedKeywordsSameMatch` | src/voice.py:57-58 | for every command, the ALL_KEYWORDS pattern "\tturn  on\nlight " gives the same answer as "turn on light" |
| `ShippedControls.AllKeywordsInsideWords` | src/voice.py:57-58 | ALL_KEYWORDS "turn on light" matches "return the lighthouse money": the words are substrings, not whole words |
| `ShippedControls.ShippedDispatch` | src/voice.py:139-151 | for every command, the shipped dispatcher answers "Turning on the light" iff the command contains "turn on the light"; otherwise "Playing music" iff it starts with "play music"; otherwise "Command not recognized" |
| `ShippedControls.DispatchPlayMusicNow` | src/voice.py:143-145 | "play music now" answers "Playing music" |
| `ShippedControls.DispatchPleasePlayMusic` | src/voice.py:59-60 | "please play music" answers "Command not recognized" |
| `ShippedControls.DispatchTurnOnLight` | src/voice.py:139-141 | "turn on the light please" answers "Turning on the light" |
| `ShippedControls.DispatchRectangle` | src/voice.py:149-151 | the rectangle command answers "Command not recognized", because the DYNAMIC entry never fires |
| `ShippedControls.PrecedenceExample` | src/voice.py:47-50 | with "turn" registered before "turn on", "turn on the light" goes to the first registration |
| `ShippedControls.ReregisterChangesAnswer` | src/voice.py:41-50 | with "turn" registered to the light handler, "turn on" answers "Turning on the light"; after "turn" is re-registered to the music handler, the same command answers "Playing music" |
| `ShippedControls.ReplayExample` | src/voice.py:133-135 | replaying [music, unknown "dance", light] calls only `play_music`, then stops with `KeyError` at record 1 |
| `ShippedControls.RectangleArgsFit` | src/voice.py:150-151 | `make_rectangle` called with width 10, height 20 and position "0,0" returns "Making rectangle of width 10, height 20 at 0,0" |
| `ShippedControls.ReplayRectangleExample` | src/voice.py:133-135 | a saved record keyed by the rectangle pattern replays `make_rectangle` once, with exactly the saved three arguments |
| `ShippedControls.ReplayByFunctionName` | src/voice.py:133-135 | a record keyed by the function name "make_rectangle", which is how the commented-out writer records actions, stops replay at record 0 with `KeyError` and makes no call |

## Left out

- Speech capture and recognition (`recognize_speech_from_mic`, `sounddevice`, `speech_recognition`). This is audio and network I/O. The command reaches the model as a plain string.
- Console I/O and lower-casing in `process_voice_command`, and `main` apart from constructing `PaintAppControl`. These are I/O.
- `save_history`, `CommandHistory.to_json`, and reading the JSON file in `load_and_replay_history`. These are file I/O and text encoding. Replay takes the saved records as a sequence of `CommandRecord` values. The JSON encoder, `default=str` and `isoformat` are not modelled. Saved argument values are strings only.
- `datetime.datetime.now()`. The clock is not modelled; `AddToHistory` takes the instant as a parameter.
- The commented-out `perform_action` variants. They are dead code, including the DYNAMIC capture and the history recording on dispatch.
- Decorator and mixin mechanics. The decorator's only effect that is modelled is `Registry.Register`. `**kwargs` unpacking becomes passing an `Args` map.
- The default `match_type=MatchType.STATIC` of `register_action`. `Register` always takes an explicit kind. A pattern registered with the default kind is a STATIC entry, which never fires.
- Matching.IsMatch: SUBSTRING patterns are treated as literal text rather than as regular expressions, so patterns containing regex metacharacters are not modelled faithfully. The general regular-expression engine is out of scope. The one shipped SUBSTRING pattern has no metacharacters.
- Handler side effects on the control object. Handlers are the pure function `invoke`, so a handler that changes the registry or the history while it runs is not modelled. The shipped handlers only build strings.
- Python strings may contain lone surrogate code points. Dafny's `char` cannot represent them.
