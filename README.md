# Explain Like I'm 5: a verified model of the client state

The application takes a topic and a depth tier (ELI5, beginner,
intermediate), asks a generative text service for a structured explanation,
shows the answer on a card, and keeps a locally persisted history of past
lookups with a favorites subset. Its only real logic is the state reducer
of the top-level component: every `setState(prev => …)` update is a
transition on one application state. This project models those
transitions and the small pure pieces around them, and proves what they
promise.

- `Types` holds the records of `types.ts`: the depth tier, one explanation
  record (with its optional `isFavorite` flag) and the whole application state.
- `History` holds the bodies of the updates as pure functions over the
  history list: the insert-or-replace after a search (filter out the same
  (topic, level) pair, prepend, keep the first 15), the favorite toggle on
  the history and on the displayed result, and the derived favorites list.
  Its lemmas prove the head is the new record, the bound of 15, that
  dropping happens at the oldest end, relative order, no duplicate pairs,
  no growth on a repeated pair, that searching a pair twice is as good as
  searching it once, that a toggle of an absent id is a no-op, and that the
  displayed result and the history keep the same favorite flag.
- `App` holds the class `AppModel`. Its fields are the state's fields, and
  it has one method per transition: start, success and failure of a
  search, toggle, the card's heart button, selecting a history item, going
  home, clearing, choosing a level (which re-searches a displayed result)
  and submitting the topic form. Each method states its whole new state as
  the old state with the updated fields replaced. Each also states which
  invariants it keeps: the capacity, one record per (topic, level), and
  agreement of favorite flags.
- `GeminiService` holds the record assembly after the reply is parsed:
  fields written after the spread override the reply's. It also holds the
  id, which is a clock reading, a dash and a slug of the topic, and how it
  splits back into its parts. Then there is the voice choice per tier, and
  the `decodeBase64` byte-copy loop as a method over an array.
- `ExplanationCard` holds the clipboard text, proved to consist of exactly
  six lines when its fields are single-line, and the speech request of the listen button.
- `TopicForm` holds the submit guard on the trimmed input and the controls'
  disabled states.
- `Text` gives JavaScript's white-space class (`\s`, which `trim` also
  strips) and `trim` exactly, as ECMAScript defines them. It gives
  lower-casing for ASCII letters only.
- `Lists` gives order-preserving `filter`, `map`, `slice(0, n)` and the
  sub-sequence relation.

The clock (`Date.now`), the text service's reply, the stored history, the
system's colour-scheme preference and the user's answer to the confirmation
dialog are parameters of the methods that use them.

Behaviour of the code worth noting:

- Entering the loading state records the topic only. The level is not
  written by the search itself: it is the level selector's own update that
  sets it (App.tsx:77, App.tsx:193).
- A successful search does not clear the error; the start of the search
  already did (App.tsx:82-87).
- Clearing the history also clears the displayed result (App.tsx:123).
- The insert-or-replace removes records matching the request's topic and
  level, not the fields of the returned record (App.tsx:81). The two agree
  because the record takes them from the request (`AssembleRecord`).
- The stored history is read without a guard against malformed data
  (App.tsx:44-45). The model receives it already parsed, `None` standing for
  an absent or empty stored value.

## Model

| member | source | states |
|---|---|---|
| `Types.LevelValue` | types.ts:2-6 | the enum value of a tier is a non-empty single-line string |
| `Types.LevelValueInjective` | types.ts:2-6 | two tiers have the same enum value exactly when they are the same tier |
| `Types.IsFavorite` | App.tsx:99 | a record counts as a favorite exactly when its flag is present and true, the JavaScript truthiness of `isFavorite` |
| `Lists.Filter` | App.tsx:81 | the filter's result holds exactly the accepted elements of the input and is no longer than it |
| `Lists.FilterIsSubsequence` | App.tsx:81 | filtering keeps the relative order of the kept elements |
| `Lists.FilterLength` | App.tsx:81 | the filter's length is the input's length minus the number of rejected elements |
| `Lists.FilterKeepsAll` | App.tsx:81 | a filter that rejects nothing returns its input unchanged |
| `Lists.Map` | App.tsx:98-100 | the map has the input's length and the image of element i at position i |
| `Lists.Take` | App.tsx:86 | `slice(0, n)` is the prefix of length min(length, n) |
| `Lists.SubsequencePrefix` | App.tsx:86 | cutting a sub-sequence to a prefix keeps it a sub-sequence |
| `Lists.SubsequencePositions` | App.tsx:81 | two elements of a sub-sequence occur in the sequence in the same order |
| `History.OtherPairs` | App.tsx:81 | the filtered history holds exactly the records of other (topic, level) pairs |
| `History.Upsert` | App.tsx:86 | after a successful search the history has 1 to 15 records, the new record first, and no later record of the searched pair |
| `History.UpsertDropsFromTail` | App.tsx:86 | the length is min(others + 1, 15) and the kept records are a prefix of the other pairs' records in their old order: excess is dropped at the oldest end |
| `History.UpsertKeepsOrder` | App.tsx:81-86 | the records behind the new one are a sub-sequence of the old history |
| `History.UpsertIntoFullHistory` | App.tsx:86 | adding a new pair to a full history of 15 gives the new record followed by the old first 14: the oldest is dropped |
| `History.UpsertExistingPairNoGrowth` | App.tsx:81-86 | searching a pair already present does not lengthen the history |
| `History.UpsertReplaceKeepsLength` | App.tsx:81-86 | in a history without duplicate pairs and within the bound, re-searching a present pair keeps the length exactly |
| `History.UpsertNoDuplicates` | App.tsx:81-86 | when the new record is a lookup of the searched pair, a history without duplicate (topic, level) pairs stays without them |
| `History.UpsertSamePairTwice` | App.tsx:81-86 | searching a pair twice gives the same history as searching it only the second time: one record for the pair, at the head |
| `History.UpsertOtherLevelKeepsEarlier` | App.tsx:81-86 | searching a topic at one level then another keeps both records, the later first |
| `History.Flip` | App.tsx:99 | the flipped record's flag reads as the opposite of the old one, an absent flag counting as false, and every other field is unchanged |
| `History.ToggleInHistory` | App.tsx:98-100 | the toggle keeps length and order, flips the flag of exactly the records with the given id, and leaves every other record and every other field unchanged |
| `History.ToggleAbsentId` | App.tsx:98-100 | toggling an id no record has leaves the history identical |
| `History.ToggleTwice` | App.tsx:98-100 | toggling twice restores every flag, and every record whose flag was present |
| `History.ToggleNoDuplicates` | App.tsx:98-100 | toggling keeps a history free of duplicate pairs |
| `History.ToggleResult` | App.tsx:101 | the displayed result gets the flipped flag exactly when its id is the toggled id, and is unchanged otherwise |
| `History.ToggleKeepsSynced` | App.tsx:98-101 | if the displayed result agreed with the history records of its id before a toggle, it agrees after |
| `History.SelectedRecordSynced` | App.tsx:114 | a record shown from a history with distinct ids agrees with that history |
| `History.Favorites` | App.tsx:107 | the favorites hold exactly the history records whose flag is true |
| `History.FavoritesInHistoryOrder` | App.tsx:107 | the favorites keep the history's order |
| `History.FavoritesCount` | App.tsx:107 | the favorites are as many as the history minus the records whose flag is false or absent, and all of the history when every flag is true |
| `App.AppModel.constructor` | App.tsx:43-59 | the initial state: empty topic, ELI5, not loading, no error, no result, the stored history or an empty one, the system's theme, sidebar closed |
| `App.AppModel.GoHome` | App.tsx:72 | result, topic and error are cleared; history, level and every other field stay |
| `App.AppModel.StartSearch` | App.tsx:77 | the topic is recorded, loading is on and the error is cleared; history, result and level stay |
| `App.AppModel.CompleteSearch` | App.tsx:80-88 | the record becomes the result, loading ends, the history becomes the insert-or-replace; the new record is first, the bound holds, the pair is unique, and flags agree when the id is new |
| `App.AppModel.FailSearch` | App.tsx:90-92 | loading ends with the fixed error message; history and result stay |
| `App.AppModel.ResolveSearch` | App.tsx:78-92 | a reply leads to the assembled record being displayed and inserted, a failure to the error state; the bound and unique pairs are kept either way |
| `App.AppModel.ToggleFavorite` | App.tsx:95-105 | history and result become their toggled versions, nothing else changes, and consistency is kept |
| `App.AppModel.FavoriteRecords` | App.tsx:107 | the sidebar's favorites are exactly the history records whose flag is true, in history order |
| `App.AppModel.ClickFavorite` | components/ExplanationCard.tsx:76 | the heart button toggles the displayed record's own id, so its flag flips |
| `App.AppModel.SelectItem` | App.tsx:114 | the item becomes the result and sets topic and level; history and loading stay |
| `App.AppModel.ClearHistory` | App.tsx:121-126 | after confirmation the history is empty and the result is cleared; declining changes nothing |
| `App.AppModel.SelectLevel` | App.tsx:192-195 | the level is set; with a result displayed, its topic is searched again at the new level |
| `App.AppModel.SubmitTopic` | App.tsx:187 | a blank input changes nothing; otherwise the trimmed input is searched at the current level |
| `Text.IsSpace` | components/TopicForm.tsx:14 | the white-space characters of ECMAScript that `\s` matches and `trim` removes: WhiteSpace and LineTerminator |
| `Text.TrimStart` | components/TopicForm.tsx:14 | the result is a suffix of the input, what was removed is white space, and it does not start with white space |
| `Text.TrimEnd` | components/TopicForm.tsx:14 | the result is a prefix of the input, what was removed is white space, and it does not end with white space |
| `Text.Trim` | components/TopicForm.tsx:14-15 | the trimmed text is empty or has no white space at either end |
| `Text.TrimEmptyIffBlank` | components/TopicForm.tsx:14 | trimming gives the empty string exactly when the input is all white space |
| `Text.TrimIsInfix` | components/TopicForm.tsx:15 | the trimmed text is a contiguous part of the input with only white space around it |
| `Text.TrimIdempotent` | components/TopicForm.tsx:15 | trimming twice equals trimming once |
| `Text.LowerChar` | services/geminiService.ts:101 | a lower-cased character is not an upper-case letter; letters move by 32, others stay |
| `Text.Lower` | services/geminiService.ts:101 | lower-casing keeps the length and acts character by character |
| `Text.LowerShape` | services/geminiService.ts:101 | lower-cased text has no upper-case letter and white space at the same places |
| `GeminiService.DashRuns` | services/geminiService.ts:101 | replacing white-space runs leaves no white space and does not lengthen the text |
| `GeminiService.DashRunsOfNoSpace` | services/geminiService.ts:101 | text without white space is unchanged |
| `GeminiService.DashRunsWordThenRun` | services/geminiService.ts:101 | a word, a whole run of white space and the rest become the word, one dash and the replaced rest |
| `GeminiService.DashRunsOfRun` | services/geminiService.ts:101 | a leading run of white space, however long, becomes a single dash |
| `GeminiService.DashRunsOfWordChar` | services/geminiService.ts:101 | a leading non-space character is kept as it is |
| `GeminiService.DashRunsIdempotent` | services/geminiService.ts:101 | replacing twice equals replacing once |
| `GeminiService.Slug` | services/geminiService.ts:101 | the slug has no white space and is no longer than the topic |
| `GeminiService.NatDigits` | services/geminiService.ts:101 | a clock reading prints as a non-empty string of decimal digits without a leading zero |
| `GeminiService.NatDigitsRoundTrip` | services/geminiService.ts:101 | the printed digits read back as the number |
| `GeminiService.IntText` | services/geminiService.ts:101 | a reading prints as its digits, behind a minus sign when negative |
| `GeminiService.MakeIdParts` | services/geminiService.ts:101 | an id splits at its first dash into the clock's digits, which read back as the reading, and the slug, which has no white space |
| `GeminiService.MakeId` | services/geminiService.ts:101 | the id is the clock reading in decimal, a dash, and the slug of the topic |
| `GeminiService.AssembleRecord` | services/geminiService.ts:96-103 | topic and level are the call's arguments whatever the reply says; id is built from the first clock reading and the topic, timestamp is the second reading; the reply gives the text fields and any flag |
| `GeminiService.AssembleRecordOverridesParsed` | services/geminiService.ts:97-100 | what the reply holds under `topic`, `level`, `id` or `timestamp` does not affect the record |
| `GeminiService.Voice` | services/geminiService.ts:37 | the voice is Puck exactly for ELI5 and Kore exactly for every other tier |
| `GeminiService.SpeechRequest` | services/geminiService.ts:37-41 | the speech request prefixes the text with "Read this explanation: " and uses the tier's voice |
| `GeminiService.ToUint8` | services/geminiService.ts:11 | a stored byte equals the code when it is below 256 and is congruent to it modulo 256 always |
| `GeminiService.Decoded` | services/geminiService.ts:9-12 | one byte per character; for a binary string, byte i is the code of character i |
| `GeminiService.DecodedAt` | services/geminiService.ts:11 | byte i is character i's code as a byte array stores it |
| `GeminiService.DecodedOfBinaryString` | services/geminiService.ts:9-12 | decoding the binary string of some bytes gives the bytes back |
| `GeminiService.BinaryStringOfDecoded` | services/geminiService.ts:9-12 | a binary string is recovered from its decoded bytes |
| `GeminiService.DecodeBase64` | services/geminiService.ts:7-14 | the returned buffer has the string's length and holds the decoded bytes |
| `ExplanationCard.CopyTextLines` | components/ExplanationCard.tsx:41 | with single-line fields the copy text is exactly six lines: the topic, a blank line, the raw enum value of the level, definition, analogy, takeaway, each behind its label, and no example |
| `ExplanationCard.CopyTextIgnoresOtherFields` | components/ExplanationCard.tsx:41 | the copy text does not depend on the example, id, timestamp or favorite flag |
| `ExplanationCard.CopyText` | components/ExplanationCard.tsx:41 | the clipboard template: labelled topic, a blank line, the raw level value, definition, analogy and takeaway |
| `ExplanationCard.SpeechText` | components/ExplanationCard.tsx:32 | the definition, then ". For example, ", then the example |
| `ExplanationCard.PlayAudio` | components/ExplanationCard.tsx:32 | the listen button asks for the definition, ". For example, " and the example, read in Puck exactly for ELI5 records and Kore otherwise |
| `TopicForm.HandleSubmit` | components/TopicForm.tsx:12-17 | nothing is submitted exactly when the input is all white space; otherwise the trimmed input, non-empty and without white space at its ends |
| `TopicForm.FormControls` | components/TopicForm.tsx:27-32 | the input is disabled exactly while loading; submit is disabled exactly while loading or for an all-white-space input, and when enabled a submit hands on a topic |

## Left out

- Rendering and styling (all JSX, the skeleton loader, the toast, the sidebar, history list and level selector components): presentation only.
- The toasts and their timers (App.tsx:89, App.tsx:102), including the `find` for the already-favorite flag that only chooses whether a toast is shown (App.tsx:97): browser timers, no state of the model.
- The theme toggle and the sidebar open/close updates (App.tsx:69, App.tsx:117, App.tsx:133): presentation flags; the model carries the fields, and no modelled transition changes them.
- Persistence: writing the history to storage on every change and removing it on clear (App.tsx:63-67, App.tsx:124), and a malformed stored value making `JSON.parse` throw: storage I/O. The constructor receives the stored history already parsed.
- The calls to the text and speech services, `JSON.parse` of the reply and the reply's schema: foreign library calls. The parsed reply is a parameter; a `reply` of `None` stands for any thrown error.
- `decodeAudioData`, `atob` and audio playback: floating point and audio APIs. `DecodeBase64` starts from the string `atob` returned.
- Overlapping searches: each update is one atomic transition; which of two in-flight replies lands last is not modelled.
- `window.scrollTo` in going home, and the 3-second "Playing…" and 2-second "Copied" resets on the card: browser effects.
- The prompt tables and level display configuration in constants.ts: static strings with no logic.
- Text.Lower, Text.LowerChar, Text.LowerShape: lower-case ASCII letters only, where `toLowerCase` lower-cases all of Unicode; the slug of a topic with non-ASCII capitals differs from the application's.
- GeminiService.IntText: prints the digits of an integer; the exponent form JavaScript uses from 10^21 on is not modelled, as clock readings stay far below it.
- App.AppModel.CompleteSearch: favorite agreement after a search is proved only when no earlier record has the new record's id; ids are a millisecond reading and a slug, and the source does not guarantee that they are unique.
- App.AppModel.SelectItem: favorite agreement after selecting is proved only when the item is in a history with distinct ids, for the same reason.
- App.AppModel.ClickFavorite: requires a displayed result, because the card with the button is only rendered when there is one (App.tsx:210-212).
- The model's strings are sequences of Unicode scalar values, not UTF-16 code units; this does not matter for the white-space class, which lies in the basic plane, or for the byte copy, whose characters are all below 256.
