# QuranReciter player core in Dafny

This project models the logic inside the `QuranAudioPlayer` React component
(`src/app/page.js`). The user picks a surah and then a verse (ayah). From the
verse key `"<surah>:<ayah>"` the component builds the URL of a recitation
file. It also fetches a commentary (tafsir) for the verse. Instead of picking
from the menu, the user can recite: the transcript is normalised and matched
against the normalised verse texts with a fuzzy search.

The project has five modules:

- `Wrappers` (`wrappers.dfy`): an `Option` type. It stands for JavaScript's
  `undefined`, `NaN` and "not found".
- `ArabicText` (`arabic_text.dfy`): `normalizeText`. It is four functions, one
  per `replace`/`trim` stage. The lemmas show what the chain guarantees:
  - only Arabic letters and single inner spaces remain;
  - whitespace between two words becomes exactly one space, so the words stay
    apart;
  - the input's letters survive in order;
  - normal text is a fixed point, so normalising twice changes nothing;
  - inserting a haraka, or any other character that is neither a letter nor
    whitespace, changes nothing.
- `VerseKey` (`verse_key.dfy`): the string and number rules of
  `handleAyahChange`. These are JavaScript's `split(":")`, `parseInt` (with
  `NaN` as `None`), the range guard, `padStart(3, "0")`, the audio URL and the
  commentary URL.
- `Session` (`session.dfy`): the seven pieces of component state as one
  `State` value, and one transition function per handler. Each handler runs
  to completion. The results of the network requests and of the fuzzy search
  are parameters. A handler created in an earlier render reads that render's
  verse list, which its function takes as the parameter `heard`. The lemmas
  state how the handlers behave: what each clears, when it stops early, how
  the commentary answer is chosen, and what a voice match loads.
- `Player` (`player.dfy`): the component as a class. Its seven fields are the
  state hooks. Each method reaches the final state of the handler's setter
  calls, with the handler's early returns. Each method is proved to leave its
  fields exactly as the matching `Session` function says, so the `Session`
  lemmas hold for the object too. An eighth field, `heardAyahs`, holds the
  verse list of the render in which recording started. The recognition
  callbacks read it.
  - `ExampleSession` drives one object through choosing a surah, choosing its
    first verse and pressing the record button.

Choices the source leaves to the model:

- JavaScript's `\s` is the ECMAScript WhiteSpace and LineTerminator set
  (`ArabicText.IsSpace`). `trim` and `parseInt` skip the same set.
- `parseInt` follows the JavaScript parsing steps:
  - leading whitespace is skipped;
  - an optional sign is read;
  - a `0x`/`0X` prefix switches to base 16;
  - the longest run of digits is read;
  - no digits gives `NaN`.

  `NaN` fails both comparisons of the guard at line 80, so such a key passes
  the guard. `Session.NotANumberPassesGuard` states what follows. The value
  is an exact integer, not a JavaScript number (see "Left out").
- A key without a colon leaves `ayah` undefined. The guard still passes, the
  verse text is looked up, and then `ayah.padStart` throws a TypeError. The
  model therefore records the key and the text and changes nothing else.
- The fuzzy search is a function parameter of type `Session.Search`. It gets
  the normalised transcript and the normalised texts, and returns the index of
  the best result or `None`. The model also covers an index past the list. In
  the source that makes `ayahs[i].verse_key` throw inside `onresult`, before
  `setIsRecording(false)`, so recording stays on.

Behaviour of `page.js` the model keeps as written:

- A failed verse-list request keeps the surah selected, the verse state
  cleared and the previous `ayahs` list (lines 53-57, 69-71).
- A rejected verse key is still stored in `selectedAyah`: the setter at line
  75 runs before the range check at line 80.
- When the search index lies past the list, `ayahs[i].verse_key` throws at
  line 165, before `setIsRecording(false)` at line 143 runs, so recording
  stays on.
- The speech-recognition callbacks are closures created by
  `handleVoiceRecording` when the record button is pressed (lines 140-149).
  They call that render's `findMatchingAyah` and `handleAyahChange`. Both
  read that render's `ayahs` list: for the search (line 154), for the key
  (line 165), for the range check (line 78) and for the text lookup (line
  85). The surah menu stays enabled while recording, so a surah change
  before the result arrives does not change which list the result is matched
  against. The model passes that list explicitly (`Session.AyahChangeIn`,
  `Player.QuranAudioPlayer.heardAyahs`).
- `handleAyahChange` is `async`, so a TypeError inside it (a key without a
  colon) rejects its promise and does not reach `onresult`. Recording still
  stops in that case.
- A commentary reply is applied whenever it arrives; nothing checks that its
  verse is still the selected one (see "Left out").

## Model

| member | source | states |
|---|---|---|
| ArabicText.IsSpace | src/app/page.js:118-120 | the characters `\s` and `trim` treat as whitespace: tab, line feed, vertical tab, form feed, carriage return, space, no-break space, U+1680, U+2000 to U+200A, U+2028, U+2029, U+202F, U+205F, U+3000 and U+FEFF; `DropSpacesDropsSpaces`, `TrimEndDropsSpaces` and `CollapseSpaces` state what is removed in its terms |
| ArabicText.StripHarakat | src/app/page.js:117 | no character of the result is a haraka (U+064B to U+0652); the result is no longer than the input; input made only of letters and whitespace stays that way |
| ArabicText.StripHarakatOfHaraka | src/app/page.js:117 | a single haraka is deleted, not replaced; with `StripHarakatAppend` and `StripHarakatNoop` this fixes stage 1 on every input |
| ArabicText.KeepLettersAndSpaces | src/app/page.js:118 | every character of the result is an Arabic letter (U+0621 to U+064A) or whitespace |
| ArabicText.CollapseSpaces | src/app/page.js:119 | the result never has two whitespace characters side by side; a non-empty input gives a non-empty result that starts with whitespace exactly when the input does; input of letters and whitespace gives letters and plain spaces only |
| ArabicText.DropSpaces | src/app/page.js:120 | the result is no longer than the input and does not start with whitespace |
| ArabicText.DropSpacesIsSuffix | src/app/page.js:120 | the result of trimming the start is a suffix of the input |
| ArabicText.DropSpacesDropsSpaces | src/app/page.js:120 | everything removed from the front is whitespace |
| ArabicText.TrimEnd | src/app/page.js:120 | the result is a prefix of the input and does not end with whitespace |
| ArabicText.TrimEndDropsSpaces | src/app/page.js:120 | everything removed from the end is whitespace |
| ArabicText.Trim | src/app/page.js:120 | the result neither starts nor ends with whitespace |
| ArabicText.TrimKeepsShape | src/app/page.js:120 | trimming keeps text in the letters-and-spaces alphabet, and keeps text free of double whitespace |
| ArabicText.Normalize | src/app/page.js:115-121 | the output holds only Arabic letters and the plain space, never two whitespace characters in a row, no whitespace at either end and no haraka |
| ArabicText.NormalizeKeepsLetters | src/app/page.js:115-121 | the Arabic letters of the output are exactly those of the input, in the same order |
| ArabicText.NormalizeEmptyIff | src/app/page.js:115-121 | the output is empty if and only if the input holds no Arabic letter; the empty string normalises to the empty string |
| ArabicText.NormalFixpoint | src/app/page.js:115-121 | text already in normal shape is returned unchanged |
| ArabicText.NormalizeIdempotent | src/app/page.js:115-121 | normalising the output again gives the same output |
| ArabicText.NormalizeIgnoresDropped | src/app/page.js:118 | inserting a character that is neither an Arabic letter nor whitespace anywhere in the input leaves the output unchanged |
| ArabicText.NormalizeIgnoresHaraka | src/app/page.js:117 | inserting a haraka anywhere in the input leaves the output unchanged |
| ArabicText.StripHarakatRedundant | src/app/page.js:117-118 | stage 2 alone gives the same result as stages 1 and 2, because harakat are neither letters nor whitespace |
| ArabicText.DropSpacesAppend | src/app/page.js:120 | when a string is not all whitespace, trimming its start leaves anything appended to it untouched |
| ArabicText.DropSpacesOfSpaces | src/app/page.js:120 | a leading run of whitespace is removed entirely |
| ArabicText.TrimEndAppendSpaces | src/app/page.js:120 | a trailing run of whitespace is removed entirely |
| ArabicText.TrimEndAppend | src/app/page.js:120 | when a string starts with a non-space, trimming its end leaves anything in front of it untouched |
| ArabicText.CollapseAppend | src/app/page.js:119 | a string that ends in a non-space collapses independently of what follows it, and its collapsed form still ends in that non-space |
| ArabicText.CollapseSpaceRun | src/app/page.js:119 | a non-empty run of whitespace becomes exactly one space, and the whitespace right after it is absorbed too |
| ArabicText.CollapseSeparates | src/app/page.js:119 | between a word ending in a non-space and a word starting with a non-space, any non-empty run of whitespace becomes exactly one space, and each word is collapsed on its own |
| ArabicText.CollapseOfSpaces | src/app/page.js:119 | a non-empty run of whitespace alone collapses to one space, and the empty string to itself |
| ArabicText.TrimCollapseSeparates | src/app/page.js:119-120 | after stage 2, collapsing and trimming a string made of two parts with letters and one whitespace character between them gives the two parts' results joined by one space |
| ArabicText.NormalizeSeparatesWords | src/app/page.js:115-121 | normalising two texts that each hold a letter, joined by any whitespace character, gives the two normalised texts joined by exactly one space |
| VerseKey.Split | src/app/page.js:77 | `split` returns at least one piece, and no piece contains the separator |
| VerseKey.JoinSplit | src/app/page.js:77 | joining the pieces with the separator gives back the original key |
| VerseKey.SplitJoin | src/app/page.js:77 | splitting a join of separator-free pieces gives back those pieces |
| VerseKey.KeyParts | src/app/page.js:77 | neither part contains a colon; the ayah part is undefined exactly when the key has no colon |
| VerseKey.KeyPartsOfKey | src/app/page.js:77 | the key "surah:ayah" built from colon-free parts splits back into those two parts |
| VerseKey.ParseInt | src/app/page.js:80 | `parseInt(ayah)`, with `NaN` as None; its meaning is stated by `VerseKey.ParseDecimal` (decimal digits read as their number) and `VerseKey.ParseNotANumber` (no leading digit gives NaN) |
| VerseKey.ParseDecimal | src/app/page.js:80 | `parseInt` of a non-empty run of decimal digits is the number they denote |
| VerseKey.ParseNotANumber | src/app/page.js:80 | `parseInt` of text starting with anything but whitespace, a sign or a digit is NaN |
| VerseKey.OutOfRange | src/app/page.js:80-83 | the guard of line 80, true when the handler stops; `VerseKey.OutOfRangeDecimal` states it for decimal parts and `Session.NotANumberPassesGuard` for NaN |
| VerseKey.OutOfRangeDecimal | src/app/page.js:80-83 | for a decimal ayah part the guard stops the handler if and only if the number is outside 1 to the number of loaded verses |
| VerseKey.PadStart | src/app/page.js:90-91 | the result has length max(width, length of input), begins with copies of the fill character, and is the input itself when the input is already long enough |
| VerseKey.PadStartSuffix | src/app/page.js:90-91 | the padded string ends with the original string |
| VerseKey.PadStartKeepsValue | src/app/page.js:90-91 | zero-padding a decimal string gives a decimal string of the same value |
| VerseKey.AudioUrl | src/app/page.js:90-93 | the recitation URL of a verse; `VerseKey.AudioUrlDecodes` and `VerseKey.AudioUrlInjective` state what it encodes |
| VerseKey.AudioUrlExample | src/app/page.js:93 | surah "2", ayah "5" gives the file 002005.mp3 and surah "114", ayah "6" gives 114006.mp3 under the recitation base |
| VerseKey.AudioUrlOneDigit | src/app/page.js:90-93 | for one-digit parts the file name is "00", the surah digit, "00", the ayah digit, ".mp3" |
| VerseKey.AudioUrlDecodes | src/app/page.js:90-93 | for one- to three-digit decimal parts the URL is the base, six digits whose first three read back as the surah number and last three as the ayah number, then ".mp3" |
| VerseKey.AudioUrlInjective | src/app/page.js:90-93 | two such verses with the same audio URL have the same surah number and the same ayah number |
| VerseKey.TafsirUrl | src/app/page.js:96-97 | the commentary request URL; `VerseKey.TafsirUrlSegments` states its path segments |
| VerseKey.TafsirUrlSegments | src/app/page.js:96-97 | the commentary URL is the service endpoint followed by the path segments commentary set 1, surah, ayah, ayah |
| Session.SurahChange | src/app/page.js:52-72 | `handleSurahChange` as one state transition; `Session.SurahChangeClears` states what it sets and clears |
| Session.SurahChangeClears | src/app/page.js:52-72 | the surah is selected; verse, commentary, audio URL and verse text are cleared; the verse list is replaced on success and kept on failure; the recording flag is untouched |
| Session.FindByKey | src/app/page.js:85 | returns the first index whose verse carries the key, or None when no verse does |
| Session.ShownText | src/app/page.js:85-88 | the verse text shown after a verse choice; `Session.ListedKeyLoads` states that a listed key shows its verse's text |
| Session.TafsirText | src/app/page.js:102-112 | the commentary after the request settles; `Session.TafsirChoice` states its three outcomes |
| Session.AyahChange | src/app/page.js:74-113 | `handleAyahChange` as one state transition; `Session.AyahChangeFrame`, `Session.AyahChangeRejects`, `Session.AyahChangeAccepts`, `Session.AyahChangeWithoutColon` and `Session.DecimalKeyAccepted` state its cases |
| Session.AyahChangeIn | src/app/page.js:74-113 | `handleAyahChange` as defined in a render whose verse list was `heard`; `Session.AyahChangeInCurrent` and `Session.AyahChangeInFrame` state its relation to the current render and what it never touches |
| Session.AyahChangeInCurrent | src/app/page.js:74-113 | when the render's list is the current list, the handler is `Session.AyahChange` |
| Session.AyahChangeInFrame | src/app/page.js:74-113 | the handler of an earlier render stores the key and never changes the current verse list, the surah or the recording flag |
| Session.AyahRequest | src/app/page.js:97-100 | the commentary URL the handler fetches, or None when it stops first; `Session.AyahChangeRejects` and `Session.AyahChangeAccepts` state when each happens |
| Session.AyahChangeFrame | src/app/page.js:74-113 | the surah, the verse list and the recording flag never change, and the key is always stored |
| Session.AyahChangeRejects | src/app/page.js:75-83 | an out-of-range ayah number stores the key and changes nothing else, and no commentary is requested |
| Session.AyahChangeAccepts | src/app/page.js:84-100 | an accepted key with an ayah part shows the first listed verse's text (or keeps the shown one), sets the audio URL from the padded parts, applies the commentary answer and requests the commentary URL |
| Session.AyahChangeWithoutColon | src/app/page.js:77-91 | a key without a colon updates the verse text, leaves audio URL and commentary unchanged, and requests nothing |
| Session.TafsirChoice | src/app/page.js:99-112 | a failed request keeps the commentary; a non-empty array sets the first record's text; an empty array or non-array sets the fixed placeholder |
| Session.DecimalKeyAccepted | src/app/page.js:74-94 | for a decimal key the whole new state is given: accepted exactly for numbers 1 to the list length, with text, audio URL and commentary; otherwise only the key changes |
| Session.RejectZero | src/app/page.js:80-83 | with seven verses loaded, "2:0" only stores the key |
| Session.RejectTooLarge | src/app/page.js:80-83 | with seven verses loaded, "2:9999" only stores the key |
| Session.AcceptExample | src/app/page.js:80-94 | with seven verses loaded, "2:1" loads the file 002001.mp3 |
| Session.NotANumberPassesGuard | src/app/page.js:80-94 | an ayah part that parses to NaN is not stopped by the guard, and the handler sets an audio URL built from it |
| Session.ListedKeyLoads | src/app/page.js:85-94 | for a verse list keyed in order, choosing the key of verse i shows verse i's text and the audio of that surah and verse number i + 1 |
| Session.NormalizedTexts | src/app/page.js:154 | one normalised text per verse, each in normal shape |
| Session.SearchSeesNormalizedText | src/app/page.js:153-161 | the search gets the normalised transcript and, for each verse, the normalised text of that verse |
| Session.MatchOutcomeOf | src/app/page.js:152-165 | what the search result means: no match, the key of the verse found, or an index past the list; `Session.MatchIsListedKey` states that a match is a listed key |
| Session.FindMatching | src/app/page.js:152-169 | `findMatchingAyah` of the render whose list was `heard`, as one state transition; `Player.QuranAudioPlayer.FindMatchingAyah` and `Session.VoiceMatchLoads` state its effect |
| Session.MatchIsListedKey | src/app/page.js:163-165 | a match is the key of the verse at the index the search returned |
| Session.RecognitionResult | src/app/page.js:140-144 | `onresult` as one state transition, searching the list `heard` captured at the press; `Session.RecognitionResultEffect` states that recording stops and what the match chooses |
| Session.RecognitionError | src/app/page.js:146-149 | `onerror` as one state transition; `Player.QuranAudioPlayer.OnRecognitionError` states that only recording stops |
| Session.RecognitionResultEffect | src/app/page.js:140-168 | when the search index is inside the list captured at the press, recording stops and the current list stays; no result changes nothing else; a result chooses that verse of the captured list as that render's menu handler would |
| Session.RecognitionResultCurrent | src/app/page.js:140-168 | when the list has not changed since the press, a match is `Session.AyahChange` of its key on the current state, followed by recording stopping |
| Session.VoiceMatchLoads | src/app/page.js:140-168 | in a captured list keyed in order, a voice match shows the matched verse's text and audio from that list, stops recording and keeps the current list, whatever surah is loaded now |
| Session.CanRecord | src/app/page.js:231 | the record button is enabled: not recording and a surah chosen; `Session.RecordingNeedsSurah` states what it implies |
| Session.PressRecord | src/app/page.js:123-137 | a click on the record button as one state transition; `Session.PressRecordGuard` states when it starts recording |
| Session.PressRecordGuard | src/app/page.js:123-137 | a press while recording, before a surah is chosen or without speech recognition does nothing; otherwise recording starts |
| Session.RecordingNeedsSurah | src/app/page.js:231 | recording can only be switched on while a surah is selected |
| Player.QuranAudioPlayer.constructor | src/app/page.js:30-36 | the fields start at the hooks' initial values, and no list has been captured |
| Player.QuranAudioPlayer.HandleSurahChange | src/app/page.js:52-72 | the new fields are `Session.SurahChange` of the old ones; the four cleared fields are empty; `ayahs` is the fetched list or the old one |
| Player.QuranAudioPlayer.HandleAyahChange | src/app/page.js:74-113 | the new fields are `Session.AyahChange` of the old ones; the key is stored; surah, list and flag do not change; an out-of-range key leaves audio, commentary and text as they were; the returned request is `Session.AyahRequest` |
| Player.QuranAudioPlayer.AyahChangeFrom | src/app/page.js:74-113 | `handleAyahChange` of the render holding the list `heard`: the new fields are `Session.AyahChangeIn` of the old ones, the returned request is `Session.AyahRequest` against `heard`, and the current list is kept |
| Player.QuranAudioPlayer.FindMatchingAyah | src/app/page.js:152-169 | `findMatchingAyah` of the render holding the list `heard`: the new fields are `Session.FindMatching` of the old ones; without a match nothing changes; the flag and the lists stay; the result is false exactly when the index lies past `heard` |
| Player.QuranAudioPlayer.PressRecordButton | src/app/page.js:123-149 | the new fields are `Session.PressRecord` of the old ones; the flag is on afterwards exactly when it was on, or a surah was chosen and speech recognition is available; when recording starts, the current list is captured for the callbacks, otherwise the captured list stays |
| Player.QuranAudioPlayer.OnRecognitionResult | src/app/page.js:140-144 | the new fields are `Session.RecognitionResult` of the old ones over the list captured at the press; recording is off unless the search index lay past that list; the current and the captured lists stay |
| Player.QuranAudioPlayer.OnRecognitionError | src/app/page.js:146-149 | recording is off and nothing else changes |

## Left out

- The surah list request (`useEffect`, lines 39-50) only fills the menu; no handler reads it.
- The HTTP calls (lines 42, 60-66, 100) are replaced by their outcomes: a received body or a failure.
- `src/app/api` (the commentary proxy route) is not part of this model; the page calls the commentary service directly.
- Speech recognition (lines 124-138): the model keeps only whether it is available and when the result and error callbacks fire. The language, interim results and the number of alternatives are not modelled.
- Fuse.js (lines 156-161): its scoring, its 0.3 threshold and its tie-breaking are an arbitrary `Search` function.
- Rendering: JSX, the tooltip, the audio element and `useRef`. The only part kept is the button's disabled condition (line 231).
- Async interleaving: each handler runs to completion with its responses. For example, a commentary reply arriving after a later verse choice is not modelled. The code does nothing to discard stale replies anyway. What the model does keep from the closures is the verse list they read: the recognition callbacks use the list of the render in which recording started.
- The field `heardAyahs` holds one captured list, the one of the latest press that started recording. Every press that starts recording creates a new recognition object, but a press is only possible while no recording is on, so at most one set of callbacks is waiting. A result from an earlier recognition arriving after that is not modelled.
- In `onresult`, the commentary reply of the re-entered `handleAyahChange` arrives after `setIsRecording(false)`. The model applies both in one step. The two writes touch different fields, so the final state is the same.
- A verse list with a missing `verses` field, verses without `text_indopak`, and commentary records without `text` are not modelled. In those cases the code stores `undefined` or throws inside `normalizeText`.
- Strings are sequences of Unicode scalar values. JavaScript works on UTF-16 code units, and the two differ for characters outside the Basic Multilingual Plane. The character classes of `normalizeText` all lie inside it, so `Normalize` is unaffected. `padStart` (lines 90-91), however, counts code units: a key part holding such a character is padded differently. For example, JavaScript pads "😀" to "0😀", while `VerseKey.PadStart` gives "00😀".
- `console.error` and `console.log` output is not modelled.
- VerseKey.ParseInt: the value is an exact integer, while JavaScript's `parseInt` returns a double. So digit strings above 2^53 round (9007199254740993 becomes 9007199254740992), 309 or more digits give Infinity, and "-0" gives negative zero. The comparisons with 1 and with the list length at line 80 decide the same for the exact value and the rounded one, so the guard is unaffected.
- Player.ExampleSession: it checks one concrete session and states no contract of its own.
