# lang-configs scripts, modelled in Dafny

The model covers four small scripts from a collection of language-learning
browser and Anki helpers:

- **YouTube anti-pause** (`migaku/migaku_yt_miniplayer_anti_pause.js`).
  Pressing a bare `i` snapshots the main video. For 1500 ms after that, a
  pause of that video is answered with a play request, provided it was
  playing at the key press. A separate flag resumes the next video of a
  playlist after one ended.
  - The script's module-level variables are the fields of the class
    `AntiPause.Guard`. Each of its handlers is a method on that class.
  - Every method is proved to agree with the pure transition function
    `AntiPause.Step`. Properties of whole runs are lemmas about `Run`, the
    fold of `Step`.
- **MediaFire folder to CSV** (`userscripts/media_fire_folder_to_csv.js`).
  - `parseStats`, the file name and the timestamp rules are pure functions.
    The regular expressions are modelled with JavaScript semantics:
    leftmost match, greedy runs, the `i` flag and the `\s` class.
  - `collectVisibleFiles` is a method over `ResultMap`, a class standing for
    the insertion-ordered JavaScript `Map`. It is proved against the pure
    fold `Collect`.
  - The scroll loop `scrollAndCollectAll` is a method with the same
    three-unchanged-readings stop rule as the script.
  - `toCSV` is a loop proved against a join of the lines. A reader for the
    lines it writes is proved to give back the items.
- **Latin Library rewrites** (`websites/thelatinlibrary.js`).
  - The global deletion of `&nbsp;`.
  - The callback rewrite that turns `attr="value"` into `attr=value` when
    the value holds no whitespace.
- **Anki kanji query** (`anki/browse_kanji.py`). It takes the kanji of a
  text, each once in order of first occurrence, and builds
  `deck:漢字 kanji:a OR kanji:b …`. The text is a parameter instead of the
  script's fixed string.

Files:

- `options.dfy`: `Option`.
- `js_text.dfy`: JavaScript character classes, ASCII lower-casing, `trim`,
  and greedy runs.
- `text_join.dfy`: joining strings with a separator, shared by the CSV
  writer and the kanji query.
- `anti_pause.dfy`, `mediafire_stats.dfy`, `mediafire_csv.dfy`,
  `mediafire_collect.dfy`, `latin_library.dfy`, `browse_kanji.dfy`.

Where the code and its comments disagree, the model follows the code. The
comment on line 26 of `websites/thelatinlibrary.js` says `&nbsp;` becomes a
regular space, but line 27 replaces it with the empty string.

## Model

| member | source | states |
|---|---|---|
| JsText.LowerIsI | migaku/migaku_yt_miniplayer_anti_pause.js:60 | `key.toLowerCase() === 'i'` holds exactly for "i" and "I" |
| JsText.LowerIsWord | migaku/migaku_yt_miniplayer_anti_pause.js:49-51 | lower-casing gives a lower-case ASCII word exactly for that word spelt with each letter in either case |
| JsText.HasSpaceAt | websites/thelatinlibrary.js:42 | `/\s/.test(value)` holds exactly when some character of the value is whitespace |
| JsText.Trim | userscripts/media_fire_folder_to_csv.js:74 | `trim` yields a slice of the input with no whitespace at either end, and only whitespace is cut off |
| AntiPause.MainIndex | migaku/migaku_yt_miniplayer_anti_pause.js:24-45 | the chosen video has maximal score, and every video before it scores strictly less, as the head of a stable descending sort |
| AntiPause.Score | migaku/migaku_yt_miniplayer_anti_pause.js:29-43 | the score of a video: its area plus 1000000 when visible, 500000 when playing and 200000 when ready; MainIndex, TieGoesToEarlier and PlayingReadyBeatsPaused state what the ranking does with it |
| AntiPause.PickMainVideo | migaku/migaku_yt_miniplayer_anti_pause.js:24-45 | no video exactly when the page has none; otherwise a video of the page whose score no other video exceeds |
| AntiPause.TieGoesToEarlier | migaku/migaku_yt_miniplayer_anti_pause.js:44 | of two videos with equal score, the later one is never picked |
| AntiPause.PlayingReadyBeatsPaused | migaku/migaku_yt_miniplayer_anti_pause.js:29-43 | a visible, playing, ready video outscores any paused video of no larger area |
| AntiPause.IsEditableTagCase | migaku/migaku_yt_miniplayer_anti_pause.js:47-55 | whether a target is editable does not depend on the case of its tag name |
| AntiPause.IsEditable | migaku/migaku_yt_miniplayer_anti_pause.js:47-55 | `isEditable`; IsEditableExactly and IsEditableTagCase give its meaning |
| AntiPause.IsEditableExactly | migaku/migaku_yt_miniplayer_anti_pause.js:47-55 | a target is editable exactly when it or its shadow root's host is content-editable, or its tag name spells `input`, `textarea` or `select` in any mix of upper and lower case |
| AntiPause.IsBareIKey | migaku/migaku_yt_miniplayer_anti_pause.js:57-66 | a bare i is exactly the key "i" or "I" with no Alt, Ctrl, Meta or Shift, so a shifted "I" does not count |
| AntiPause.WindowNeverShrinks | migaku/migaku_yt_miniplayer_anti_pause.js:116-131 | with a clock that never runs backwards, every handler run keeps or extends `windowUntil`, except a `clearIfGone` that resets it; the window never reaches more than 1500 ms past the latest clock reading |
| AntiPause.StaysNotPlaying | migaku/migaku_yt_miniplayer_anti_pause.js:103-110 | after any run of events with no key press that snapshots a playing video, `lastWasPlaying` is still false and no element is protected |
| AntiPause.NoResurrection | migaku/migaku_yt_miniplayer_anti_pause.js:103-110 | until a key press snapshots a playing video, no pause at any step of the run is answered with a play |
| AntiPause.AutoPlayFlagMatchesTimer | migaku/migaku_yt_miniplayer_anti_pause.js:161-206 | `shouldAutoPlay` is set exactly while its 5 s expiry is pending, and it is set only after an `ended` event of a media element |
| AntiPause.ClearIfGoneIdempotent | migaku/migaku_yt_miniplayer_anti_pause.js:209-215 | a second `clearIfGone` changes nothing, and neither call touches the auto-play flag |
| AntiPause.Protected | migaku/migaku_yt_miniplayer_anti_pause.js:103-110 | `inProtectionWindowFor`: the tracked element, snapshotted as playing, before the window closes; StepEffects, StaysNotPlaying and NoResurrection rest on it |
| AntiPause.Step | migaku/migaku_yt_miniplayer_anti_pause.js:74-215 | one handler run; every Guard method is proved to agree with it, and StepEffects, WindowNeverShrinks, StaysNotPlaying, NoResurrection and AutoPlayFlagMatchesTimer state what it does |
| AntiPause.StepEffects | migaku/migaku_yt_miniplayer_anti_pause.js:116-192 | the native pause runs exactly for a `pause()` call, on that call's element; play is requested exactly for the protected element a `pause()` call or a `pause` event is about, or for the paused target of a `canplay` event while auto-play is due |
| AntiPause.Guard.constructor | migaku/migaku_yt_miniplayer_anti_pause.js:69-71 | the script starts with no tracked video, a closed window and no auto-play pending |
| AntiPause.Guard.OnKeyDown | migaku/migaku_yt_miniplayer_anti_pause.js:74-85 | a bare i outside an editable element tracks the main video, records whether it was playing and opens the window for 1500 ms; anything else changes nothing |
| AntiPause.Guard.PatchedPause | migaku/migaku_yt_miniplayer_anti_pause.js:116-131 | the native pause always runs first; a protected element also gets a play request, and the window is stretched to at least 250 ms past the second clock reading; nothing else changes |
| AntiPause.Guard.OnPause | migaku/migaku_yt_miniplayer_anti_pause.js:148-158 | a pause event of the protected media element is answered with a play request for it and only for it; non-media targets are ignored |
| AntiPause.Guard.OnEnded | migaku/migaku_yt_miniplayer_anti_pause.js:165-178 | a media element ending sets the flag and re-arms its expiry at 5000 ms from now, replacing the previous one |
| AntiPause.Guard.OnCanPlay | migaku/migaku_yt_miniplayer_anti_pause.js:181-192 | while the flag is set, a paused media element that can play is sent a play request |
| AntiPause.Guard.OnPlaying | migaku/migaku_yt_miniplayer_anti_pause.js:195-206 | a media element that really plays clears the flag and cancels its expiry; a paused one changes nothing |
| AntiPause.Guard.OnAutoPlayTimeout | migaku/migaku_yt_miniplayer_anti_pause.js:173-175 | the pending expiry firing clears the flag |
| AntiPause.Guard.ClearIfGone | migaku/migaku_yt_miniplayer_anti_pause.js:209-215 | a tracked video that left the document is forgotten, and the window and the playing snapshot are reset |
| MediaFireStats.DownloadsAt | userscripts/media_fire_folder_to_csv.js:22 | a match of `Downloads:\s*([\d,]+)` under `i` captures a non-empty run of digits and commas; DownloadsAtMatches says which |
| MediaFireStats.DownloadsAtMatches | userscripts/media_fire_folder_to_csv.js:22 | a group is found at a position exactly when the pattern matches there (the keyword in any case, whitespace, then digits and commas), and it is the greedy run of digits and commas after the whitespace |
| MediaFireStats.SizeAt | userscripts/media_fire_folder_to_csv.js:26-28 | a match of `Size:\s*([\d\.]+)\s*(GB\|MB\|KB)` captures a non-empty run of digits and dots; SizeAtMatches says which |
| MediaFireStats.SizeAtMatches | userscripts/media_fire_folder_to_csv.js:26-28 | the groups are found at a position exactly when the pattern matches there, and any match has the same numeral and unit as the one found, so the match is unique |
| JsText.Leftmost | userscripts/media_fire_folder_to_csv.js:22 | the leftmost position where a pattern matches, as `match` without the `g` flag searches (also used for the size at lines 26-28 and the timestamp at lines 78-80): it matches there and at no earlier position, or it matches nowhere |
| MediaFireStats.MatchDownloads | userscripts/media_fire_folder_to_csv.js:22 | `match` finds the leftmost match, or none when no position matches |
| MediaFireStats.MatchSize | userscripts/media_fire_folder_to_csv.js:26-28 | `match` finds the leftmost match, or none when no position matches |
| MediaFireStats.RemoveCommas | userscripts/media_fire_folder_to_csv.js:24 | a lone comma is removed and any other character kept; the result has no comma and keeps every other character of the input |
| MediaFireStats.RemoveCommasAppend | userscripts/media_fire_folder_to_csv.js:24 | removing commas works piece by piece, so with the one-character cases the result is the input with every comma taken out and the rest kept in order |
| MediaFireStats.DownloadsIn | userscripts/media_fire_folder_to_csv.js:22-25 | a count is found exactly when the pattern matches; it is the first match's capture with its commas removed, so it is all digits |
| MediaFireStats.ParseStats | userscripts/media_fire_folder_to_csv.js:16-63 | `parseStats`; ParseStatsSources, DownloadsAreDigits, TitleSuffices and ListItemOverrides state its rules |
| MediaFireStats.ParseStatsSources | userscripts/media_fire_folder_to_csv.js:16-63 | a non-empty count and a size found are each the match of the title or of the list item's text |
| MediaFireStats.DownloadsAreDigits | userscripts/media_fire_folder_to_csv.js:16-63 | the download count `parseStats` returns is empty or all digits |
| MediaFireStats.TitleSuffices | userscripts/media_fire_folder_to_csv.js:20-42 | a title giving a non-empty count and a size decides both fields, and the list item is not read |
| MediaFireStats.ListItemOverrides | userscripts/media_fire_folder_to_csv.js:41-60 | once the title leaves a field unset, each match in the list item overrides the title's value for its field, even a value the title did find; without a match the title's value stays |
| MediaFireStats.CommasOnlyCaptureIsEmpty | userscripts/media_fire_folder_to_csv.js:22-24 | whenever the downloads pattern matches and its capture is made only of commas, the count found is empty |
| MediaFireStats.CommasOnlyCountIsEmpty | userscripts/media_fire_folder_to_csv.js:22-24 | an example of that case: the title `Downloads: ,,` matches, yet its count is empty |
| MediaFireStats.BeforeFirstComma | userscripts/media_fire_folder_to_csv.js:74 | `split(',')[0]` is the longest prefix without a comma |
| MediaFireStats.FileName | userscripts/media_fire_folder_to_csv.js:74 | the name is the title up to its first comma, trimmed: it holds no comma and no whitespace at either end |
| MediaFireStats.FileNameOfTitle | userscripts/media_fire_folder_to_csv.js:74 | a title `name,rest` is named `name` trimmed, and a title without a comma is just trimmed |
| MediaFireStats.Modified | userscripts/media_fire_folder_to_csv.js:78-81 | the modified column is the leftmost timestamp, and it is empty exactly when there is none |
| MediaFireStats.ModifiedIsFirstTimestamp | userscripts/media_fire_folder_to_csv.js:78-81 | the modified column is the 19 characters of the first `DDDD-DD-DD DD:DD:DD` in the list item's text, or empty exactly when the text has none |
| MediaFireCsv.DoubleQuotes | userscripts/media_fire_folder_to_csv.js:121 | the escaped text grows by one character per quote and adds no new characters |
| MediaFireCsv.Row | userscripts/media_fire_folder_to_csv.js:121-126 | the line of one item; RowRoundTrip shows it reads back to the item |
| MediaFireCsv.ToCSV | userscripts/media_fire_folder_to_csv.js:118-129 | the CSV is the header followed by each item's line, joined by newlines |
| TextJoin.Join | userscripts/media_fire_folder_to_csv.js:128 | `join`: the parts with the separator between consecutive ones (also `" OR ".join` at anki/browse_kanji.py:20); JoinSnoc, SplitJoin and JoinShape state its meaning |
| TextJoin.JoinSnoc | userscripts/media_fire_folder_to_csv.js:128 | joining one more part adds the separator and that part at the end |
| MediaFireCsv.SplitJoin | userscripts/media_fire_folder_to_csv.js:128 | splitting at the separator undoes a join of lines that do not contain it |
| MediaFireCsv.CsvLines | userscripts/media_fire_folder_to_csv.js:118-129 | when no field of any item holds a newline, the CSV split at newlines gives back the header followed by one line per item, so exactly one line more than there are items; with no items it is the header alone |
| MediaFireCsv.QuotedRoundTrip | userscripts/media_fire_folder_to_csv.js:121-126 | a quoted field with doubled quotes reads back to the original value |
| MediaFireCsv.RowRoundTrip | userscripts/media_fire_folder_to_csv.js:120-127 | every line written reads back to its item, when the two unquoted columns hold no comma |
| MediaFireCollect.ItemOf | userscripts/media_fire_folder_to_csv.js:70-82 | an item keeps its link's URL, takes its name from the title, its count and size from `parseStats` of the title and the list item's text (the count all digits), and its date from the list item's text |
| MediaFireCollect.Collect | userscripts/media_fire_folder_to_csv.js:66-84 | collecting keeps the map well formed: its keys are distinct and are exactly the URLs it holds |
| MediaFireCollect.CollectExtends | userscripts/media_fire_folder_to_csv.js:66-84 | collecting keeps the old keys first and in order, and leaves every existing entry unchanged |
| MediaFireCollect.CollectDomain | userscripts/media_fire_folder_to_csv.js:66-84 | the map ends up holding exactly its old URLs and those of the titled links |
| MediaFireCollect.CollectFirstWins | userscripts/media_fire_folder_to_csv.js:70-82 | a new URL gets the item of its first titled link |
| MediaFireCollect.CollectOrder | userscripts/media_fire_folder_to_csv.js:66-84 | new URLs follow the old ones, in the order of their first titled links |
| MediaFireCollect.ResultMap.constructor | userscripts/media_fire_folder_to_csv.js:92 | the map starts empty |
| MediaFireCollect.ResultMap.Set | userscripts/media_fire_folder_to_csv.js:82 | `set` puts a new key last, keeps an existing key in its place, and stores the item |
| MediaFireCollect.CollectVisibleFiles | userscripts/media_fire_folder_to_csv.js:66-84 | the method leaves the map as `Collect` describes |
| MediaFireCollect.FirstSettled | userscripts/media_fire_folder_to_csv.js:95-111 | finds the first reading that is the third in a row equal to the reading before it, or none |
| MediaFireCollect.StillRunSettles | userscripts/media_fire_folder_to_csv.js:104-110 | the `unchanged` counter, which counts the trailing readings that did not move, reaches 3 exactly at a settling reading |
| MediaFireCollect.PollOnce | userscripts/media_fire_folder_to_csv.js:96-110 | one pass of the loop body adds the links on screen to the map, and leaves `unchanged` and `prevY` as the readings so far determine them; the pass stops the loop exactly at a settling reading |
| MediaFireCollect.ScrollAndCollectAll | userscripts/media_fire_folder_to_csv.js:87-116 | the loop stops right after the first settling reading; the result is every item of the rounds up to then plus the final collection, in first-seen order |
| LatinLibrary.RemoveNbsp | websites/thelatinlibrary.js:27 | the global deletion of `&nbsp;`; it never lengthens the text, and RemoveNbspLength, RemoveNbspSplits and RemoveNbspNoOccurrence state what it does |
| LatinLibrary.RemoveNbspLength | websites/thelatinlibrary.js:27 | the output is shorter than the input by a multiple of 6 |
| LatinLibrary.RemoveNbspNoOccurrence | websites/thelatinlibrary.js:27 | text without `&nbsp;` is unchanged |
| LatinLibrary.RemoveNbspSplits | websites/thelatinlibrary.js:27 | an occurrence is deleted wherever it stands, and the text on either side is treated on its own |
| LatinLibrary.RemoveNbspNotIdempotent | websites/thelatinlibrary.js:27 | `&nb&nbsp;sp;` becomes `&nbsp;`, so one pass can leave an `&nbsp;` behind |
| LatinLibrary.AttrAt | websites/thelatinlibrary.js:41 | a match found at the start of the text has a non-empty name, and its closing quote lies inside the text after `="` |
| LatinLibrary.AttrAtMatches | websites/thelatinlibrary.js:41 | the match found is a real one (a word run, `="`, a quote-free value and `"`), and no other way to match exists |
| LatinLibrary.Replacement | websites/thelatinlibrary.js:41-48 | a value with whitespace leaves the match exactly as it was; a value without loses two characters |
| LatinLibrary.ReplacementRequotes | websites/thelatinlibrary.js:41-44 | putting a quote back after the `=` and one at the end of an unquoted match gives back the match: only those two quotes are taken out |
| LatinLibrary.ReplacementKeepsText | websites/thelatinlibrary.js:41-48 | the callback's result and the match hold the same characters besides quotes |
| LatinLibrary.Step | websites/thelatinlibrary.js:41-49 | each step of the global search moves on by at least one character, and writes two characters fewer than it moves over exactly when it unquotes a match |
| LatinLibrary.Unquote | websites/thelatinlibrary.js:41-49 | the global rewrite; UnquoteKeepsText, UnquoteLength, UnquoteWhole, UnquoteNoMatch and UnquoteOne state what it does |
| LatinLibrary.UnquoteKeepsText | websites/thelatinlibrary.js:41-49 | the rewrite removes quotes and nothing else: the other characters all stay, in order |
| LatinLibrary.UnquoteLength | websites/thelatinlibrary.js:41-49 | the output is shorter than the input by exactly twice the number of unquoted matches |
| LatinLibrary.UnquoteWhole | websites/thelatinlibrary.js:41-49 | a text that is one whole match is rewritten as the callback's result for it |
| LatinLibrary.UnquoteNoMatch | websites/thelatinlibrary.js:41-49 | text where the pattern never matches is unchanged |
| LatinLibrary.UnquoteOne | websites/thelatinlibrary.js:41-49 | `name="value"` becomes `name=value` when the value has no whitespace, and stays as it is otherwise |
| LatinLibrary.EmptyValueLosesQuotes | websites/thelatinlibrary.js:41-44 | `x=""` becomes `x=` |
| BrowseKanji.FindKanji | anki/browse_kanji.py:18 | every extracted character lies in U+4E00..U+9FFF, and every kanji of the text is extracted |
| BrowseKanji.FindKanjiOne | anki/browse_kanji.py:18 | a single character is kept exactly when it is a kanji |
| BrowseKanji.FindKanjiAppend | anki/browse_kanji.py:18 | `findall` works piece by piece, so with FindKanjiOne the result is the text's kanji in their order, repeats included |
| BrowseKanji.FindKanjiOrder | anki/browse_kanji.py:18 | `findall` keeps the text's order: of two kanji, one occurs first in the text exactly when it occurs first among those found |
| BrowseKanji.FindKanjiCounts | anki/browse_kanji.py:18 | each kanji is kept as many times as the text has it, and every other character is dropped |
| BrowseKanji.Dedup | anki/browse_kanji.py:19 | the de-duplicated list has no repeats and holds exactly the characters of its input |
| BrowseKanji.DedupOrder | anki/browse_kanji.py:19 | the de-duplicated list follows the order of first occurrence |
| BrowseKanji.JoinShape | anki/browse_kanji.py:20 | the i-th `kanji:` term starts at 11·i, and ` OR ` stands between consecutive terms, so there is one separator fewer than terms |
| BrowseKanji.QueryOf | anki/browse_kanji.py:20 | the query for a list of kanji; QueryRoundTrip reads the kanji back off it |
| BrowseKanji.Query | anki/browse_kanji.py:18-20 | the query for a text; QueryLists and NoKanjiQuery state what it lists |
| BrowseKanji.QueryRoundTrip | anki/browse_kanji.py:20 | the query starts with `deck:漢字 `, has the length the terms and separators add up to, and reads back to the kanji it was built from |
| BrowseKanji.NoKanjiQuery | anki/browse_kanji.py:18-20 | a text without kanji gives `deck:漢字 `, trailing space included |
| BrowseKanji.QueryLists | anki/browse_kanji.py:18-20 | the query lists each kanji of the text once, in order of first occurrence in the text, and nothing else |

## Left out

- DOM access is replaced by parameters:
  - `querySelectorAll('video')` and the anchors become value sequences;
  - `getBoundingClientRect` becomes `Rect`, with whole pixels instead of floating-point ones;
  - `isConnected` becomes the set of connected ids;
  - `closest('li').textContent` and `getAttribute('title')` become fields.
- The clock (`performance.now()`) is passed to each handler as an integer reading.
- Timers, `requestAnimationFrame` and the retry burst offsets (`BURST_STEPS`) are left out. A `Play` effect stands for `safePlay` followed by `playBurst`.
- The errors that `safePlay` swallows are left out, and so is the return value of the native `pause`.
- `Object.defineProperty` patching of `HTMLMediaElement.prototype.pause` and its fallback are left out. So is the listener registration, including capture phase and `MutationObserver`.
- AntiPause.Guard.OnAutoPlayTimeout: the timer handle is modelled as the expiry time of the pending timeout. `clearTimeout` is modelled as forgetting it, and the firing is an event that only acts when its time has come.
- MediaFireStats.ParseStats: the size is kept as the numeral and unit found. The conversion to megabytes (`parseFloat`, the ×1024 and ÷1024 scaling and rounding) is floating point. It is left to a formatter parameter of `ItemOf`. Only whether a size was found takes part in the rules.
- MediaFireCollect.ScrollAndCollectAll:
  - the scroll increment, the waits and the initial scroll to the top are left out;
  - the scroll positions are given as the readings of each round;
  - a loop that has not stopped by the last reading given returns None;
  - the filter on titled anchors is folded into the per-link step.
- `downloadCSV`, the export button and its UI states are left out. So are the `<font>` removal and the `innerHTML` read and write of the Latin Library script, and the `print` of the kanji script.
- JsText.ToLower: only ASCII letters are lower-cased. The comparisons after `toLowerCase()` are against `i`, `input`, `textarea` and `select`. No non-ASCII character lower-cases into one of those words, so the outcome is the same. The `i` flag of a regular expression without `u` never matches a non-ASCII character against an ASCII one.
