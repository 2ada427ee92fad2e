# devtools-extension core, modelled in Dafny

This project models the logic core of the devtools-extension desktop and
browser tool.

- **Line and character diff** (`diff.ts`): two texts are compared position by
  position.
- **Text tools** (`text.ts`):
  - removing duplicate lines;
  - sorting the non-blank lines;
  - text statistics.
- **Unicode tools** (`unicode.ts`):
  - the `\uXXXX` / `U+XXXX` encoder and decoder;
  - their line-by-line batch forms.
- **Quick-search palette**:
  - the command table;
  - the keyword list;
  - the fuzzy ranking (`commands.ts`);
  - the parser that dispatches a typed command (`commandParser.ts`).
- **Time helpers** (`time.ts`):
  - zero padding;
  - the `YYYY-MM-DD HH:MM:SS` layout;
  - the input checks of the two conversions.
- **Settings store of the Electron main process** (`settings.js`):
  - defaults;
  - load/merge and save;
  - shortcuts;
  - the file-move pairs and signature templates, with their
    add/update/delete operations.
- **Icon scripts**: the two scripts that make near-black icon pixels
  transparent. Python works on a pixel list (`remove_black_bg.py`). Node works
  in place on the raw byte buffer (`remove_black_bg.js`).

## Files and modules

| file | module | source |
|---|---|---|
| `wrappers.dfy` | `Wrappers` | – (`Option`, `Result`) |
| `js_strings.dfy` | `JsStrings` | the JavaScript string built-ins the core calls: `trim`, `split`, `join`, `/\s/`, `toLowerCase` on ASCII, `startsWith`/`endsWith`/`includes`, `String(n)` |
| `js_arrays.dfy` | `JsArrays` | `filter`, distinctness, and `Array.prototype.sort` as an in-place insertion sort under a consistent comparator |
| `diff.dfy` | `Diff` | `src/core/diff.ts` |
| `text_tools.dfy` | `TextTools` | `src/core/text.ts` |
| `unicode.dfy` | `Unicode` | `src/core/unicode.ts` |
| `commands.dfy` | `Commands` | `src/core/commands.ts` |
| `command_parser.dfy` | `CommandParser` | `src/core/commandParser.ts` |
| `time.dfy` | `Time` | `src/core/time.ts` |
| `settings.dfy` | `AppSettings` | `electron/settings.js` |
| `remove_black_bg_py.dfy` | `RemoveBlackBgPy` | `electron/remove_black_bg.py` |
| `remove_black_bg_js.dfy` | `RemoveBlackBgJs` | `electron/remove_black_bg.js` |

**The loops.** The loops of the source stay loops:
- `computeDiff` and `computeCharDiff`;
- `removeDuplicates`, with its `seen` set;
- `chineseToUnicode`;
- `getAllCommandKeywords`;
- the scoring loop of `fuzzyMatchCommands`;
- the pixel loops and `main` of both icon scripts.

Each loop is proved against a specification function. In-place sorting works
on an `array`. The Node pixel loop writes `pixels[i + 3]` in an `array<Byte>`
with stride `channels`.

**Settings.** The settings file is the state of a class `SettingsStore`. Each
operation loads, changes and saves, and its contract states the new file and
what `loadSettings` then returns. This class is the corrected store of the
Findings rows: its defaults never change. The code as written also changes
`DEFAULT_SETTINGS` when the loaded object shares parts with it. The
`…AsWritten` functions model that over a `Memory` value holding the file,
whether writes succeed and the current defaults.

**Pure code.** The parser, the time helpers and the decoder are pure code, and
are modelled as functions.

**Parameters.** Calls into code outside the core are parameters:
- the hash, Base64 and URL handlers of the parser;
- `Number` and `new Date` in `time.ts`;
- `localeCompare` in `sortLines`.

**Code units and bytes.** JavaScript strings are UTF-16 code units. Where
the source indexes a string or takes its `length`, the model works on
`seq<CodeUnit>` (0..0xFFFF):
- the Unicode encoder and decoder;
- `computeCharDiff`;
- the `characters` and `charactersNoSpaces` counts of `getTextStats`.

`JsStrings.Utf16` gives the code units of a Dafny string, with two
surrogates for a character above 0xFFFF. `fromCharCode`'s reduction to 16
bits is explicit (`% 0x1_0000`). Pixel bytes are a `Byte` subset type of
`int` (0..255).

**Where the two icon scripts differ.**
- **Qualifying pixels.** The Python script writes `(0,0,0,0)` for a
  qualifying pixel. The Node script only zeroes the alpha byte and keeps the
  colour bytes (`RemoveBlackBgJs.AgreesWithPythonOnAlpha`).
- **Empty icon set.** The Python script counts 0 files and exits with status
  0 when the icon set has no PNG file. The Node script exits with status 1
  (`RemoveBlackBgJs.ProcessIconset`).

**Other modelling choices.**
- **Channels.** The Node loop steps through the buffer by `info.channels`.
  The model covers RGB or RGBA input, which has at least 4 channels after
  `ensureAlpha`, and lets the stride be any value of at least 4. Greyscale
  input has only 2 channels after `ensureAlpha` and is not modelled.
- **Batch decoding.** The batch decoder does not keep the line count: the
  one-line input `\u000A` decodes to a newline (`Unicode.BatchDecodeSplitsLines`).
  The encoder does keep it (`Unicode.BatchChineseToUnicode`).

## Model

| member | source | states |
|---|---|---|
| Diff.ComputeDiff | src/core/diff.ts:7-35 | the result is the positional diff of `text1.split('\n')` and `text2.split('\n')`; its removed and unchanged contents, in order, are exactly the first text's lines, its added and unchanged contents the second's; its length lies between `maxLen` and `2*maxLen` |
| Diff.PositionalDiff | src/core/diff.ts:12-32 | the positional diff's removed and unchanged contents are exactly the first sequence, its added and unchanged contents the second, and it has between `maxLen` and `2*maxLen` entries |
| Diff.PositionalRebuilds | src/core/diff.ts:14-32 | after `k` positions the removed and unchanged contents are the first `min(k, |a|)` elements of `a`, and the added and unchanged ones the first `min(k, |b|)` elements of `b` |
| Diff.PositionalLength | src/core/diff.ts:12-32 | `k` positions give between `k` and `2k` entries |
| Diff.PositionalNumbering | src/core/diff.ts:20-30 | every `lineNumber` lies in `1..k` and the numbers never decrease along the result |
| Diff.PositionalTail | src/core/diff.ts:18-23 | an entry numbered past the end of the first text is `added` with the second text's line; one past the end of the second is `removed` with the first text's line |
| Diff.PositionalPairsChanges | src/core/diff.ts:27-31 | every `removed` entry at a position the second text also has is immediately followed by the `added` entry with the same number and the second text's line |
| Diff.PositionalIdentical | src/core/diff.ts:24-26 | identical inputs give exactly one `unchanged` entry per element, numbered from 1 |
| Diff.DiffOfIdenticalTexts | src/core/diff.ts:7-35 | `computeDiff(t, t)` is one `unchanged` entry per line of `t`, numbered from 1 |
| Diff.ComputeCharDiff | src/core/diff.ts:38-61 | the loop over UTF-16 code units returns their positional diff without positions; removed and unchanged code units give back `text1`, added and unchanged ones `text2`; the length lies between `maxLen` and `2*maxLen` |
| Diff.Unnumbered | src/core/diff.ts:48-57 | a character-diff entry is the line-diff entry at the same index with its position dropped, one for one |
| Diff.CharDiffSides | src/core/diff.ts:44-58 | the character diff rebuilds both code-unit sequences, unit by unit, and has one or two entries per position |
| Diff.AstralCharDiff | src/core/diff.ts:44-58 | two emoji that share their high surrogate give three entries: the shared surrogate unchanged, the old low surrogate removed, the new one added |
| TextTools.FirstOccurrences | src/core/text.ts:7-12 | the kept lines are pairwise distinct, are exactly the lines of the input, are no more than the input's, and the output is empty only for an empty input |
| TextTools.FirstOccurrencesOrder | src/core/text.ts:7-12 | the kept lines appear in the order of their first occurrence in the input |
| TextTools.FirstOccurrencesOfDistinct | src/core/text.ts:7-12 | de-duplicating lines that are already distinct changes nothing |
| TextTools.DedupText | src/core/text.ts:2-15 | the lines of `removeDuplicates(input)` are the first occurrences of the input's lines: pairwise distinct, and a line occurs in the output exactly when it occurs in the input |
| TextTools.DedupTextIdempotent | src/core/text.ts:2-15 | `removeDuplicates` applied twice equals applied once |
| TextTools.RemoveDuplicates | src/core/text.ts:2-15 | the loop with the `seen` set returns the de-duplicated text, whose lines are distinct and are exactly the input's lines |
| TextTools.SortLines | src/core/text.ts:18-25 | every non-blank input line occurs in the output as often as in the input, and blank lines not at all; every pair of output lines is ordered by `compare`, reversed when `descending`; a ghost index map sends each output line to its own position among the kept input lines, and two output lines whose positions are inverted compare strictly, so lines that compare equal, repeated lines included, keep their input order, as the stable `sort` keeps them |
| TextTools.SortedLinesJoined | src/core/text.ts:19-24 | the kept lines, stably sorted and joined with `'\n'`, split back into exactly the kept lines, in comparator order, rearranged by the same index map, with ties in input order |
| TextTools.SortedKeptLines | src/core/text.ts:19-23 | the kept lines after a stable sort under the line order: each non-blank line as often as in the input and no blank line, every pair ordered by `compare` (reversed when `descending`), and lines that compare equal in input order |
| TextTools.LineOrderIsComparator | src/core/text.ts:20-23 | the comparator with `descending` negating it is consistent whenever `localeCompare` is |
| TextTools.KeptLinesShape | src/core/text.ts:19 | the lines kept by the filter are non-empty and hold no newline, so joining them and splitting again gives them back |
| TextTools.LinesOfJoin | src/core/text.ts:24 | joining non-empty newline-free lines with `'\n'` and splitting again gives the lines back |
| TextTools.GetTextStats | src/core/text.ts:57-71 | `characters` is the UTF-16 length of the input and `charactersNoSpaces` that of the input without whitespace, and they differ by the number of whitespace characters; `lines` is 0 for the empty text and otherwise the number of newlines plus 1; `words` is the number of word starts; a blank text has 0 words and 0 paragraphs; any other has at least one word and, as its paragraph count, the number of non-blank parts between `/\n\s*\n/` breaks, which is 1 without two newlines |
| TextTools.WordCount | src/core/text.ts:60 | `input.trim().split(/\s+/).length`, or 0 for a blank text, is the number of places where a word starts, and is 0 exactly for a blank text |
| TextTools.WordsCounted | src/core/text.ts:60 | a blank text has no word start; the parts of any other trimmed text split at whitespace runs are as many as its word starts |
| TextTools.LineCount | src/core/text.ts:61 | 0 for the empty text, otherwise the number of newlines plus 1 |
| TextTools.ParagraphCount | src/core/text.ts:62 | 0 for a blank text; otherwise the number of non-blank parts, at least 1, and exactly 1 without two newlines |
| TextTools.AstralStats | src/core/text.ts:58-60 | one emoji counts two characters, two without spaces, and one word |
| TextTools.ParagraphBreakAt | src/core/text.ts:62 | a match of `/\n\s*\n/` starts and ends with a newline and holds only whitespace |
| TextTools.ParagraphPartsKeepText | src/core/text.ts:62 | splitting at paragraph breaks drops only whitespace |
| TextTools.ParagraphsOfNonBlank | src/core/text.ts:62 | a text that is not blank has at least one non-blank paragraph |
| JsStrings.Trim | src/core/commandParser.ts:19-23 | `trim()` is empty exactly for a blank string and otherwise starts and ends with a non-whitespace character |
| JsStrings.TrimStart | src/core/commandParser.ts:19-23 | the leading-whitespace drop returns a suffix that starts with a non-whitespace character, and only whitespace was dropped |
| JsStrings.TrimEnd | src/core/commandParser.ts:19-23 | the trailing-whitespace drop returns a prefix that ends with a non-whitespace character, and only whitespace was dropped |
| JsStrings.JoinSplit | src/core/unicode.ts:47-48 | joining the parts of `split(sep)` with `sep` gives back the string |
| JsStrings.Split | src/core/text.ts:3 | `split(sep)` gives at least one part, and no part holds the separator |
| JsStrings.SplitCount | src/core/text.ts:61 | `split('\n')` has one more part than there are newlines |
| JsStrings.SplitJoin | src/core/commandParser.ts:26 | splitting a join undoes it when no part holds the separator |
| JsStrings.WhitespaceSplit | src/core/commandParser.ts:24 | `split(/\s+/)` has at least one part and no part holds whitespace |
| JsStrings.WhitespaceSplitKeepsText | src/core/text.ts:60 | the parts of `split(/\s+/)` put together are exactly the non-whitespace characters |
| JsStrings.NonWhitespace | src/core/text.ts:59 | `replace(/\s/g, '')` is no longer than the input and holds no whitespace |
| JsStrings.NonWhitespaceEmpty | src/core/text.ts:59-62 | nothing is left after removing whitespace exactly when the text is blank |
| JsStrings.Lower | src/core/commandParser.ts:25 | `toLowerCase` keeps the length and maps every letter A-Z to a-z and every other character to itself |
| JsStrings.LowerChar | src/core/commandParser.ts:25 | an ASCII capital becomes the small letter 32 code points above it, and every other character is kept |
| JsStrings.LowerIdempotent | src/core/commands.ts:87 | lower-casing twice is lower-casing once |
| JsStrings.NatToDecimal | src/core/time.ts:40 | `String(n)` is a non-empty string of digits whose value is `n`, with no leading zero, one digit exactly below 10 and two from 10 to 99 |
| JsStrings.Utf16 | src/core/text.ts:58 | a string has at least as many UTF-16 code units as characters and at most twice as many, and exactly as many when no character is above 0xFFFF |
| JsStrings.CharUnits | src/core/text.ts:58 | a character up to 0xFFFF is one code unit; one above it is a high and a low surrogate that encode it |
| JsStrings.NonWhitespaceUnits | src/core/text.ts:58-59 | removing the whitespace removes as many code units as whitespace characters |
| JsStrings.IntToDecimal | src/core/commandParser.ts:95 | `toString()` of an integer starts with `-` exactly when it is negative |
| JsArrays.Filter | src/core/text.ts:19 | `filter` keeps only passing elements of the input |
| JsArrays.FilterCount | src/core/text.ts:19 | `filter` keeps each passing element as often as it occurs and drops every other |
| JsArrays.FilterMember | src/core/commands.ts:130-132 | an element is in the filtered list exactly when it is in the input and passes |
| JsArrays.InsertionSort | src/core/commands.ts:136 | the in-place sort leaves the array ordered by the comparator and a permutation of the input, given by a ghost index map; elements the comparator ties stay in their input order, as `Array.prototype.sort` is stable |
| JsArrays.Insert | src/core/commands.ts:136 | one insertion pass moves an element back past its greater predecessors: the array is sorted one place further, is still a permutation, and the ghost index map stays a stable rearrangement |
| JsArrays.StableTies | src/core/text.ts:20-23 | in a stable rearrangement, two elements the comparator ties occur in the same order in the input |
| JsArrays.SortedAllPairs | src/core/text.ts:20-23 | under a consistent comparator, neighbours in order imply every pair in order |
| Unicode.ChineseToUnicode | src/core/unicode.ts:21-43 | the loop returns the escape of its input, unit after unit, and the result is all ASCII |
| Unicode.EncodeUnit | src/core/unicode.ts:28-39 | a unit up to 127 is copied; any other becomes `\u` or `U+` followed by its four uppercase hex digits; the escape is ASCII |
| Unicode.Hex4 | src/core/unicode.ts:30 | `toString(16).toUpperCase().padStart(4, '0')` is four hex digits without lowercase letters |
| Unicode.Hex4Value | src/core/unicode.ts:30 | the four digits read back as hex give the code unit |
| Unicode.EncodeAscii | src/core/unicode.ts:36-39 | an ASCII text is left as it is |
| Unicode.Encode | src/core/unicode.ts:21-43 | the escape of a whole text is all ASCII and between one and six times as long as the text |
| Unicode.DecodeSlash | src/core/unicode.ts:5-7 | the `\uXXXX` pass never lengthens the text, and a text it does not shorten it leaves unchanged |
| Unicode.DecodePlus | src/core/unicode.ts:10-12 | the `U+XXXX` pass never lengthens the text, and a text it does not shorten it leaves unchanged |
| Unicode.UnicodeToChinese | src/core/unicode.ts:2-18 | decoding never lengthens the text, leaves unchanged a text it does not shorten, and leaves unchanged a text with no `\u`, `U+` or `u+` |
| Unicode.HexRun | src/core/unicode.ts:10 | the greedy `{4,6}` run takes hex digits only, and stops below the limit only at a non-hex unit or the end |
| Unicode.DecodeSlashLeavesPlainText | src/core/unicode.ts:5-7 | text without `\u` passes the slash pass unchanged |
| Unicode.DecodeSlashOfEncode | src/core/unicode.ts:5-7 | the slash pass undoes the slash escapes of a text without backslashes |
| Unicode.DecodePlusLeavesPlainText | src/core/unicode.ts:10-12 | text without `U+` or `u+` passes the plus pass unchanged |
| Unicode.DecodePlusOfEncode | src/core/unicode.ts:10-12 | the plus pass undoes the plus escapes unless an escaped unit is followed by a hex digit |
| Unicode.SlashRoundTrip | src/core/unicode.ts:2-18 | `unicodeToChinese(chineseToUnicode(s, 'slash')) == s` for text with no backslash and no `U+`/`u+` |
| Unicode.PlusRoundTrip | src/core/unicode.ts:2-18 | the same round trip in the plus form, when in addition no escaped unit is followed by a hex digit |
| Unicode.PlusFormAmbiguous | src/core/unicode.ts:10-12 | `中1` encodes to `U+4E2D1`, which decodes to the single unit 0xE2D1: the plus form is not reversible in general |
| Unicode.DecodeFiveDigits | src/core/unicode.ts:10-12 | `U+4E2D1` reads five digits and keeps the low 16 bits of their value |
| Unicode.BatchChineseToUnicode | src/core/unicode.ts:51-54 | the batch encoder escapes each line on its own: line `i` of the result is the escape of line `i` of the input, and the number of lines is kept |
| Unicode.MapEncode | src/core/unicode.ts:53 | `lines.map(chineseToUnicode)` keeps the number of lines and escapes each line |
| Unicode.BatchUnicodeToChinese | src/core/unicode.ts:46-49 | a text without a newline is decoded as one line, exactly as `unicodeToChinese` decodes it |
| Unicode.MapDecode | src/core/unicode.ts:48 | `lines.map(unicodeToChinese)` keeps the number of lines and decodes each line |
| Unicode.BatchDecodeSplitsLines | src/core/unicode.ts:46-49 | the one-line input `\u000A` decodes to a newline, so the batch decoder's result has two lines |
| Unicode.BatchSlashRoundTrip | src/core/unicode.ts:46-54 | batch decoding undoes batch slash encoding for text with no backslash and no `U+`/`u+` |
| Unicode.EncodeKeepsNewlines | src/core/unicode.ts:28-39 | escaping introduces no newline |
| Commands.TableDistinct | src/core/commands.ts:8-69 | no command occurs twice in `AVAILABLE_COMMANDS` |
| Commands.TableKeywords | src/core/commands.ts:8-69 | the names and aliases of `AVAILABLE_COMMANDS` (the constant `Commands.AvailableCommands`), command by command |
| Commands.KeywordsLength | src/core/commands.ts:72-79 | one keyword per name and one per alias |
| Commands.KeywordsMembers | src/core/commands.ts:72-79 | a word is a keyword exactly when it is the name or one of the aliases of some command |
| Commands.GetAllCommandKeywords | src/core/commands.ts:72-79 | the loop lists each name followed by its aliases; there are as many keywords as commands plus aliases, and a word is among them exactly when it names or aliases a command |
| Commands.FirstAliasHit | src/core/commands.ts:107-112 | `find` returns the first alias that passes the test, or none when no alias does |
| Commands.AliasHitIsContains | src/core/commands.ts:107-112 | the three-way `find` test is the same as containment of the query |
| Commands.Score | src/core/commands.ts:93-128 | a score is one of 0, 50, 150, 200, 300, 400, 500, 1000, and it is 1000 exactly for a case-insensitive name match |
| Commands.AliasScorePositive | src/core/commands.ts:107-122 | the alias branch scores exactly when some alias contains the non-empty query |
| Commands.ScorePositive | src/core/commands.ts:93-128 | a command scores for a non-empty query exactly when its name, an alias or its description contains it |
| Commands.ByScoreIsComparator | src/core/commands.ts:136 | `b.score - a.score` is a consistent comparator |
| Commands.FuzzyMatchCommands | src/core/commands.ts:82-139 | a blank query returns the table; otherwise the results are exactly the table commands with a positive score, at most once each, with non-increasing scores, commands of equal score in table order, and an exact name match first |
| Commands.RankCommands | src/core/commands.ts:83-138 | the same for any table without repeated commands |
| Commands.ScoredCommands | src/core/commands.ts:90-133 | the scoring loop keeps exactly the commands with a positive score, in table order |
| Commands.SortByScore | src/core/commands.ts:136 | the sorted results are a permutation of the scored ones, ordered by score, with results of equal score in their order before the sort |
| Commands.RankedMatches | src/core/commands.ts:130-138 | sorting the scored commands keeps exactly the scoring ones, without repeats, highest score first, an exact name match at the front |
| CommandParser.Succeeded | src/core/commandParser.ts:12-16 | a success record has `output` and no `error` |
| CommandParser.Failed | src/core/commandParser.ts:12-16 | a failure record has `error` and no `output` |
| CommandParser.Tokenize | src/core/commandParser.ts:23-26 | the command word of a non-blank input is non-empty, free of whitespace and lower-case |
| CommandParser.TokenizeArgs | src/core/commandParser.ts:24-26 | `args` is empty when there is one token, and otherwise splits at single spaces into exactly the remaining tokens |
| CommandParser.CaughtMessage | src/core/commandParser.ts:106 | `e.message || '执行命令时出错'`: a non-empty message is kept, an empty one falls back |
| CommandParser.Run | src/core/commandParser.ts:103-108 | a handler's value becomes the output, its thrown message the error |
| CommandParser.Dispatch | src/core/commandParser.ts:29-96 | each command's result is its own handler's: the hashes, Base64, URL and `timestamp` handlers' value becomes the output and their message, or the fallback, the error; `date` outputs the milliseconds as a decimal; success has `output`, failure a non-empty `error` |
| CommandParser.ParseAndExecuteCommand | src/core/commandParser.ts:18-109 | success comes with `output`, failure with a non-empty `error`; empty or blank input fails with `请输入命令` |
| CommandParser.MissingArgumentNeverDispatches | src/core/commandParser.ts:31-92 | a recognised command without arguments fails with its own message whatever the handlers do |
| CommandParser.UnknownCommandFails | src/core/commandParser.ts:97-101 | an unrecognised word fails with `未知命令: ` and the list of commands |
| CommandParser.HandlerDecides | src/core/commandParser.ts:30-34 | with arguments the result is the handler's: for `md5` its value, or its message or the fallback when it throws |
| CommandParser.AliasesShareHandler | src/core/commandParser.ts:54-88 | every alias in the table routes to the command of its name |
| CommandParser.RecognisedWords | src/core/commandParser.ts:29-96 | a word is routed exactly when it is a name or alias in `AVAILABLE_COMMANDS` |
| CommandParser.RouteWords | src/core/commandParser.ts:29-96 | the routed words are exactly the sixteen `case` labels |
| CommandParser.UnknownCommandMessage | src/core/commandParser.ts:100 | the unknown-command message starts with `未知命令: ` |
| CommandParser.MissingArgument | src/core/commandParser.ts:31-92 | every missing-argument message is non-empty |
| Time.Pad | src/core/time.ts:39-41 | `pad(n)` is digits whose value is `n`, at least two of them, exactly two below 100, with a leading `0` below 10 |
| Time.TailLayout | src/core/time.ts:43-52 | after the year come `-`, the one-based month, `-`, day, space, hours, `:`, minutes, `:`, seconds, each two characters wide |
| Time.Layout | src/core/time.ts:51 | five two-character fields and the four separators give fifteen characters at fixed places |
| Time.FormatDate | src/core/time.ts:43-52 | a valid date with a non-negative year is read back unchanged from `formatDate`, so the layout loses nothing |
| Time.LayoutReadsBack | src/core/time.ts:51 | the decimal year followed by the fifteen-character tail of a valid date reads back as that date |
| Time.TimestampToLocalString | src/core/time.ts:2-23 | empty input throws `请输入时间戳`; a number that does not parse throws `时间戳格式错误` |
| Time.Milliseconds | src/core/time.ts:12-15 | a ten-character trimmed input counts seconds (times 1000), any other milliseconds |
| Time.ShowDate | src/core/time.ts:17-22 | an invalid date throws, a valid one is formatted |
| Time.SecondsRule | src/core/time.ts:13-15 | a ten-character input shows the same as a millisecond input of another length with a thousand times the value |
| Time.MillisecondsRule | src/core/time.ts:7-22 | an input of another length is shown as the date of that number of milliseconds |
| Time.DateStringToTimestamp | src/core/time.ts:26-37 | empty input throws `请输入日期时间`; otherwise it fails exactly when the date does not parse and returns its milliseconds when it does |
| AppSettings.Lookup | electron/settings.js:85 | a property read is present exactly when the key is, with its value |
| AppSettings.DefaultSettings | electron/settings.js:14-21 | the defaults have no pairs and no templates, and the two quick-search shortcuts use Command on macOS and Control elsewhere |
| AppSettings.Merge | electron/settings.js:31 | `{ ...DEFAULT_SETTINGS, ...settings }`: each top-level key the file has replaces the default, each it lacks keeps it |
| AppSettings.LoadFrom | electron/settings.js:24-37 | a missing or unreadable file loads as the defaults, a readable one as the merge |
| AppSettings.ToStored | electron/settings.js:48 | saving writes every top-level key |
| AppSettings.SaveLoadRoundTrip | electron/settings.js:24-54 | settings that were saved load back unchanged |
| AppSettings.EmptyFileLoadsDefaults | electron/settings.js:24-37 | a file with none of the keys loads as the defaults |
| AppSettings.ShortcutOf | electron/settings.js:67-70 | a stored non-empty shortcut is returned, otherwise the default for the key, so the empty string comes back only when the defaults hold it for the key |
| AppSettings.ShortcutAfterUpdate | electron/settings.js:57-70 | in the corrected store, whose defaults never change: after setting one shortcut, that key reads the new value (or the platform default when it is empty) and every other key reads as before |
| AppSettings.DefaultShortcuts | electron/settings.js:14-18 | with no file the quick-search keys read their platform defaults and any other key reads nothing |
| AppSettings.FindIndex | electron/settings.js:99 | `findIndex` is -1 exactly when no entry matches, and otherwise the first matching index |
| AppSettings.Added | electron/settings.js:85-89 | an add fails exactly when an entry already has the new entry's key value, and otherwise appends the entry and keeps the list before it |
| AppSettings.Updated | electron/settings.js:99-103 | an update fails exactly when no entry matches; otherwise the length is kept, only the first match changes, and it becomes the shallow merge of the old entry and the patch |
| AppSettings.Deleted | electron/settings.js:113-117 | a delete fails exactly when no entry matches; otherwise exactly the first match is removed and the others keep their order |
| AppSettings.AddThenDelete | electron/settings.js:79-119 | adding an entry whose key value no earlier entry has and then deleting by that value gives the list back |
| AppSettings.AddThenDeletePair | electron/settings.js:79-119 | a file-move pair that was added can be deleted by its alias, restoring the list |
| AppSettings.AddThenDeleteTemplate | electron/settings.js:128-168 | a template added under a fresh name is deleted back by its id only when no earlier template has that id |
| AppSettings.TemplateIdsNotChecked | electron/settings.js:128-168 | adding checks names but deleting matches ids: a second template with a new name and an old id is added, and deleting the id removes the older one |
| AppSettings.SettingsStore.Load | electron/settings.js:24-37 | the settings read are those of the current file and platform |
| AppSettings.SettingsStore.GetShortcut | electron/settings.js:67-70 | the shortcut read from the loaded settings |
| AppSettings.SettingsStore.GetFileMovePairs | electron/settings.js:73-76 | the stored pairs, or none when the file does not give them |
| AppSettings.SettingsStore.GetSignatureTemplates | electron/settings.js:122-125 | the stored templates, or none when the file does not give them |
| AppSettings.SettingsStore.Save | electron/settings.js:40-54 | the result is whether the write succeeds; a successful save replaces the file so that it loads back as the settings, a failing one leaves it |
| AppSettings.SettingsStore.UpdateShortcut | electron/settings.js:57-64 | corrected half of the Findings row: only the given key changes, and only if the save succeeds |
| AppSettings.SettingsStore.AddFileMovePair | electron/settings.js:79-91 | corrected half of the Findings row: a taken alias fails with `别名 "…" 已存在` and changes nothing; otherwise the pair is appended and the result says whether it was saved; an unsaved add changes nothing |
| AppSettings.SettingsStore.UpdateFileMovePair | electron/settings.js:94-105 | corrected half of the Findings row: a missing alias fails with `别名 "…" 不存在` and changes nothing; otherwise the first pair with the alias is merged with the patch, saved if the write succeeds |
| AppSettings.SettingsStore.DeleteFileMovePair | electron/settings.js:108-119 | corrected half of the Findings row: a missing alias fails with `别名 "…" 不存在`; otherwise the first pair with the alias is removed, saved if the write succeeds |
| AppSettings.SettingsStore.AddSignatureTemplate | electron/settings.js:128-140 | corrected half of the Findings row: a taken name fails with `模板名称 "…" 已存在`; otherwise the template is appended, saved if the write succeeds |
| AppSettings.SettingsStore.UpdateSignatureTemplate | electron/settings.js:143-154 | corrected half of the Findings row: a missing id fails with `模板 ID "…" 不存在`; otherwise the first template with the id is merged with the patch, saved if the write succeeds |
| AppSettings.SettingsStore.DeleteSignatureTemplate | electron/settings.js:157-168 | corrected half of the Findings row: a missing id fails with `模板 ID "…" 不存在`; otherwise the first template with the id is removed, saved if the write succeeds |
| AppSettings.LoadAsWritten | electron/settings.js:24-37 | as written, loading without a readable file returns the defaults object itself |
| AppSettings.CommitAsWritten | electron/settings.js:31-63 | as written, a mutator's change to a part of the loaded object that the file did not supply lands in `DEFAULT_SETTINGS`; the next load sees every change if the write succeeds, and otherwise still sees the changes to those shared parts |
| AppSettings.NoFileChangesPersist | electron/settings.js:24-37 | as written, with no settings file the next load sees every change a mutator made, saved or not |
| AppSettings.GetShortcutAsWritten | electron/settings.js:67-70 | as written, a loaded non-empty shortcut is returned, otherwise the entry of the current, possibly changed, `DEFAULT_SETTINGS.shortcuts` |
| AppSettings.UpdateShortcutAsWritten | electron/settings.js:57-64 | as written, the result is whether the write succeeded; whether a write succeeds is kept; when the write succeeds or the shortcut map is the defaults' own, the next load is the old one with the key set to the new value and its pairs and templates as before, and otherwise the next load is unchanged |
| AppSettings.AddFileMovePairAsWritten | electron/settings.js:79-91 | as written, a taken alias throws; otherwise the add returns whether the write succeeded, and the next load sees the pair appended when the write succeeded or the pair list is the defaults' own, and every other part of the next load is as before; a failed write to a list the file supplied leaves the next load unchanged; whether a write succeeds is kept |
| AppSettings.UpdateFileMovePairAsWritten | electron/settings.js:94-105 | as written, a missing alias throws; otherwise the next load sees the first match merged when the write succeeded or the pair list is the defaults' own, and every other part of the next load is as before; a failed write to a list the file supplied leaves the next load unchanged; whether a write succeeds is kept |
| AppSettings.DeleteFileMovePairAsWritten | electron/settings.js:108-119 | as written, a missing alias throws; otherwise the next load sees the first match removed when the write succeeded or the pair list is the defaults' own, and every other part of the next load is as before; a failed write to a list the file supplied leaves the next load unchanged; whether a write succeeds is kept |
| AppSettings.AddSignatureTemplateAsWritten | electron/settings.js:128-140 | as written, a taken name throws; otherwise the next load sees the template appended when the write succeeded or the template list is the defaults' own, and every other part of the next load is as before; a failed write to a list the file supplied leaves the next load unchanged; whether a write succeeds is kept |
| AppSettings.UpdateSignatureTemplateAsWritten | electron/settings.js:143-154 | as written, a missing id throws; otherwise the next load sees the first match merged when the write succeeded or the template list is the defaults' own, and every other part of the next load is as before; a failed write to a list the file supplied leaves the next load unchanged; whether a write succeeds is kept |
| AppSettings.DeleteSignatureTemplateAsWritten | electron/settings.js:157-168 | as written, a missing id throws; otherwise the next load sees the first match removed when the write succeeded or the template list is the defaults' own, and every other part of the next load is as before; a failed write to a list the file supplied leaves the next load unchanged; whether a write succeeds is kept |
| AppSettings.UnsavedPairPersists | electron/settings.js:79-91 | with no file and a failing write the add reports `false`, yet the next load shows the pair and adding it again fails |
| AppSettings.UnsavedTemplatePersists | electron/settings.js:128-140 | with no file and a failing write the add reports `false`, yet the next load shows the template and adding its name again fails |
| AppSettings.UnsavedShortcutPersists | electron/settings.js:57-70 | with no file and a failing write `updateShortcut('quickSearch', 'X')` reports `false`, yet `getShortcut('quickSearch')` then returns `X` instead of the platform default |
| AppSettings.ClearedShortcutLosesDefault | electron/settings.js:57-70 | with no file, setting `quickSearch` to the empty string also clears its default, so `getShortcut` returns the empty string, not the platform default |
| RemoveBlackBgPy.Cleared | electron/remove_black_bg.py:25-29 | a pixel whose r, g and b are all below the threshold becomes `(0,0,0,0)`, any other is copied |
| RemoveBlackBgPy.RemoveBlackBackground | electron/remove_black_bg.py:18-37 | an image that opens gives the pixel-by-pixel transform of its pixels; one that does not gives nothing |
| RemoveBlackBgPy.ClearedAll | electron/remove_black_bg.py:22-31 | the transform keeps the number and order of pixels; a pixel whose r, g and b are all below the threshold becomes `(0,0,0,0)` and every other is kept |
| RemoveBlackBgPy.ClearedAllIdempotent | electron/remove_black_bg.py:25-29 | the transform applied twice is the transform applied once |
| RemoveBlackBgPy.NoThresholdNoChange | electron/remove_black_bg.py:26 | a threshold of 0 or less changes nothing |
| RemoveBlackBgPy.StrictThreshold | electron/remove_black_bg.py:9-29 | at the default threshold 30 a channel of 30 keeps the pixel, while `(29,29,29,255)` and `(10,5,20,255)` become `(0,0,0,0)` and `(40,40,40,255)` is kept |
| RemoveBlackBgPy.ProcessIconset | electron/remove_black_bg.py:39-56 | a missing path exits with 1, and so does a path that is not a directory, where `os.listdir` raises; otherwise every `.png` name is handed to the transform and counted, whether or not it succeeds |
| RemoveBlackBgPy.PngCount | electron/remove_black_bg.py:49-53 | the count grows by one for a `.png` name and not for any other |
| RemoveBlackBgJs.ClearPixel | electron/remove_black_bg.js:26-29 | one pixel keeps its length and every byte but offset 3, which becomes 0 when r, g and b are all below the threshold |
| RemoveBlackBgJs.AlphaCleared | electron/remove_black_bg.js:21-30 | the buffer after the loop has the same length as before |
| RemoveBlackBgJs.RemoveBlackBackground | electron/remove_black_bg.js:17-30 | the in-place loop leaves the buffer equal to the pixel-by-pixel specification of its old contents |
| RemoveBlackBgJs.TurnsClear | electron/remove_black_bg.js:21-30 | the remaining turns of the loop from offset `i` keep the bytes before `i` and clear the pixels from `i` on |
| RemoveBlackBgJs.AlphaClearedSplit | electron/remove_black_bg.js:21 | the loop splits the buffer into whole pixels from the front |
| RemoveBlackBgJs.AlphaClearedAt | electron/remove_black_bg.js:21-30 | with four channels the byte at offset 3 of a qualifying pixel becomes 0 and every other byte is kept |
| RemoveBlackBgJs.AlphaClearedIdempotent | electron/remove_black_bg.js:21-30 | running the loop a second time changes nothing |
| RemoveBlackBgJs.PixelBytes | electron/remove_black_bg.js:22-28 | the colour bytes of each pixel are kept and its alpha is cleared exactly when the colour qualifies |
| RemoveBlackBgJs.AgreesWithPythonOnAlpha | electron/remove_black_bg.js:27-29 | a pixel is cleared under the same condition as in the Python script and gets the same alpha, but keeps its colour, so the two agree on a pixel exactly when it does not qualify or is already black |
| RemoveBlackBgJs.ProcessIconset | electron/remove_black_bg.js:51-82 | a missing path exits with 1, and so do a path that is not a directory, where `readdirSync` throws into `main().catch`, and a directory without `.png` files; otherwise every `.png` name is processed and counted |
| RemoveBlackBgJs.OnlyPngProcessed | electron/remove_black_bg.js:59 | a name is processed exactly when it is an entry ending in `.png` |

## Left out

- Reading and writing the settings file, `app.getPath` and `JSON.parse`/`JSON.stringify` are left out. The file is one abstract value: missing, unreadable, or the parsed top-level keys.
- Stored values that are `null` or of the wrong JSON type are left out, and so are entries with non-string properties and extra top-level keys. Because of this, the `if (!settings.fileMovePairs)` guards never fire in the model.
- `console` output and the `try`/`catch` logging in `settings.js` and both icon scripts are left out.
- The `__main__` guard in the Python script is left out. Of `main().catch` in the Node script, only the exit with 1 after a failing `readdirSync` is modelled; the message it logs is left out.
- PNG decoding and encoding (PIL `Image.open`/`convert`/`save`, `sharp`) are left out. An image is its pixel list or its raw byte buffer.
- A failing save is folded into the Python script's "did not open" case. The Node save is outside the model.
- RemoveBlackBgJs.RemoveBlackBackground: it requires at least four channels, which covers RGB or RGBA input with its alpha added. A greyscale PNG has 2 channels after `ensureAlpha` and is not modelled. With a stride of 2 the loop would test the next pixel's grey byte as `b` and clear that pixel's alpha byte instead of its own.
- `localeCompare('zh-CN')` is a parameter, required to be a consistent comparator.
- Text outside the places listed under "Code units and bytes" is a Dafny `string`, whose characters are Unicode scalar values. A lone surrogate therefore cannot occur in those texts, and an astral character is one element there (for `split`, `trim`, equality and the line numbers of `computeDiff` this makes no difference).
- `toLowerCase` is modelled for ASCII letters only. Locale and Unicode case mapping are left out. The same goes for `toUpperCase`/`toLowerCase` in `text.ts`, which wrap the built-ins and nothing more.
- `toTitleCase` and `toCamelCase` are left out, because they are made of regular-expression word-boundary replacements.
- `Number`, `new Date`, time zones and floating point in `time.ts` are parameters. `NaN` is `None`. Infinity and rounding are not modelled.
- Time.FormatDate: its round trip holds for non-negative years only, because a negative year puts a `-` before the digits.
- The hash, Base64, URL and time handlers of the parser are parameters, and so are the hash and URL modules themselves.
- The `catch` of `unicodeToChinese` is not modelled: the two `replace` calls cannot throw.

## Findings

| source | as written | input that shows it | evidently intended | confidence | as-written member | corrected member |
|---|---|---|---|---|---|---|
| electron/settings.js:24-91 | `loadSettings` returns `DEFAULT_SETTINGS` itself when there is no readable file, and shares its arrays with the merged object when the file lacks a key; `addFileMovePair` then `push`es into the defaults | no settings file and a write that fails: `addFileMovePair(pair)` returns `false`, yet the next `loadSettings` lists the pair and adding it again throws `别名 "…" 已存在` | a failed save leaves the settings as they were, and the defaults never change | medium, not executed | AppSettings.UnsavedPairPersists | AppSettings.SettingsStore.AddFileMovePair |
| electron/settings.js:24-70 | `updateShortcut` assigns into the loaded shortcut map, which is `DEFAULT_SETTINGS.shortcuts` itself when there is no file or the file has no `shortcuts`; `getShortcut` falls back to that same map | no settings file and a failing write: `updateShortcut('quickSearch', 'X')` returns `false`, yet `getShortcut('quickSearch')` returns `X`; with a working write, `updateShortcut('quickSearch', '')` makes `getShortcut` return the empty string instead of the platform default | a failed save changes nothing, and an empty shortcut reads as the platform default | medium, not executed | AppSettings.UnsavedShortcutPersists | AppSettings.SettingsStore.UpdateShortcut |
| electron/settings.js:128-140 | `addSignatureTemplate` `push`es into the template array of the loaded object, which is the defaults' own array when there is no file | no settings file and a failing write: `addSignatureTemplate(t)` returns `false`, yet the next load lists `t` and adding a template of the same name throws `模板名称 "…" 已存在` | a failed save leaves the templates as they were | medium, not executed | AppSettings.UnsavedTemplatePersists | AppSettings.SettingsStore.AddSignatureTemplate |
