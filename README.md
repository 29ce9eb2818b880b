# zimu — a verified model of the subtitle merger

zimu merges two subtitle files, a main track and a supplementary track in
another language, into one Advanced SubStation Alpha (ASS, SSA v4+) script
that shows both at once. The program has three stages:

- **Readers.** An ASS/SSA reader (`ass_parser::parse`) and a SubRip reader
  (`srt_parser::parse`) are line-driven state machines. Each turns a file into
  blocks, where a block is a start time, an end time and text lines.
- **Normaliser.** `normalize` moves the supplementary track so that its first
  block starts with the first block of the main track.
- **Emitter.** `generate_ass` writes:
  - a fixed header;
  - one `Style:` line per language;
  - one `Dialogue:` line per block, with the language's index as its layer.

The model is split into modules:

| module | models |
|---|---|
| `Ast` | the shared `Block` record. |
| `Times` | chrono's `NaiveTime`, restricted to how the program uses it. |
| `IndexMaps` | `IndexMap`. |
| `Decimal` and `Strings` | the `str` and number formatting and parsing the code relies on. |
| `AssParser` | the ASS reader. |
| `SrtParser` | the SubRip reader. |
| `Zimu` | `parse_file`, `normalize`, `generate_ass` and `main`. |
| `AssRoundTrip` | proves that the merger's output reads back through the ASS reader. |

Both readers work the same way:

- `Step` models one iteration of the source's loop as a function.
- `Run` folds `Step` over the lines.
- `Parse` is the loop itself, written as a method and proved equal to the fold.

`Normalize` shifts an array in place. `GenerateAss` appends to a string in two
loops, and each loop is proved against the line-by-line specification
`AssLines`.

Modelling choices:

- **Times.** A time of day is a natural number of nanoseconds below 24 hours.
  Shifting a time by a duration wraps around midnight, as chrono's
  `NaiveTime + Duration` does.
- **`IndexMap`.** An `IndexMap` is a sequence of key/value pairs with distinct
  keys:
  - `insert` on a present key replaces the value where the key already stands;
  - `remove` is `swap_remove`.
- **Panics.** The source's panics (`unwrap`, `expect`, `panic!`, `todo!`) are
  error values, except `normalize`'s `first().unwrap()`, which is a
  precondition of `Normalize`.
- **Files.** A file is either its lines or its text. The text goes through
  `Strings.Lines`, which models `BufRead::lines`.

**The round trip.** The main result is `AssRoundTrip.MergedScriptReadsBack`.
Take two tracks in different languages whose text can be written. Read back
with the ASS reader, the script `main` prints gives:

- first, the supplementary track, moved to start with the main one;
- then, the main track;
- in both, every time cut to the hundredth of a second.

**Where the code is followed.** In four places the code behaves differently
from what one might expect of a subtitle merger. The model follows the code:

- **Long fractions.** chrono accepts a fraction of more than nine digits and skips
  the digits after the ninth; `Times` does the same.
- **Midnight.** Time arithmetic wraps around midnight rather than failing,
  because chrono's `NaiveTime + Duration` wraps.
- **Equal times in SubRip records.** Two records with equal start and equal end
  do not stop the SubRip reader:
  - `slice::sort` only calls `PartialOrd::lt`, and never the `Ord::cmp` whose
    `unwrap` would panic;
  - such records therefore keep their input order (`SrtParser.SortBlocksStable`);
  - `SrtParser.Cmp` keeps the panic as its precondition.
- **Empty tracks.** An empty main or supplementary track is an error. It comes
  from `main_subs.first().unwrap()` and from the `unwrap` in `normalize`
  (`Zimu.Merge`).

## Model

| member | source | states |
|---|---|---|
| AssParser.ParseEventFormatKey | crates/ass-parser/src/lib.rs:59-77 | `from_str` is total: the key's name is exactly the given string, and the key is `Unknown` exactly when the string is not one of the ten column names |
| AssParser.KeyNameRoundTrip | crates/ass-parser/src/lib.rs:44-77 | every key, other than an `Unknown` that spells a known name, is read back from its own name |
| AssParser.ToBlock | crates/ass-parser/src/lib.rs:6-14 | the block keeps the event's start, end and text lines, and drops `meta` |
| AssParser.ParseFormatLine | crates/ass-parser/src/lib.rs:152-158 | one key per comma-separated piece of the `Format:` body, each naming the trimmed piece |
| AssParser.FormatLineOf | crates/ass-parser/src/lib.rs:152-158 | column names joined by `", "` read back as the keys of those names, in order, when no name holds a comma or has whitespace at either end |
| AssParser.DialogueColumns | crates/ass-parser/src/lib.rs:167-172 | the zipped columns form a map with distinct keys |
| AssParser.TakeColumn | crates/ass-parser/src/lib.rs:174-189 | `remove(..).unwrap()`: succeeds exactly when the key is present; returns the key's value; the key is gone afterwards; every other key keeps its value; otherwise `MissingField` |
| AssParser.ReadTime | crates/ass-parser/src/lib.rs:180-189 | a `Start`/`End` column is read exactly when it parses as `%H:%M:%S%.f`; otherwise `InvalidTime` for that column |
| AssParser.EventOf | crates/ass-parser/src/lib.rs:174-196 | `meta` keeps every column except `Text`, `Start` and `End`; the columns are taken in the source's order, `Text`, then `Start`, then `End`, and the first one missing, or the first time that does not parse, is the error (`MissingField` or `InvalidTime` with the column's text) |
| AssParser.ParseDialogue | crates/ass-parser/src/lib.rs:161-165 | fails with `NoFormatLine` exactly when no format has been read |
| AssParser.EventsLine | crates/ass-parser/src/lib.rs:151-198 | inside `[Events]`: only a `Dialogue:` line can fail; a successful `Dialogue:` line appends exactly one event and keeps the format; any other line keeps the events |
| AssParser.Step | crates/ass-parser/src/lib.rs:121-200 | one line never drops or reorders the events read so far |
| AssParser.Parse | crates/ass-parser/src/lib.rs:115-208 | the loop returns what the fold of `Step` over the lines gives: the events in file order, with script info and styles empty |
| AssParser.BlankLineEndsSection | crates/ass-parser/src/lib.rs:122-128 | a line that is blank after trimming returns the reader to `ExpectSection`, whatever the state, and changes nothing else |
| AssParser.OutsideSections | crates/ass-parser/src/lib.rs:131-137 | between sections, exactly a line that starts with `[` and ends with `]` opens a section; it opens the section named by the line without its brackets; any other line is ignored |
| AssParser.StylesSectionSkipped | crates/ass-parser/src/lib.rs:139-150 | inside a section whose name ends in `Styles`, every non-blank line leaves the reader unchanged |
| AssParser.OtherSectionSkipped | crates/ass-parser/src/lib.rs:199 | inside any section other than `[Events]` or a `Styles` section, every non-blank line leaves the reader unchanged |
| AssParser.EventsSectionLine | crates/ass-parser/src/lib.rs:151-198 | inside `[Events]`, a non-blank line goes to the events logic trimmed |
| AssParser.FormatLineRead | crates/ass-parser/src/lib.rs:152-160 | inside `[Events]`, `Format: ` followed by a body replaces the format with the keys the body names |
| AssParser.DialogueLineRead | crates/ass-parser/src/lib.rs:161-197 | inside `[Events]`, `Dialogue: ` followed by a body appends the event the body reads as, or stops with that body's error |
| AssParser.DialogueBeforeFormat | crates/ass-parser/src/lib.rs:161-165 | a `Dialogue:` line in `[Events]` before any `Format:` line fails |
| AssParser.StepKeepsEvents | crates/ass-parser/src/lib.rs:121-200 | every line except a `Dialogue:` line inside `[Events]` is accepted and keeps the events |
| AssParser.StepAddsEvent | crates/ass-parser/src/lib.rs:161-197 | an accepted `Dialogue:` line inside `[Events]` adds exactly one event, at the end |
| AssParser.RunKeepsEvents | crates/ass-parser/src/lib.rs:121-201 | the reader never drops or reorders an event it has produced |
| AssParser.RunConcat | crates/ass-parser/src/lib.rs:121-201 | reading two chunks of lines one after the other is reading them together; the first error stops the reader |
| AssParser.DialogueOfColumns | crates/ass-parser/src/lib.rs:167-172 | columns joined by commas, none but the last holding a comma, come back under their keys; commas in the last column survive |
| AssParser.DialogueOfFields | crates/ass-parser/src/lib.rs:167-189 | with `Text`, `Start` and `End` in the format, a `Dialogue:` body is read exactly when both times are valid; the text is split at `\N`, and joining it again gives the column |
| AssParser.EventOfColumns | crates/ass-parser/src/lib.rs:174-196 | the event of columns holding `Text`, `Start` and `End`: it exists exactly when both times parse, and then holds the split text and the parsed times |
| SrtParser.ToBlock | crates/srt-parser/src/lib.rs:5-13 | the block keeps start, end and content, and drops the sequence number and the extras |
| SrtParser.PartialCmpMeaning | crates/srt-parser/src/lib.rs:30-43 | `partial_cmp` is `None` exactly for equal start and end; `lt` is the lexicographic order on (start, end); `Greater` exactly when the other is less |
| SrtParser.LtIsKeyOrder | crates/srt-parser/src/lib.rs:30-43 | `lt` is the order of the single number start·day + end |
| SrtParser.Cmp | crates/srt-parser/src/lib.rs:24-28 | `cmp` is defined only where `partial_cmp` is; it returns `Less` or `Greater` in agreement with `lt`, and never `Equal` |
| SrtParser.Insert | crates/srt-parser/src/lib.rs:123 | inserting adds exactly the one record (as a multiset) |
| SrtParser.SortBlocks | crates/srt-parser/src/lib.rs:123 | the sorted records are a permutation of the input |
| SrtParser.SortBlocksSorted | crates/srt-parser/src/lib.rs:123 | no sorted record is less, by `lt`, than one before it |
| SrtParser.SortBlocksKeySorted | crates/srt-parser/src/lib.rs:123 | the sorted records are ascending by start, and by end among equal starts |
| SrtParser.SortBlocksStable | crates/srt-parser/src/lib.rs:123 | records with the same start and end keep their input order |
| SrtParser.StripBom | crates/srt-parser/src/lib.rs:64-66 | a single leading U+FEFF is removed; any other line is left as it is |
| SrtParser.ParseTimingAccepts | crates/srt-parser/src/lib.rs:73-97 | a timing line is accepted exactly when its first three whitespace tokens are a valid time, `-->` and a valid time; the remaining tokens become the extras |
| SrtParser.Step | crates/srt-parser/src/lib.rs:61-120 | one line keeps the closed records and their order, and keeps the pending fields consistent, so closing a record never meets an empty `Option` |
| SrtParser.Parse | crates/srt-parser/src/lib.rs:51-125 | the loop returns what the fold of `Step` gives: the closed records, sorted |
| SrtParser.BomIgnored | crates/srt-parser/src/lib.rs:64-66 | a byte-order mark in front of a line changes nothing |
| SrtParser.BlankLineBetweenRecords | crates/srt-parser/src/lib.rs:69-72 | a blank line where a sequence number is expected is an `InvalidSequenceId` error |
| SrtParser.RunConcat | crates/srt-parser/src/lib.rs:61-121 | reading two chunks of lines one after the other is reading them together |
| SrtParser.TimingLineOf | crates/srt-parser/src/lib.rs:73-97 | the timing line of a writable record reads back as its start, end and extras |
| SrtParser.SequenceIdStep | crates/srt-parser/src/lib.rs:64-72 | between records, a line that parses as a `u64` once a leading byte-order mark is removed (`+5` and `007` included) opens a record under that number and nothing else changes; every other line is an `InvalidSequenceId` error |
| SrtParser.NumeralOpensRecord | crates/srt-parser/src/lib.rs:69-72 | the decimal numeral of a sequence number opens a record under that number |
| SrtParser.TimingStep | crates/srt-parser/src/lib.rs:73-97 | after the number, the timing line sets start, end and extras |
| SrtParser.ContentStep | crates/srt-parser/src/lib.rs:98-119 | inside a record, a non-blank line is appended to the content verbatim |
| SrtParser.CloseStep | crates/srt-parser/src/lib.rs:64-116 | inside a record, any line that is empty or only whitespace once a leading byte-order mark is removed closes it and resets every pending field |
| SrtParser.ContentLines | crates/srt-parser/src/lib.rs:98-119 | text lines are collected in order until the closing blank line |
| SrtParser.RecordRoundTrip | crates/srt-parser/src/lib.rs:61-121 | the lines of one writable record, read between records, close exactly that record |
| SrtParser.DocumentRoundTrip | crates/srt-parser/src/lib.rs:61-121 | the text of writable records, read from the start, closes them all, in order |
| SrtParser.ParseRoundTrip | crates/srt-parser/src/lib.rs:51-125 | `parse` of the text of writable records returns them sorted |
| SrtParser.OpenRecord | crates/srt-parser/src/lib.rs:98-121 | a record's lines without the closing blank line leave it open and unrecorded |
| SrtParser.UnterminatedRecordDropped | crates/srt-parser/src/lib.rs:99-124 | a last record with no blank line after it is dropped from the result |
| Times.AddDuration | crates/zimu/src/main.rs:85-86 | `NaiveTime + Duration` is the sum modulo one day |
| Times.AddSince | crates/zimu/src/main.rs:82-86 | adding `a - b` to `b` gives `a` |
| Times.AddKeepsDistance | crates/zimu/src/main.rs:85-86 | shifting two times by the same duration keeps their distance, modulo a day |
| Times.TimeOf | crates/ass-parser/src/lib.rs:180-189 | a clock is a time exactly when hour < 24, minute < 60 and second < 60 |
| Times.PartsRoundTrip | crates/zimu/src/main.rs:116-123 | taking a time apart into hour, minute, second and nanosecond, and putting it back together, are inverse |
| Times.FormatHundredthsRoundTrip | crates/zimu/src/main.rs:116-123 | the emitter's `H:MM:SS.CC`, read with `%H:%M:%S%.f`, gives the time truncated (not rounded) to the hundredth |
| Times.FormatMillisRoundTrip | crates/srt-parser/src/lib.rs:76-89 | `HH:MM:SS,mmm`, read with `%H:%M:%S,%3f`, gives the time truncated to the millisecond |
| IndexMaps.Insert | crates/zimu/src/main.rs:68-70 | `insert` appends a new key, or replaces the value of a present key in place; afterwards the key maps to the value and every other key is unchanged |
| IndexMaps.SwapRemove | crates/ass-parser/src/lib.rs:174-189 | `remove` returns the key's value; afterwards the key is absent, the other keys keep their values, and the length drops by one exactly when the key was present |
| IndexMaps.Zip | crates/ass-parser/src/lib.rs:168-171 | the pairs go as far as the shorter side, position by position |
| IndexMaps.FromDistinctPairs | crates/ass-parser/src/lib.rs:168-172 | collecting pairs whose keys are distinct keeps them as they are |
| IndexMaps.GetUnique | crates/ass-parser/src/lib.rs:174-189 | in a map with distinct keys, a lookup finds the entry that holds the key |
| Strings.Trim | crates/ass-parser/src/lib.rs:123 | `trim` is empty exactly for an all-whitespace line; otherwise it neither starts nor ends with whitespace |
| Strings.TrimInfix | crates/ass-parser/src/lib.rs:123 | `trim` is the infix of the line that follows its leading whitespace, with nothing but whitespace before and after it |
| Strings.TrimStartMatches | crates/ass-parser/src/lib.rs:141 | `trim_start_matches` leaves a suffix that does not start with the prefix |
| Strings.TrimStartMatchesCopies | crates/ass-parser/src/lib.rs:153 | what `trim_start_matches` takes off is a whole number of copies of the prefix, one after another |
| Strings.TrimBrackets | crates/ass-parser/src/lib.rs:133 | `trim_matches` on brackets leaves no bracket at either end |
| Strings.TrimBracketsInfix | crates/ass-parser/src/lib.rs:133 | `trim_matches` on brackets is an infix of the line with nothing but brackets before and after it |
| Strings.BracketsTrimmed | crates/ass-parser/src/lib.rs:133 | a name in brackets, with no bracket at either end of the name, comes back as the name |
| Strings.SplitOnCount | crates/ass-parser/src/lib.rs:177 | `split` gives one more piece than there are occurrences of the separator |
| Strings.JoinSplitOn | crates/ass-parser/src/lib.rs:174-179 | joining the pieces of `split` with the separator gives back the string |
| Strings.SplitOnJoin | crates/ass-parser/src/lib.rs:155 | `split` undoes `join` when no piece contains a separator that cannot overlap itself |
| Strings.SplitN | crates/ass-parser/src/lib.rs:167 | `splitn(n, ..)` gives between one and `n` pieces |
| Strings.SplitNPieces | crates/ass-parser/src/lib.rs:167 | only the last piece of `splitn` can hold the separator, and only when there are `n` pieces |
| Strings.JoinSplitN | crates/ass-parser/src/lib.rs:167 | joining the pieces of `splitn` with the separator gives back the string |
| Strings.SplitNJoin | crates/ass-parser/src/lib.rs:167 | `splitn` into as many pieces as were joined gives back the pieces, when none but the last holds the separator |
| Strings.SplitWhitespaceTokens | crates/srt-parser/src/lib.rs:74 | the pieces of `split_whitespace` are non-empty and hold no whitespace |
| Strings.SplitWhitespaceJoin | crates/srt-parser/src/lib.rs:74 | `split_whitespace` undoes joining non-empty, whitespace-free tokens with spaces |
| Strings.Lines | crates/ass-parser/src/lib.rs:121 | `lines()` gives no line exactly for empty text, and no line it gives holds a newline |
| Strings.LinesUnterminated | crates/srt-parser/src/lib.rs:61 | text with no newline is a single line, a trailing carriage return included |
| Strings.LinesCrLf | crates/srt-parser/src/lib.rs:61 | a line ended by `\r\n` loses both characters and is followed by the lines of the rest |
| Strings.LinesCons | crates/ass-parser/src/lib.rs:121 | a line with no newline and no trailing carriage return, followed by a newline, is the first line `lines()` gives |
| Decimal.ParseU64 | crates/srt-parser/src/lib.rs:70 | a parsed sequence number fits in 64 bits |
| Decimal.ParseU64RoundTrip | crates/srt-parser/src/lib.rs:70 | every `u64` written in decimal, with or without `+`, parses back to itself |
| Decimal.ParseU64RejectsNonDigit | crates/srt-parser/src/lib.rs:70 | a non-digit anywhere other than a leading `+` is not a sequence number |
| Decimal.NatToStringValue | crates/zimu/src/main.rs:107 | the decimal numeral written for a number reads back as that number |
| Decimal.Pad2 | crates/zimu/src/main.rs:116-123 | `{:02}` of a value below 100 is two digits whose value is that value |
| Zimu.Normalized | crates/zimu/src/main.rs:80-88 | the shifted track has the same length and contents; its first block starts at `realStart`; every start and end moves by `realStart - first start`, modulo a day |
| Zimu.NormalizeKeepsDurations | crates/zimu/src/main.rs:80-88 | every block keeps its length on screen, modulo a day |
| Zimu.NormalizeAtStart | crates/zimu/src/main.rs:80-88 | a track that already starts at `realStart` is left unchanged |
| Zimu.NormalizeIdempotent | crates/zimu/src/main.rs:80-88 | normalizing twice is normalizing once |
| Zimu.Normalize | crates/zimu/src/main.rs:80-88 | the in-place loop leaves the array equal to `Normalized` of its old contents |
| Zimu.MarginV | crates/zimu/src/main.rs:99 | `12 + n * (18 * 2) + n * 4` is `12 + 40n` |
| Zimu.Font | crates/zimu/src/main.rs:100-104 | `Microsoft YaHei` exactly for `zh`, `Arial` otherwise |
| Zimu.Colour | crates/zimu/src/main.rs:106 | white (`FFFFFF`) exactly for index 0, yellow (`00FFFF`) for every later index |
| Zimu.StyleLineFields | crates/zimu/src/main.rs:107 | a style line is `Style: ` followed by one value per style column: the language, `Microsoft YaHei` exactly for `zh`, `&H00FFFFFF` exactly for index 0, and MarginV `12 + 40n` |
| Zimu.StyleLinePlain | crates/zimu/src/main.rs:107 | a style line has no newline of its own and no trailing carriage return |
| Zimu.GenerateAss | crates/zimu/src/main.rs:90-134 | the script is the header, the style lines, the events header and the dialogue lines, each followed by a newline |
| Zimu.WriteStyles | crates/zimu/src/main.rs:98-110 | the first loop appends one style line per language, in key order |
| Zimu.WriteDialogues | crates/zimu/src/main.rs:113-131 | the second loop appends the tracks in key order, one dialogue line per block in block order, with the counter advancing once per language |
| Zimu.UnlinesCount | crates/zimu/src/main.rs:90-134 | the script holds one newline per line, plus the newlines inside the lines themselves |
| Zimu.LinesOfUnlines | crates/zimu/src/main.rs:90-134 | `lines()` on the written script gives back its lines, when no line holds a newline or ends in a carriage return |
| Zimu.AssBlocks | crates/zimu/src/main.rs:15-19 | one block per ASS event, converted by `From<Event>` |
| Zimu.SrtBlocks | crates/zimu/src/main.rs:20-23 | one block per SubRip record, converted by `From<Block>` |
| Zimu.ParseFile | crates/zimu/src/main.rs:8-28 | no extension and an unknown extension fail; `ass`/`ssa` give the blocks of the events the ASS reader returns, in order, or its error; `srt` gives the blocks of the records the SubRip reader returns, or its error |
| Zimu.ParseFileSrtRoundTrip | crates/zimu/src/main.rs:20-23 | a SubRip file written from writable records reads back as their blocks, in sorted order |
| Zimu.Merge | crates/zimu/src/main.rs:57-70 | fails exactly when a track is empty; otherwise the tracks form a map with distinct languages |
| Zimu.MergeOrder | crates/zimu/src/main.rs:68-70 | with two languages, the supplementary track comes first (layer 0, white), normalized to start with the main track; the main track comes second |
| Zimu.MergeSameLanguage | crates/zimu/src/main.rs:68-70 | with one language twice, the main track replaces the supplementary one, which is lost |
| Zimu.Output | crates/zimu/src/main.rs:57-78 | the program succeeds exactly when both files are read and neither track is empty; a failure of the main file is reported first, then one of the supplementary file, then an empty main track; on success it prints the lines `generate_ass` writes for the merged tracks |
| AssRoundTrip.OpensSection | crates/ass-parser/src/lib.rs:131-137 | a bracketed name between sections opens the section of that name |
| AssRoundTrip.ScriptHeaderRun | crates/zimu/src/main.rs:91-96 | the fixed header leaves the reader inside `[V4+ Styles]` with nothing read |
| AssRoundTrip.StylesRun | crates/ass-parser/src/lib.rs:139-150 | inside a styles section, non-blank lines change nothing |
| AssRoundTrip.EventsFormat | crates/zimu/src/main.rs:111 | the emitted `[Events]` format line reads back as the ten known keys, in order |
| AssRoundTrip.EventsHeaderRun | crates/zimu/src/main.rs:111 | the blank line, `[Events]` and the format line put the reader inside `[Events]` with the emitter's format |
| AssRoundTrip.HeaderRun | crates/zimu/src/main.rs:91-111 | everything before the first dialogue line leaves the reader inside `[Events]` with the emitter's format and no event |
| AssRoundTrip.TextRoundTrip | crates/zimu/src/main.rs:124 | text lines joined with `\N` split back into the same lines |
| AssRoundTrip.DialogueRead | crates/zimu/src/main.rs:125-127 | a dialogue line's body reads back as an event whose block is the original with truncated times, and whose `Layer` is the track's index and `Style` its language |
| AssRoundTrip.DialogueMeta | crates/zimu/src/main.rs:125-127 | the `meta` of a read dialogue line holds the layer number under `Layer` and the language under `Style` |
| AssRoundTrip.DialogueStep | crates/zimu/src/main.rs:125-127 | one dialogue line appends its block, with truncated times, and keeps the reader in `[Events]` |
| AssRoundTrip.TrackRun | crates/zimu/src/main.rs:115-129 | the dialogue lines of one track append its blocks in order, each tagged with the track's layer and language |
| AssRoundTrip.EventLinesRun | crates/zimu/src/main.rs:113-131 | the dialogue lines of all tracks append their blocks, track after track, tagged with layer n and the language of the n-th track |
| AssRoundTrip.GeneratedScriptReadsBack | crates/zimu/src/main.rs:90-134 | the emitted lines read back as every block of every track in key order, times truncated to hundredths and text unchanged; each event's `Layer` is its track's index and its `Style` the track's language |
| AssRoundTrip.AssLinesPlain | crates/zimu/src/main.rs:90-134 | no emitted line holds a newline or ends in a carriage return |
| AssRoundTrip.PrintedScriptReadsBack | crates/zimu/src/main.rs:90-134 | the text `generate_ass` returns, read back by the ASS reader, gives every block of every track in key order, times truncated to hundredths, with the track's index as `Layer` and its language as `Style` |
| AssRoundTrip.NormalizedWritable | crates/zimu/src/main.rs:80-88 | shifting a track keeps its text writable |
| AssRoundTrip.MergedScriptReadsBack | crates/zimu/src/main.rs:57-78 | for two languages, the printed script reads back as the shifted supplementary track followed by the main track, times truncated to hundredths |
| AssRoundTrip.OutputReadsBack | crates/zimu/src/main.rs:57-78 | for two languages, what the program prints, read back as an `.ass` file, is the shifted supplementary track followed by the main track, times truncated to hundredths |

## Left out

- Argument parsing (`clap`), opening and reading files, writing the output to a file, and printing it: these are I/O. `println!` adds one more newline after the script; that newline is not modelled.
- UTF-8 decoding, and the panic of `lines()` on invalid UTF-8: the input is already a string of characters.
- Leap seconds (second 60, nanoseconds of 10^9 and more): a time is nanoseconds below 24 hours.
- chrono's leniency in `parse_from_str` beyond the canonical numeric forms: whitespace handling and `%k` padding are not modelled.
- `styles_buf` in the ASS reader: it is filled and never read, so it has no observable effect.
- `Ord for Event` (start-only comparison): the program never calls it.
- `slice::sort` is modelled as a stable insertion sort on a sequence (`SrtParser.SortBlocks`): `sort` is stable, so the result is the same. It is not modelled in place.
- SrtParser.Cmp: the `unwrap` of `partial_cmp` is stated as a precondition. `sort` never calls `cmp`, so records with equal times do not panic.
- `usize` overflow of the layer counter and of MarginV: integers are unbounded. No input of realistic size reaches the limit.
- AssRoundTrip.MergedScriptReadsBack: it requires writable text. That means:
  - languages hold no comma and no newline;
  - every block has at least one text line;
  - no text line holds `\N` or a newline;
  - the joined text ends in a visible character.
  Outside these conditions, the reader's trimming and splitting change the text.
- The fixed `Format:` lines of the header are written as `Format: ` followed by the column names joined by `", "`, which is the same text as the source's literal.
