# Parsing and counting rules of cutr, wcr and uniqr

This project models the in-memory rules of three small command-line tools.

- **cutr** parses a position list such as `1,3,5-8`. It turns each comma-separated token into a 0-based half-open range (`1` gives `0..1`, `5-8` gives `4..8`). The first malformed token makes the whole list fail, with that token's error message. `parse_idx` reads one positive integer. `parse_range` reads `a-b` and demands `a < b`. `parse_pos` splits on `,` and collects the results.
- **wcr** counts lines, words, bytes and characters of an input. It reads the input one `read_line` chunk at a time. It adds the counts of several inputs field by field, fills in the default flags, and lays out the selected counts in columns of width 8.
- **uniqr** collapses runs of adjacent lines that are equal after `trim_end`. It writes each run once, optionally prefixed by the run's length in a field of width 4.

Modules:

- `Wrappers` holds `Option` and `Result`. Every error is a message string, as the tools' `Box<dyn Error>` values are.
- `Text` holds Rust's `char::is_whitespace`, ASCII digits, decimal rendering (`Show`), right alignment (`PadLeft`, for `{:>w}`), `trim_end` and `split`.
- `LineReader` holds `BufRead::read_line` over an input held as a string. `Lines(s)` is the chunks successive calls return. Each chunk ends just after a `'\n'`, except possibly the last.
- `Cutr`, `Wcr` and `Uniqr` each model one tool.

Integers are `nat`. `usize` appears only as the bound `USIZE_MAX` = 2^64 - 1 that `usize::from_str` enforces, assuming a 64-bit target.

## Model

| member | source | states |
|---|---|---|
| Cutr.ParseUsize | 08_cutr/src/lib.rs:90 | The `usize` parser accepts only digits, optionally after one `+`. On a plain digit string it succeeds iff the value fits in a usize, and then returns that value. |
| Cutr.ParseNonZeroUsize | 08_cutr/src/lib.rs:90 | `NonZeroUsize` parsing agrees with `usize` parsing except that it refuses 0. |
| Cutr.ParseIdx | 08_cutr/src/lib.rs:84-94 | A failure quotes the whole argument as `illegal list value: "<s>"`. A success is below usize's maximum. |
| Cutr.ParseIdxIff | 08_cutr/src/lib.rs:84-94 | parse_idx succeeds exactly on a non-empty string of ASCII digits whose value lies in 1..=usize::MAX. Its result is that value minus one. |
| Cutr.ParseIdxRefusesPlus | 08_cutr/src/lib.rs:87-92 | `usize::from_str` would accept `+v`, but parse_idx refuses every `+`-prefixed number with the illegal-value message. |
| Cutr.ParseIdxShow | 08_cutr/src/lib.rs:84-94 | Reading back the decimal form of any v in 1..=usize::MAX gives v - 1. |
| Cutr.ParseIdxExamples | 08_cutr/src/lib.rs:166-173 | `""` and `"0"` fail with the message quoting them. `"1"` gives 0. |
| Cutr.MatchRange | 08_cutr/src/lib.rs:97-99 | A match of `^(\d+)-(\d+)$` splits the token into digits, `-`, digits, and the captures are those digit strings. |
| Cutr.MatchRangeComplete | 08_cutr/src/lib.rs:97-99 | Every token of that shape matches, and with exactly those captures. |
| Cutr.ExtractRange | 08_cutr/src/lib.rs:99-111 | Every range the closure returns has start + 2 <= end <= usize::MAX. |
| Cutr.ParseRange | 08_cutr/src/lib.rs:96-117 | Every range parse_range returns spans at least two positions. |
| Cutr.ParseRangeMatched | 08_cutr/src/lib.rs:99-111 | For a token `a-b`, the checks run in order. A bad first endpoint is reported, quoting only that endpoint. Then a bad second endpoint. Then `First number in range (a) must be lower than second number (b)` when a >= b. Otherwise the result is (a-1)..b. |
| Cutr.ParseRangeUnmatched | 08_cutr/src/lib.rs:113-116 | Every token not of that shape fails with `Invalid numeric range: <s>`. |
| Cutr.ParseRangeShow | 08_cutr/src/lib.rs:96-117 | For 1 <= a < b <= usize::MAX, the decimal text `a-b` parses to (a-1)..b. |
| Cutr.ParseRangeExampleEmpty | 08_cutr/src/lib.rs:154-155 | `""` is an invalid numeric range. |
| Cutr.ParseRangeExampleZero | 08_cutr/src/lib.rs:156-157 | `"0"` is an invalid numeric range. |
| Cutr.ParseRangeExampleOk | 08_cutr/src/lib.rs:159-161 | `"1-2"` gives 0..2. |
| Cutr.ParseRangeExampleZeroStart | 08_cutr/src/lib.rs:143-145 | `"0-1"` fails with `illegal list value: "0"`. |
| Cutr.ParseRangeExampleEqual | 08_cutr/src/lib.rs:102-107 | `"1-1"` fails with the order message for (1, 1). |
| Cutr.ParseRangeExampleReversed | 08_cutr/src/lib.rs:102-107 | `"2-1"` fails with the order message for (2, 1). |
| Cutr.ParseRangeExamplePlusEnd | 08_cutr/src/lib.rs:97-116 | `"1-+2"` does not match the pattern and is an invalid numeric range. |
| Cutr.ParseToken | 08_cutr/src/lib.rs:122 | A token's range is non-empty. A failing token reports parse_range's error, because `or_else` discards parse_idx's error. |
| Cutr.ParseTokenIff | 08_cutr/src/lib.rs:122 | A token that is a digit string worth 1..=usize::MAX gives (v-1)..v. Every other token gives parse_range's result, whether a range or an error. |
| Cutr.FirstFailureLater | 08_cutr/src/lib.rs:123 | A first failure in the tail, after a good head, is the first failure of the whole list. |
| Cutr.Collect | 08_cutr/src/lib.rs:123 | The collect succeeds iff every token parses. Success gives one range per token, in order. Failure carries the error of the first failing token. |
| Cutr.ParsePos | 08_cutr/src/lib.rs:119-125 | Every range in a successful result is non-empty. |
| Cutr.ParsePosTokens | 08_cutr/src/lib.rs:119-125 | For a list of comma-free tokens joined by `,`, parse_pos succeeds iff every token parses. Its result is the tokens' ranges, in order, with no sorting or merging. |
| Cutr.ParsePosError | 08_cutr/src/lib.rs:122-124 | A failing parse_pos returns the parse_range error of the first failing token. |
| Cutr.ParsePosOneToken | 08_cutr/src/lib.rs:119-125 | A comma-free string is parsed as its single token. |
| Cutr.ParsePosSingle | 08_cutr/src/lib.rs:122 | A single position v parses to [(v-1)..v]. |
| Cutr.ParseTokenExamples | 08_cutr/src/lib.rs:122 | `1`, `3` and `5-8` give 0..1, 2..3 and 4..8. |
| Cutr.ParsePosExample | 08_cutr/src/lib.rs:119-125 | `"1,3,5-8"` gives [0..1, 2..3, 4..8]. |
| Cutr.CollectExample | 08_cutr/src/lib.rs:123 | Collecting the tokens 1, 3, 5-8 gives [0..1, 2..3, 4..8]. |
| Cutr.ParsePosExampleRange | 08_cutr/src/lib.rs:147-149 | `"1-2"` gives [0..2]. |
| Cutr.ParsePosExampleZeroStart | 08_cutr/src/lib.rs:143-145 | `"0-1"` fails with `illegal list value: "0"`. |
| Cutr.ParsePosExampleZero | 08_cutr/src/lib.rs:122 | `"0"` fails with `Invalid numeric range: 0`, not parse_idx's message. |
| Cutr.ParsePosExamplePlus | 08_cutr/src/lib.rs:122 | `"+1"` fails with `Invalid numeric range: +1`. |
| Cutr.ParsePosExampleEmpty | 08_cutr/src/lib.rs:122 | `""` fails with `Invalid numeric range: `. |
| LineReader.ReadLine | 05_wcr/src/lib.rs:195 | A read_line chunk is a prefix of the input, non-empty on non-empty input, and holds a `'\n'` only as its last character. It stops at the first `'\n'` or at the end of the input. |
| LineReader.LinesConcat | 05_wcr/src/lib.rs:194-210 | The chunks put back together are the input. |
| LineReader.LinesShape | 05_wcr/src/lib.rs:194-210 | Every chunk is non-empty. Every chunk but the last ends in `'\n'`, and none holds an inner `'\n'`. |
| LineReader.LinesCount | 05_wcr/src/lib.rs:194-201 | The number of chunks is the number of `'\n'`, plus one for an unterminated last line. |
| LineReader.LinesAppend | 05_wcr/src/lib.rs:194-210 | Reading a + b, where a ends a line, reads a's chunks and then b's. |
| Text.IsWhitespace | 05_wcr/src/lib.rs:202 | `char::is_whitespace` is the Unicode White_Space property. Among ASCII characters it holds exactly for space and `\t` through `\r`. It never holds for a digit, `-` or `,`. |
| Text.Show | 05_wcr/src/lib.rs:154 | The decimal form of n is a digit string denoting n, with no leading zero. |
| Text.PadLeftSpec | 05_wcr/src/lib.rs:154 | `{:>w}` only adds spaces, and only in front. |
| Text.TrimEndSpec | 06_uniqr/src/lib.rs:60 | trim_end drops exactly the trailing whitespace. |
| Text.SplitJoin | 08_cutr/src/lib.rs:120 | Joining the pieces of split(',') with `,` gives back the string. |
| Text.JoinSplit | 08_cutr/src/lib.rs:120 | split(',') of comma-free pieces joined by `,` gives back the pieces. |
| Wcr.ByteLen | 05_wcr/src/lib.rs:203 | A string's UTF-8 length lies between its char count and four times that. |
| Wcr.ByteLenAppend | 05_wcr/src/lib.rs:203 | Byte lengths add up over concatenation. |
| Wcr.ByteLenAscii | 05_wcr/src/lib.rs:203-204 | The byte count equals the char count iff every char is ASCII. |
| Wcr.WordCountZero | 05_wcr/src/lib.rs:202 | `split_whitespace().count()` counts the maximal runs of non-whitespace characters. The count is 0 exactly when the text is all whitespace. |
| Wcr.WordCountAppend | 05_wcr/src/lib.rs:202 | split_whitespace counts add up when the first part ends in whitespace, as each read_line chunk but the last does. |
| Wcr.FileInfo.New | 05_wcr/src/lib.rs:72-76 | FileInfo::new() has all four counters at zero. |
| Wcr.FileInfo.Add | 05_wcr/src/lib.rs:78-88 | Adding two FileInfo values adds each of the four counters separately. |
| Wcr.NewIsNeutral | 05_wcr/src/lib.rs:72-88 | FileInfo::new() is the neutral element of Add on both sides. |
| Wcr.FileInfo.AddAssign | 05_wcr/src/lib.rs:90-99 | `a += b` leaves a equal to a + b, and no counter decreases. |
| Wcr.StatsAppend | 05_wcr/src/lib.rs:78-88 | The counts of two inputs read one after the other are the Add of their counts, when the first ends a line. |
| Wcr.Count | 05_wcr/src/lib.rs:186-215 | The loop counts one line per read_line chunk, the whitespace-separated words of the whole input, its UTF-8 bytes and its chars. |
| Wcr.CountExample | 05_wcr/src/lib.rs:222-236 | The test sentence has 1 line, 10 words, 48 bytes and 48 chars. |
| Wcr.Args.SetDefaults | 05_wcr/src/lib.rs:51-61 | With no flag set, set_defaults turns on lines, words and bytes and leaves chars off. Otherwise nothing changes. Afterwards some flag is set. |
| Wcr.ColumnsLayout | 05_wcr/src/lib.rs:152-164 | Counts below 10^8 give columns of exactly 8 characters each. The k-th column is the k-th count right-aligned. |
| Wcr.PrintStats | 05_wcr/src/lib.rs:140-171 | It fails with `Cannot print both chars and bytes.` iff chars and bytes are both set. Otherwise the line is the selected counts, in the order lines, words, chars, bytes, each right-aligned to 8, then `" " + filename` unless the filename is `-`. |
| Uniqr.Groups | 06_uniqr/src/lib.rs:51-70 | The runs of the input lines are a run-length encoding by `trim_end` content. There are no more runs than lines, and none exactly when there are no lines. |
| Uniqr.AddLine | 06_uniqr/src/lib.rs:60-66 | One more line adds at most one run. Runs already closed are never changed, and a new run starts at length 1. When a line extends the last run and when it starts one is proved in `AddLineAdjacentDiffer` and `AddLineExpand`. The `""` text of a leading blank run is proved in `GroupsText`. |
| Uniqr.GroupsTotal | 06_uniqr/src/lib.rs:51-70 | Each line read is counted once: the run lengths add up to the number of lines. |
| Uniqr.GroupsPositive | 06_uniqr/src/lib.rs:66-70 | Every run holds at least one line. |
| Uniqr.GroupsAdjacentDiffer | 06_uniqr/src/lib.rs:60-64 | Adjacent runs differ after trim_end. |
| Uniqr.GroupsExpand | 06_uniqr/src/lib.rs:60-66 | Repeating each run's trimmed text by its length gives back the trimmed input lines, in order. |
| Uniqr.GroupsText | 06_uniqr/src/lib.rs:52-62 | A run's text is its first line, except for a leading run of blank lines, which keeps the initial empty `prev`. |
| Uniqr.WriteLine | 06_uniqr/src/lib.rs:40-49 | write_line writes nothing iff n is 0. Without count it writes the text. With count it writes one record that ends in the text. |
| Uniqr.Record | 06_uniqr/src/lib.rs:42-46 | Without count the record is the run's text. With count it is a field of at least four characters, a space, then the text. |
| Uniqr.CountedRecord | 06_uniqr/src/lib.rs:42-44 | With count, a run shorter than 10^4 is written as four columns, a space, then the text. The four columns are spaces followed by the shortest decimal form of the length. |
| Uniqr.Run | 06_uniqr/src/lib.rs:51-70 | The loop writes one record per run of the input's read_line chunks, in order, and nothing for an empty input. |

## Left out

- Command-line parsing (clap, `get_args`, the `conflicts_with` checks), opening files and stdin, `println!`/`eprintln!`, and the per-file loops of `run` are I/O plumbing. Inputs are strings and outputs are values or sequences of written strings.
- Character, byte and field extraction in cutr is not modelled, because the code has none: its `run` only prints its arguments with `dbg!`, and `Extract` is never used.
- Cutr.MatchRange: Rust's `\d` also matches non-ASCII Unicode digits. The model's pattern accepts ASCII digits only. Such a token would then fail in `usize::from_str` with the illegal-value message, not the invalid-range one.
- Cutr.ParseIdx: the model assumes a 64-bit `usize`.
- Wcr.Count: the counters are unbounded naturals. The `usize` overflow of a counter is not modelled.
- Wcr.Count, Uniqr.Run: the errors `?` propagates from `read_line` and `write!` are not modelled. The input is a string already in memory, and the output cannot fail.
- Wcr.FileInfo.AddAssign: `FileInfo` is a value type, so the method returns the new value of `*self` instead of updating a place in memory.
- Wcr.PrintStats: the panic is modelled as an `Err` carrying the panic message, and the line is returned instead of printed.
- Wcr.ColumnsLayout: this covers counts below 10^8. A wider count makes its column wider, as `{:>8}` keeps a longer number whole.
- Uniqr.CountedRecord: this covers runs shorter than 10^4. A longer run's count overflows the four-column field, and `Uniqr.Run` still states its exact output through `Record`.
- `n_obs` is a `u64` in uniqr. Its overflow is not modelled.

The TODO at 08_cutr/src/lib.rs:122 and the commented-out test at 08_cutr/src/lib.rs:139-141 expect `illegal list value` for a bad single token such as `0` or `+1`. The code instead gives `Invalid numeric range: <tok>`, because `or_else` discards parse_idx's error. The model follows the code. `1-+2` does not match the range pattern, so it fails the same way.
