# Advent of Code runner — Dafny model

This project models the core of a C++ runner for Advent of Code solutions. The runner has three parts.

- **Harness** (`main.cpp`). `parseArgs` reads `-y/--year`, `-d/--day`, `-p/--part` and `-h/--help` left to right; `main` derives the exit status. Each registered day goes through the `runDay` lambda, which:
  - filters on year and day;
  - derives the cache path `src/<year>/day_<day>/tests/input.txt`;
  - asks the fetcher for the input, ignoring its result;
  - skips a day whose input cannot be read;
  - otherwise appends the results of part 1 and/or part 2.

  When no result was collected, a notice replaces the table.
- **Input fetcher** (`src/common/input_fetcher.cpp`).
  - `loadSessionCookie` parses `.env` line by line. The first trimmed `AOC_SESSION=` line decides, and the placeholder value counts as "not configured".
  - `fetchInput` works through these steps in order: a cached file wins, an empty cookie fails, transport and HTTP outcomes map to diagnostics, and on HTTP 200 the body is written verbatim.
- **String utilities** (`src/common/utils.cpp`).
  - `trim` strips `" \t\n\r\f\v"` from both ends.
  - `split` follows `std::getline` delimiter semantics.
  - `splitWhitespace` follows `operator>>` word semantics.

Modules, in dependency order:

| file | module | contents |
|---|---|---|
| optional.dfy | Optional | `Option` |
| utils.dfy | Utils | `Trim`, the `split` loop against `Tokens`, the `splitWhitespace` loop against `Words`, and sequence lemmas |
| decimal.dfy | Decimal | `std::to_string` of integers, with the round trip and injectivity proved |
| files.dfy | Files | the file system as a `FileSystem` class over a map from path to contents |
| fetcher.dfy | Fetcher | `LoadSessionCookie` against `LoadOutcome`, and `FetchInput` against `FetchEffect` |
| cli.dfy | Cli | `Config`, `ParseArgs` against `ParseFrom`, and the exit status |
| runner.dfy | Runner | the `Harness` class (`RunDay`, `RunAll`) against the fold `RunFrom`, and `RunProgram` for `main` |

The outside world enters the model as parameters.
- **Files:** the `FileSystem` map. A path absent from the map cannot be opened or read.
- **HTTP exchange:** a `Reply` (curl initialised, transport ok, HTTP code, body), one per (year, day).
- **Writable output:** whether an output file can be opened for writing, a boolean oracle.
- **Number parsing:** `std::stoi` is a partial function `stoi: string -> Option<int>`. `None` means it throws; nothing catches that, so the program ends (`Terminated`).
- **Solutions:** the solution functions are opaque `string -> string` values in each `Entry`.
- **Registered days:** `main` registers a fixed list of days (today one: 2025 day 1). The model takes the registry as any sequence of entries.

Two behaviours of the code worth knowing:
- An explicit `-h` exits with status 1. This is `showHelp && argc > 1 ? 1 : 0` at main.cpp:142; `-h` always makes `argc > 1`.
- The part value is not validated. A part other than -1, 1 or 2 runs no part, so the day contributes nothing.

## Model

| member | source | states |
|---|---|---|
| Utils.Trim | src/common/utils.cpp:59-68 | the result has no whitespace at either end; it is empty exactly when the input is all whitespace; it is no longer than the input |
| Utils.TrimIsSlice | src/common/utils.cpp:62-68 | the result is a contiguous slice `s[i..j]` with only whitespace before `i` and after `j` |
| Utils.TrimUnique | src/common/utils.cpp:62-68 | any slice with whitespace-only margins and no edge whitespace is the trim, so the trim is fully characterised |
| Utils.TrimNoEdgeSpace | src/common/utils.cpp:62-68 | a string without edge whitespace is its own trim |
| Utils.TrimIdempotent | src/common/utils.cpp:62-68 | trimming twice is trimming once |
| Utils.TokensExcludeDelimiter | src/common/utils.cpp:19-28 | no token of the getline split contains the delimiter |
| Utils.JoinTokens | src/common/utils.cpp:19-28 | joining the tokens with the delimiter gives the input back, minus one trailing delimiter |
| Utils.TokensCount | src/common/utils.cpp:24-26 | the number of tokens is the number of delimiters, plus one unless the input is empty or ends in the delimiter, so an empty input gives no token and a trailing delimiter no trailing empty token |
| Utils.Split | src/common/utils.cpp:19-29 | the getline loop over the stream returns exactly the tokens of the specification `Tokens` |
| Utils.WordsProper | src/common/utils.cpp:31-40 | every whitespace-separated word is non-empty and contains no whitespace |
| Utils.WordsOfWeave | src/common/utils.cpp:31-40 | words joined by runs of whitespace (any amount at the ends) split back into exactly those words, in order |
| Utils.WeaveOfWords | src/common/utils.cpp:31-40 | every string is its words interleaved with whitespace runs, so the words are the maximal non-whitespace runs, in order |
| Utils.SplitWhitespace | src/common/utils.cpp:31-41 | the `>>` loop returns exactly the words of the specification `Words` |
| Decimal.NatToStringNumeral | main.cpp:159-160 | the text of a natural number is a non-empty digit string with no leading zero that denotes the number again |
| Decimal.IntToStringShape | main.cpp:159-160 | the text starts with '-' exactly for negative numbers, followed by the numeral of the magnitude |
| Decimal.IntToStringInjective | main.cpp:159-160 | different integers have different texts |
| Fetcher.SkippedLineIsNoSessionLine | src/common/input_fetcher.cpp:30-33 | a line that is blank or a comment after trimming is never a session line, so skipping it changes nothing |
| Fetcher.FirstSessionLineDecides | src/common/input_fetcher.cpp:36-44 | the first line whose trimmed form starts with `AOC_SESSION=` decides, whatever comes after it |
| Fetcher.NoSessionLine | src/common/input_fetcher.cpp:45-48 | no assignment is found exactly when no line is a session line |
| Fetcher.CookieWellFormed | src/common/input_fetcher.cpp:17-53 | the cookie is empty exactly when the outcome is not `Loaded` (a warning was given), and a non-empty cookie is never the placeholder and has no edge whitespace |
| Fetcher.LoadSessionCookie | src/common/input_fetcher.cpp:17-53 | the trimming getline loop returns the cookie and diagnostic of `LoadOutcome` on the `.env` contents (or its absence) |
| Fetcher.FetchKeepsFiles | src/common/input_fetcher.cpp:55-131 | a fetch never changes or removes an existing file and can only add `outputPath`, holding exactly the reply body |
| Fetcher.InputUrlInjective | src/common/input_fetcher.cpp:78-80 | different (year, day) pairs are requested from different URLs |
| Fetcher.FetchInput | src/common/input_fetcher.cpp:55-131 | in source order: an existing file returns true and sends nothing; an empty cookie, a failed curl init, a transport failure or a code other than 200 each return false with their own diagnostic (404 and 400/500 told apart); the request goes to `https://adventofcode.com/<year>/day/<day>/input` with `session=<cookie>`; on 200 the result is whether the file opened. The file system afterwards is `FetchEffect`, and the result is true exactly when the file was cached or got downloaded |
| Cli.FieldOf | main.cpp:57-76 | a value option is never a help option |
| Cli.SetField | main.cpp:62-78 | setting one field gives it the value and leaves the other fields and the help flag alone |
| Cli.ParseArgs | main.cpp:51-92 | the index loop returns `ParseFrom` of the defaults on the arguments; no arguments give year 2025, day -1, part -1, no help |
| Cli.ParseSettings | main.cpp:54-83 | well-formed option/value pairs are consumed two at a time and applied in order, whatever follows |
| Cli.ApplyUntouched | main.cpp:60-83 | options for other fields leave a field and the help flag unchanged |
| Cli.LastOccurrenceWins | main.cpp:60-83 | for a repeated option the value of its last occurrence is the field's value |
| Cli.HelpStops | main.cpp:57-59 | `-h`/`--help` sets showHelp and stops; fields set before it are kept and later arguments are never looked at |
| Cli.MissingValueStops | main.cpp:61-67 | a value option as the last argument sets showHelp and keeps the fields parsed so far |
| Cli.UnknownOptionStops | main.cpp:84-88 | an unknown argument sets showHelp and stops, keeping the fields parsed so far |
| Cli.ParsedWithoutHelp | main.cpp:51-92 | conversely, a parse that ends without help read the whole line as well-formed pairs, and the configuration is those pairs applied in order |
| Cli.HelpExitsOne | main.cpp:140-143 | showHelp is only set while an argument is looked at, so every help path exits 1 |
| Runner.Harness.RunDay | main.cpp:148-183 | the harness state afterwards is `DayStep`. An unselected day changes nothing. A selected day fetches into its cache path, ignoring the result, and then is skipped or appends the part results of the file's contents |
| Runner.Harness.RunAll | main.cpp:199-207 | the runDay calls in order leave the state `RunFrom` of the registry |
| Runner.RunProgram | main.cpp:137-218 | an uncaught `stoi` failure ends the program; help exits 1 with no file touched; otherwise every registered day runs, the exit status is 0, and the report is the result table or the "nothing ran" notice when there are no results |
| Runner.PartSelection | main.cpp:176-182 | part -1 gives part 1 then part 2, part 1 or 2 gives only that part, and any other value gives nothing |
| Runner.DayStepAppends | main.cpp:152-182 | one day only appends results, and each fits the configuration |
| Runner.RunResultsFit | main.cpp:152-182 | after a run the earlier results remain in front, and every new result has the configured year, the configured day (unless all days), part 1 or 2, and the configured part (unless both) |
| Runner.RunConcat | main.cpp:199-207 | running two groups of days one after the other is running them together, so results keep registration order |
| Runner.NothingSelected | main.cpp:152-157 | when no registered day matches the filter, nothing changes: no file and no result |
| Runner.RunKeepsFiles | main.cpp:159-163 | a run never changes or removes an existing file; every new file is the cache path of a selected day |
| Runner.CachedInputUsed | main.cpp:159-182 | a selected day whose cache file exists runs on that file unchanged, and the file system stays as it was |
| Runner.SkippedExactlyWhenUnreadable | main.cpp:162-182 | with a valid part filter, a selected day adds no result exactly when its input file is absent after the fetch |
| Runner.InputPathInjective | main.cpp:159-160 | different (year, day) pairs have different cache paths |

## Left out

- libcurl: initialisation, options, redirects, the write callback and cleanup are not modelled. Only their outcome (init ok, transport ok, HTTP code, body) enters as a `Reply`, and the request as a `Request` record (URL and cookie header).
- Real file I/O: `readFile`, `ifstream::good` and `ofstream` are not modelled; the file system is a map. A file that exists but cannot be read is not distinguished from a missing one. Whether an output file can be opened is an oracle.
- `.env` is read from the same file map, at the path `.env` relative to the working directory.
- Fetcher.LoadSessionCookie: the catch-all `catch (const std::exception&)` (src/common/input_fetcher.cpp:49-52) has no counterpart, because no step of the model can throw.
- The timing in `runPart`, the `timeMs` field, the floating-point total time and the `setw`/`setprecision` table layout are not modelled; floating point and formatting fall outside the model. `DayResult` keeps year, day, part and answer.
- Diagnostics: only some output becomes an enumerated tag, and the rest is dropped.
  - `loadSessionCookie`'s warnings become `CookieDiag`.
  - `fetchInput`'s messages become `FetchDiag`.
  - The help text, the "nothing ran" notice and the table become `Report`.
  - These have no tag: the banner (main.cpp:185-197), the parseArgs errors "requires an argument" and "Unknown option" (main.cpp:64, 72, 80, 85) and runDay's "Could not read input … Skipping" warning (main.cpp:170-172). A parse error ends in the same `Help(c)` state as an explicit `-h`. A skipped day just keeps the results as they were.
  - During a run, the harness discards the `CookieDiag` and `FetchDiag` tags, as the code discards the messages' effect. `RunProgram`'s outcome carries none of them.
- Strings are sequences of characters, not C++ bytes. This does not change any result here, because trim, getline and `>>` only compare characters against ASCII whitespace, '\n', '#' and the delimiter.
- `std::stoi` is a parameter. Its exception is modelled as ending the program, not through its message.
- src/common/utils.cpp `readLines`, `toInt`, `toLong` and `toLongLong` are not part of this model; `main` and the fetcher do not use them.
- The puzzle solutions (`day_1::part1`, `part2`) are opaque functions.
- The headers hold declarations only.
- Runner.RunProgram: the registry is a parameter rather than the fixed list in `main`. The banner lines depend only on the configuration and are not part of the report.
