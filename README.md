# log_decode.py in Dafny

This project models `log_decode.py` of the powermeter project. The script reads the log of a BLE sniffer and keeps only the notification lines of the characteristic the crank-arm firmware publishes its log on, handle `(1234)`. For each such line it:

1. takes the hex payload between `<` and `>`;
2. decodes the payload into the text the firmware wrote with `blePublishLog`;
3. classifies that text as a force/cadence/power message, a time message or a poll message;
4. appends the values to four lists: `seconds`, `forces`, `cadence` and `powers`.

After the last line it cuts the lists to a common length and smooths the powers over 3, 10 and 60 one-second buckets with `calc_rolling_power`.

Modules, in program order:

- `Wrappers`: `Option` and `Result`.
- `Text`:
  - decimal digits;
  - Python's `in` on strings (`Contains`);
  - `FirstMatch`, the leftmost-match search that `re.search` performs. It tries an anchored matcher at every start position from left to right.
- `Hex`:
  - `bytearray.fromhex` (`FromHex`), which skips whitespace between byte pairs and fails on any other character or on a lone digit;
  - `.decode()` restricted to ASCII (`AsciiDecode`);
  - `DecodeText`, the decode done at line 69;
  - `Dump` (any lower-case hex dump, with its own whitespace, possibly none, after each byte), `AsciiEncode` and `HexChar`: the inverse directions used by the round trips. `ToHex` is the special case of one separator after every byte, the last one included.
  - `Lowered` lowers the case of the hex digits, so that what `fromhex` accepts can be told exactly: the lowered forms of dumps (`FromHexSound`, `FromHexComplete`).
- `LineFilter`: the line test of lines 65-67 (`Qualifies`) and `get_val` (`GetVal`).
- `Payload`:
  - the three patterns of lines 61-63 as anchored matchers;
  - the patterns as grammars: `ForceFields` and `TimeFields` are the pieces of a matched text, and each pattern has a completeness lemma (every text of that shape matches, with its fields' values) and a soundness lemma (every match has that shape);
  - the if/elif chain of lines 73-82 (`Classify`);
  - the firmware's two `printf` formats of lines 50-52, which the round-trip lemmas run backwards.
- `Assemble`: the main loop of lines 64-82. The line lemmas (`PayloadLine`, `HexLineSample` and the round trips) cover lines whose two markers come before the payload and that have no `<` before it; a line with a marker after the payload, or with an earlier `<` that starts no match, is not covered by them.
  - `DecodeLog` is a method with the source's loop and appends.
  - It is proved equal to `Assembled`, a fold over the lines made from `LineSample`, `Collect`, `Record` and `Project`.
- `Rolling`: `calc_rolling_power`.
  - Its two loops are the methods `BucketBySecond` and `AverageBuckets`, which `CalcRollingPower` runs in turn.
  - They are proved equal to the functions `Chunks` and `Smoothed`, through `RollingPower`.
- `Pipeline`: lines 94-106. `Run` decodes the log, truncates the lists and smooths three times. It is proved equal to `Analyse`.

Integers are unbounded, as they are in Python. `float` values are exact `real`s: `float("3.5")` is 3.5, and `sum(chunk) / len(chunk)` is exact division.

Where the code and its description disagree, the model follows the code:

- **A payload that fails to decode ends the run.**
  - `bytearray.fromhex(...).decode()` at line 69 is not inside a `try`, so the first line whose payload is not hex, or is not valid text, raises and ends the script.
  - `Samples` therefore returns the first line's error (`SamplesFailure`) instead of skipping the line.
  - A qualifying line without a `<...>` group is not an error: `get_val` returns `''`, which decodes to the empty text and is reported as the unrecognised message `''`. A payload of spaces only, such as `<   >`, gives the same `Unrecognized("")`.
- **Buckets open on every positive second.**
  - `last_second` is set to 0 at line 25 and never updated.
  - So every pair whose second is positive opens a new bucket, and only a second `<= 0` extends the previous bucket.
  - Seconds `[1, 1, 2]` give three buckets, not two (`RepeatedSecondsStaySeparate`, `ZeroSecondJoinsPreviousBucket`).
- **A first second that is not positive is an error.** The `chunks[-1]` at line 31 then raises `IndexError`, modelled as `Failure(NoOpenChunk)`.
- **The window keeps only the two newest means once it overflows.**
  - Once `samples` is longer than `window`, `samples[window-1:]` keeps only the last two means, not the last `window` (`RetainedOverflows`, `WindowThreeKeepsTwo`).
  - The length never exceeds `window` when `window >= 2` (`RetainedWithinWindow`).
  - Nothing is ever dropped when `window == 1` (`WindowOneKeepsAll`).

## Model

| member | source | states |
|---|---|---|
| Text.Contains | log_decode.py:65-67 | `needle in hay` holds exactly when the needle occurs at some index of the line |
| Text.FirstMatch | log_decode.py:70-72 | the search finds nothing exactly when the pattern matches at no start position; otherwise it returns the match at the leftmost start position |
| Text.FirstMatchAt | log_decode.py:13 | when the first start position where the pattern matches is k, the search returns the match at k |
| Text.NatToDigits | log_decode.py:50-52 | `%d` of a natural number gives a non-empty run of digits whose value is that number |
| Text.DigitRun | log_decode.py:61-62 | the length of the maximal leading run of digits: all of it digits, followed by a non-digit or the end |
| Text.DigitRunOf | log_decode.py:61-62 | a greedy `[0-9]+` consumes exactly the digits before a non-digit |
| Hex.FromHex | log_decode.py:69 | `bytearray.fromhex`; what it accepts and returns is stated by `FromHexShape`, `FromHexSound`, `FromHexComplete`, `FromHexAppend` and `SplitPairFails` |
| Hex.FromHexShape | log_decode.py:69 | `fromhex` succeeds only on hex digits and whitespace, with two digits per byte; an odd digit count or any other character is an error |
| Hex.FromHexDump | log_decode.py:69 | `fromhex` reads back the bytes of any lower-case hex dump, whatever whitespace leads it and whatever whitespace (possibly none) follows each byte |
| Hex.FromHexAppend | log_decode.py:69 | over a dump followed by more text, `fromhex` gives the dump's bytes then the bytes of what follows, or the error of what follows |
| Hex.SplitPairFails | log_decode.py:69 | a digit followed by whitespace or any other non-digit, after a well-formed dump, is an InvalidHex failure |
| Hex.SplitPairExample | log_decode.py:69 | `fromhex("3 32e")` fails although every character is a digit or a space |
| Hex.FromHexLowered | log_decode.py:69 | the case of the hex digits does not change what `fromhex` returns |
| Hex.FromHexSound | log_decode.py:69 | whatever `fromhex` accepts is, with its digits lowered, leading whitespace and a dump of the returned bytes with whitespace after each byte |
| Hex.FromHexComplete | log_decode.py:69 | conversely, every input whose lowered form is such a dump decodes to the dumped bytes |
| Hex.FromHexToHex | log_decode.py:69 | `fromhex` reads back the bytes of a lower-case dump with the same whitespace separator after every byte, the last one included; kept as a worked special case of `FromHexDump` |
| Hex.AsciiDecode | log_decode.py:69 | decoding succeeds exactly when every byte is ASCII, giving one character per byte with the same code; otherwise the error is NonAscii |
| Hex.AsciiRoundTrip | log_decode.py:69 | decoding the bytes of an ASCII text gives the text back |
| Hex.DecodeText | log_decode.py:69 | the text of a payload, or the error of `fromhex` or of the decode; stated by `DecodeTextDump` and, within a line, `PayloadLine` and `HexLineSample` |
| Hex.DecodeTextDump | log_decode.py:69 | any lower-case dump of an ASCII text, whatever its whitespace, decodes to that text |
| Hex.DecodeTextRoundTrip | log_decode.py:69 | the dump of an ASCII text with the same whitespace separator after every byte decodes to that text; kept as a worked special case of `DecodeTextDump` |
| LineFilter.Qualifies | log_decode.py:65-67 | a line is decoded exactly when both `notified` and `(1234)` occur in it |
| LineFilter.PayloadRun | log_decode.py:12 | the length of the maximal leading run of `[a-f 0-9]`: all of it in the class, followed by a character outside it or the end |
| LineFilter.GroupAt | log_decode.py:12 | an anchored `<([a-f 0-9]+)>` match yields a non-empty group of payload characters, enclosed in `<` and `>` |
| LineFilter.GroupAtComplete | log_decode.py:12 | a bracketed run of payload characters is matched whole |
| LineFilter.GetVal | log_decode.py:11-18 | `get_val` returns `''` exactly when no start position matches; otherwise it returns the group of the leftmost match |
| LineFilter.GetValFinds | log_decode.py:11-18 | with no `<` before it, the first bracketed payload in the class is what `get_val` returns, whatever follows it |
| Payload.NumberIsGreedy | log_decode.py:61-62 | `[0-9]+` fails exactly on input that does not start with a digit; otherwise it consumes the maximal digit run and returns its value |
| Payload.Number | log_decode.py:61-62 | `[0-9]+` read by `int()`; stated by `NumberIsGreedy` and `NumberOfRun` |
| Payload.NumberOfRun | log_decode.py:61-62 | a run of digits followed by a non-digit or the end is one `[0-9]+` token, with the run's value |
| Payload.Decimal | log_decode.py:61 | `[0-9]+\.[0-9]` read by `float()`; stated by `DecimalStep` and `DecimalParts` |
| Payload.DecimalStep | log_decode.py:61 | digits, `.` and a digit are one decimal token, with the value `whole + tenth / 10`, whatever follows |
| Payload.DecimalParts | log_decode.py:61 | a decimal token is digits, `.` and one digit |
| Payload.Signed | log_decode.py:61 | `-?[0-9]+` read by `int()`; stated by `SignedStep` and `SignedParts` |
| Payload.SignedStep | log_decode.py:61 | an optional `-` and a maximal digit run are one token, with the negated value when the sign is there |
| Payload.SignedParts | log_decode.py:61 | a signed token is an optional `-` and a maximal digit run |
| Payload.CadenceAndPower | log_decode.py:61 | `\|([0-9]+)=(-?[0-9]+)` with groups 2 and 3; stated by `CadenceAndPowerComplete` and `CadenceAndPowerParts` |
| Payload.CadenceAndPowerComplete | log_decode.py:61 | `\|`, digits, `=` and a signed maximal digit run match, with group 2 and group 3's values |
| Payload.CadenceAndPowerParts | log_decode.py:61 | every such match has that shape |
| Payload.SpeedAndRest | log_decode.py:61 | `\s[0-9]+\.[0-9]` before the cadence and power, the speed being dropped; stated by `SpeedAndRestComplete` and `SpeedAndRestParts` |
| Payload.SpeedAndRestComplete | log_decode.py:61 | one `\s` character and a decimal in front of the cadence and power leave their match unchanged |
| Payload.SpeedAndRestParts | log_decode.py:61 | every such match has that shape |
| Payload.MatchForce | log_decode.py:61 | a force-pattern match is a power sample; which texts match, with which values, is stated by `MatchForceComplete` and `MatchForceSound` |
| Payload.MatchForceComplete | log_decode.py:61 | every text of the shape `a.d\sb.d\|c=[-]e` with maximal `e`, followed by anything, matches with force `a.d`, cadence `c` and power `[-]e` |
| Payload.MatchForceSound | log_decode.py:61 | every force match starts with a text of that shape whose power digits are not followed by another digit, and carries that text's values |
| Payload.ForceNeedsDot | log_decode.py:61 | the force pattern only matches text containing a `.` |
| Payload.MatchTime | log_decode.py:62 | a time-pattern match is a time sample of text containing `:`; which texts match, with which value, is stated by `MatchTimeComplete` and `MatchTimeSound` |
| Payload.MatchTimeComplete | log_decode.py:62 | digits, `:`, one `\s` character and a digit match, with the digits' value as the elapsed seconds |
| Payload.MatchTimeSound | log_decode.py:62 | every time match starts with digits, `:`, one `\s` character and a digit, and carries the digits' value |
| Payload.IsPoll | log_decode.py:63 | `^F` without MULTILINE holds exactly when the message starts with `F` |
| Payload.Classify | log_decode.py:70-82 | the force pattern wins over the time pattern, which wins over `^F`; anything else is unrecognised and carries the message; the values are those of the leftmost match |
| Payload.ClassifiedPower | log_decode.py:70-76 | a power sample carries the force, cadence and signed power groups of a text of the force shape at the leftmost matching position, its power digits the whole digit run there |
| Payload.ClassifiedTime | log_decode.py:70-78 | a time sample carries the value of the digits before the `:` of the leftmost time match, which a digit follows |
| Payload.PowerMessageRoundTrip | log_decode.py:50 | a message in the firmware's `%.1f %.1f\|%d=%d` format, with non-negative force and speed and a natural cadence, classifies as the power sample of its force, cadence and power |
| Payload.TimeMessageRoundTrip | log_decode.py:52 | a message in the firmware's `%d: %d polls` format classifies as a time sample of its seconds |
| Payload.ExamplePowerMessage | log_decode.py:73-76 | `3.5 90.0\|80=150` gives force 3.5, cadence 80 and power 150 |
| Payload.ExampleTimeMessage | log_decode.py:77-78 | `12: 45 polls` gives 12 elapsed seconds |
| Payload.NegativeForceReadsMagnitude | log_decode.py:61 | a firmware message with a negative force reads as the power sample of the force's magnitude: the sign is lost |
| Payload.NegativeForceLosesSign | log_decode.py:61 | the unsigned force pattern reads `-1.5 2.0\|80=150` as force 1.5 |
| Assemble.LineSample | log_decode.py:65-82 | one line's contribution: nothing unless it qualifies, otherwise the classified decoded payload or the decode error; stated by `OtherLinesIgnored`, `PayloadLine`, `HexLineSample`, `SplitPairLine`, `LineRoundTrip` and `TimeLineRoundTrip` |
| Assemble.Collect | log_decode.py:64-69 | the samples of the lines in order, ending at the first decode error; stated by `CollectSucceeds`, `CollectFailureStays` and `CollectFirstFailure` |
| Assemble.Samples | log_decode.py:64-82 | `Collect` over the log's lines; stated by `SamplesFailure` |
| Assemble.Record | log_decode.py:73-82 | what one sample appends; stated, over many samples, by `ColumnsAreRows` and `ProjectGrows` |
| Assemble.Project | log_decode.py:55-82 | the four lists after the given samples; stated by `ColumnsAreRows` and `ProjectGrows` |
| Assemble.Assembled | log_decode.py:54-82 | the four lists after the log, or the first decode error; computed by `DecodeLog`, and stated by `SamplesFailure`, `ColumnsAreRows` and `OtherLinesIgnored` |
| Assemble.ColumnsAreRows | log_decode.py:73-78 | after any messages, `forces`, `cadence` and `powers` hold, entry by entry, the values of the power messages in order, and `seconds` those of the time messages |
| Assemble.ProjectGrows | log_decode.py:73-78 | the four lists are only ever appended to |
| Assemble.CollectFailureStays | log_decode.py:69 | once a line has failed to decode, no later line changes the outcome |
| Assemble.CollectSucceeds | log_decode.py:64-69 | the loop finishes exactly when every line's outcome is a success |
| Assemble.CollectFirstFailure | log_decode.py:64-69 | a failed run carries the error of its first failing line |
| Assemble.SamplesFailure | log_decode.py:64-69 | the log is read to the end exactly when every line decodes; otherwise it fails with the error of its first line that does not |
| Assemble.OtherLinesIgnored | log_decode.py:65-67 | a line that does not mention both markers changes nothing |
| Assemble.DumpIsPayload | log_decode.py:12 | a lower-case dump with runs of spaces before it and after each byte lies in the payload class `[a-f 0-9]`, and is non-empty when it has bytes |
| Assemble.ToHexIsPayload | log_decode.py:12 | a dump with one space after every byte lies in the payload class `[a-f 0-9]`; kept as a worked special case of `DumpIsPayload` |
| Assemble.QualifiesExtends | log_decode.py:65-67 | text after a qualifying prefix keeps the line qualifying |
| Assemble.PayloadLine | log_decode.py:65-82 | a line with both markers before a `<payload>`, the payload non-empty and in the class, and no `<` earlier in the line, yields the classification of its decoded text, or the decode error |
| Assemble.HexLineSample | log_decode.py:65-82 | a line with both markers before a `<payload>` and no `<` earlier in the line, whose payload is a hex dump of a non-empty ASCII message with any runs of spaces before it and between the bytes (none included, and after the last byte or not), yields that message's classification |
| Assemble.SplitPairLine | log_decode.py:65-69 | with both markers before `<3 32e>` and no earlier `<`, the payload passes `get_val` but the line fails with InvalidHex, which ends the run |
| Assemble.LineRoundTrip | log_decode.py:65-76 | a line with both markers before a `<payload>` and no `<` earlier in the line, whose payload is any such dump of a firmware force message with non-negative force and speed and a natural cadence, yields that message's power sample |
| Assemble.TimeLineRoundTrip | log_decode.py:65-78 | a line with both markers before a `<payload>` and no `<` earlier in the line, whose payload is any such dump of a firmware time message, yields its elapsed seconds |
| Assemble.DecodeLog | log_decode.py:54-82 | the loop returns the lists the fold over the lines describes, or the first decode error |
| Rolling.Zip | log_decode.py:26 | `zip` pairs the two lists entry by entry, up to the shorter one |
| Rolling.Chunks | log_decode.py:24-31 | no bucket is ever empty |
| Rolling.ChunksShape | log_decode.py:24-31 | bucketing fails exactly when the first pair's second is not positive; otherwise the buckets flattened are the zipped powers in order, and there is one bucket per positive second |
| Rolling.OpeningsCount | log_decode.py:28-29 | there are at most as many buckets as pairs, and exactly as many when every second is positive |
| Rolling.ChunksFailureStays | log_decode.py:31 | the IndexError ends the loop whatever the remaining pairs are |
| Rolling.PositiveSecondsSingleBuckets | log_decode.py:25-31 | with every second positive, each power is a bucket of its own |
| Rolling.BucketBySecond | log_decode.py:24-31 | the first loop builds exactly the buckets `Chunks` describes, or raises NoOpenChunk |
| Rolling.ChunkMean | log_decode.py:39 | `sum(chunk) / len(chunk)`; bounded by `MeanWithin` and `ChunkMeansWithin` |
| Rolling.ChunkMeans | log_decode.py:39 | one mean per bucket; its contents are given by `ChunkMeansAt` |
| Rolling.ChunkMeansAt | log_decode.py:39 | entry k of the means is the mean of bucket k |
| Rolling.SliceFrom | log_decode.py:41 | `xs[k:]` is a suffix, of the length Python slicing gives for any `k` |
| Rolling.Trim | log_decode.py:40-41 | the cut of lines 40-41; stated by `TrimFull`, `RetainedGrows`, `RetainedOverflows` and `NoTrimWhileShort` |
| Rolling.Retained | log_decode.py:36-41 | the retained list is non-empty once a bucket has been seen, so the division at line 43 is defined |
| Rolling.RetainedIsSuffix | log_decode.py:40-41 | the retained list is always the newest part of the bucket means |
| Rolling.Smoothed | log_decode.py:33-45 | one average per bucket |
| Rolling.AverageBuckets | log_decode.py:33-45 | the second loop returns exactly the averages `Smoothed` describes |
| Rolling.CalcRollingPower | log_decode.py:21-45 | the method returns what the two loops compute, or the IndexError |
| Rolling.RetainedWithinWindow | log_decode.py:40-42 | with a window of at least two, at most `window` means are ever averaged |
| Rolling.RetainedGrows | log_decode.py:39-41 | a list shorter than the window grows by the new mean |
| Rolling.RetainedOverflows | log_decode.py:39-41 | once the list holds `window` means, the next turn cuts it to the two newest means |
| Rolling.TrimFull | log_decode.py:40-41 | `samples[window-1:]` of a list of `window+1` means is its last two |
| Rolling.NoTrimWhileShort | log_decode.py:37-41 | until more than `window` buckets have been seen, every mean is kept |
| Rolling.WindowOneKeepsAll | log_decode.py:40-41 | with window 1, `samples[0:]` keeps every mean |
| Rolling.SmoothedAt | log_decode.py:43 | output k is the mean of what was retained after bucket k |
| Rolling.CumulativeWhileShort | log_decode.py:37-43 | until the window fills, output k is the cumulative mean of the first k+1 bucket means |
| Rolling.MeanWithin | log_decode.py:39 | a mean lies between the least and greatest of its terms |
| Rolling.SmoothedAtWithin | log_decode.py:43 | output k lies within the range of the bucket means |
| Rolling.SmoothedWithin | log_decode.py:33-45 | smoothing stays within the range of the bucket means |
| Rolling.ChunkMeansWithin | log_decode.py:39 | bucket means stay within the range of the bucketed powers |
| Rolling.RollingPower | log_decode.py:21-45 | what `calc_rolling_power` returns, or its IndexError; computed by `CalcRollingPower`, and stated by `RollingPowerShape`, `RollingPowerBounds` and `AllPositiveSeconds` |
| Rolling.RollingPowerBounds | log_decode.py:21-45 | every output lies between the least and greatest zipped power |
| Rolling.RollingPowerShape | log_decode.py:21-45 | the function fails exactly when the first zipped second is not positive; it gives one output per bucket, and `[]` for empty input |
| Rolling.AllPositiveSeconds | log_decode.py:21-45 | with every second positive, the result is the smoothing of the zipped powers themselves |
| Rolling.RunningMeansOfThree | log_decode.py:37-43 | bucket means 10, 20 and 30 with window 3 give 10, 15 and 20 |
| Rolling.RepeatedSecondsStaySeparate | log_decode.py:25-31 | powers `[10,20,30]` at seconds `[1,1,2]` with window 3 give `[10,15,20]`: the repeated second opens a new bucket |
| Rolling.ZeroSecondJoinsPreviousBucket | log_decode.py:28-31 | seconds `[1,0,2]` bucket powers `[10,20,30]` as `[[10,20],[30]]` |
| Rolling.ZeroSecondAverages | log_decode.py:21-45 | powers `[10,20,30]` at seconds `[1,0,2]` with window 3 give buckets averaging 15 and 30, and the output `[15, 22.5]` |
| Rolling.WindowThreeKeepsTwo | log_decode.py:40-41 | with window 3, the fourth mean leaves `[30,40]` of `[10,20,30,40]` |
| Pipeline.Prefix | log_decode.py:97-99 | `xs[:n]` is a prefix of length `min(len(xs), n)` |
| Pipeline.Truncated | log_decode.py:95-106 | after the cut, `seconds` and `powers` have `min(len(seconds), len(powers))` entries and every list keeps its oldest entries; `forces` and `cadence` stay as long as `powers` |
| Pipeline.Analyse | log_decode.py:94-106 | what the main block computes; computed by `Run`, and stated by `AnalyseShape` |
| Pipeline.AnalyseShape | log_decode.py:94-106 | a run fails on a decode error, or exactly when the first kept second is not positive; on success the x values, cadence and forces line up, the three smoothed series have equal length, and they match the x values exactly when every kept second is positive |
| Pipeline.Run | log_decode.py:54-99 | the main block computes what `Analyse` describes |

## Left out

- Reading the file named by `sys.argv[1]` (lines 9, 60 and 64). The log is a parameter: a sequence of lines, each a string.
- Plotting (lines 101-108). `Report` holds the series passed to `pyplot.plot`. Matplotlib requires the x and y series to have equal lengths, and when they differ its error is not modelled. `AnalyseShape` states when the lengths agree.
- The `print` calls at lines 15 and 82. The message of line 82 is reported as an unrecognised sample (`Unrecognized`), which carries the message and appends nothing. The miss of line 15 is not told apart: `get_val` then returns `''`, which gives `Unrecognized("")`, the same sample as a payload of spaces only such as `<   >`.
- The commented-out handling of the `(2A63)` and `(2A5B)` characteristics (lines 83-92). It is a string literal, not code.
- IEEE floating point. `float(...)` and the two divisions of `calc_rolling_power` are exact `real` arithmetic.
- Assemble.HexLineSample: like `PayloadLine`, `LineRoundTrip` and `TimeLineRoundTrip`, it covers only lines with both markers before the payload and no `<` before the payload; `LineSample` itself is defined for every line.
- Hex.AsciiDecode: decodes ASCII only. A payload with a byte of 128 or more is an error, whereas Python's default UTF-8 decoding accepts valid multi-byte sequences.
- Payload.PowerMessageRoundTrip: covers non-negative force and speed readings and a natural cadence only, because `Reading` has a natural whole part. A negative force loses its sign (`NegativeForceReadsMagnitude`). No lemma states what a message with a negative speed gives; the `[0-9]+` after `\s` cannot match its `-`.
- Unicode whitespace for the `\s` of lines 61-62: it is matched over the ASCII whitespace of `str.isspace` only.
