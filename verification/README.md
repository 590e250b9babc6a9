# buffersizebench in Dafny

buffersizebench measures how fast `read` system calls move data as the read buffer grows. It has three parts:

- **The benchmark** (`src/main.rs`). A writer thread fills a Unix socket pair, a TCP connection or a device file. A reader sweeps the read-buffer size from 1 byte to 16 MiB. For each size it estimates the cost of a read, scales the byte target to about two seconds, measures, and logs one result line. It tracks two "best size" values: the global throughput maximum and the first local maximum.
- **parsetocsv** (`parsetocsv/parsetocsv.go`). It turns that log into CSV. Each line is classified as a file header, a run-type header, a result line or other. A small state machine emits one 9-field row per result line.
- **csvtochart** (`csvtochart/csvtochart.go`). It groups the CSV rows by "dimension assignments" (column name/value tuples). It encodes those assignments as map keys and paths, and builds one chart per group with one line per value of the dimension left out.

The model has these modules:

| file | module | what it models |
|---|---|---|
| `results.dfy` | `Results` | `Result` (a value, or a panic with its message), `Option`, bytes, the I/O error kinds the benchmark distinguishes |
| `timed_reader.dfy` | `TimedReader` | `time_reads`, as a loop over the script of results the endpoint's `read` calls return |
| `handshake.dfy` | `Handshake` | the 5-byte TCP parameter header: a little-endian u32 buffer size and a flag byte |
| `socket_writer.dfy` | `SocketWriter` | `socket_writer`'s outcome machine over a script of write results; `tcp_writer`; `tcp_write_acceptor` |
| `benchmark.dfy` | `Benchmark` | `run_benchmark`'s sweep and trackers; the schedule of runs in `main` |
| `strconv.dfy` | `Strconv` | Go's `strconv.Atoi`, `strconv.ParseBool` and `fmt.Sprint` of integers and booleans |
| `go_strings.dfy` | `GoStrings` | `strings.Split` and `strings.Join` |
| `line_patterns.dfy` | `LinePatterns` | the three regular expressions of parsetocsv, as a small greedy matcher over their element lists; line classification |
| `log_parser.dfy` | `LogParser` | parsetocsv's state machine and row emission |
| `pipeline.dfy` | `Pipeline` | the lines the benchmark prints, read back by parsetocsv |
| `dimensions.dfy` | `Dimensions` | csvtochart's table, dimension assignments, keys, paths and grouping |
| `chart_text.dfy` | `ChartText` | `toCSVFileName`, `gnuplotEscape`, `stringSet`, `numericStringLess` |

**How the model represents the environment**

- An endpoint is the sequence of results its successive calls return. Reads return bytes or an error; writes return a count or an error; accepts return a connection or an error.
- When that sequence runs out before the loop ends, the outcome is `Stalled`, `Blocked` or `Listening`. The real call would block there, because the source has no timeout.
- Throughput is a `real` supplied by a `clock` parameter per sweep step, together with the scaled byte target. Wall-clock time and floating point are not computed.
- parsetocsv's `time.ParseDuration` and `strconv.ParseFloat` followed by `fmt.Sprint` are a `Floats` parameter. It gives the printed text, or `None` for the panic.
- A Go panic or a Rust `assert!`/`panic!` is `Panic(reason)`.

**Behaviour of the code worth stating up front:**

- An equal reading also freezes the first-local-maximum tracker: src/main.rs:295 tests `highest_mib_per_sec < mib_per_sec` and freezes the tracker otherwise. `Benchmark.Update` states this.
- `run_benchmark` ignores the configured start and end. It always sweeps 1, 2, 4, … 16 MiB, which is 25 sizes. The configured start and end only drive the writer-buffer loop in `main` (`Benchmark.WriterPlanFor`). A start of 0 never leaves that loop, because 0 doubled is 0.
- parsetocsv prints its usage message for a wrong argument count but does not exit. With no argument it then panics indexing `os.Args[1]`. With two or more it carries on and uses the first argument (`LogParser.ParseLog`).

## Model

| member | source | states |
|---|---|---|
| TimedReader.TimeReads | src/main.rs:326-362 | Completion happens at the first read that brings the cumulative bytes to the target. Every earlier read succeeded with 0 < n <= buffer length. The bytes read overshoot the target by less than one buffer. A zero target makes no read. `num_syscalls` counts the reads and `short_reads` counts reads below buffer length, so `short_reads <= num_syscalls`. `byte_sum` is the sum of all bytes read when `use_buffer` is set and 0 otherwise. `total_bytes` is the requested target. An I/O error or a failed assertion names the read that caused it. Running out of results happens exactly when all reads were good but short of the target. |
| TimedReader.ReadCall | src/main.rs:257 | A `time_reads(…)?` call either completes on exactly the first reads that reach the target, all good, and returns their statistics; or it stops with an I/O error, a failed assertion or a dry source that the script shows. |
| TimedReader.CompletionUnique | src/main.rs:337-344 | Only one prefix of a script is the reads of a completed call, so what a call consumes is decided by the script. |
| TimedReader.CompletionReadsGood | src/main.rs:337-339 | On a script where a call completes, every read made while still short of the target succeeded with an accepted count. |
| TimedReader.CompletionExcludesStop | src/main.rs:337-339 | A script on which a call completes gives it no reason to stop: a call completes or stops, never both. |
| TimedReader.Checksum | src/main.rs:346-350 | The inner checksum loop adds the unsigned value of every byte one read delivered. |
| TimedReader.BytesReadMonotone | src/main.rs:337-344 | The cumulative byte count never decreases as more reads are taken, so the loop stops at the first prefix that reaches the target. |
| TimedReader.CompletionIsFirst | src/main.rs:337 | No prefix shorter than the completion point had already reached the target. |
| TimedReader.ZeroSourceChecksum | src/main.rs:346-350 | A source that delivers only zero bytes, such as /dev/zero, gives a checksum of 0 for any number and size of reads. |
| TimedReader.ByteSumBounds | src/main.rs:346-350 | The checksum is between 0 and 255 times the number of bytes read. |
| Handshake.Encode | src/main.rs:112-114 | The header is 5 bytes. Byte 4 is 1 exactly when `use_buffer` is set. |
| Handshake.Decode | src/main.rs:175-181 | Decoding fails, which is the `read_exact` panic, exactly when fewer than 5 bytes arrive. The size is below 2^32. The flag is set iff byte 4 is nonzero. |
| Handshake.RoundTrip | src/main.rs:112-181 | For every size below 2^32 and either flag, decoding the encoded header, whatever follows it, gives back the size and the flag. |
| Handshake.Truncation | src/main.rs:113 | The `as u32` cast keeps the size modulo 2^32. |
| Handshake.DecodeThenEncode | src/main.rs:175-181 | Any 5-byte header with a flag byte of 0 or 1 is re-encoded exactly by what it decodes to. |
| Handshake.LeBytesRoundTrip | src/main.rs:113 | `u32::from_le_bytes` inverts `to_le_bytes` on every u32. |
| SocketWriter.FirstIrregular | src/main.rs:197-202 | Returns the first write that is not a full write. All writes before it accepted the whole buffer. |
| SocketWriter.WriteLoop | src/main.rs:188-249 | A buffer over 16 MiB panics before any write. Full writes continue. A failing write ends the loop gracefully iff the error is ConnectionReset/BrokenPipe, and panics otherwise. A short write is followed by exactly one more write of the same buffer: a success there panics, and the error cases are as before. With `use_buffer`, the j-th write carries byte j mod 256, and the retry repeats the previous byte. Without it, every write carries 0. A graceful end always follows a peer-closed error on the last write made. |
| SocketWriter.Closing | src/main.rs:205-246 | The write that ends the loop is a graceful end exactly when it fails with a peer-closed error. Anything else panics, including a write that succeeds after a short one. |
| SocketWriter.TcpWriter | src/main.rs:167-186 | A header shorter than 5 bytes, or one announcing more than 16 MiB, panics before any write. A valid header runs the write loop with the size and flag it announces, so every outcome of `WriteLoop` holds for that size and flag. The writes carry the pattern the header's flag selects. A normal return follows a peer-closed error. |
| SocketWriter.AcceptLoop | src/main.rs:142-165 | Every accepted connection is handed to a writer, in order. The loop ends normally exactly on `InvalidInput` and panics on any other accept error. |
| Benchmark.Update | src/main.rs:295-307 | The rising phase survives only a strictly higher reading, which becomes the local maximum. A reading at or below the local maximum freezes it for good. Once the rising phase has ended, the local maximum and its buffer size stay as they were. The global maximum only grows, and moves only to a strictly larger reading with that reading's size. Global >= local is kept. |
| Benchmark.TrackLocalMax | src/main.rs:295-303 | After any sequence of readings, the local maximum is the last reading of the longest strictly rising prefix, together with its buffer size. The tracker is still rising iff the whole sequence rises. |
| Benchmark.TrackGlobalMax | src/main.rs:304-307 | After any sequence of readings, the global maximum bounds every reading. It is either still the initial 0 or equals the FIRST reading that attains it, with that reading's buffer size. |
| Benchmark.GlobalAtLeastLocal | src/main.rs:295-307 | At every point of the sweep, and so at its end, the global maximum is at least the local one. |
| Benchmark.FrozenStaysFrozen | src/main.rs:300-303 | Once the rising phase has ended, later readings change neither the local maximum nor its buffer size, even if throughput recovers. |
| Benchmark.RisingLengthUnique | src/main.rs:295-303 | The end of the rising phase is uniquely determined by the readings. |
| Benchmark.Doublings | src/main.rs:82-121 | The doubling loop from a positive start yields start, 2·start, 4·start, …, all within the limit, and stops at the first doubling beyond it. |
| Benchmark.DoublingsFromOne | src/main.rs:259-309 | Starting from 1, the i-th size is 2^i. |
| Benchmark.SweepSizesAre | src/main.rs:259-309 | The sweep measures 25 sizes, all at most 16 MiB. The doubling after the last one exceeds 16 MiB. |
| Benchmark.Pow2Max | src/main.rs:17 | 2^24 is `MAX_BUFFER_BYTES` and 2^25 is beyond it. |
| Benchmark.MeasureBytes | src/main.rs:281 | The measurement target is the scaled target or 100, whichever is larger, so it is never below 100. |
| Benchmark.MeasureSize | src/main.rs:270-287 | One size's two calls read on from the given read. The estimate, of `100 * buf_size` bytes, completes exactly on the reads up to a split point. The measurement, of `max(scaled, 100)` bytes, completes exactly on the reads from there to a second split point. The returned statistics are those of the measuring reads: their count, their short reads and, with `use_buffer`, their checksum. A stop is the estimate's or the measurement's reason to stop, at the read where that call began. |
| Benchmark.SweepStep | src/main.rs:269-309 | One iteration keeps the sweep invariant. The i sizes logged so far are 1, 2, 4, …, each measured on the reads that follow the previous size's. The trackers equal the tracker fold of the readings, and the byte sum is the sum of the logged checksums (0 without `use_buffer`). A failure is the reason the next size's estimate or measurement stopped. |
| Benchmark.AppendMeasurement | src/main.rs:293-307 | Logging one more measurement updates the trackers by exactly one `Update` and adds its checksum to the byte sum. |
| Benchmark.RunBenchmark | src/main.rs:251-314 | The sweep finishes iff the script holds a whole sweep: the warm-up, then 25 sizes 1, 2, …, 16 MiB, each split into an estimate and a measurement that complete on consecutive reads. A finished sweep's statistics are those of its measuring reads. Its trackers are those of the readings in order. Its byte sum is the sum of the measurements' checksums, and 0 without `use_buffer`. A warm-up stop is the warm-up call's reason to stop. A later stop comes after a warm-up and a correctly logged run of fewer than 25 sizes, and is the reason the next size's estimate or measurement stopped. |
| Benchmark.SegmentUnique | src/main.rs:272-287 | From a given read, only one stretch of reads is a completed call with a given buffer and target. |
| Benchmark.LoggedUnique | src/main.rs:269-309 | Two logs of the same script after the same warm-up agree wherever both are defined: the script decides every measurement. |
| Benchmark.WarmupStopExcludesSweep | src/main.rs:257 | A warm-up that stops leaves no whole sweep in the script. |
| Benchmark.CompleteSweepExcludesStop | src/main.rs:257-309 | A script holding a whole sweep gives no size a reason to stop. |
| Benchmark.LoggedSizes | src/main.rs:259-309 | The j-th logged measurement is taken with a buffer of 2^j bytes. |
| Benchmark.LoggedPrefix | src/main.rs:269-309 | The first n entries of a log are a log. |
| Benchmark.ZeroSourceSweep | src/main.rs:293 | Over a source of zero bytes, such as /dev/zero, the byte sum of a sweep is 0 whether or not the buffer is summed. |
| Benchmark.WriterPlanFor | src/main.rs:52-121 | `main` panics iff start > end or end > 16 MiB. A start of 0 loops forever. Otherwise the writer sizes are start, 2·start, … within the end, and the next doubling exceeds it. |
| Benchmark.PlannedSizesReachWriter | src/main.rs:112-185 | Every writer size of a valid plan is at most 16 MiB and survives the TCP header intact, flag included. |
| Benchmark.RunsFor | src/main.rs:83-130 | One `use_buffer` pass holds two runs per writer size, then /dev/zero, then /dev/urandom. |
| Benchmark.RunsForAt | src/main.rs:86-118 | For each writer size, in order, the Unix-socket run comes first and the TCP run second, both at that size. |
| Benchmark.RunsForMembers | src/main.rs:81-130 | Every run of a pass carries the pass's flag. Every socket run uses one of the planned sizes. |
| Benchmark.Schedule | src/main.rs:81-131 | The program runs the pass without the buffer first, then the pass with it, 4·n + 4 runs in all. Every socket run uses a planned size. |
| Strconv.FormatNat | parsetocsv/parsetocsv.go:109-111 | `fmt.Sprint` of a natural number is a canonical numeral (no leading zeros) whose value is the number. |
| Strconv.FormatInt | parsetocsv/parsetocsv.go:109-111 | `fmt.Sprint` of an integer is nonempty and starts with '-' iff the integer is negative. |
| Strconv.Atoi | parsetocsv/parsetocsv.go:71-74 | `strconv.Atoi` accepts only 64-bit values. An all-digit string is accepted iff its value fits, and it parses to that value. Any accepted string starts with a sign or a digit. |
| Strconv.AtoiFormatInt | csvtochart/csvtochart.go:432-437 | `Atoi` inverts `fmt.Sprint` on every 64-bit integer. |
| Strconv.FormatDigitsValue | parsetocsv/parsetocsv.go:109-111 | Printing the value of a canonical numeral gives back the numeral. |
| Strconv.AtoiCanonical | parsetocsv/parsetocsv.go:71-111 | A canonical numeral within range parses to its value and prints back to itself. |
| Strconv.ParseBool | parsetocsv/parsetocsv.go:52-55 | `strconv.ParseBool` accepts exactly the six true spellings and the six false spellings, and rejects everything else. |
| Strconv.ParseBoolRoundTrip | parsetocsv/parsetocsv.go:52-109 | Parsing a printed boolean gives it back. Re-printing a parsed one parses to the same value. |
| GoStrings.Split | csvtochart/csvtochart.go:98 | `strings.Split` gives at least one part, and no part contains the separator. |
| GoStrings.SplitAt | csvtochart/csvtochart.go:98 | Splitting at the first separator gives the text before it, then the split of the rest. |
| GoStrings.SplitJoin | csvtochart/csvtochart.go:94-98 | Splitting a join of separator-free parts gives back the parts. |
| GoStrings.JoinSplit | csvtochart/csvtochart.go:94-98 | Joining the parts of a split gives back the text. |
| LinePatterns.MatchCount | parsetocsv/parsetocsv.go:14-16 | A successful match yields one capture per group. |
| LinePatterns.PatternsSeparated | parsetocsv/parsetocsv.go:14-16 | In each of the three patterns, every repeated character class is followed by a character it cannot consume. This is why a greedy leftmost matcher, which never backtracks, decides these patterns exactly. |
| LinePatterns.MatchFileLine | parsetocsv/parsetocsv.go:15 | A file line is recognised exactly when the `fileLine` pattern matches. |
| LinePatterns.MatchRunTypeLine | parsetocsv/parsetocsv.go:14 | A run-type line is recognised exactly when the `runTypeLine` pattern matches. |
| LinePatterns.MatchResultLine | parsetocsv/parsetocsv.go:16 | A result line is recognised exactly when the `resultLine` pattern matches. |
| LinePatterns.PatternsExclusive | parsetocsv/parsetocsv.go:49-81 | No line matches two of the patterns, so the order in which the branches are tried never matters. |
| LinePatterns.RunTypeRoundTrip | parsetocsv/parsetocsv.go:14 | "use_buffer=F; write_buffer_bytes=N; type=K" followed by a non-letter is matched, with captures exactly F, N and K. |
| LinePatterns.FileRoundTrip | parsetocsv/parsetocsv.go:15 | "use_buffer=F; /dev/D:" is matched, with captures F and "/dev/D". |
| LinePatterns.ResultRoundTrip | parsetocsv/parsetocsv.go:16 | A result line as printed is matched, and the captures are its size, its duration with unit, its syscall count, its throughput and its short-read count. The syscall rate is not captured. |
| LinePatterns.RunTypeLineShape | parsetocsv/parsetocsv.go:14 | Conversely, every line the run-type pattern accepts has that printed shape, with the captures as its fields. |
| LinePatterns.FileLineShape | parsetocsv/parsetocsv.go:15 | Every line the file pattern accepts has the printed file-header shape. |
| LinePatterns.ResultLineShape | parsetocsv/parsetocsv.go:16 | Every line the result pattern accepts has the printed result-line shape, with the captures as its fields. |
| LogParser.HeaderState | parsetocsv/parsetocsv.go:49-79 | A file line sets `useBuffer` from its capture, resets `writeBufferBytes` to 0 and sets `connectionType` to "file_" + the device path. A run-type line sets all three from its captures. Either fails iff `ParseBool` or `Atoi` rejects its capture. |
| LogParser.Convert | parsetocsv/parsetocsv.go:83-106 | The five result captures convert, in the source's order, to the values `Atoi` and the float parsers give. It fails iff one of them fails. |
| LogParser.ResultRow | parsetocsv/parsetocsv.go:83-112 | A result line gives a 9-field row: the machine, the three state values as printed, then the converted fields in header order. It fails iff a capture does not convert. |
| LogParser.StateColumns | parsetocsv/parsetocsv.go:109-110 | The first four fields of a row are the machine and the current state, printed. |
| LogParser.ResultColumns | parsetocsv/parsetocsv.go:110-112 | The last five fields of a row are the read size, seconds, syscalls, short reads and throughput. |
| LogParser.EventOf | parsetocsv/parsetocsv.go:49-114 | Header lines set a new state and result lines produce a measurement. Both fail exactly when a conversion fails. Other lines are ignored. |
| LogParser.MeasuredRow | parsetocsv/parsetocsv.go:109-112 | The row written for a measurement is the row of its converted captures under the current state. |
| LogParser.Events | parsetocsv/parsetocsv.go:32-49 | Each input line gives exactly one event, that of its classification. |
| LogParser.StateIsLastHeader | parsetocsv/parsetocsv.go:49-79 | The state at any point is the one the last header line before it set. Result and other lines leave it unchanged. |
| LogParser.StateBeforeHeaders | parsetocsv/parsetocsv.go:24-26 | Before any header line the state is `false`, 0, "". |
| LogParser.RowCount | parsetocsv/parsetocsv.go:109-113 | Exactly one row is emitted per result line. Nothing is emitted for other lines. |
| LogParser.RowsShape | parsetocsv/parsetocsv.go:109-112 | Every emitted row has 9 fields and starts with the machine configuration. |
| LogParser.RunMachine | parsetocsv/parsetocsv.go:32-115 | The loop panics iff some line fails to convert, and then with the first failure's reason. Otherwise it emits the rows of the lines in order. |
| LogParser.ParseLog | parsetocsv/parsetocsv.go:18-120 | Usage is printed iff the argument count is not one. Without an argument the program panics. Otherwise it panics iff some line fails to convert, and on success writes the 9-column header row and then one row per result line, in input order. |
| Pipeline.HeaderLineState | src/main.rs:84-128 | The header line the benchmark prints before each run is read by parsetocsv as a header whose state is that run's flag, size and connection type. |
| Pipeline.SocketLineState | src/main.rs:86-117 | The Unix and TCP headers are run-type lines giving the run's flag, write size and "unix"/"TCP". |
| Pipeline.DeviceLineState | src/main.rs:124-128 | The /dev/zero and /dev/urandom headers are file lines giving the flag, size 0 and "file_/dev/zero" or "file_/dev/urandom". |
| Pipeline.SocketHeaderState | src/main.rs:86-88 | A printed socket header with any flag, any size and any letters-only type parses back to exactly that state. |
| Pipeline.DeviceHeaderState | src/main.rs:124-128 | A printed device header parses back to that flag, size 0 and "file_" + the device path. |
| Pipeline.ProgressLineIgnored | src/main.rs:84 | The "## use_buffer=…" progress line matches no pattern, so it changes nothing. |
| Pipeline.ResultLineRow | src/main.rs:291-292 | A result line as the benchmark prints it is classified as a result line with the printed fields as captures. Its row carries the printed size, syscall count and short-read count, and fails only if the float parsers reject the duration or throughput. |
| Pipeline.RunTypeClassified | parsetocsv/parsetocsv.go:49-79 | A line the run-type pattern matches is handled by the run-type branch: the file branch tried before it never takes it. |
| Pipeline.ResultClassified | parsetocsv/parsetocsv.go:49-114 | A line the result pattern matches is handled by the result branch. |
| Pipeline.AtoiFormatNat | parsetocsv/parsetocsv.go:71 | Every size the benchmark prints is parsed back to itself by `Atoi`. |
| Dimensions.NewTable | csvtochart/csvtochart.go:24-31 | Every header names a column at one of its positions. A repeated header names its last occurrence. |
| Dimensions.GetRowValue | csvtochart/csvtochart.go:33-38 | An unknown column panics. |
| Dimensions.RowValueUnderLastHeader | csvtochart/csvtochart.go:24-38 | The value of a header's last occurrence is `row[i]` when the row is long enough, and an index panic otherwise. |
| Dimensions.UnknownColumnPanics | csvtochart/csvtochart.go:33-38 | Looking up a name that is not a header panics. |
| Dimensions.NewAssignment | csvtochart/csvtochart.go:49-51 | A new assignment has one empty value per name. |
| Dimensions.Assign | csvtochart/csvtochart.go:53-65 | `assign` succeeds iff the value matches `^[A-Za-z0-9/_-]+$` and the name is present. It keeps the names. |
| Dimensions.AssignFirstSlot | csvtochart/csvtochart.go:53-65 | A successful `assign` sets the value of the FIRST slot with that name and leaves every other value unchanged. |
| Dimensions.AssignSlot | csvtochart/csvtochart.go:53-65 | With distinct names, assigning to the i-th name replaces exactly the i-th value. |
| Dimensions.AssignEachDistinct | csvtochart/csvtochart.go:102-105 | Assigning the first k values in name order succeeds iff each is permitted. It fills exactly those k slots. |
| Dimensions.MapKey | csvtochart/csvtochart.go:88-95 | `mapKey` panics iff some value is unassigned (empty). |
| Dimensions.ParseKey | csvtochart/csvtochart.go:97-107 | A key whose part count differs from the name count panics. A parsed key has the given names. |
| Dimensions.KeyRoundTrip | csvtochart/csvtochart.go:88-107 | For a fully assigned assignment with at least one distinct name, parsing its key gives the same assignment back. |
| Dimensions.KeyRoundTripBack | csvtochart/csvtochart.go:88-107 | Every key that parses is the key of what it parses to. |
| Dimensions.MapKeyInjective | csvtochart/csvtochart.go:88-95 | Distinct fully assigned assignments over the same names have distinct keys. |
| Dimensions.RepeatedNameLosesValue | csvtochart/csvtochart.go:97-107 | With a repeated name both parts go to the first slot, leaving the second unassigned. Such a key cannot be re-keyed. |
| Dimensions.NoDimensionsNeverParse | csvtochart/csvtochart.go:97-101 | With no names every key panics, since a split always has a part. |
| Dimensions.CombinedSplits | csvtochart/csvtochart.go:67-76 | `combined` is the "name=value" pairs in name order joined by ", ". Splitting it at ',' gives back the pairs. |
| Dimensions.PieceValue | csvtochart/csvtochart.go:67-76 | The i-th pair of `combined` holds the i-th value after its name and '='. |
| Dimensions.CombinedInjective | csvtochart/csvtochart.go:67-76 | Distinct fully assigned assignments over the same comma-free names have distinct titles. |
| Dimensions.CombinedPath | csvtochart/csvtochart.go:78-81 | `combinedPath` has the length of `combined`. It contains no ',' or '/', and keeps every other character in place. |
| Dimensions.PathCollision | csvtochart/csvtochart.go:78-81 | Because '/' is a permitted value character, two distinct assignments such as k=a/b and k=a_b get the same chart path. |
| Dimensions.Without | csvtochart/csvtochart.go:209-210 | The names minus one keep the others in order. |
| Dimensions.DropDimension | csvtochart/csvtochart.go:213-223 | Dropping dimension e keeps the value of e as the line label, over the remaining names. |
| Dimensions.DropDimensionValues | csvtochart/csvtochart.go:213-223 | For a fully assigned assignment with distinct names, dropping e succeeds. The rest holds exactly the other values, in order, and is itself fully assigned with distinct names. |
| Dimensions.GroupKeyOf | csvtochart/csvtochart.go:213-225 | The group key is the key of the assignment minus the excluded dimension. |
| Dimensions.SameGroupIff | csvtochart/csvtochart.go:213-226 | Two data sets land in the same chart iff they agree on every dimension but the excluded one. |
| Dimensions.LabelsTellGroupMembersApart | csvtochart/csvtochart.go:213-245 | Within one chart, the excluded dimension's value identifies the data set. |
| Dimensions.Place | csvtochart/csvtochart.go:213-226 | A data set filed under a key goes to one chart, as a line keeping that key. |
| Dimensions.Grouped | csvtochart/csvtochart.go:212-227 | The grouping succeeds iff every data set's key places. |
| Dimensions.GroupedHoldsMembers | csvtochart/csvtochart.go:212-227 | Each chart holds exactly the data sets placed in it, in iteration order, and there are no empty charts. |
| Dimensions.DistinctLegends | csvtochart/csvtochart.go:242-245 | Two keys placed in the same chart with the same label are the same key. |
| Dimensions.ChartLegendsDistinct | csvtochart/csvtochart.go:242-245 | The lines of one chart have distinct labels, so filling `labelledPlotsMaps` overwrites nothing. |
| Dimensions.RowAssignmentOk | csvtochart/csvtochart.go:181-187 | Reading a row's dimensions succeeds iff each dimension column exists, is within the row and holds a permitted value. |
| Dimensions.RowAssignmentValues | csvtochart/csvtochart.go:181-187 | Each dimension gets the row's value in its column. |
| Dimensions.RowKeyParsesBack | csvtochart/csvtochart.go:181-214 | The key a row is filed under parses back to that row's assignment. |
| ChartText.LowerChar | csvtochart/csvtochart.go:284 | An ASCII capital becomes the small letter at the same place in the alphabet, and every other character is kept. Word characters stay word characters and map into `[a-z0-9_]`. |
| ChartText.Lower | csvtochart/csvtochart.go:284 | `strings.ToLower` lower-cases every ASCII letter in place and keeps every other character. |
| ChartText.CollapseRuns | csvtochart/csvtochart.go:287 | After replacement only word characters and '-' remain, and no two '-' are adjacent. |
| ChartText.ToCSVFileName | csvtochart/csvtochart.go:280-289 | The file name uses only `[a-z0-9_-]` and never contains "--". |
| ChartText.WordRuns | csvtochart/csvtochart.go:286-287 | The pieces between the maximal runs of non-word characters are made of word characters. Every piece but the first and the last is nonempty, and the first is nonempty when the text starts with a word character. |
| ChartText.FileNamePieces | csvtochart/csvtochart.go:280-289 | Splitting the file name at '-' gives exactly the maximal runs of `[a-z0-9_]` of the lower-cased label: every maximal run of other characters became exactly one '-'. |
| ChartText.CollapseSplits | csvtochart/csvtochart.go:287 | Splitting the replaced text at '-' gives the word runs of the text. |
| ChartText.FileNameKeepsWords | csvtochart/csvtochart.go:280-289 | Every letter, digit and underscore of the label survives, lower-cased and in order. |
| ChartText.FileNameIdempotent | csvtochart/csvtochart.go:280-289 | A file name is its own file name. |
| ChartText.PlainLabelUnchanged | csvtochart/csvtochart.go:280-289 | A label already made of `[a-z0-9_]` is used unchanged. |
| ChartText.GnuplotEscape | csvtochart/csvtochart.go:404-408 | Each '_' grows by three characters. |
| ChartText.EscapeConcat | csvtochart/csvtochart.go:404-408 | Escaping works piecewise on concatenations. |
| ChartText.EscapeUnchangedIff | csvtochart/csvtochart.go:404-408 | A text is left unchanged iff it has no '_'. |
| ChartText.EscapeRoundTrip | csvtochart/csvtochart.go:404-408 | Reading `\\\_` back as '_' recovers the original text, backslashes included. |
| ChartText.UnderscoresLate | csvtochart/csvtochart.go:404-408 | Every '_' of an escaped text has its backslashes before it. |
| ChartText.LessTransitive | csvtochart/csvtochart.go:427 | The string order `sort.Strings` uses is transitive. |
| ChartText.LessTotal | csvtochart/csvtochart.go:427 | The string order is total on distinct strings. |
| ChartText.LessAsymmetric | csvtochart/csvtochart.go:427 | The string order is asymmetric. |
| ChartText.LessIrreflexive | csvtochart/csvtochart.go:427 | The string order is irreflexive. |
| ChartText.Insert | csvtochart/csvtochart.go:424-427 | Inserting a new member into a strictly sorted list keeps it strictly sorted and adds exactly that member. |
| ChartText.List | csvtochart/csvtochart.go:422-429 | `list` returns every member of the set exactly once, strictly sorted, whatever the map's iteration order. |
| ChartText.SortedUnique | csvtochart/csvtochart.go:422-429 | Only one strictly sorted list holds a given set, so the listing is independent of iteration order. |
| ChartText.NumericStringLess | csvtochart/csvtochart.go:431-442 | The comparison panics iff `Atoi` rejects one of the strings. |
| ChartText.NumericLessOfFormatted | csvtochart/csvtochart.go:431-442 | On printed 64-bit integers it is the integer order. |
| ChartText.NumericOrderIsNotStringOrder | csvtochart/csvtochart.go:427-442 | It differs from the string order: "9" comes before "10" numerically and after it as strings. |

## Left out

- Sockets, files, threads and the OS. `UnixStream::pair`, TCP bind/connect/accept, `setsockopt`/`getsockopt`, `shutdown`, spawning and joining threads, and the reader-close-stops-writer coordination are not modelled. Each endpoint is the sequence of results its calls return. How long a call blocks and what runs concurrently are out of scope.
- Time and floating point. `Instant`, durations, MiB/s, syscalls/s and the scaling of the estimate into a byte target are not computed. The `clock` parameter supplies the throughput and the scaled target per sweep step. The truncating `as usize` cast is part of that supplied value.
- The sweep's reads (the warm-up, each estimate, each measurement) come from one script, in order. Which bytes the estimate reads and which the measurement reads is fixed by that order, not by timing.
- The closing "BEST" summary line (src/main.rs:312) is output only. The trackers it prints are stated in `Benchmark.RunBenchmark`'s result.
- `println!` output in general and `argh` argument parsing. The log lines parsetocsv reads are modelled in `Pipeline` as text.
- The writer-only mode of `main` (src/main.rs:57-66) and the acceptor shutdown at src/main.rs:133-137 are I/O around `tcp_write_acceptor`. Only the acceptor's classification is modelled.
- Integer widths: `usize` and `i64` overflow is not modelled, because no reachable value comes near it in the benchmark. The handshake's `as u32` truncation is modelled. Go's `int` is modelled in `Atoi` as 64-bit.
- SocketWriter.WriteLoop: `next_byte += 1` on a u8 is modelled as wrap-around mod 256. That is release-build behaviour; a debug build would panic on the 256th write.
- Rust's `Duration` `Debug` formatting prints sub-second durations in ms/µs, and whole seconds without a fraction. Such lines would not match the result pattern and would be skipped silently. The model prints durations as decimal seconds (`Pipeline.ResultLineOf`), the form the pattern expects.
- parsetocsv's `time.ParseDuration`, `strconv.ParseFloat` and the `fmt.Sprint` of floats are the `Floats` parameter, not modelled.
- `bufio.Scanner`'s maximum line length and its error at line 116-118 are left out. The input is a sequence of lines.
- LogParser.ParseLog: all lines are classified before the state machine runs. That is equivalent because classification does not depend on the state.
- The regular-expression engine is modelled only for the three parsetocsv patterns. csvtochart's `permittedDimensionValue` and `nonAlphaRE` are modelled as character predicates.
- `encoding/csv` quoting, the CSV reader, file and directory creation, `writeCSV`, `writeGnuplot`, `writePlotlyHTML` and the HTML template are output formatting and I/O.
- Go map iteration order is a parameter: the order of keys in `Dimensions.Grouped` and the order in `ChartText.List`. `ChartText.SortedUnique` shows the listing does not depend on it.
- `strings.ToLower` is modelled on ASCII letters only. Other characters are kept as they are, and then collapsed as non-word characters.
- The `dimensionDictionary` bookkeeping (csvtochart/csvtochart.go:186), the x/y column reads and the chart assembly after grouping are not modelled beyond the label map.
