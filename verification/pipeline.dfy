/** How the benchmark's output and parsetocsv fit together: the header and
    result lines `main` and `run_benchmark` print (src/main.rs) are the lines
    the three patterns of parsetocsv classify, with the fields they carry. */
module Pipeline {
  import opened Results
  import opened Strconv
  import opened LinePatterns
  import opened LogParser
  import Benchmark

  /** The header line printed before run `r` (main.rs lines 86-87, 117,
      124 and 128), without the empty line some of them print first. A TCP
      header also names the socket's receive buffer size and the writer's
      address. */
  function HeaderLine(r: Benchmark.Run, rcvbuf: nat, addr: string): string {
    var flag := FormatBool(r.useBuffer);
    match r.endpoint
    case UnixPair(n) => "use_buffer=" + flag + "; write_buffer_bytes=" + FormatNat(n) + "; type=unix:"
    case Tcp(n) =>
      "use_buffer=" + flag + "; write_buffer_bytes=" + FormatNat(n) + "; type=TCP; SO_RCVBUF=" + FormatNat(rcvbuf)
      + "; writer_addr=" + addr + ":"
    case DevZero => "use_buffer=" + flag + "; /dev/" + "zero" + ":"
    case DevUrandom => "use_buffer=" + flag + "; /dev/" + "urandom" + ":"
  }

  /** The progress line printed before each write-buffer size (main.rs line 84). */
  function ProgressLine(useBuffer: bool, writeBufferBytes: nat): string {
    "## use_buffer=" + FormatBool(useBuffer) + "; write_buffer_bytes=" + FormatNat(writeBufferBytes)
  }

  /** What the rows of a run should say about it: the buffering mode, the
      writer's buffer size (0 for a device file) and the connection type. */
  function StateFor(r: Benchmark.Run): State {
    match r.endpoint
    case UnixPair(n) => State(r.useBuffer, n, "unix")
    case Tcp(n) => State(r.useBuffer, n, "TCP")
    case DevZero => State(r.useBuffer, 0, "file_/dev/zero")
    case DevUrandom => State(r.useBuffer, 0, "file_/dev/urandom")
  }

  lemma FormatBoolCapturable(b: bool)
    ensures Capturable(FormatBool(b), NotSemicolon)
  {
  }

  lemma FormatNatCapturable(n: nat)
    ensures Capturable(FormatNat(n), IsDigit)
  {
  }

  lemma AtoiFormatNat(n: nat)
    requires n <= MaxInt
    ensures Atoi(FormatNat(n)) == Some(n as int)
  {
    AtoiFormatInt(n);
  }

  /** A run-type header that matches is classified as one: no file line
      matches it. */
  lemma RunTypeClassified(line: string)
    requires MatchRunTypeLine(line).Some?
    ensures Classify(line) == RunTypeHeader(MatchRunTypeLine(line).value)
  {
    PatternsExclusive(line);
  }

  lemma ResultClassified(line: string)
    requires MatchResultLine(line).Some?
    ensures Classify(line) == ResultLine(MatchResultLine(line).value)
  {
    PatternsExclusive(line);
  }

  lemma SocketHeaderState(b: bool, n: nat, kind: string, rest: string)
    requires n <= MaxInt && Capturable(kind, IsLetter) && Stops(rest, IsLetter)
    ensures var t := Classify(RunTypeText(FormatBool(b), FormatNat(n), kind, rest));
            t.RunTypeHeader? && HeaderState(t) == Some(State(b, n, kind))
  {
    var line := RunTypeText(FormatBool(b), FormatNat(n), kind, rest);
    FormatBoolCapturable(b);
    FormatNatCapturable(n);
    RunTypeRoundTrip(FormatBool(b), FormatNat(n), kind, rest);
    RunTypeClassified(line);
    ParseBoolRoundTrip(b, "");
    AtoiFormatNat(n);
  }

  lemma DeviceHeaderState(b: bool, device: string)
    requires Capturable(device, NotColon)
    ensures var t := Classify(FileText(FormatBool(b), device, ""));
            t.FileHeader? && HeaderState(t) == Some(State(b, 0, "file_/dev/" + device))
  {
    FormatBoolCapturable(b);
    FileRoundTrip(FormatBool(b), device, "");
    ParseBoolRoundTrip(b, "");
    assert "file_" + ("/dev/" + device) == "file_/dev/" + device;
  }

  /** Every header line the benchmark prints sets exactly the state that
      describes its run, so the rows of the run's results carry the run's
      buffering mode, write-buffer size and connection type. */
  lemma HeaderLineState(r: Benchmark.Run, rcvbuf: nat, addr: string)
    requires r.endpoint.UnixPair? || r.endpoint.Tcp? ==> r.endpoint.writeBufferBytes <= MaxInt
    ensures var t := Classify(HeaderLine(r, rcvbuf, addr));
            (t.FileHeader? || t.RunTypeHeader?) && HeaderState(t) == Some(StateFor(r))
  {
    if r.endpoint.UnixPair? || r.endpoint.Tcp? {
      SocketLineState(r, rcvbuf, addr);
    } else {
      DeviceLineState(r, rcvbuf, addr);
    }
  }

  lemma SocketLineState(r: Benchmark.Run, rcvbuf: nat, addr: string)
    requires (r.endpoint.UnixPair? || r.endpoint.Tcp?) && r.endpoint.writeBufferBytes <= MaxInt
    ensures var t := Classify(HeaderLine(r, rcvbuf, addr));
            t.RunTypeHeader? && HeaderState(t) == Some(StateFor(r))
  {
    var flag := FormatBool(r.useBuffer);
    var n := r.endpoint.writeBufferBytes;
    if r.endpoint.UnixPair? {
      UnixHeaderText(flag, FormatNat(n));
      SocketHeaderState(r.useBuffer, n, "unix", ":");
    } else {
      var rest := "; SO_RCVBUF=" + FormatNat(rcvbuf) + "; writer_addr=" + addr + ":";
      TcpHeaderText(flag, FormatNat(n), FormatNat(rcvbuf), addr);
      SocketHeaderState(r.useBuffer, n, "TCP", rest);
    }
  }

  lemma DeviceLineState(r: Benchmark.Run, rcvbuf: nat, addr: string)
    requires r.endpoint.DevZero? || r.endpoint.DevUrandom?
    ensures var t := Classify(HeaderLine(r, rcvbuf, addr));
            t.FileHeader? && HeaderState(t) == Some(StateFor(r))
  {
    var flag := FormatBool(r.useBuffer);
    var device := if r.endpoint.DevZero? then "zero" else "urandom";
    DeviceHeaderText(flag, device);
    DeviceHeaderState(r.useBuffer, device);
    DevicePaths();
  }

  lemma DevicePaths()
    ensures "file_/dev/" + "zero" == "file_/dev/zero"
    ensures "file_/dev/" + "urandom" == "file_/dev/urandom"
  {
  }

  lemma UnixHeaderText(flag: string, size: string)
    ensures "use_buffer=" + flag + "; write_buffer_bytes=" + size + "; type=unix:" == RunTypeText(flag, size, "unix", ":")
  {
    assert "; type=unix:" == "; type=" + ("unix" + ":");
  }

  lemma TcpHeaderText(flag: string, size: string, rcvbuf: string, addr: string)
    ensures "use_buffer=" + flag + "; write_buffer_bytes=" + size + "; type=TCP; SO_RCVBUF=" + rcvbuf
            + "; writer_addr=" + addr + ":"
         == RunTypeText(flag, size, "TCP", "; SO_RCVBUF=" + rcvbuf + "; writer_addr=" + addr + ":")
  {
    var head := "use_buffer=" + flag + "; write_buffer_bytes=" + size;
    var rest := "; SO_RCVBUF=" + rcvbuf + "; writer_addr=" + addr + ":";
    Assoc("use_buffer=", flag, "; write_buffer_bytes=" + (size + ("; type=" + ("TCP" + rest))));
    Assoc("use_buffer=" + flag, "; write_buffer_bytes=", size + ("; type=" + ("TCP" + rest)));
    Assoc("use_buffer=" + flag + "; write_buffer_bytes=", size, "; type=" + ("TCP" + rest));
    Assoc("; type=", "TCP", rest);
    assert "; type=" + "TCP" == "; type=TCP";
    Assoc5("; type=TCP", "; SO_RCVBUF=", rcvbuf, "; writer_addr=", addr, ":");
    assert "; type=TCP" + "; SO_RCVBUF=" == "; type=TCP; SO_RCVBUF=";
    Assoc5(head, "; type=TCP; SO_RCVBUF=", rcvbuf, "; writer_addr=", addr, ":");
  }

  lemma DeviceHeaderText(flag: string, device: string)
    ensures "use_buffer=" + flag + "; /dev/" + device + ":" == FileText(flag, device, "")
  {
  }

  /** The progress line matches none of the patterns and leaves the state alone. */
  lemma ProgressLineIgnored(useBuffer: bool, writeBufferBytes: nat)
    ensures Classify(ProgressLine(useBuffer, writeBufferBytes)) == Other
  {
    var line := ProgressLine(useBuffer, writeBufferBytes);
    assert line[0] == '#';
    PatternsAre();
    if MatchFileLine(line).Some? {
      FileLineStart(line, FilePattern);
    }
    if MatchRunTypeLine(line).Some? {
      RunTypeLineStart(line, RunTypePattern);
    }
    if MatchResultLine(line).Some? {
      ResultLineStart(line, ResultPattern);
    }
  }

  /** The result line `run_benchmark` prints for one buffer size (main.rs
      line 291). The duration, throughput and syscall rate are printed from
      floating-point values and enter as decimals already formatted. */
  function ResultLineOf(bufSize: nat, duration: Decimal, numSyscalls: nat, throughput: Decimal, rate: Decimal,
                        shortReads: nat): string
  {
    "buf_size=" + FormatNat(bufSize) + "; duration=" + DecimalText(duration) + "s; num_syscalls="
    + FormatNat(numSyscalls) + "; " + DecimalText(throughput) + " MiB/s; " + DecimalText(rate)
    + " syscalls/s; short_reads=" + FormatNat(shortReads)
  }

  /** A printed result line becomes a row that repeats its buffer size,
      syscall count and short-read count exactly, and exists exactly when the
      duration and throughput convert. */
  lemma ResultLineRow(machine: string, st: State, bufSize: nat, duration: Decimal, numSyscalls: nat,
                      throughput: Decimal, rate: Decimal, shortReads: nat, floats: Floats)
    requires bufSize <= MaxInt && numSyscalls <= MaxInt && shortReads <= MaxInt
    requires IsDecimal(duration) && IsDecimal(throughput) && IsDecimal(rate)
    ensures var t := Classify(ResultLineOf(bufSize, duration, numSyscalls, throughput, rate, shortReads));
      && t == ResultLine(ResultCaptures(FormatNat(bufSize), DecimalText(duration) + "s", FormatNat(numSyscalls),
                                        DecimalText(throughput), FormatNat(shortReads)))
      && var row := ResultRow(machine, st, t.result, floats);
         && (row.Some? <==> floats.seconds(t.result.duration).Some? && floats.number(t.result.throughput).Some?)
         && (row.Some? ==> row.value[4] == FormatNat(bufSize) && row.value[6] == FormatNat(numSyscalls)
                           && row.value[7] == FormatNat(shortReads))
  {
    var fields := ResultFields(FormatNat(bufSize), duration, FormatNat(numSyscalls), throughput, rate,
                               FormatNat(shortReads));
    FormatNatCapturable(bufSize);
    FormatNatCapturable(numSyscalls);
    FormatNatCapturable(shortReads);
    var line := ResultLineOf(bufSize, duration, numSyscalls, throughput, rate, shortReads);
    ResultTextFlat(fields);
    assert line == ResultText(fields, "");
    ResultRoundTrip(fields, "");
    ResultClassified(line);
    AtoiFormatNat(bufSize);
    AtoiFormatNat(numSyscalls);
    AtoiFormatNat(shortReads);
  }

  /** The right-nested text of a result line is the text written left to right. */
  lemma ResultTextFlat(r: ResultFields)
    ensures ResultText(r, "")
         == "buf_size=" + r.bufSize + "; duration=" + DecimalText(r.duration) + "s; num_syscalls="
            + r.numSyscalls + "; " + DecimalText(r.throughput) + " MiB/s; " + DecimalText(r.syscallRate)
            + " syscalls/s; short_reads=" + r.shortReads
  {
    var r9 := " syscalls/s; short_reads=" + (r.shortReads + "");
    var r7 := " MiB/s; " + DecimalThen(r.syscallRate, r9);
    var r5 := "; " + DecimalThen(r.throughput, r7);
    var r4 := r.numSyscalls + r5;
    var l2 := "buf_size=" + r.bufSize + "; duration=";
    var l3 := l2 + DecimalText(r.duration);
    var l5 := l3 + "s; num_syscalls=" + r.numSyscalls;
    var l7 := l5 + "; " + DecimalText(r.throughput);
    var l9 := l7 + " MiB/s; " + DecimalText(r.syscallRate);
    calc {
      ResultText(r, "");
    == { Assoc("buf_size=", r.bufSize, "; duration=" + DecimalThen(r.duration, "s" + ("; num_syscalls=" + r4))); }
      "buf_size=" + r.bufSize + ("; duration=" + DecimalThen(r.duration, "s" + ("; num_syscalls=" + r4)));
    == { Assoc("buf_size=" + r.bufSize, "; duration=", DecimalThen(r.duration, "s" + ("; num_syscalls=" + r4))); }
      l2 + DecimalThen(r.duration, "s" + ("; num_syscalls=" + r4));
    == { DecimalAssoc(l2, r.duration, "s" + ("; num_syscalls=" + r4)); }
      l3 + ("s" + ("; num_syscalls=" + r4));
    == { Assoc("s", "; num_syscalls=", r4); assert "s" + "; num_syscalls=" == "s; num_syscalls="; }
      l3 + ("s; num_syscalls=" + (r.numSyscalls + r5));
    == { Assoc("s; num_syscalls=", r.numSyscalls, r5); Assoc(l3, "s; num_syscalls=" + r.numSyscalls, r5);
         Assoc(l3, "s; num_syscalls=", r.numSyscalls); }
      l5 + ("; " + DecimalThen(r.throughput, r7));
    == { Assoc(l5, "; ", DecimalThen(r.throughput, r7)); DecimalAssoc(l5 + "; ", r.throughput, r7); }
      l7 + (" MiB/s; " + DecimalThen(r.syscallRate, r9));
    == { Assoc(l7, " MiB/s; ", DecimalThen(r.syscallRate, r9)); DecimalAssoc(l7 + " MiB/s; ", r.syscallRate, r9); }
      l9 + (" syscalls/s; short_reads=" + (r.shortReads + ""));
    == { assert r.shortReads + "" == r.shortReads; Assoc(l9, " syscalls/s; short_reads=", r.shortReads); }
      l9 + " syscalls/s; short_reads=" + r.shortReads;
    }
  }

  lemma Assoc(a: string, b: string, c: string)
    ensures a + (b + c) == a + b + c
  {
  }

  lemma Assoc5(a: string, b: string, c: string, d: string, e: string, f: string)
    ensures a + (b + c + d + e + f) == a + b + c + d + e + f
  {
    Assoc(a, b + c + d + e, f);
    Assoc(a, b + c + d, e);
    Assoc(a, b + c, d);
    Assoc(a, b, c);
  }

  /** A decimal followed by more text, appended to a prefix. */
  lemma DecimalAssoc(a: string, d: Decimal, s: string)
    ensures a + DecimalThen(d, s) == a + DecimalText(d) + s
  {
    Assoc(a, d.whole, "." + (d.fraction + s));
    Assoc(a + d.whole, ".", d.fraction + s);
    Assoc(a + d.whole + ".", d.fraction, s);
  }
}
