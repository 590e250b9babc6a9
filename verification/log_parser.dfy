/** parsetocsv (parsetocsv/parsetocsv.go): turn the benchmark's log into CSV.
    Each line is classified by three anchored regular expressions, tried in
    order; header lines set three state variables and each result line emits
    one 9-field row carrying the current state. */
module LogParser {
  import opened Results
  import opened Strconv
  import opened LinePatterns

  // ---------------------------------------------------------------------
  // State and conversions

  /** The three state variables (lines 24-26). */
  datatype State = State(useBuffer: bool, writeBufferBytes: int, connectionType: string)

  const InitialState: State := State(false, 0, "")

  /** The header row, written before anything else (line 29). */
  const HeaderRow: seq<string> := [
    "machine_configuration", "use_buffer", "write_buffer_bytes", "connection_type",
    "read_buffer_bytes", "duration_sec", "num_syscalls", "short_reads", "throughput (MiB/s)"]

  /** What `time.ParseDuration` then `fmt.Sprint(d.Seconds())`, and
      `strconv.ParseFloat` then `fmt.Sprint`, make of a capture; `None` is an
      error (and so a panic). */
  datatype Floats = Floats(seconds: string -> Option<string>, number: string -> Option<string>)

  /** The state a header line sets, or `None` when a capture fails to convert. */
  function HeaderState(t: Token): (r: Option<State>)
    requires t.FileHeader? || t.RunTypeHeader?
    ensures t.FileHeader? ==>
              (r.Some? <==> ParseBool(t.file.useBuffer).Some?)
              && (r.Some? ==> r.value == State(ParseBool(t.file.useBuffer).value, 0, "file_" + t.file.device))
    ensures t.RunTypeHeader? ==>
              (r.Some? <==> ParseBool(t.runType.useBuffer).Some? && Atoi(t.runType.writeBufferBytes).Some?)
              && (r.Some? ==> r.value == State(ParseBool(t.runType.useBuffer).value,
                                               Atoi(t.runType.writeBufferBytes).value,
                                               t.runType.connectionType))
  {
    match t
    case FileHeader(f) =>
      var b := ParseBool(f.useBuffer);
      if b.None? then None else Some(State(b.value, 0, "file_" + f.device))
    case RunTypeHeader(rt) =>
      var b := ParseBool(rt.useBuffer);
      if b.None? then None
      else
        var n := Atoi(rt.writeBufferBytes);
        if n.None? then None else Some(State(b.value, n.value, rt.connectionType))
  }

  function MapOption<T, U>(o: Option<T>, f: T -> U): Option<U> {
    if o.Some? then Some(f(o.value)) else None
  }

  /** The five captures of a result line, converted (lines 83-106). */
  datatype Converted = Converted(
    readBufferBytes: int, seconds: string, numSyscalls: int, throughput: string, shortReads: int)

  /** Convert the captures in the order the source does; `None` when one
      fails (the source panics at the first failure). */
  function Convert(r: ResultCaptures, floats: Floats): (c: Option<Converted>)
    ensures c.Some? <==>
              Atoi(r.readBufferBytes).Some? && floats.seconds(r.duration).Some? && Atoi(r.numSyscalls).Some?
              && floats.number(r.throughput).Some? && Atoi(r.shortReads).Some?
    ensures c.Some? ==>
              && Atoi(r.readBufferBytes) == Some(c.value.readBufferBytes)
              && Atoi(r.numSyscalls) == Some(c.value.numSyscalls) && Atoi(r.shortReads) == Some(c.value.shortReads)
              && floats.seconds(r.duration) == Some(c.value.seconds)
              && floats.number(r.throughput) == Some(c.value.throughput)
  {
    var readBufferBytes := Atoi(r.readBufferBytes);
    if readBufferBytes.None? then None
    else
      var duration := floats.seconds(r.duration);
      if duration.None? then None
      else
        var numSyscalls := Atoi(r.numSyscalls);
        if numSyscalls.None? then None
        else
          var throughput := floats.number(r.throughput);
          if throughput.None? then None
          else
            var shortReads := Atoi(r.shortReads);
            if shortReads.None? then None
            else Some(Converted(readBufferBytes.value, duration.value, numSyscalls.value, throughput.value,
                                shortReads.value))
  }

  /** The row a result line emits in state `st`, or `None` when a capture
      fails to convert (lines 109-112). */
  function ResultRow(machine: string, st: State, r: ResultCaptures, floats: Floats): (row: Option<seq<string>>)
    ensures row.Some? <==>
              Atoi(r.readBufferBytes).Some? && floats.seconds(r.duration).Some? && Atoi(r.numSyscalls).Some?
              && floats.number(r.throughput).Some? && Atoi(r.shortReads).Some?
    ensures row.Some? ==>
              && |row.value| == 9
              && row.value[0] == machine && row.value[1] == FormatBool(st.useBuffer)
              && row.value[2] == FormatInt(st.writeBufferBytes) && row.value[3] == st.connectionType
              && Some(row.value[5]) == floats.seconds(r.duration) && Some(row.value[8]) == floats.number(r.throughput)
              && Some(row.value[4]) == MapOption(Atoi(r.readBufferBytes), FormatInt)
              && Some(row.value[6]) == MapOption(Atoi(r.numSyscalls), FormatInt)
              && Some(row.value[7]) == MapOption(Atoi(r.shortReads), FormatInt)
  {
    var c := Convert(r, floats);
    if c.None? then None else Some(Row(machine, st, c.value))
  }

  /** The row written for converted captures `c` in state `st`. */
  function Row(machine: string, st: State, c: Converted): seq<string> {
    StateColumns(machine, st) + ResultColumns(c)
  }

  /** The first four fields of a row: where it was measured and in what state. */
  function StateColumns(machine: string, st: State): (cols: seq<string>)
    ensures |cols| == 4 && cols[0] == machine && cols[1] == FormatBool(st.useBuffer)
    ensures cols[2] == FormatInt(st.writeBufferBytes) && cols[3] == st.connectionType
  {
    [machine, FormatBool(st.useBuffer), FormatInt(st.writeBufferBytes), st.connectionType]
  }

  /** The last five fields of a row, in the order of the header row. */
  function ResultColumns(c: Converted): (cols: seq<string>)
    ensures |cols| == 5 && cols[0] == FormatInt(c.readBufferBytes) && cols[1] == c.seconds
    ensures cols[2] == FormatInt(c.numSyscalls) && cols[3] == FormatInt(c.shortReads) && cols[4] == c.throughput
  {
    [FormatInt(c.readBufferBytes), c.seconds, FormatInt(c.numSyscalls), FormatInt(c.shortReads), c.throughput]
  }

  // ---------------------------------------------------------------------
  // One line's effect on the loop

  /** What one classified line does in the loop (lines 49-114): set the
      state, emit a row from converted captures, nothing, or panic. */
  datatype Event = NewState(st: State) | Measured(c: Converted) | Ignored | Fails(reason: string)

  /** The event of token `t`, converting its captures in the source's order. */
  function EventOf(t: Token, floats: Floats): (e: Event)
    ensures e.Fails? <==>
              || ((t.FileHeader? || t.RunTypeHeader?) && HeaderState(t).None?)
              || (t.ResultLine? && Convert(t.result, floats).None?)
    ensures e.NewState? ==> (t.FileHeader? || t.RunTypeHeader?) && HeaderState(t) == Some(e.st)
    ensures e.Measured? ==> t.ResultLine? && Convert(t.result, floats) == Some(e.c)
    ensures e.Ignored? <==> t.Other?
  {
    match t
    case FileHeader(_) =>
      var st := HeaderState(t);
      if st.None? then Fails("strconv.ParseBool: invalid syntax") else NewState(st.value)
    case RunTypeHeader(_) =>
      var st := HeaderState(t);
      if st.None? then Fails("strconv: invalid syntax") else NewState(st.value)
    case ResultLine(captures) =>
      var c := Convert(captures, floats);
      if c.None? then Fails("invalid result line field") else Measured(c.value)
    case Other => Ignored
  }

  /** A measured event writes exactly the row `ResultRow` describes. */
  lemma MeasuredRow(machine: string, st: State, t: Token, floats: Floats)
    requires EventOf(t, floats).Measured?
    ensures ResultRow(machine, st, t.result, floats) == Some(Row(machine, st, EventOf(t, floats).c))
  {
  }

  /** The lines of the input, classified and converted one by one. */
  function Events(lines: seq<string>, floats: Floats): (events: seq<Event>)
    ensures |events| == |lines|
    ensures forall i :: 0 <= i < |lines| ==> events[i] == EventOf(Classify(lines[i]), floats)
  {
    seq(|lines|, i requires 0 <= i < |lines| => EventOf(Classify(lines[i]), floats))
  }

  // ---------------------------------------------------------------------
  // The state machine

  /** Reference: the state in force after the first `n` events. */
  function StateAfter(events: seq<Event>, n: nat): State
    requires n <= |events|
  {
    if n == 0 then InitialState
    else if events[n - 1].NewState? then events[n - 1].st
    else StateAfter(events, n - 1)
  }

  /** Reference: the rows emitted for the first `n` events, one per
      measurement, each carrying the state in force at it. */
  function RowsFor(machine: string, events: seq<Event>, n: nat): seq<seq<string>>
    requires n <= |events|
  {
    if n == 0 then []
    else if events[n - 1].Measured? then
      RowsFor(machine, events, n - 1) + [Row(machine, StateAfter(events, n - 1), events[n - 1].c)]
    else RowsFor(machine, events, n - 1)
  }

  /** Number of measurements among the first `n` events. */
  function Measurements(events: seq<Event>, n: nat): nat
    requires n <= |events|
  {
    if n == 0 then 0 else Measurements(events, n - 1) + if events[n - 1].Measured? then 1 else 0
  }

  /** The state in force is the one set by the last header among the lines
      seen: a header at `k` followed only by other lines decides it. */
  lemma {:induction false} StateIsLastHeader(events: seq<Event>, n: nat, k: nat)
    requires k < n <= |events| && events[k].NewState?
    requires forall j :: k < j < n ==> !events[j].NewState?
    ensures StateAfter(events, n) == events[k].st
  {
    if n - 1 > k {
      StateIsLastHeader(events, n - 1, k);
    }
  }

  /** Before any header, rows carry the initial state. */
  lemma {:induction false} StateBeforeHeaders(events: seq<Event>, n: nat)
    requires n <= |events|
    requires forall j :: 0 <= j < n ==> !events[j].NewState?
    ensures StateAfter(events, n) == InitialState
  {
    if n > 0 {
      StateBeforeHeaders(events, n - 1);
    }
  }

  /** One row per measurement. */
  lemma {:induction false} RowCount(machine: string, events: seq<Event>, n: nat)
    requires n <= |events|
    ensures |RowsFor(machine, events, n)| == Measurements(events, n)
  {
    if n > 0 {
      RowCount(machine, events, n - 1);
    }
  }

  /** Every row has the nine fields of the header row and begins with the
      machine name. */
  lemma {:induction false} RowsShape(machine: string, events: seq<Event>, n: nat)
    requires n <= |events|
    ensures forall row :: row in RowsFor(machine, events, n) ==> |row| == 9 && row[0] == machine
  {
    if n > 0 {
      RowsShape(machine, events, n - 1);
    }
  }

  /** The scanner loop (lines 31-115) over the lines' events: it panics,
      with the first failure's reason, exactly when some line fails, and
      otherwise writes the reference rows. */
  method RunMachine(machine: string, events: seq<Event>) returns (r: Result<seq<seq<string>>>)
    ensures r.Panic? <==> exists i :: 0 <= i < |events| && events[i].Fails?
    ensures r.Panic? ==> exists i :: 0 <= i < |events| && events[i] == Fails(r.reason)
                                    && forall j :: 0 <= j < i ==> !events[j].Fails?
    ensures r.Ok? ==> r.value == RowsFor(machine, events, |events|)
  {
    var rows := [];
    var st := InitialState;
    var i := 0;
    while i < |events|
      invariant i <= |events|
      invariant forall j :: 0 <= j < i ==> !events[j].Fails?
      invariant st == StateAfter(events, i)
      invariant rows == RowsFor(machine, events, i)
    {
      match events[i] {
        case NewState(next) =>
          st := next;
        case Measured(c) =>
          rows := rows + [Row(machine, st, c)];
        case Ignored =>
        case Fails(reason) =>
          return Panic(reason);
      }
      i := i + 1;
    }
    r := Ok(rows);
  }

  /** The whole program: `args` are the command-line arguments after the
      program name, `lines` what the scanner yields from standard input. The
      CSV records written are returned; `usage` says whether the usage message
      went to standard error. */
  method ParseLog(args: seq<string>, lines: seq<string>, floats: Floats)
    returns (r: Result<seq<seq<string>>>, usage: bool)
    // Usage is reported for any argument count but one; with none the
    // program then fails indexing the argument list.
    ensures usage <==> |args| != 1
    ensures |args| == 0 ==> r.Panic?
    // Otherwise it fails exactly when some line's captures do not convert.
    ensures |args| > 0 ==> (r.Panic? <==> exists i :: 0 <= i < |lines| && EventOf(Classify(lines[i]), floats).Fails?)
    // On success: the header row, then one row per result line, in order.
    ensures r.Ok? ==> |args| > 0 && r.value == [HeaderRow] + RowsFor(args[0], Events(lines, floats), |lines|)
  {
    usage := |args| != 1;
    if |args| == 0 {
      return Panic("index out of range: os.Args[1]"), usage;
    }
    var rows := RunMachine(args[0], Events(lines, floats));
    r := if rows.Ok? then Ok([HeaderRow] + rows.value) else Panic(rows.reason);
  }
}
