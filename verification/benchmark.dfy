/** The Adaptive Benchmark Driver (`run_benchmark` in src/main.rs) and the
    buffer-size loop of `main`. Throughput is an abstract ordered value
    (`real`); the wall clock enters only through a `Clock` parameter that
    says, per sweep iteration, what the floating-point steps produced. */
module Benchmark {
  import opened Results
  import opened TimedReader
  import SocketWriter
  import Handshake

  /** Warm-up read: a 1024-byte slice of the buffer, 4 KiB in total. */
  const WarmupBufferBytes: nat := 1024
  const WarmupTotalBytes: nat := 1024 * 4
  /** `TIMING_ESTIMATE_SYSCALLS`: the estimate reads 100 buffers, and no
      measurement targets fewer than 100 bytes. */
  const TimingEstimateSyscalls: nat := 100

  function Pow2(n: nat): nat {
    if n == 0 then 1 else 2 * Pow2(n - 1)
  }

  lemma {:induction false} Pow2Monotone(m: nat, n: nat)
    requires m <= n
    ensures Pow2(m) <= Pow2(n)
    decreases n - m
  {
    if m < n {
      Pow2Monotone(m, n - 1);
    }
  }

  /** The sizes a `while size <= limit { ...; size *= 2 }` loop visits from `from`. */
  function Doublings(from: nat, limit: nat): (sizes: seq<nat>)
    requires from >= 1
    ensures |sizes| > 0 ==> sizes[0] == from
    ensures forall i :: 0 <= i < |sizes| - 1 ==> sizes[i + 1] == 2 * sizes[i]
    ensures forall i :: 0 <= i < |sizes| ==> from <= sizes[i] <= limit
    // The loop stops at the first doubling beyond the limit.
    ensures (if |sizes| == 0 then from else 2 * sizes[|sizes| - 1]) > limit
    decreases limit + 1 - from
  {
    if from > limit then [] else [from] + Doublings(2 * from, limit)
  }

  /** Starting from 1, the i-th size is 2^i. */
  lemma {:induction false} DoublingsFromOne(limit: nat, i: nat)
    requires i < |Doublings(1, limit)|
    ensures Doublings(1, limit)[i] == Pow2(i)
  {
    if i > 0 {
      DoublingsFromOne(limit, i - 1);
    }
  }

  /** Number of buffer sizes one sweep measures. */
  const SweepLength: nat := 25

  /** The read-buffer sizes of one sweep: 1, 2, 4, ... */
  function SweepSizes(): seq<nat> {
    seq(SweepLength, i requires 0 <= i => Pow2(i))
  }

  /** The hard-coded loop `buf_size = 1; while buf_size <= MAX_BUFFER_BYTES
      { ...; buf_size *= 2 }` visits exactly the powers of two 2^0 .. 2^24: all
      of them lie within 16 MiB and the next doubling, 2^25, does not. */
  lemma SweepSizesAre()
    ensures forall i :: 0 <= i < SweepLength ==> SweepSizes()[i] <= SocketWriter.MaxBufferBytes
    ensures 2 * SweepSizes()[SweepLength - 1] > SocketWriter.MaxBufferBytes
  {
    Pow2Max();
    forall i | 0 <= i < SweepLength
      ensures SweepSizes()[i] <= SocketWriter.MaxBufferBytes
    {
      Pow2Monotone(i, 24);
    }
  }

  lemma Pow2Max()
    ensures Pow2(24) == SocketWriter.MaxBufferBytes
    ensures Pow2(25) > SocketWriter.MaxBufferBytes
  {
    assert Pow2(8) == 256;
    assert Pow2(16) == 65536;
  }

  // ---------------------------------------------------------------------
  // Best-size trackers

  /** One measured point of a sweep. */
  datatype Reading = Reading(bufSize: nat, mibPerSec: real)

  /** `highest*`/`throughput_increasing` track the first local maximum;
      `absMax*` the global maximum. */
  datatype Trackers = Trackers(
    highest: real, highestBuffer: nat, increasing: bool,
    absMax: real, absMaxBuffer: nat)

  const InitialTrackers: Trackers := Trackers(0.0, 0, true, 0.0, 0)

  /** The tracker update after one measurement. A reading not strictly above
      the local maximum (equality included) ends the rising phase for good. */
  function Update(t: Trackers, x: Reading): (u: Trackers)
    // Once frozen, the local maximum never moves again.
    ensures !t.increasing ==>
              !u.increasing && u.highest == t.highest && u.highestBuffer == t.highestBuffer
    // The rising phase survives only a strictly higher reading, which becomes the local maximum.
    ensures u.increasing <==> t.increasing && t.highest < x.mibPerSec
    ensures u.increasing ==> u.highest == x.mibPerSec && u.highestBuffer == x.bufSize
    // A reading that ends (or follows the end of) the rising phase leaves the local maximum alone.
    ensures !u.increasing ==> u.highest == t.highest && u.highestBuffer == t.highestBuffer
    // The global maximum only grows, and is replaced only by a strictly larger reading.
    ensures u.absMax >= t.absMax && u.absMax >= x.mibPerSec
    ensures (u.absMax, u.absMaxBuffer) != (t.absMax, t.absMaxBuffer) ==>
              t.absMax < x.mibPerSec && u.absMax == x.mibPerSec && u.absMaxBuffer == x.bufSize
    // The global maximum stays at least the local one.
    ensures t.absMax >= t.highest ==> u.absMax >= u.highest
  {
    var t1 :=
      if t.highest < x.mibPerSec then
        if t.increasing then t.(highest := x.mibPerSec, highestBuffer := x.bufSize) else t
      else t.(increasing := false);
    if t1.absMax < x.mibPerSec then t1.(absMax := x.mibPerSec, absMaxBuffer := x.bufSize) else t1
  }

  /** The trackers after the readings of a sweep, in order. */
  function Track(readings: seq<Reading>): Trackers {
    if |readings| == 0 then InitialTrackers
    else Update(Track(readings[..|readings| - 1]), readings[|readings| - 1])
  }

  /** The value a reading must exceed to keep the rising phase going. */
  function Prev(readings: seq<Reading>, i: nat): real
    requires i <= |readings|
  {
    if i == 0 then 0.0 else readings[i - 1].mibPerSec
  }

  /** The first `p` readings rise strictly, starting above zero. */
  predicate RisesTo(readings: seq<Reading>, p: nat)
    requires p <= |readings|
  {
    forall i :: 0 <= i < p ==> readings[i].mibPerSec > Prev(readings, i)
  }

  /** Length of the initial strictly rising run of readings. */
  function RisingLength(readings: seq<Reading>, from: nat := 0): (p: nat)
    requires from <= |readings| && RisesTo(readings, from)
    ensures from <= p <= |readings| && RisesTo(readings, p)
    ensures p < |readings| ==> readings[p].mibPerSec <= Prev(readings, p)
    decreases |readings| - from
  {
    if from == |readings| || readings[from].mibPerSec <= Prev(readings, from) then from
    else RisingLength(readings, from + 1)
  }

  lemma RisingLengthUnique(readings: seq<Reading>, p: nat, q: nat)
    requires p <= |readings| && RisesTo(readings, p)
    requires p < |readings| ==> readings[p].mibPerSec <= Prev(readings, p)
    requires q <= |readings| && RisesTo(readings, q)
    requires q < |readings| ==> readings[q].mibPerSec <= Prev(readings, q)
    ensures p == q
  {
  }

  /** How one more reading extends the rising run. */
  lemma RisingLengthStep(readings: seq<Reading>)
    requires |readings| > 0
    ensures var n := |readings|;
            var q := RisingLength(readings[..n - 1]);
            RisingLength(readings)
            == if q < n - 1 then q
               else if readings[n - 1].mibPerSec > Prev(readings, n - 1) then n
               else n - 1
  {
    var n := |readings|;
    var pre := readings[..n - 1];
    var q := RisingLength(pre);
    var p := RisingLength(readings);
    PrefixRises(readings, pre, q);
    if q < n - 1 {
      RisingLengthUnique(readings, p, q);
    } else if readings[n - 1].mibPerSec > Prev(readings, n - 1) {
      assert RisesTo(readings, n);
      RisingLengthUnique(readings, p, n);
    } else {
      RisingLengthUnique(readings, p, n - 1);
    }
  }

  /** A run that rises in all readings but the last rises in all of them too. */
  lemma PrefixRises(readings: seq<Reading>, pre: seq<Reading>, q: nat)
    requires |readings| > 0 && pre == readings[..|readings| - 1]
    requires q <= |pre| && RisesTo(pre, q)
    requires q < |pre| ==> pre[q].mibPerSec <= Prev(pre, q)
    ensures RisesTo(readings, q)
    ensures q < |pre| ==> readings[q].mibPerSec <= Prev(readings, q)
  {
    forall i | 0 <= i < q
      ensures readings[i].mibPerSec > Prev(readings, i)
    {
      assert readings[i] == pre[i] && Prev(readings, i) == Prev(pre, i);
    }
    if q < |pre| {
      assert readings[q] == pre[q] && Prev(readings, q) == Prev(pre, q);
    }
  }

  /** The local tracker holds the last reading of the initial strictly rising
      run (the "first local maximum"), and is still rising iff every reading rose. */
  lemma {:induction false} TrackLocalMax(readings: seq<Reading>)
    ensures var p := RisingLength(readings);
            var t := Track(readings);
            && t.increasing == (p == |readings|)
            && t.highest == Prev(readings, p)
            && t.highestBuffer == (if p == 0 then 0 else readings[p - 1].bufSize)
  {
    var n := |readings|;
    if n > 0 {
      var pre := readings[..n - 1];
      TrackLocalMax(pre);
      RisingLengthStep(readings);
      var q := RisingLength(pre);
      if q == n - 1 && n > 1 {
        assert pre[n - 2] == readings[n - 2];
      } else if q < n - 1 {
        if q > 0 {
          assert pre[q - 1] == readings[q - 1];
        }
      }
    }
  }

  /** The global tracker holds the largest reading (or 0 when none is positive)
      and the buffer size of the FIRST reading that attained it. */
  lemma {:induction false} TrackGlobalMax(readings: seq<Reading>)
    ensures var t := Track(readings);
            && t.absMax >= 0.0
            && (forall i :: 0 <= i < |readings| ==> readings[i].mibPerSec <= t.absMax)
            && ((t.absMax == 0.0 && t.absMaxBuffer == 0)
                || exists i :: 0 <= i < |readings|
                     && readings[i].mibPerSec == t.absMax && readings[i].bufSize == t.absMaxBuffer
                     && forall j :: 0 <= j < i ==> readings[j].mibPerSec < t.absMax)
  {
    var n := |readings|;
    if n > 0 {
      var pre := readings[..n - 1];
      TrackGlobalMax(pre);
      var t0 := Track(pre);
      var t := Track(readings);
      assert forall i :: 0 <= i < n - 1 ==> readings[i] == pre[i];
      if t0.absMax < readings[n - 1].mibPerSec {
        assert readings[n - 1].mibPerSec == t.absMax;
      } else {
        assert t == t0.(highest := t.highest, highestBuffer := t.highestBuffer, increasing := t.increasing);
        if t0.absMax != 0.0 || t0.absMaxBuffer != 0 {
          var i :| 0 <= i < n - 1 && pre[i].mibPerSec == t0.absMax && pre[i].bufSize == t0.absMaxBuffer
                   && forall j :: 0 <= j < i ==> pre[j].mibPerSec < t0.absMax;
          assert readings[i] == pre[i];
        }
      }
    }
  }

  /** At the end of a sweep the global maximum is at least the local one. */
  lemma {:induction false} GlobalAtLeastLocal(readings: seq<Reading>)
    ensures Track(readings).absMax >= Track(readings).highest
  {
    if |readings| > 0 {
      GlobalAtLeastLocal(readings[..|readings| - 1]);
    }
  }

  /** Once the rising phase has ended, later readings (however high) never
      touch the local tracker again. */
  lemma {:induction false} FrozenStaysFrozen(readings: seq<Reading>, k: nat)
    requires k <= |readings| && !Track(readings[..k]).increasing
    ensures !Track(readings).increasing
    ensures Track(readings).highest == Track(readings[..k]).highest
    ensures Track(readings).highestBuffer == Track(readings[..k]).highestBuffer
    decreases |readings|
  {
    if k < |readings| {
      var pre := readings[..|readings| - 1];
      assert pre[..k] == readings[..k];
      FrozenStaysFrozen(pre, k);
    } else {
      assert readings[..k] == readings;
    }
  }

  // ---------------------------------------------------------------------
  // The sweep

  /** What the floating-point steps of one sweep iteration produced: the scaled
      byte target `(TARGET_TIMING / estimate duration) * estimate bytes` after
      its cast to usize, and the measured throughput in MiB/s. */
  datatype Timing = Timing(scaledTarget: nat, mibPerSec: real)

  /** One logged measurement. The estimate made the reads `script[from..at]`,
      the measurement the reads `script[at..to]`. */
  datatype Measurement = Measurement(
    bufSize: nat, measureBytes: nat, stats: RunStats, mibPerSec: real,
    from: nat, at: nat, to: nat)

  /** How `run_benchmark` ends. `consumed` counts the reads it made; `byteSum`
      adds up the checksums of the measuring reads. A stop is an I/O error
      returned to the caller, a failed read assertion, or a source that ran dry
      (the real read would wait forever): either in the warm-up, or at the
      size after the `logged` ones, in the call that began at read `failAt`. */
  datatype SweepOutcome =
    | Finished(warmup: nat, measurements: seq<Measurement>, trackers: Trackers, byteSum: int, consumed: nat)
    | WarmupFailed(stop: ReadStop)
    | Stopped(warmup: nat, logged: seq<Measurement>, stop: ReadStop, failAt: nat)

  /** The estimate's target, `TIMING_ESTIMATE_SYSCALLS * buf_size`. */
  function EstimateBytes(bufSize: nat): nat {
    TimingEstimateSyscalls * bufSize
  }

  /** `max(target_total_bytes, TIMING_ESTIMATE_SYSCALLS)`. */
  function MeasureBytes(scaledTarget: nat): (m: nat)
    ensures m >= TimingEstimateSyscalls
    ensures m == scaledTarget || m == TimingEstimateSyscalls
    ensures m >= scaledTarget
  {
    if scaledTarget > TimingEstimateSyscalls then scaledTarget else TimingEstimateSyscalls
  }

  /** The warm-up call completes on the first `warmup` reads. */
  predicate WarmedUp(script: seq<ReadEvent>, warmup: nat) {
    warmup <= |script| && CompletesAt(script[..warmup], WarmupBufferBytes, WarmupTotalBytes)
  }

  /** From read `from`, the estimate at `bufSize` completes on the reads up to
      `at` and the measurement of `measureBytes` on those up to `to`. */
  predicate MeasuredReads(script: seq<ReadEvent>, from: nat, at: nat, to: nat, bufSize: nat, measureBytes: nat) {
    && from <= at <= to <= |script|
    && CompletesAt(script[from..at], bufSize, EstimateBytes(bufSize))
    && CompletesAt(script[at..to], bufSize, measureBytes)
  }

  /** From read `from`, one size ends with `stop`: in the estimate
      (`failAt == from`), or in the measurement after an estimate that
      completed on the reads up to `failAt`. */
  predicate SizeStops(
    script: seq<ReadEvent>, from: nat, failAt: nat, bufSize: nat, measureBytes: nat, stop: ReadStop)
  {
    || (failAt == from <= |script|
        && StopsWith(script[from..], bufSize, EstimateBytes(bufSize), stop))
    || (from <= failAt <= |script|
        && CompletesAt(script[from..failAt], bufSize, EstimateBytes(bufSize))
        && StopsWith(script[failAt..], bufSize, measureBytes, stop))
  }

  /** The readings the trackers see, in sweep order. */
  function Readings(ms: seq<Measurement>): (rs: seq<Reading>)
    ensures |rs| == |ms|
    ensures forall i :: 0 <= i < |ms| ==> rs[i] == Reading(ms[i].bufSize, ms[i].mibPerSec)
  {
    if |ms| == 0 then [] else Readings(ms[..|ms| - 1]) + [Reading(ms[|ms| - 1].bufSize, ms[|ms| - 1].mibPerSec)]
  }

  /** Sum of the measuring reads' checksums. */
  function ByteSums(ms: seq<Measurement>): int {
    if |ms| == 0 then 0 else ByteSums(ms[..|ms| - 1]) + ms[|ms| - 1].stats.byteSum
  }

  /** Measurement `m` is what sweep iteration `i` logs at buffer size
      `bufSize`, reading from read `from` on: its target comes from that
      iteration's timing, and its statistics are those of its reads. */
  predicate Measured(
    m: Measurement, i: nat, bufSize: nat, from: nat, script: seq<ReadEvent>, clock: nat -> Timing, useBuffer: bool)
  {
    && m.bufSize == bufSize && m.from == from
    && m.measureBytes == MeasureBytes(clock(i).scaledTarget)
    && m.mibPerSec == clock(i).mibPerSec
    && MeasuredReads(script, m.from, m.at, m.to, m.bufSize, m.measureBytes)
    && m.stats == StatsOf(script[m.at..m.to], m.bufSize, m.measureBytes, useBuffer)
  }

  /** The buffer size of sweep iteration `j` after the log `ms`: 1 at
      first, then twice the previous one. */
  function SizeAt(ms: seq<Measurement>, j: nat): nat
    requires j <= |ms|
  {
    if j == 0 then 1 else 2 * ms[j - 1].bufSize
  }

  /** Where the reads of sweep iteration `j` begin after a warm-up of
      `warmup` reads and the log `ms`: where the previous call stopped. */
  function StartAt(ms: seq<Measurement>, j: nat, warmup: nat): nat
    requires j <= |ms|
  {
    if j == 0 then warmup else ms[j - 1].to
  }

  /** Measurement `j` of the log was taken in iteration `j` with twice the
      previous buffer size (1 for the first), reading on from where the
      previous call stopped. */
  predicate Logged(ms: seq<Measurement>, warmup: nat, script: seq<ReadEvent>, clock: nat -> Timing, useBuffer: bool) {
    forall j :: 0 <= j < |ms| ==> LoggedAt(ms, j, warmup, script, clock, useBuffer)
  }

  /** Entry `j` of the log `ms` is what iteration `j` measures. */
  predicate LoggedAt(ms: seq<Measurement>, j: nat, warmup: nat, script: seq<ReadEvent>, clock: nat -> Timing, useBuffer: bool)
    requires j < |ms|
  {
    Measured(ms[j], j, SizeAt(ms, j), StartAt(ms, j, warmup), script, clock, useBuffer)
  }

  /** The script holds a whole sweep: the warm-up, then all 25 sizes. */
  predicate CompleteSweep(script: seq<ReadEvent>, clock: nat -> Timing, useBuffer: bool, warmup: nat, ms: seq<Measurement>) {
    WarmedUp(script, warmup) && |ms| == SweepLength && Logged(ms, warmup, script, clock, useBuffer)
  }

  /** After the warm-up and the `logged` sizes, the next size stops. */
  predicate SweepStops(
    script: seq<ReadEvent>, clock: nat -> Timing, useBuffer: bool,
    warmup: nat, logged: seq<Measurement>, stop: ReadStop, failAt: nat)
  {
    && WarmedUp(script, warmup) && |logged| < SweepLength
    && Logged(logged, warmup, script, clock, useBuffer)
    && SizeStops(script, StartAt(logged, |logged|, warmup), failAt, SizeAt(logged, |logged|),
                 MeasureBytes(clock(|logged|).scaledTarget), stop)
  }

  /** The loop state of `run_benchmark` after `i` iterations: the next buffer
      size, the measurements logged so far, the trackers, the checksum sum,
      and how many reads have been made. */
  datatype SweepState = SweepState(
    i: nat, bufSize: nat, ms: seq<Measurement>, trackers: Trackers, byteSum: int, pos: nat)

  /** What holds of the loop state between iterations. */
  predicate SweepInvariant(
    st: SweepState, warmup: nat, script: seq<ReadEvent>, useBuffer: bool, clock: nat -> Timing)
  {
    && st.i <= SweepLength && |st.ms| == st.i
    && st.bufSize == Pow2(st.i) && st.bufSize == SizeAt(st.ms, st.i)
    && WarmedUp(script, warmup)
    && Logged(st.ms, warmup, script, clock, useBuffer)
    && st.pos == StartAt(st.ms, st.i, warmup) && st.pos <= |script|
    && st.trackers == Track(Readings(st.ms))
    && st.byteSum == ByteSums(st.ms)
    && (!useBuffer ==> st.byteSum == 0)
  }

  /** `run_benchmark(f, buffer, use_buffer)`: `script` is what the endpoint's
      reads return, `clock(i)` the timing-derived values of iteration `i`. The
      configured start and end sizes play no part: the sweep is hard-coded. */
  method RunBenchmark(script: seq<ReadEvent>, useBuffer: bool, clock: nat -> Timing)
    returns (r: SweepOutcome)
    ensures r.Finished? ==>
              && CompleteSweep(script, clock, useBuffer, r.warmup, r.measurements)
              && (forall i :: 0 <= i < |r.measurements| ==> r.measurements[i].bufSize == SweepSizes()[i])
              && r.consumed == StartAt(r.measurements, |r.measurements|, r.warmup)
              && r.trackers == Track(Readings(r.measurements))
              && r.byteSum == ByteSums(r.measurements)
              && (!useBuffer ==> r.byteSum == 0)
    ensures r.WarmupFailed? ==> StopsWith(script, WarmupBufferBytes, WarmupTotalBytes, r.stop)
    ensures r.Stopped? ==> SweepStops(script, clock, useBuffer, r.warmup, r.logged, r.stop, r.failAt)
    // The sweep finishes exactly when the script holds a whole sweep.
    ensures r.Finished? <==> exists w, ms :: CompleteSweep(script, clock, useBuffer, w, ms)
  {
    // Warm-up: results discarded.
    var warm := ReadCall(script, WarmupBufferBytes, WarmupTotalBytes, useBuffer);
    if warm.Stop? {
      forall w, ms
        ensures !CompleteSweep(script, clock, useBuffer, w, ms)
      {
        WarmupStopExcludesSweep(script, clock, useBuffer, warm.stop, w, ms);
      }
      return WarmupFailed(warm.stop);
    }
    var warmup := warm.consumed;
    var st := SweepState(0, 1, [], InitialTrackers, 0, warmup);
    Pow2Max();
    while st.bufSize <= SocketWriter.MaxBufferBytes
      invariant SweepInvariant(st, warmup, script, useBuffer, clock)
      decreases SweepLength - st.i
    {
      if st.i == SweepLength {
        assert false;
      }
      var step := SweepStep(st, warmup, script, useBuffer, clock);
      if step.Failure? {
        r := Stopped(warmup, st.ms, step.stop, step.failAt);
        forall w, ms
          ensures !CompleteSweep(script, clock, useBuffer, w, ms)
        {
          CompleteSweepExcludesStop(script, clock, useBuffer, w, ms, warmup, st.ms, step.stop, step.failAt);
        }
        return;
      }
      st := step.next;
    }
    SweepEnds(st, warmup, script, useBuffer, clock);
    r := Finished(warmup, st.ms, st.trackers, st.byteSum, st.pos);
    assert CompleteSweep(script, clock, useBuffer, warmup, st.ms);
  }

  /** The loop leaves once the size passes 16 MiB, that is after exactly the
      sizes of `SweepSizes`. */
  lemma SweepEnds(st: SweepState, warmup: nat, script: seq<ReadEvent>, useBuffer: bool, clock: nat -> Timing)
    requires SweepInvariant(st, warmup, script, useBuffer, clock)
    requires st.bufSize > SocketWriter.MaxBufferBytes
    ensures |st.ms| == |SweepSizes()|
    ensures forall i :: 0 <= i < |st.ms| ==> st.ms[i].bufSize == SweepSizes()[i]
  {
    if st.i < SweepLength {
      Pow2Max();
      Pow2Monotone(st.i, 24);
    }
    forall i | 0 <= i < |st.ms|
      ensures st.ms[i].bufSize == SweepSizes()[i]
    {
      LoggedSizes(st.ms, warmup, script, clock, useBuffer, i);
    }
  }

  datatype StepOutcome = Next(next: SweepState) | Failure(stop: ReadStop, failAt: nat)

  /** One iteration of the sweep loop: estimate, scale, measure, log, update
      the trackers, double the buffer size. */
  method SweepStep(st: SweepState, warmup: nat, script: seq<ReadEvent>, useBuffer: bool, clock: nat -> Timing)
    returns (step: StepOutcome)
    requires SweepInvariant(st, warmup, script, useBuffer, clock) && st.i < SweepLength
    ensures step.Next? ==>
              SweepInvariant(step.next, warmup, script, useBuffer, clock) && step.next.i == st.i + 1
    ensures step.Failure? ==>
              SizeStops(script, st.pos, step.failAt, st.bufSize,
                        MeasureBytes(clock(st.i).scaledTarget), step.stop)
  {
    Pow2Monotone(0, st.i);
    Pow2Monotone(st.i, 24);
    Pow2Max();
    var timing := clock(st.i);
    var measured := MeasureSize(script, st.pos, st.bufSize, timing.scaledTarget, useBuffer);
    if measured.Halted? {
      return Failure(measured.stop, measured.failAt);
    }
    var m := Measurement(
      st.bufSize, MeasureBytes(timing.scaledTarget), measured.stats, timing.mibPerSec,
      st.pos, measured.at, measured.next);
    var next := SweepState(
      st.i + 1, st.bufSize * 2, st.ms + [m],
      Update(st.trackers, Reading(st.bufSize, m.mibPerSec)),
      st.byteSum + m.stats.byteSum, measured.next);
    SweepInvariantStep(st, warmup, m, script, useBuffer, clock);
    step := Next(next);
  }

  /** Logging one more measurement keeps the loop invariant. */
  lemma SweepInvariantStep(
    st: SweepState, warmup: nat, m: Measurement,
    script: seq<ReadEvent>, useBuffer: bool, clock: nat -> Timing)
    requires SweepInvariant(st, warmup, script, useBuffer, clock) && st.i < SweepLength
    requires Measured(m, st.i, st.bufSize, st.pos, script, clock, useBuffer)
    ensures SweepInvariant(
              SweepState(st.i + 1, st.bufSize * 2, st.ms + [m],
                         Update(st.trackers, Reading(m.bufSize, m.mibPerSec)),
                         st.byteSum + m.stats.byteSum, m.to),
              warmup, script, useBuffer, clock)
  {
    AppendLogged(st.ms, m, warmup, script, clock, useBuffer);
    AppendMeasurement(st.ms, m);
  }

  lemma AppendLogged(
    ms: seq<Measurement>, m: Measurement, warmup: nat,
    script: seq<ReadEvent>, clock: nat -> Timing, useBuffer: bool)
    requires Logged(ms, warmup, script, clock, useBuffer)
    requires Measured(m, |ms|, SizeAt(ms, |ms|), StartAt(ms, |ms|, warmup), script, clock, useBuffer)
    ensures Logged(ms + [m], warmup, script, clock, useBuffer)
  {
    var ms' := ms + [m];
    assert ms'[..|ms|] == ms;
    forall j | 0 <= j < |ms'|
      ensures LoggedAt(ms', j, warmup, script, clock, useBuffer)
    {
      AtPrefix(ms', |ms|, j, warmup);
      if j < |ms| {
        assert LoggedAt(ms, j, warmup, script, clock, useBuffer);
        assert ms'[j] == ms[j];
      }
    }
  }

  /** A log cut short agrees with the whole on the sizes and start reads it
      still determines. */
  lemma AtPrefix(ms: seq<Measurement>, n: nat, j: nat, warmup: nat)
    requires j <= n <= |ms|
    ensures SizeAt(ms[..n], j) == SizeAt(ms, j)
    ensures StartAt(ms[..n], j, warmup) == StartAt(ms, j, warmup)
  {
    if j > 0 {
      assert ms[..n][j - 1] == ms[j - 1];
    }
  }

  /** One sweep iteration's reads: the estimate, then the measurement. */
  datatype StepResult = Progressed(stats: RunStats, at: nat, next: nat) | Halted(stop: ReadStop, failAt: nat)

  /** The estimate (`100 * buf_size` bytes) and the measurement
      (`max(scaled, 100)` bytes) of one buffer size, reading the script from `pos`. */
  method MeasureSize(script: seq<ReadEvent>, pos: nat, bufSize: nat, scaledTarget: nat, useBuffer: bool)
    returns (step: StepResult)
    requires pos <= |script| && 1 <= bufSize <= SocketWriter.MaxBufferBytes
    ensures step.Progressed? ==>
              && MeasuredReads(script, pos, step.at, step.next, bufSize, MeasureBytes(scaledTarget))
              && step.stats == StatsOf(script[step.at..step.next], bufSize, MeasureBytes(scaledTarget), useBuffer)
    ensures step.Halted? ==> SizeStops(script, pos, step.failAt, bufSize, MeasureBytes(scaledTarget), step.stop)
  {
    var estimate := ReadCall(script[pos..], bufSize, EstimateBytes(bufSize), useBuffer);
    if estimate.Stop? {
      return Halted(estimate.stop, pos);
    }
    var at := pos + estimate.consumed;
    assert script[pos..][..estimate.consumed] == script[pos..at];
    var results := ReadCall(script[at..], bufSize, MeasureBytes(scaledTarget), useBuffer);
    if results.Stop? {
      return Halted(results.stop, at);
    }
    var next := at + results.consumed;
    assert script[at..][..results.consumed] == script[at..next];
    step := Progressed(results.stats, at, next);
  }

  /** Appending a measurement appends its reading and its checksum. */
  lemma AppendMeasurement(ms: seq<Measurement>, m: Measurement)
    ensures Track(Readings(ms + [m])) == Update(Track(Readings(ms)), Reading(m.bufSize, m.mibPerSec))
    ensures ByteSums(ms + [m]) == ByteSums(ms) + m.stats.byteSum
  {
    assert (ms + [m])[..|ms|] == ms;
    assert Readings(ms + [m])[..|ms|] == Readings(ms);
  }

  // ---------------------------------------------------------------------
  // The script decides the outcome

  /** From a given read, only one prefix of the rest is a completed call. */
  lemma SegmentUnique(script: seq<ReadEvent>, from: nat, a: nat, b: nat, bufLen: nat, target: nat)
    requires from <= a <= |script| && from <= b <= |script|
    requires CompletesAt(script[from..a], bufLen, target) && CompletesAt(script[from..b], bufLen, target)
    ensures a == b
  {
    var rest := script[from..];
    assert rest[..a - from] == script[from..a];
    assert rest[..b - from] == script[from..b];
    CompletionUnique(rest, bufLen, target, a - from, b - from);
  }

  /** A call that completes on the reads from `from` to `to` does not stop. */
  lemma SegmentExcludesStop(script: seq<ReadEvent>, from: nat, to: nat, bufLen: nat, target: nat, stop: ReadStop)
    requires from <= to <= |script| && CompletesAt(script[from..to], bufLen, target)
    ensures !StopsWith(script[from..], bufLen, target, stop)
  {
    var rest := script[from..];
    assert rest[..to - from] == script[from..to];
    CompletionExcludesStop(rest, bufLen, target, to - from, stop);
  }

  /** Two logs of the same script after the same warm-up agree on their
      common length: each call's reads are determined by where it begins. */
  lemma {:induction false} LoggedUnique(
    a: seq<Measurement>, b: seq<Measurement>, warmup: nat,
    script: seq<ReadEvent>, clock: nat -> Timing, useBuffer: bool, j: nat)
    requires Logged(a, warmup, script, clock, useBuffer) && Logged(b, warmup, script, clock, useBuffer)
    requires j < |a| && j < |b|
    ensures a[j] == b[j]
  {
    if j > 0 {
      LoggedUnique(a, b, warmup, script, clock, useBuffer, j - 1);
    }
    var x, y := a[j], b[j];
    assert LoggedAt(a, j, warmup, script, clock, useBuffer);
    assert LoggedAt(b, j, warmup, script, clock, useBuffer);
    SegmentUnique(script, x.from, x.at, y.at, x.bufSize, EstimateBytes(x.bufSize));
    SegmentUnique(script, x.at, x.to, y.to, x.bufSize, x.measureBytes);
  }

  /** A warm-up that stops leaves no whole sweep in the script. */
  lemma WarmupStopExcludesSweep(
    script: seq<ReadEvent>, clock: nat -> Timing, useBuffer: bool, stop: ReadStop, w: nat, ms: seq<Measurement>)
    ensures StopsWith(script, WarmupBufferBytes, WarmupTotalBytes, stop) ==>
              !CompleteSweep(script, clock, useBuffer, w, ms)
  {
    if WarmedUp(script, w) {
      CompletionExcludesStop(script, WarmupBufferBytes, WarmupTotalBytes, w, stop);
    }
  }

  /** A script holding a whole sweep gives no size a reason to stop: the
      script decides whether the sweep finishes. */
  lemma CompleteSweepExcludesStop(
    script: seq<ReadEvent>, clock: nat -> Timing, useBuffer: bool, w: nat, ms: seq<Measurement>,
    warmup: nat, logged: seq<Measurement>, stop: ReadStop, failAt: nat)
    ensures CompleteSweep(script, clock, useBuffer, w, ms) ==>
              !SweepStops(script, clock, useBuffer, warmup, logged, stop, failAt)
  {
    if && CompleteSweep(script, clock, useBuffer, w, ms)
       && WarmedUp(script, warmup) && |logged| < SweepLength
       && Logged(logged, warmup, script, clock, useBuffer)
    {
      CompletionUnique(script, WarmupBufferBytes, WarmupTotalBytes, w, warmup);
      var k := |logged|;
      forall j | 0 <= j < k
        ensures logged[j] == ms[j]
      {
        LoggedUnique(logged, ms, warmup, script, clock, useBuffer, j);
      }
      assert logged == ms[..k];
      AtPrefix(ms, k, k, warmup);
      var m := ms[k];
      assert LoggedAt(ms, k, warmup, script, clock, useBuffer);
      SegmentExcludesStop(script, m.from, m.at, m.bufSize, EstimateBytes(m.bufSize), stop);
      SegmentExcludesStop(script, m.at, m.to, m.bufSize, m.measureBytes, stop);
      if m.from <= failAt <= |script| && CompletesAt(script[m.from..failAt], m.bufSize, EstimateBytes(m.bufSize)) {
        SegmentUnique(script, m.from, failAt, m.at, m.bufSize, EstimateBytes(m.bufSize));
      }
    }
  }

  // ---------------------------------------------------------------------
  // Reading /dev/zero

  /** The buffer sizes of a log are the powers of two, in order. */
  lemma {:induction false} LoggedSizes(
    ms: seq<Measurement>, warmup: nat, script: seq<ReadEvent>, clock: nat -> Timing, useBuffer: bool, j: nat)
    requires Logged(ms, warmup, script, clock, useBuffer) && j < |ms|
    ensures ms[j].bufSize == Pow2(j)
  {
    assert LoggedAt(ms, j, warmup, script, clock, useBuffer);
    if j > 0 {
      LoggedSizes(ms, warmup, script, clock, useBuffer, j - 1);
    }
  }

  /** A log's measurements also form a log when cut short. */
  lemma LoggedPrefix(
    ms: seq<Measurement>, n: nat, warmup: nat, script: seq<ReadEvent>, clock: nat -> Timing, useBuffer: bool)
    requires Logged(ms, warmup, script, clock, useBuffer) && n <= |ms|
    ensures Logged(ms[..n], warmup, script, clock, useBuffer)
  {
    var p := ms[..n];
    forall j | 0 <= j < n
      ensures LoggedAt(p, j, warmup, script, clock, useBuffer)
    {
      AtPrefix(ms, n, j, warmup);
      assert LoggedAt(ms, j, warmup, script, clock, useBuffer);
      assert p[j] == ms[j];
    }
  }

  /** The checksums of a sweep over a source of zero bytes (`/dev/zero`) add
      up to 0, whether or not the buffer is summed. */
  lemma {:induction false} ZeroSourceSweep(
    ms: seq<Measurement>, warmup: nat, script: seq<ReadEvent>, clock: nat -> Timing, useBuffer: bool)
    requires Logged(ms, warmup, script, clock, useBuffer)
    requires forall j, b :: 0 <= j < |script| && script[j].Filled? && b in script[j].data ==> b == 0
    ensures ByteSums(ms) == 0
  {
    var n := |ms|;
    if n > 0 {
      LoggedPrefix(ms, n - 1, warmup, script, clock, useBuffer);
      ZeroSourceSweep(ms[..n - 1], warmup, script, clock, useBuffer);
      var m := ms[n - 1];
      assert LoggedAt(ms, n - 1, warmup, script, clock, useBuffer);
      var seg := script[m.at..m.to];
      assert forall j :: 0 <= j < |seg| ==> seg[j] == script[m.at + j];
      ZeroSourceChecksum(seg);
    }
  }

  // ---------------------------------------------------------------------
  // main's write-buffer loop

  /** The write-buffer sizes `main` runs for each `use_buffer` value. A start
      size of 0 never passes the end size (doubling 0 gives 0): `Endless`. */
  datatype WriterPlan = Sizes(sizes: seq<nat>) | Endless

  /** `main`'s argument checks and its `while write_buffer_bytes <= end
      { ...; write_buffer_bytes *= 2 }` loop over the configured bounds. */
  function WriterPlanFor(start: nat, end: nat): (r: Result<WriterPlan>)
    ensures r.Panic? <==> start > end || end > SocketWriter.MaxBufferBytes
    ensures r == Ok(Endless) <==> start == 0 && end <= SocketWriter.MaxBufferBytes
    ensures r.Ok? && r.value.Sizes? ==>
              var s := r.value.sizes;
              && |s| > 0 && s[0] == start
              && (forall i :: 0 <= i < |s| - 1 ==> s[i + 1] == 2 * s[i])
              && (forall i :: 0 <= i < |s| ==> start <= s[i] <= end)
              && 2 * s[|s| - 1] > end
  {
    if start > end then Panic("assert!(write_buffer_bytes_start <= write_buffer_bytes_end)")
    else if end > SocketWriter.MaxBufferBytes then Panic("assert!(write_buffer_bytes_end <= MAX_BUFFER_BYTES)")
    else if start == 0 then Ok(Endless)
    else Ok(Sizes(Doublings(start, end)))
  }

  /** Every planned size passes the writer's 16 MiB assertion and reaches the
      TCP writer intact through the handshake, whatever follows the header. */
  lemma PlannedSizesReachWriter(start: nat, end: nat, i: nat, useBuffer: bool, rest: seq<byte>)
    requires WriterPlanFor(start, end).Ok? && WriterPlanFor(start, end).value.Sizes?
    requires i < |WriterPlanFor(start, end).value.sizes|
    ensures var size := WriterPlanFor(start, end).value.sizes[i];
            && size <= SocketWriter.MaxBufferBytes
            && Handshake.Decode(Handshake.Encode(size, useBuffer) + rest)
               == Ok(Handshake.Params(size, useBuffer))
  {
    var size := WriterPlanFor(start, end).value.sizes[i];
    assert size <= SocketWriter.MaxBufferBytes < Handshake.U32Modulus;
    Handshake.RoundTrip(size, useBuffer, rest);
  }

  /** What one `run_benchmark` call of `main` reads from. */
  datatype Endpoint = UnixPair(writeBufferBytes: nat) | Tcp(writeBufferBytes: nat) | DevZero | DevUrandom

  datatype Run = Run(useBuffer: bool, endpoint: Endpoint)

  /** The runs of one `use_buffer` pass: a Unix-socket and a TCP run per
      write-buffer size, then /dev/zero and /dev/urandom. */
  function RunsFor(useBuffer: bool, sizes: seq<nat>): (runs: seq<Run>)
    ensures |runs| == 2 * |sizes| + 2
    ensures runs[2 * |sizes|] == Run(useBuffer, DevZero)
    ensures runs[2 * |sizes| + 1] == Run(useBuffer, DevUrandom)
  {
    if |sizes| == 0 then [Run(useBuffer, DevZero), Run(useBuffer, DevUrandom)]
    else [Run(useBuffer, UnixPair(sizes[0])), Run(useBuffer, Tcp(sizes[0]))] + RunsFor(useBuffer, sizes[1..])
  }

  /** Every run of a pass has the pass's `use_buffer`, and every socket run
      uses one of the planned write-buffer sizes. */
  lemma {:induction false} RunsForMembers(useBuffer: bool, sizes: seq<nat>)
    ensures forall r :: r in RunsFor(useBuffer, sizes) ==> r.useBuffer == useBuffer
    ensures forall r :: r in RunsFor(useBuffer, sizes) && (r.endpoint.UnixPair? || r.endpoint.Tcp?) ==>
              r.endpoint.writeBufferBytes in sizes
  {
    if |sizes| > 0 {
      RunsForMembers(useBuffer, sizes[1..]);
      assert forall x :: x in sizes[1..] ==> x in sizes;
    }
  }

  /** Size `i` gets its Unix-socket run, then its TCP run, at positions `2i`
      and `2i + 1`. */
  lemma {:induction false} RunsForAt(useBuffer: bool, sizes: seq<nat>, i: nat)
    requires i < |sizes|
    ensures RunsFor(useBuffer, sizes)[2 * i] == Run(useBuffer, UnixPair(sizes[i]))
    ensures RunsFor(useBuffer, sizes)[2 * i + 1] == Run(useBuffer, Tcp(sizes[i]))
  {
    if i > 0 {
      RunsForAt(useBuffer, sizes[1..], i - 1);
      assert sizes[1..][i - 1] == sizes[i];
    }
  }

  /** The whole sequence of sweeps `main` performs for a finite plan: the
      `use_buffer = false` pass, then the `true` pass. */
  function Schedule(sizes: seq<nat>): (runs: seq<Run>)
    ensures |runs| == 4 * |sizes| + 4
    ensures forall i :: 0 <= i < |runs| ==> runs[i].useBuffer == (i >= 2 * |sizes| + 2)
    ensures forall i :: 0 <= i < |runs| ==> runs[i].endpoint.UnixPair? || runs[i].endpoint.Tcp? ==>
              runs[i].endpoint.writeBufferBytes in sizes
  {
    var first := RunsFor(false, sizes);
    var second := RunsFor(true, sizes);
    RunsForMembers(false, sizes);
    RunsForMembers(true, sizes);
    assert forall i :: 0 <= i < |first| ==> (first + second)[i] == first[i] && first[i] in first;
    assert forall i :: |first| <= i < |first| + |second| ==>
             (first + second)[i] == second[i - |first|] && second[i - |first|] in second;
    first + second
  }
}
