/** The Timed Reader (`time_reads` in src/main.rs): a bounded loop of `read`
    calls into one buffer until the cumulative byte count reaches a target.
    The readable endpoint is modelled as the script of results its successive
    `read` calls return; the wall clock is left out. */
module TimedReader {
  import opened Results

  /** One `read(buffer)` call: either the bytes the source placed at the front
      of the buffer (their count is the call's return value), or an I/O error. */
  datatype ReadEvent = Filled(data: seq<byte>) | ReadFailed(kind: IoErrorKind)

  /** `RunStats` without its `duration`. `totalBytes` is the requested target,
      not the number of bytes actually read. */
  datatype RunStats = RunStats(totalBytes: nat, numSyscalls: nat, shortReads: nat, byteSum: int)

  /** How one `time_reads` call ends. `consumed` is the number of script entries
      (read calls) it used. `Stalled` means the script ran out before the target
      was reached: the real call would block, as there is no timeout. */
  datatype ReadOutcome =
    | Completed(stats: RunStats, consumed: nat)
    | IoFailed(kind: IoErrorKind)
    | AssertFailed
    | Stalled

  /** The count a read returned is accepted by the `0 < n <= buffer.len()` assertion. */
  predicate AcceptedCount(n: int, bufLen: nat) {
    0 < n <= bufLen
  }

  /** The first `k` reads of the script all succeeded with accepted counts. */
  predicate GoodPrefix(script: seq<ReadEvent>, k: nat, bufLen: nat)
    requires k <= |script|
  {
    forall j :: 0 <= j < k ==> script[j].Filled? && AcceptedCount(|script[j].data|, bufLen)
  }

  /** Number of bytes delivered by the successful reads of `s`. */
  function BytesRead(s: seq<ReadEvent>): nat {
    if |s| == 0 then 0
    else BytesRead(s[..|s| - 1]) + (if s[|s| - 1].Filled? then |s[|s| - 1].data| else 0)
  }

  /** Number of successful reads of `s` that returned less than a full buffer. */
  function ShortCount(s: seq<ReadEvent>, bufLen: nat): nat {
    if |s| == 0 then 0
    else ShortCount(s[..|s| - 1], bufLen)
         + (if s[|s| - 1].Filled? && |s[|s| - 1].data| < bufLen then 1 else 0)
  }

  /** Sum of the unsigned values of `data`. */
  function SumOf(data: seq<byte>): int {
    if |data| == 0 then 0 else SumOf(data[..|data| - 1]) + data[|data| - 1] as int
  }

  /** Sum of every byte delivered by the successful reads of `s`. */
  function ByteSum(s: seq<ReadEvent>): int {
    if |s| == 0 then 0
    else ByteSum(s[..|s| - 1]) + (if s[|s| - 1].Filled? then SumOf(s[|s| - 1].data) else 0)
  }

  /** `time_reads(f, buffer, total_bytes, use_buffer)` where `buffer.len() == bufLen`
      and `script` is what the endpoint's successive `read` calls return. */
  method TimeReads(script: seq<ReadEvent>, bufLen: nat, totalBytes: nat, useBuffer: bool)
    returns (r: ReadOutcome)
    // Completion: the loop stopped at the first read that brought the total to the target.
    ensures r.Completed? ==>
              && r.consumed <= |script|
              && GoodPrefix(script, r.consumed, bufLen)
              && BytesRead(script[..r.consumed]) >= totalBytes
              && (r.consumed == 0 || BytesRead(script[..r.consumed - 1]) < totalBytes)
    ensures r.Completed? ==>
              && r.stats.totalBytes == totalBytes
              && r.stats.numSyscalls == r.consumed
              && r.stats.shortReads == ShortCount(script[..r.consumed], bufLen)
              && r.stats.byteSum == (if useBuffer then ByteSum(script[..r.consumed]) else 0)
    // Bounds: overshoot is less than one buffer, a zero target makes no read.
    ensures r.Completed? ==> (r.consumed == 0 <==> totalBytes == 0)
    ensures r.Completed? && totalBytes > 0 ==> BytesRead(script[..r.consumed]) < totalBytes + bufLen
    ensures r.Completed? ==> r.stats.shortReads <= r.stats.numSyscalls
    // The failure cases name the read that caused them.
    ensures r.IoFailed? ==>
              exists k :: 0 <= k < |script| && GoodPrefix(script, k, bufLen)
                && BytesRead(script[..k]) < totalBytes && script[k] == ReadFailed(r.kind)
    ensures r.AssertFailed? ==>
              exists k :: 0 <= k < |script| && GoodPrefix(script, k, bufLen)
                && BytesRead(script[..k]) < totalBytes
                && script[k].Filled? && !AcceptedCount(|script[k].data|, bufLen)
    ensures r.Stalled? <==> GoodPrefix(script, |script|, bufLen) && BytesRead(script) < totalBytes
  {
    var totalBytesRead := 0;
    var numSyscalls := 0;
    var shortReads := 0;
    var byteSum := 0;
    while totalBytesRead < totalBytes
      invariant numSyscalls <= |script|
      invariant GoodPrefix(script, numSyscalls, bufLen)
      invariant totalBytesRead == BytesRead(script[..numSyscalls])
      invariant numSyscalls == 0 || BytesRead(script[..numSyscalls - 1]) < totalBytes
      invariant shortReads == ShortCount(script[..numSyscalls], bufLen)
      invariant shortReads <= numSyscalls
      invariant byteSum == (if useBuffer then ByteSum(script[..numSyscalls]) else 0)
      invariant numSyscalls > 0 ==> totalBytesRead < totalBytes + bufLen
      decreases |script| - numSyscalls
    {
      if numSyscalls == |script| {
        assert script[..numSyscalls] == script;
        return Stalled;
      }
      match script[numSyscalls]
      case ReadFailed(kind) =>
        return IoFailed(kind);
      case Filled(data) =>
        var bytesRead := |data|;
        if !AcceptedCount(bytesRead, bufLen) {
          return AssertFailed;
        }
        ReadStep(script, numSyscalls, bufLen);
        if bytesRead < bufLen {
          shortReads := shortReads + 1;
        }
        totalBytesRead := totalBytesRead + bytesRead;
        numSyscalls := numSyscalls + 1;
        if useBuffer {
          var chunk := Checksum(data);
          byteSum := byteSum + chunk;
        }
    }
    BytesReadMonotone(script, numSyscalls, |script|);
    assert script[..|script|] == script;
    r := Completed(RunStats(totalBytes, numSyscalls, shortReads, byteSum), numSyscalls);
  }

  // ---------------------------------------------------------------------
  // One call as its caller sees it

  /** Why a `time_reads` call did not return its statistics: an I/O error
      (returned through `?`), the failed read assertion, or a source that ran
      dry before the target (the real read would block). */
  datatype ReadStop = ReadError(kind: IoErrorKind) | ReadAssertFailed | Blocked

  /** `seg` is exactly the reads of a call that completed: every read
      succeeded with an accepted count, and `seg` is the first prefix whose
      bytes reach the target. */
  predicate CompletesAt(seg: seq<ReadEvent>, bufLen: nat, target: nat) {
    && GoodPrefix(seg, |seg|, bufLen)
    && BytesRead(seg) >= target
    && (|seg| == 0 || BytesRead(seg[..|seg| - 1]) < target)
  }

  /** The statistics a call that made the reads `seg` returns. */
  function StatsOf(seg: seq<ReadEvent>, bufLen: nat, target: nat, useBuffer: bool): RunStats {
    RunStats(target, |seg|, ShortCount(seg, bufLen), if useBuffer then ByteSum(seg) else 0)
  }

  /** A call reading from `rest` ends with `stop`: the reads before the
      failing one were good and short of the target. */
  predicate StopsWith(rest: seq<ReadEvent>, bufLen: nat, target: nat, stop: ReadStop) {
    match stop
    case ReadError(kind) =>
      exists k :: 0 <= k < |rest| && GoodPrefix(rest, k, bufLen)
        && BytesRead(rest[..k]) < target && rest[k] == ReadFailed(kind)
    case ReadAssertFailed =>
      exists k :: 0 <= k < |rest| && GoodPrefix(rest, k, bufLen)
        && BytesRead(rest[..k]) < target && rest[k].Filled? && !AcceptedCount(|rest[k].data|, bufLen)
    case Blocked =>
      GoodPrefix(rest, |rest|, bufLen) && BytesRead(rest) < target
  }

  datatype CallResult = Done(stats: RunStats, consumed: nat) | Stop(stop: ReadStop)

  /** `time_reads(f, buffer, total_bytes, use_buffer)?`: the statistics of
      the reads the call consumed, or the reason it stopped. */
  method ReadCall(script: seq<ReadEvent>, bufLen: nat, totalBytes: nat, useBuffer: bool)
    returns (c: CallResult)
    ensures c.Done? ==>
              && c.consumed <= |script|
              && CompletesAt(script[..c.consumed], bufLen, totalBytes)
              && c.stats == StatsOf(script[..c.consumed], bufLen, totalBytes, useBuffer)
    ensures c.Stop? ==> StopsWith(script, bufLen, totalBytes, c.stop)
  {
    var r := TimeReads(script, bufLen, totalBytes, useBuffer);
    match r
    case Completed(stats, consumed) =>
      var seg := script[..consumed];
      assert forall j :: 0 <= j < consumed ==> seg[j] == script[j];
      assert consumed > 0 ==> seg[..consumed - 1] == script[..consumed - 1];
      c := Done(stats, consumed);
    case IoFailed(kind) =>
      c := Stop(ReadError(kind));
    case AssertFailed =>
      c := Stop(ReadAssertFailed);
    case Stalled =>
      c := Stop(Blocked);
  }

  /** Only one prefix of a script is the reads of a completed call: so what a
      call consumes is determined by the script. */
  lemma CompletionUnique(s: seq<ReadEvent>, bufLen: nat, target: nat, c1: nat, c2: nat)
    requires c1 <= |s| && c2 <= |s|
    requires CompletesAt(s[..c1], bufLen, target) && CompletesAt(s[..c2], bufLen, target)
    ensures c1 == c2
  {
    if c1 < c2 {
      assert s[..c2][..c2 - 1] == s[..c2 - 1];
      BytesReadMonotone(s, c1, c2 - 1);
    } else if c2 < c1 {
      assert s[..c1][..c1 - 1] == s[..c1 - 1];
      BytesReadMonotone(s, c2, c1 - 1);
    }
  }

  /** A script on which a call completes does not run dry before the target. */
  lemma CompletionExcludesBlocked(s: seq<ReadEvent>, bufLen: nat, target: nat, c: nat)
    requires c <= |s| && CompletesAt(s[..c], bufLen, target)
    ensures !(GoodPrefix(s, |s|, bufLen) && BytesRead(s) < target)
  {
    assert s[..|s|] == s;
    BytesReadMonotone(s, c, |s|);
  }

  /** On a script where a call completes, every read made while still short
      of the target is good. */
  lemma CompletionReadsGood(s: seq<ReadEvent>, bufLen: nat, target: nat, c: nat, k: nat)
    requires c <= |s| && CompletesAt(s[..c], bufLen, target)
    requires k < |s| && BytesRead(s[..k]) < target
    ensures s[k].Filled? && AcceptedCount(|s[k].data|, bufLen)
  {
    if c <= k {
      BytesReadMonotone(s, c, k);
    } else {
      assert s[..c][k] == s[k];
    }
  }

  /** A script on which a call completes gives no reason to stop, so a call
      either completes or stops, never both. */
  lemma CompletionExcludesStop(s: seq<ReadEvent>, bufLen: nat, target: nat, c: nat, stop: ReadStop)
    requires c <= |s| && CompletesAt(s[..c], bufLen, target)
    ensures !StopsWith(s, bufLen, target, stop)
  {
    match stop
    case Blocked =>
      CompletionExcludesBlocked(s, bufLen, target, c);
    case _ =>
      forall k | 0 <= k < |s| && BytesRead(s[..k]) < target
        ensures s[k].Filled? && AcceptedCount(|s[k].data|, bufLen)
      {
        CompletionReadsGood(s, bufLen, target, c, k);
      }
  }

  /** The checksum loop over the bytes one read delivered. */
  method Checksum(data: seq<byte>) returns (chunk: int)
    ensures chunk == SumOf(data)
  {
    var i := 0;
    chunk := 0;
    while i < |data|
      invariant i <= |data|
      invariant chunk == SumOf(data[..i])
    {
      assert data[..i + 1][..i] == data[..i];
      chunk := chunk + data[i] as int;
      i := i + 1;
    }
    assert data[..|data|] == data;
  }

  /** Taking one more successful read adds its bytes, its short-read mark and
      its byte sum to the totals. */
  lemma ReadStep(script: seq<ReadEvent>, k: nat, bufLen: nat)
    requires k < |script| && script[k].Filled?
    ensures BytesRead(script[..k + 1]) == BytesRead(script[..k]) + |script[k].data|
    ensures ShortCount(script[..k + 1], bufLen)
            == ShortCount(script[..k], bufLen) + (if |script[k].data| < bufLen then 1 else 0)
    ensures ByteSum(script[..k + 1]) == ByteSum(script[..k]) + SumOf(script[k].data)
  {
    assert script[..k + 1][..k] == script[..k];
  }

  /** Bytes read only grow as more reads are taken: so the completion point of
      `TimeReads` is the FIRST prefix reaching the target. */
  lemma {:induction false} BytesReadMonotone(s: seq<ReadEvent>, i: nat, j: nat)
    requires i <= j <= |s|
    ensures BytesRead(s[..i]) <= BytesRead(s[..j])
    decreases j - i
  {
    if i < j {
      BytesReadMonotone(s, i, j - 1);
      assert s[..j][..j - 1] == s[..j - 1];
    }
  }

  /** No prefix shorter than the completion point already reached the target. */
  lemma CompletionIsFirst(script: seq<ReadEvent>, k: nat, totalBytes: nat, i: nat)
    requires k <= |script| && i < k
    requires BytesRead(script[..k - 1]) < totalBytes
    ensures BytesRead(script[..i]) < totalBytes
  {
    BytesReadMonotone(script, i, k - 1);
  }

  /** A source that only ever delivers zero bytes (such as /dev/zero) gives a
      checksum of 0, whatever the number or size of the reads. */
  lemma {:induction false} ZeroSourceChecksum(s: seq<ReadEvent>)
    requires forall j, b :: 0 <= j < |s| && s[j].Filled? && b in s[j].data ==> b == 0
    ensures ByteSum(s) == 0
  {
    if |s| > 0 {
      ZeroSourceChecksum(s[..|s| - 1]);
      var last := s[|s| - 1];
      if last.Filled? {
        ZeroDataSum(last.data);
      }
    }
  }

  lemma {:induction false} ZeroDataSum(data: seq<byte>)
    requires forall b :: b in data ==> b == 0
    ensures SumOf(data) == 0
  {
    if |data| > 0 {
      var init := data[..|data| - 1];
      assert forall b :: b in init ==> b in data;
      ZeroDataSum(init);
      assert data[|data| - 1] in data;
    }
  }

  /** The checksum is bounded by 255 per byte read. */
  lemma {:induction false} ByteSumBounds(s: seq<ReadEvent>)
    ensures 0 <= ByteSum(s) <= 255 * BytesRead(s)
  {
    if |s| > 0 {
      ByteSumBounds(s[..|s| - 1]);
      var last := s[|s| - 1];
      if last.Filled? {
        SumOfBounds(last.data);
      }
    }
  }

  lemma {:induction false} SumOfBounds(data: seq<byte>)
    ensures 0 <= SumOf(data) <= 255 * |data|
  {
    if |data| > 0 {
      SumOfBounds(data[..|data| - 1]);
    }
  }
}
