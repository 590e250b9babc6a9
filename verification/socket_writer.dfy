/** The writer side of the benchmark (src/main.rs): `socket_writer`'s
    outcome machine, `tcp_writer` (handshake, then the write loop) and
    `tcp_write_acceptor`'s classification of accept errors. Each endpoint is
    the script of results its successive calls return. */
module SocketWriter {
  import opened Results
  import Handshake

  /** 16 MiB: the largest buffer any writer or reader uses. */
  const MaxBufferBytes: nat := 16 * 1024 * 1024

  /** One `write(&buffer)` call: bytes accepted, or an I/O error. */
  datatype WriteEvent = Wrote(n: nat) | WriteFailed(kind: IoErrorKind)

  /** How a write loop that did not panic ends. `Stalled` means the script ran
      out while the loop was still writing: the real writer keeps going. */
  datatype WriterEnd = Graceful(kind: IoErrorKind) | Stalled

  /** A write that accepted the whole buffer: the loop simply goes on. */
  predicate FullWrite(e: WriteEvent, bufLen: nat) {
    e.Wrote? && e.n >= bufLen
  }

  /** Index of the first write result that is not a full write, or `|script|`. */
  function FirstIrregular(script: seq<WriteEvent>, bufLen: nat): (k: nat)
    ensures k <= |script|
    ensures forall j :: 0 <= j < k ==> FullWrite(script[j], bufLen)
    ensures k < |script| ==> !FullWrite(script[k], bufLen)
  {
    if |script| == 0 || !FullWrite(script[0], bufLen) then 0
    else 1 + FirstIrregular(script[1..], bufLen)
  }

  /** The byte the buffer is filled with before the write of loop iteration `i`
      when `use_buffer` is set; otherwise the buffer stays zero-filled. The u8
      counter wraps modulo 256. */
  function FillByte(useBuffer: bool, i: nat): byte {
    if useBuffer then (i % 256) as byte else 0
  }

  /** What `socket_writer(sock, write_buffer_bytes, use_buffer)` does with the
      write results `script`: it ends with `r`, and `fills[j]` is the byte
      value the buffer holds for the j-th write call. */
  predicate LoopOutcome(
    script: seq<WriteEvent>, writeBufferBytes: nat, useBuffer: bool, r: Result<WriterEnd>, fills: seq<byte>)
  {
    // Only buffers up to 16 MiB may be written.
    && (writeBufferBytes > MaxBufferBytes ==> r.Panic? && fills == [])
    && (writeBufferBytes <= MaxBufferBytes ==>
          var k := FirstIrregular(script, writeBufferBytes);
          // Full writes continue; with no irregular result the loop is still running.
          && (k == |script| ==> r == Ok(Stalled) && |fills| == |script|)
          // A failing write ends the loop: gracefully iff the peer closed.
          && (k < |script| && script[k].WriteFailed? ==>
                |fills| == k + 1
                && (if PeerClosed(script[k].kind) then r == Ok(Graceful(script[k].kind)) else r.Panic?))
          // A short write must be followed by a failing write.
          && (k < |script| && script[k].Wrote? && k + 1 == |script| ==> r == Ok(Stalled) && |fills| == k + 1)
          && (k + 1 < |script| && script[k].Wrote? ==>
                |fills| == k + 2
                && (match script[k + 1]
                    case Wrote(_) => r.Panic?
                    case WriteFailed(kind) => if PeerClosed(kind) then r == Ok(Graceful(kind)) else r.Panic?)))
    // Write call j happens in loop iteration j, except the retry after a short
    // write, which resends the same buffer.
    && (var k := FirstIrregular(script, writeBufferBytes);
        forall j :: 0 <= j < |fills| ==> fills[j] == FillByte(useBuffer, if j <= k then j else k))
    // Consequently: a normal return always follows a peer-closed error on the last write made.
    && |fills| <= |script|
    && (r.Ok? && r.value.Graceful? ==>
          PeerClosed(r.value.kind) && |fills| > 0 && script[|fills| - 1] == WriteFailed(r.value.kind))
  }

  /** `socket_writer(sock, write_buffer_bytes, use_buffer)` where `script` is
      what successive `write` calls return. */
  method WriteLoop(script: seq<WriteEvent>, writeBufferBytes: nat, useBuffer: bool)
    returns (r: Result<WriterEnd>, fills: seq<byte>)
    ensures LoopOutcome(script, writeBufferBytes, useBuffer, r, fills)
  {
    if writeBufferBytes > MaxBufferBytes {
      return Panic("assert!(write_buffer_bytes <= MAX_BUFFER_BYTES)"), [];
    }
    ghost var k := FirstIrregular(script, writeBufferBytes);
    var nextByte: byte := 0;
    var buffer: byte := 0;
    var i := 0;
    fills := [];
    while true
      invariant i <= k
      invariant |fills| == i
      invariant forall j :: 0 <= j < i ==> fills[j] == FillByte(useBuffer, j)
      invariant nextByte == FillByte(useBuffer, i)
      invariant !useBuffer ==> buffer == 0
      decreases |script| - i
    {
      if i == |script| {
        return Ok(Stalled), fills;
      }
      if useBuffer {
        buffer := nextByte;
        nextByte := ((nextByte as int + 1) % 256) as byte;
      }
      fills := fills + [buffer];
      if !FullWrite(script[i], writeBufferBytes) {
        if script[i].WriteFailed? {
          r := Closing(script[i]);
          return r, fills;
        }
        // A short write is expected only when the reader closed: the next write must fail.
        if i + 1 == |script| {
          return Ok(Stalled), fills;
        }
        fills := fills + [buffer];
        r := Closing(script[i + 1]);
        return r, fills;
      }
      i := i + 1;
    }
  }

  /** The result of the write that ends the loop: a peer-closed error is a
      normal end, anything else (another error, or a write that succeeds
      after a short one) panics. */
  method Closing(e: WriteEvent) returns (r: Result<WriterEnd>)
    ensures e.WriteFailed? && PeerClosed(e.kind) ==> r == Ok(Graceful(e.kind))
    ensures !(e.WriteFailed? && PeerClosed(e.kind)) ==> r.Panic?
  {
    match e
    case Wrote(_) =>
      r := Panic("unexpected");
    case WriteFailed(kind) =>
      if PeerClosed(kind) {
        r := Ok(Graceful(kind));
      } else {
        r := Panic("unexpected unix socket error");
      }
  }

  /** `tcp_writer`: read the 5-byte header from the bytes the connection
      delivers (`received`), then run the write loop with the decoded buffer
      size and flag. */
  method TcpWriter(received: seq<byte>, script: seq<WriteEvent>)
    returns (r: Result<WriterEnd>, fills: seq<byte>)
    // A short header, or one announcing more than 16 MiB, aborts before any write.
    ensures |received| < Handshake.HeaderLength ==> r.Panic? && fills == []
    ensures (|received| >= Handshake.HeaderLength && Handshake.U32FromLeBytes(received[..4]) > MaxBufferBytes)
            ==> r.Panic? && fills == []
    // Otherwise the writes carry the payload pattern the header's flag byte selects.
    ensures |received| >= Handshake.HeaderLength ==>
              var size := Handshake.U32FromLeBytes(received[..4]);
              var k := FirstIrregular(script, size);
              forall j :: 0 <= j < |fills| ==> fills[j] == FillByte(received[4] != 0, if j <= k then j else k)
    ensures r.Ok? && r.value.Graceful? ==> PeerClosed(r.value.kind)
    // A valid header runs the write loop with the size and flag it announces.
    ensures |received| >= Handshake.HeaderLength && Handshake.U32FromLeBytes(received[..4]) <= MaxBufferBytes ==>
              LoopOutcome(script, Handshake.U32FromLeBytes(received[..4]), received[4] != 0, r, fills)
  {
    var params := Handshake.Decode(received);
    if params.Panic? {
      return Panic(params.reason), [];
    }
    r, fills := WriteLoop(script, params.value.writeBufferBytes, params.value.useBuffer);
  }

  /** One `accept()` call: a new connection (identified by `peer`), or an error. */
  datatype AcceptEvent = Accepted(peer: nat) | AcceptFailed(kind: IoErrorKind)

  /** How an accept loop that did not panic ends. `Listening` means the script
      ran out: the real acceptor is blocked in `accept`. */
  datatype AcceptorEnd = ShutDown | Listening

  /** `tcp_write_acceptor`: `spawned` lists the connections handed, in order, to
      a new writer thread. Only `InvalidInput` (the listening socket was shut
      down for reading) ends the loop normally; any other error aborts. */
  method AcceptLoop(script: seq<AcceptEvent>) returns (r: Result<AcceptorEnd>, spawned: seq<nat>)
    ensures |spawned| <= |script|
    ensures forall j :: 0 <= j < |spawned| ==> script[j] == Accepted(spawned[j])
    ensures r == Ok(Listening) <==> |spawned| == |script|
    ensures |spawned| < |script| ==>
              && script[|spawned|].AcceptFailed?
              && (r == Ok(ShutDown) <==> script[|spawned|].kind == InvalidInput)
              && (r.Panic? <==> script[|spawned|].kind != InvalidInput)
  {
    spawned := [];
    var i := 0;
    while i < |script|
      invariant i <= |script|
      invariant |spawned| == i
      invariant forall j :: 0 <= j < i ==> script[j] == Accepted(spawned[j])
    {
      match script[i] {
        case Accepted(peer) =>
          spawned := spawned + [peer];
        case AcceptFailed(kind) =>
          if kind == InvalidInput {
            return Ok(ShutDown), spawned;
          }
          return Panic("tcp acceptor: unexpected socket error"), spawned;
      }
      i := i + 1;
    }
    r := Ok(Listening);
  }
}
