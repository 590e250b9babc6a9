/** Shared vocabulary of the model: the outcome of an operation that may abort
    the process, the byte type, and the I/O error kinds the benchmark tells apart. */
module Results {

  /** An operation either produces a value or aborts the process (a Rust
      `panic!`/failed `assert!`, or a Go `panic`). The reason is descriptive only. */
  datatype Result<+T> = Ok(value: T) | Panic(reason: string) {
    predicate IsFailure() {
      Panic?
    }

    function PropagateFailure<U>(): Result<U>
      requires Panic?
    {
      Panic(reason)
    }

    function Extract(): T
      requires Ok?
    {
      value
    }
  }

  /** A value that may be absent: a regular-expression match that failed, or
      a conversion that returned an error. */
  datatype Option<+T> = None | Some(value: T)

  /** An unsigned 8-bit value. */
  newtype byte = x: int | 0 <= x < 256

  /** The `std::io::ErrorKind` values the benchmark distinguishes; every other
      kind is lumped into `OtherKind`. */
  datatype IoErrorKind = ConnectionReset | BrokenPipe | InvalidInput | OtherKind(name: string)

  /** The "peer closed" class: the writer's designed end-of-benchmark signal. */
  predicate PeerClosed(k: IoErrorKind) {
    k == ConnectionReset || k == BrokenPipe
  }
}
