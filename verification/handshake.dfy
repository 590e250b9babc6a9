/** The 5-byte parameter header a TCP reader sends before any payload
    (src/main.rs): bytes 0..4 are the writer's buffer size as a little-endian
    u32, byte 4 is `u8::from(use_buffer)`. */
module Handshake {
  import opened Results

  const HeaderLength: nat := 5
  const U32Modulus: nat := 0x1_0000_0000

  /** The parameters the writer side decodes. */
  datatype Params = Params(writeBufferBytes: nat, useBuffer: bool)

  /** `(value as u32).to_le_bytes()`: the `as u32` cast keeps the low 32 bits. */
  function U32ToLeBytes(value: nat): (bytes: seq<byte>)
    ensures |bytes| == 4
  {
    var t0 := value % U32Modulus;
    var t1 := t0 / 256;
    var t2 := t1 / 256;
    [(t0 % 256) as byte, (t1 % 256) as byte, (t2 % 256) as byte, (t2 / 256 % 256) as byte]
  }

  /** `u32::from_le_bytes`. */
  function U32FromLeBytes(bytes: seq<byte>): (value: nat)
    requires |bytes| == 4
    ensures value < U32Modulus
  {
    bytes[0] as nat + 0x100 * bytes[1] as nat + 0x1_0000 * bytes[2] as nat + 0x100_0000 * bytes[3] as nat
  }

  /** The header the reader writes (src/main.rs, lines 112-114). */
  function Encode(writeBufferBytes: nat, useBuffer: bool): (header: seq<byte>)
    ensures |header| == HeaderLength
    ensures header[4] == (if useBuffer then 1 else 0)
  {
    U32ToLeBytes(writeBufferBytes) + [if useBuffer then 1 else 0]
  }

  /** The writer's `read_exact` of the header from the bytes the peer sent,
      then its decoding (src/main.rs, lines 175-181). A connection that delivers
      fewer than five bytes fails `read_exact`, which is `expect`ed: a panic. */
  function Decode(received: seq<byte>): (r: Result<Params>)
    ensures r.Ok? <==> |received| >= HeaderLength
    ensures r.Ok? ==> r.value.writeBufferBytes < U32Modulus
    ensures r.Ok? ==> (r.value.useBuffer <==> received[4] != 0)
  {
    if |received| < HeaderLength then
      Panic("read_exact of the handshake failed")
    else
      Ok(Params(U32FromLeBytes(received[..4]), received[4] != 0))
  }

  /** Decoding what was encoded gives back the buffer size and the flag, for
      every size below 2^32, whatever payload follows the header. */
  lemma RoundTrip(writeBufferBytes: nat, useBuffer: bool, rest: seq<byte>)
    requires writeBufferBytes < U32Modulus
    ensures Decode(Encode(writeBufferBytes, useBuffer) + rest) == Ok(Params(writeBufferBytes, useBuffer))
  {
    var received := Encode(writeBufferBytes, useBuffer) + rest;
    assert received[..4] == U32ToLeBytes(writeBufferBytes);
    LeBytesRoundTrip(writeBufferBytes);
  }

  /** A size of 2^32 or more is silently truncated to its low 32 bits. */
  lemma Truncation(writeBufferBytes: nat, useBuffer: bool)
    ensures Decode(Encode(writeBufferBytes, useBuffer))
            == Ok(Params(writeBufferBytes % U32Modulus, useBuffer))
  {
    var low := writeBufferBytes % U32Modulus;
    assert low % U32Modulus == low;
    assert Encode(low, useBuffer) == Encode(writeBufferBytes, useBuffer);
    RoundTrip(low, useBuffer, []);
    assert Encode(low, useBuffer) + [] == Encode(low, useBuffer);
  }

  /** The other direction: every well-formed header (flag byte 0 or 1) is the
      encoding of what it decodes to. */
  lemma DecodeThenEncode(header: seq<byte>)
    requires |header| == HeaderLength && header[4] <= 1
    ensures Decode(header).Ok?
    ensures Encode(Decode(header).value.writeBufferBytes, Decode(header).value.useBuffer) == header
  {
    var v := U32FromLeBytes(header[..4]);
    LeBytesDigits(header[0] as nat, header[1] as nat, header[2] as nat, header[3] as nat);
    assert U32ToLeBytes(v) == header[..4];
  }

  lemma LeBytesRoundTrip(value: nat)
    requires value < U32Modulus
    ensures U32FromLeBytes(U32ToLeBytes(value)) == value
  {
    var t1 := value / 256;
    var t2 := t1 / 256;
    assert value == value % 256 + 256 * t1;
    assert t1 == t1 % 256 + 256 * t2;
    assert t2 == t2 % 256 + 256 * (t2 / 256);
    assert t2 / 256 < 256;
  }

  lemma LeBytesDigits(b0: nat, b1: nat, b2: nat, b3: nat)
    requires b0 < 256 && b1 < 256 && b2 < 256 && b3 < 256
    ensures var v := b0 + 0x100 * b1 + 0x1_0000 * b2 + 0x100_0000 * b3;
            && v % U32Modulus == v
            && v % 256 == b0 && v / 256 % 256 == b1
            && v / 256 / 256 % 256 == b2 && v / 256 / 256 / 256 % 256 == b3
  {
    var v := b0 + 0x100 * b1 + 0x1_0000 * b2 + 0x100_0000 * b3;
    assert v / 256 == b1 + 256 * b2 + 0x1_0000 * b3;
    assert v / 256 / 256 == b2 + 256 * b3;
  }
}
