/** Bytes, wire constants and errors shared by every module of the model. */
module Protocol {
  newtype byte = x: int | 0 <= x < 256
  type Bytes = seq<byte>

  const SALT_LEN := 16
  const NONCE_LEN := 12
  const TAG_LEN := 16
  const HEADER_PLAIN_LEN := 7
  const HEADER_CIPHER_LEN := 23
  const HEADER_VERSION_MARKER: byte := 4
  const MAX_PACKET_SIZE := 0x3fff
  const MAX_PACKET_SIZE_V6 := 0xffff
  const MAX_SALT_BLOCK_LEN := 256
  const V6_MAX_PREFIX_LEN := 0x80
  const V6_MAX_PADDING_RESERVE := 0x02da * 2
  const V6_WIRE_CAP := 67418
  const V4_MSS_BASE := 0x05b4
  const V4_FIRST_RECORD_OVERHEAD := 0x37
  const V4_RESET_OVERHEAD := 0x27
  const V4_IDLE_RESET_SECS := 30

  datatype Option<+T> = None | Some(value: T)

  datatype Error =
    | Truncated
    | InvalidVersion(version: byte)
    | EmptyHost
    | HostTooLong
    | InvalidHostUtf8
    | InvalidAddressType(tag: byte)
    | InvalidHeader
    | ZeroChunkWithPadding
    | PayloadTooLarge
    | BufferTooSmall(needed: nat, available: nat)
    | InvalidReserved(reserved: byte)
    | Malformed
    | Io
    | UnexpectedEof
    | Kdf
    | Entropy
    | Aead
    | PendingWire
    | PlaintextNotDrained
    | EncoderPoisoned

  datatype Result<+T> = Ok(value: T) | Err(error: Error) {
    predicate IsFailure() { Err? }

    function PropagateFailure<U>(): Result<U>
      requires Err?
    {
      Err(error)
    }

    function Extract(): T
      requires Ok?
    {
      value
    }
  }

  /** A record carries data, or ends its direction. */
  datatype Kind = Data | ZeroChunk

  function Min(a: int, b: int): int { if a < b then a else b }

  function Max(a: int, b: int): int { if a < b then b else a }

  /** A payload carries a tag; an empty one is not sealed at all. */
  function BodyCipherLen(payloadLen: nat): nat
  {
    if payloadLen == 0 then 0 else payloadLen + TAG_LEN
  }

  /** Big-endian 16-bit field. */
  function U16ToBytes(n: nat): (b: Bytes)
    requires n < 0x1_0000
    ensures |b| == 2
  {
    [(n / 256) as byte, (n % 256) as byte]
  }

  function U16FromBytes(hi: byte, lo: byte): (n: nat)
    ensures n < 0x1_0000
  {
    hi as nat * 256 + lo as nat
  }

  lemma U16RoundTrip(n: nat)
    requires n < 0x1_0000
    ensures U16FromBytes(U16ToBytes(n)[0], U16ToBytes(n)[1]) == n
  {
  }

  /** Exclusive or of the low `bits` bits. */
  function XorBits(a: nat, b: nat, bits: nat): (r: nat)
  {
    if bits == 0 then 0 else (if a % 2 == b % 2 then 0 else 1) + 2 * XorBits(a / 2, b / 2, bits - 1)
  }

  function Pow2(k: nat): (p: nat)
    ensures p >= 1
  {
    if k == 0 then 1 else 2 * Pow2(k - 1)
  }

  lemma {:induction false} XorBound(a: nat, b: nat, bits: nat)
    ensures XorBits(a, b, bits) < Pow2(bits)
  {
    if bits > 0 {
      XorBound(a / 2, b / 2, bits - 1);
    }
  }

  function Xor(a: byte, b: byte): byte
  {
    XorBound(a as nat, b as nat, 8);
    assert Pow2(8) == 256;
    XorBits(a as nat, b as nat, 8) as byte
  }

  lemma Digit(c: nat, rest: nat)
    requires c < 2
    ensures (c + 2 * rest) % 2 == c && (c + 2 * rest) / 2 == rest
  {
  }

  lemma {:induction false} XorBitsUndoes(a: nat, b: nat, bits: nat)
    requires a < Pow2(bits)
    ensures XorBits(XorBits(a, b, bits), b, bits) == a
  {
    if bits > 0 {
      var rest := XorBits(a / 2, b / 2, bits - 1);
      Digit(if a % 2 == b % 2 then 0 else 1, rest);
      XorBitsUndoes(a / 2, b / 2, bits - 1);
    }
  }

  /** Masking twice with the same byte restores the byte. */
  lemma XorUndoes(a: byte, b: byte)
    ensures Xor(Xor(a, b), b) == a
  {
    assert Pow2(8) == 256;
    XorBitsUndoes(a as nat, b as nat, 8);
  }

  lemma {:induction false} XorBitsCommute(a: nat, b: nat, bits: nat)
    ensures XorBits(a, b, bits) == XorBits(b, a, bits)
  {
    if bits > 0 {
      XorBitsCommute(a / 2, b / 2, bits - 1);
    }
  }

  /** Adding the difference of two bytes to either one gives the other. */
  lemma XorSwaps(a: byte, b: byte)
    ensures Xor(a, Xor(a, b)) == b
    ensures Xor(b, Xor(a, b)) == a
  {
    XorUndoes(a, b);
    XorUndoes(b, a);
    XorBitsCommute(a as nat, b as nat, 8);
    XorBitsCommute(a as nat, Xor(a, b) as nat, 8);
    XorBitsCommute(b as nat, Xor(a, b) as nat, 8);
  }

  lemma {:induction false} XorBitsZero(a: nat, bits: nat)
    requires a < Pow2(bits)
    ensures XorBits(a, 0, bits) == a
  {
    if bits > 0 {
      XorBitsZero(a / 2, bits - 1);
    }
  }

  lemma XorZero(a: byte)
    ensures Xor(a, 0) == a
  {
    assert Pow2(8) == 256;
    XorBitsZero(a as nat, 8);
  }

  /** Bitwise and of the low `bits` bits. */
  function AndBits(a: nat, b: nat, bits: nat): (r: nat)
    ensures r <= a
  {
    if bits == 0 then 0 else (if a % 2 == 1 && b % 2 == 1 then 1 else 0) + 2 * AndBits(a / 2, b / 2, bits - 1)
  }

  function And(a: byte, b: byte): byte
  {
    AndBits(a as nat, b as nat, 8) as byte
  }

  lemma {:induction false} AndBitsOnes(a: nat, bits: nat)
    requires a < Pow2(bits)
    ensures AndBits(a, Pow2(bits) - 1, bits) == a
    ensures AndBits(a, 0, bits) == 0
  {
    if bits > 0 {
      AndBitsOnes(a / 2, bits - 1);
    }
  }

  lemma AndMask(a: byte)
    ensures And(a, 255) == a
    ensures And(a, 0) == 0
  {
    assert Pow2(8) == 256;
    AndBitsOnes(a as nat, 8);
  }

  function Zeros(n: nat): (z: Bytes)
    ensures |z| == n
    ensures forall i :: 0 <= i < n ==> z[i] == 0
  {
    seq(n, _ => 0)
  }

  /** `s` with the bytes from `at` on replaced by `part`. */
  function Splice<T>(s: seq<T>, at: nat, part: seq<T>): (r: seq<T>)
    requires at + |part| <= |s|
    ensures |r| == |s|
  {
    s[..at] + part + s[at + |part|..]
  }

  function Flatten<T>(parts: seq<seq<T>>): seq<T>
  {
    if parts == [] then [] else parts[0] + Flatten(parts[1..])
  }

  lemma {:induction false} FlattenAppend<T>(parts: seq<seq<T>>, last: seq<T>)
    ensures Flatten(parts + [last]) == Flatten(parts) + last
  {
    if parts == [] {
      assert parts + [last] == [last];
      assert Flatten([last]) == last + Flatten([]);
    } else {
      assert (parts + [last])[1..] == parts[1..] + [last];
      FlattenAppend(parts[1..], last);
    }
  }
}
