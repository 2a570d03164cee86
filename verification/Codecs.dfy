/** The three record formats, and that each keeps the promises the record layer relies on. */
module Codecs {
  import opened Headers
  import opened Protocol
  import opened Profile
  import opened Records
  import Generators
  import Mixing
  import Salts

  function HeaderBytes(paddingLen: nat, payloadLen: nat): (h: Bytes)
    ensures |h| == HEADER_PLAIN_LEN
  {
    PlainHeader(LowU16(paddingLen), LowU16(payloadLen))
  }

  /** The cast to a 16-bit field. */
  function LowU16(n: nat): (r: nat)
    ensures r <= MAX_PACKET_SIZE_V6
    ensures n <= MAX_PACKET_SIZE_V6 ==> r == n
  {
    n % 0x1_0000
  }

  /** v4 parse: length limits, and no padding on an empty record. */
  function V4Header(h: Bytes): Result<Header>
  {
    if |h| != HEADER_PLAIN_LEN then Err(Truncated)
    else
      var header :- ParseV4(h);
      if header.payloadLen == 0 && header.paddingLen != 0 then Err(ZeroChunkWithPadding) else Ok(header)
  }

  function V6Header(h: Bytes): Result<Header>
  {
    if |h| != HEADER_PLAIN_LEN then Err(Truncated) else ParseV6(h)
  }

  function UnshapedHeader(h: Bytes): Result<Header>
  {
    var header :- V6Header(h);
    if header.paddingLen != 0 then Err(InvalidHeader) else Ok(header)
  }

  function V4Mix(padding: Bytes, sealed: Bytes): (Bytes, Bytes)
  {
    (Mixing.Exchange(padding, sealed, Mixing.EvenPick), Mixing.Exchange(sealed, padding, Mixing.EvenPick))
  }

  function V4(): Format
  {
    Format(SALT_LEN, salt => salt, block => block, _ => [],
           (_, padding, sealed) => V4Mix(padding, sealed),
           _ => [],
           (a, b) => a <= MAX_PACKET_SIZE && b <= MAX_PACKET_SIZE && (b == 0 ==> a == 0),
           HeaderBytes, V4Header)
  }

  function Unshaped(): Format
  {
    Format(SALT_LEN, salt => salt, block => block, _ => [],
           (_, padding, sealed) => (padding, sealed),
           _ => [],
           (a, b) => a == 0 && b <= MAX_PACKET_SIZE_V6,
           HeaderBytes, UnshapedHeader)
  }

  function SaltBlock(p: Shape, salt: Bytes): Bytes
  {
    if |salt| != SALT_LEN then []
    else Salts.Hidden(p, Generators.Official(p, U32_SPACE - 1, p.saltBlockLen), salt, SALT_LEN)
  }

  function ReadSalt(p: Shape, block: Bytes): Bytes
  {
    if |block| != p.saltBlockLen then [] else Salts.Extracted(p, block)
  }

  function ShapedPrefix(p: Shape, sequence: nat): (b: Bytes)
    ensures |b| == RecordPrefixLen(p, sequence)
  {
    Generators.Official(p, sequence, RecordPrefixLen(p, sequence))
  }

  function ShapedMix(p: Shape, sequence: nat, padding: Bytes, sealed: Bytes): (Bytes, Bytes)
  {
    Mixing.Rounds(p, sequence, padding, sealed, p.mixRounds)
  }

  function Shaped(p: Shape): Format
  {
    Format(p.saltBlockLen,
           (salt: Bytes) => SaltBlock(p, salt),
           (block: Bytes) => ReadSalt(p, block),
           (sequence: nat) => ShapedPrefix(p, sequence),
           (sequence: nat, padding: Bytes, sealed: Bytes) => ShapedMix(p, sequence, padding, sealed),
           padding => padding,
           (a, b) => a <= MAX_PACKET_SIZE_V6 && b <= MAX_PACKET_SIZE_V6,
           HeaderBytes, V6Header)
  }

  lemma HeaderBytesParse(a: nat, b: nat)
    requires a <= MAX_PACKET_SIZE_V6 && b <= MAX_PACKET_SIZE_V6
    ensures V6Header(HeaderBytes(a, b)) == Ok(Header(a, b))
    ensures a <= MAX_PACKET_SIZE && b <= MAX_PACKET_SIZE && (b == 0 ==> a == 0) ==>
      V4Header(HeaderBytes(a, b)) == Ok(Header(a, b))
  {
    HeaderRoundTrip(a, b);
    var h := PlainHeader(a, b);
    assert HeaderBytes(a, b) == h;
  }

  lemma V4MixUndoes(padding: Bytes, sealed: Bytes)
    ensures
      var m := V4Mix(padding, sealed);
      |m.0| == |padding| && |m.1| == |sealed| && V4Mix(m.0, m.1) == (padding, sealed)
  {
    Mixing.ExchangeUndoes(padding, sealed, Mixing.EvenPick);
    Mixing.ExchangeUndoes(sealed, padding, Mixing.EvenPick);
  }

  lemma V4WellFormed()
    ensures WellFormed(V4())
  {
    var f := V4();
    forall q, p, c
      ensures MixLaw(f, q, p, c)
    {
      V4MixUndoes(p, c);
    }
    forall a, b
      ensures HeaderLaw(f, a, b)
    {
      if f.accepts(a, b) {
        HeaderBytesParse(a, b);
      }
    }
  }

  lemma UnshapedWellFormed()
    ensures WellFormed(Unshaped())
  {
    var f := Unshaped();
    forall a, b
      ensures HeaderLaw(f, a, b)
    {
      if f.accepts(a, b) {
        HeaderBytesParse(a, b);
      }
    }
  }

  lemma ShapedSalt(p: Shape, salt: Bytes)
    requires |salt| == SALT_LEN
    ensures |SaltBlock(p, salt)| == p.saltBlockLen
    ensures ReadSalt(p, SaltBlock(p, salt)) == salt
  {
    Salts.ExtractHidden(p, Generators.Official(p, U32_SPACE - 1, p.saltBlockLen), salt);
  }

  lemma ShapedMixUndoes(p: Shape, q: nat, padding: Bytes, sealed: Bytes)
    ensures
      var m := ShapedMix(p, q, padding, sealed);
      |m.0| == |padding| && |m.1| == |sealed| && ShapedMix(p, q, m.0, m.1) == (padding, sealed)
  {
    Mixing.MixUndoes(p, q, padding, sealed);
  }

  lemma ShapedWellFormed(p: Shape)
    ensures WellFormed(Shaped(p))
  {
    var f := Shaped(p);
    forall salt
      ensures SaltLaw(f, salt)
    {
      if |salt| == SALT_LEN {
        ShapedSalt(p, salt);
      }
    }
    forall q, x, c
      ensures MixLaw(f, q, x, c)
    {
      ShapedMixUndoes(p, q, x, c);
    }
    forall a, b
      ensures HeaderLaw(f, a, b)
    {
      if f.accepts(a, b) {
        HeaderBytesParse(a, b);
      }
    }
  }
}
