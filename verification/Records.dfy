/**
  * Records on the wire. The three codecs share one record layout and one
  * salt, header, body decode loop; a `Format` holds what differs between them.
  */
module Records {
  import opened Cipher
  import opened Headers
  import opened Protocol
  import Nonces

  /** State both ends advance record by record. */
  datatype Core = Core(nonce: Bytes, sequence: nat, first: bool)

  /** One record as sealed: its payload, and the filler padding in front of it. */
  datatype Rec = Rec(payload: Bytes, padding: Bytes)

  datatype Item = Item(plain: Bytes, kind: Kind)

  const U32_SPACE := 0x1_0000_0000

  datatype Format = Format(
    saltLen: nat,
    saltBlock: Bytes -> Bytes,
    readSalt: Bytes -> Bytes,
    /** Bytes in front of the header of record `sequence`; the header's associated data. */
    prefix: nat -> Bytes,
    /** Exchange between padding and sealed payload. */
    mix: (nat, Bytes, Bytes) -> (Bytes, Bytes),
    /** Associated data of the payload, from its padding. */
    bind: Bytes -> Bytes,
    accepts: (nat, nat) -> bool,
    plainHeader: (nat, nat) -> Bytes,
    parseHeader: Bytes -> Result<Header>)

  predicate SaltLaw(f: Format, salt: Bytes)
  {
    |salt| == SALT_LEN ==> |f.saltBlock(salt)| == f.saltLen && f.readSalt(f.saltBlock(salt)) == salt
  }

  predicate MixLaw(f: Format, q: nat, p: Bytes, c: Bytes)
  {
    var m := f.mix(q, p, c);
    |m.0| == |p| && |m.1| == |c| && f.mix(q, m.0, m.1) == (p, c)
  }

  predicate HeaderLaw(f: Format, a: nat, b: nat)
  {
    f.accepts(a, b) ==> |f.plainHeader(a, b)| == HEADER_PLAIN_LEN && f.parseHeader(f.plainHeader(a, b)) == Ok(Header(a, b))
  }

  /** What a format must promise for its records to be readable. */
  ghost predicate WellFormed(f: Format) {
    && f.saltLen >= SALT_LEN
    && (forall salt :: SaltLaw(f, salt))
    && (forall q, p, c :: MixLaw(f, q, p, c))
    && (forall a, b :: HeaderLaw(f, a, b))
  }

  /** What a session fixes once: the cipher, the layout, and the salt with the key derived from it. */
  datatype Keys = Keys(suite: Suite, format: Format, salt: Bytes, key: Bytes)

  ghost predicate ValidKeys(k: Keys) {
    && Lawful(k.suite)
    && WellFormed(k.format)
    && |k.salt| == SALT_LEN
    && k.suite.derive(k.salt) == Some(k.key)
  }

  function NextSequence(sequence: nat): nat { (sequence + 1) % U32_SPACE }

  function NextCore(c: Core, payloadLen: nat): Core
  {
    Core(
      if payloadLen == 0 then Nonces.Succ(c.nonce) else Nonces.Succ(Nonces.Succ(c.nonce)),
      NextSequence(c.sequence),
      false)
  }

  // ---- Sealing ----

  predicate Sealable(f: Format, r: Rec) { f.accepts(|r.padding|, |r.payload|) }

  function SaltPart(k: Keys, c: Core): Bytes
  {
    if c.first then k.format.saltBlock(k.salt) else []
  }

  function HeadPart(k: Keys, c: Core, r: Rec): Bytes
  {
    k.suite.seal(k.key, c.nonce, k.format.prefix(c.sequence), k.format.plainHeader(|r.padding|, |r.payload|))
  }

  function SealedPayload(k: Keys, c: Core, r: Rec): Bytes
  {
    k.suite.seal(k.key, Nonces.Succ(c.nonce), k.format.bind(r.padding), r.payload)
  }

  /** Padding and sealed payload after mixing; an empty payload is not sealed and its padding not mixed. */
  function BodyParts(k: Keys, c: Core, r: Rec): (Bytes, Bytes)
  {
    if r.payload == [] then (r.padding, [])
    else k.format.mix(c.sequence, r.padding, SealedPayload(k, c, r))
  }

  /** One record in wire order. */
  function Wire(k: Keys, c: Core, r: Rec): Bytes
  {
    SaltPart(k, c) + k.format.prefix(c.sequence) + HeadPart(k, c, r) + BodyParts(k, c, r).0 + BodyParts(k, c, r).1
  }

  lemma WireLen(k: Keys, c: Core, r: Rec)
    requires ValidKeys(k)
    requires Sealable(k.format, r)
    ensures |SaltPart(k, c)| == if c.first then k.format.saltLen else 0
    ensures |HeadPart(k, c, r)| == HEADER_CIPHER_LEN
    ensures |BodyParts(k, c, r).0| == |r.padding|
    ensures |BodyParts(k, c, r).1| == BodyCipherLen(|r.payload|)
    ensures |Wire(k, c, r)| == |SaltPart(k, c)| + |k.format.prefix(c.sequence)| + HEADER_CIPHER_LEN
                               + |r.padding| + BodyCipherLen(|r.payload|)
  {
    var f := k.format;
    assert SaltLaw(f, k.salt);
    assert HeaderLaw(f, |r.padding|, |r.payload|);
    assert SealLaw(k.suite, k.key, c.nonce, f.prefix(c.sequence), f.plainHeader(|r.padding|, |r.payload|));
    assert SealLaw(k.suite, k.key, Nonces.Succ(c.nonce), f.bind(r.padding), r.payload);
    assert MixLaw(f, c.sequence, r.padding, SealedPayload(k, c, r));
  }

  // ---- Parsing ----

  datatype Step = AtSalt | AtHeader | AtBody(header: Header)

  /** A decoder between calls; past the header its nonce is already one ahead. */
  datatype Dec = Dec(key: Option<Bytes>, core: Core, step: Step)

  datatype Status =
    | NeedMore(minimum: nat, after: Dec)
    | Parsed(len: nat, item: Item, after: Dec)
    | Failed(error: Error)

  function PrefixStart(f: Format, core: Core): nat { if core.first then f.saltLen else 0 }

  function HeaderStart(f: Format, core: Core): nat { PrefixStart(f, core) + |f.prefix(core.sequence)| }

  function BodyStart(f: Format, core: Core): nat { HeaderStart(f, core) + HEADER_CIPHER_LEN }

  function BodyEnd(f: Format, core: Core, h: Header): nat
  {
    BodyStart(f, core) + h.paddingLen + BodyCipherLen(h.payloadLen)
  }

  /** The next record's boundary, once this record's header is opened and its body too if it has one. */
  function Boundary(d: Dec, bodyOpened: bool): Dec
  {
    Dec(d.key,
        Core(if bodyOpened then Nonces.Succ(d.core.nonce) else d.core.nonce, NextSequence(d.core.sequence), false),
        AtHeader)
  }

  function OpenBody(s: Suite, f: Format, d: Dec, key: Bytes, padding: Bytes, sealed: Bytes): Result<Bytes>
  {
    var mixed := f.mix(d.core.sequence, padding, sealed);
    s.open(key, d.core.nonce, f.bind(mixed.0), mixed.1)
  }

  function ParseBody(s: Suite, f: Format, d: Dec, max: nat, input: Bytes): (r: Status)
    requires d.step.AtBody?
    ensures r.Parsed? ==> HEADER_CIPHER_LEN <= r.len <= |input| && r.len <= max
    ensures r.NeedMore? ==> |input| < r.minimum <= max
  {
    var h := d.step.header;
    var start := BodyStart(f, d.core);
    var end := BodyEnd(f, d.core, h);
    if end > max then Failed(PayloadTooLarge)
    else if |input| < end then NeedMore(end, d)
    else if h.payloadLen == 0 then Parsed(end, Item([], ZeroChunk), Boundary(d, false))
    else if d.key.None? then Failed(Aead)
    else
      match OpenBody(s, f, d, d.key.value, input[start..start + h.paddingLen], input[start + h.paddingLen..end])
      case Err(e) => Failed(e)
      case Ok(plain) => Parsed(end, Item(plain, Data), Boundary(d, true))
  }

  /** The header opened and understood, or why not. */
  function OpenHeader(s: Suite, f: Format, d: Dec, prefix: Bytes, sealed: Bytes): Result<Header>
  {
    if d.key.None? then Err(Aead)
    else
      match s.open(d.key.value, d.core.nonce, prefix, sealed)
      case Err(e) => Err(e)
      case Ok(plain) => f.parseHeader(plain)
  }

  function ParseHeader(s: Suite, f: Format, d: Dec, max: nat, input: Bytes): (r: Status)
    requires d.step.AtHeader?
    ensures r.Parsed? ==> HEADER_CIPHER_LEN <= r.len <= |input| && r.len <= max
    ensures r.NeedMore? ==> |input| < r.minimum <= max
  {
    var start := HeaderStart(f, d.core);
    var end := BodyStart(f, d.core);
    if end > max then Failed(PayloadTooLarge)
    else if |input| < end then NeedMore(end, d)
    else
      match OpenHeader(s, f, d, input[PrefixStart(f, d.core)..start], input[start..end])
      case Err(e) => Failed(e)
      case Ok(h) =>
        var d' := d.(core := d.core.(nonce := Nonces.Succ(d.core.nonce)), step := AtBody(h));
        if h.paddingLen == 0 && h.payloadLen == 0 then Parsed(end, Item([], ZeroChunk), Boundary(d', false))
        else ParseBody(s, f, d', max, input)
  }

  function ParseSalt(s: Suite, f: Format, d: Dec, max: nat, input: Bytes): (r: Status)
    requires d.step.AtSalt?
    ensures r.Parsed? ==> HEADER_CIPHER_LEN <= r.len <= |input| && r.len <= max
    ensures r.NeedMore? ==> |input| < r.minimum <= max
  {
    if f.saltLen > max then Failed(PayloadTooLarge)
    else if |input| < f.saltLen then NeedMore(f.saltLen, d)
    else
      var key := if d.key.Some? then d.key else s.derive(f.readSalt(input[..f.saltLen]));
      if key.None? then Failed(Kdf)
      else ParseHeader(s, f, d.(key := key, step := AtHeader), max, input)
  }

  /** Open the record at the start of `input`, or say how many bytes that takes. */
  function Parse(s: Suite, f: Format, d: Dec, max: nat, input: Bytes): (r: Status)
    ensures r.Parsed? ==> HEADER_CIPHER_LEN <= r.len <= |input| && r.len <= max
    ensures r.NeedMore? ==> |input| < r.minimum <= max
  {
    match d.step
    case AtSalt => ParseSalt(s, f, d, max, input)
    case AtHeader => ParseHeader(s, f, d, max, input)
    case AtBody(_) => ParseBody(s, f, d, max, input)
  }
}
