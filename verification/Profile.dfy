/**
  * The v6 shaped traffic profile: every field a bounded pick from a keyed
  * pseudo-random function, the padding target search, and the chunk window.
  */
module Profile {
  import opened Protocol

  const MAX_EXTRA_TARGET_PADDING := 0x02da
  const CHUNK_MAX_RAW_BOUND := 0x3fff
  const MTU_CAP := 0x05b4
  const TARGET_DIRECT_LIMIT := 0x05b3
  const TARGET_U16_LIMIT := 0xfffe
  const U32_MAX := 0xffff_ffff
  const HANDSHAKE_DOMAIN := 0x7053
  const MIX_HANDSHAKE_DOMAIN := 0x51a7
  const CHUNK_INITIAL_DOMAIN := 0xf17c
  const WRITE_PERCENT_DOMAIN := 0x504c

  /** What a PRF output is drawn for. */
  datatype Label =
    | Padding | BitPercent | Motif | MixOffset | Generator
    | PadMin | PadMax | PadCount | PadInterval | SmallLimit | BitMin | BitMax
    | PrefixMin | PrefixMax | MixMode | MixRounds | MixStride | MixOffsetBase | MixBlock
    | ChunkPolicy | ChunkInitial | ChunkMax | ChunkStep | ChunkJitter | ChunkBucket | IdleReset
    | WritePolicy | WriteFirst | WriteBucket | WriteSeq | WriteJitter | RecordPrefix | PayloadPadding
    | WriteTarget | WriteJitterValue | WriteNext | ChunkSize | ChunkJitterValue

  /** The keyed functions of one PSK: a 32-bit PRF, a byte stream, and the salt shuffle and mask. */
  datatype Prf = Prf(
    word: (Label, nat, nat) -> nat,
    stream: (Label, nat, nat, nat) -> byte,
    shuffle: (nat, nat) -> nat,
    mask: nat -> byte)

  datatype Profile = Profile(
    prf: Prf,
    generator: nat,
    padMin: nat,
    padMax: nat,
    padCount: nat,
    padInterval: nat,
    smallLimit: nat,
    bitMin: nat,
    bitMax: nat,
    prefixMin: nat,
    prefixMax: nat,
    mixMode: nat,
    mixRounds: nat,
    mixStride: nat,
    mixOffsetBase: nat,
    mixBlock: nat,
    chunkPolicy: nat,
    chunkInitial: nat,
    firstRecordCap: nat,
    chunkMax: nat,
    chunkStep: nat,
    chunkJitter: nat,
    idleResetSecs: nat,
    writePolicy: nat,
    writeFirst: nat,
    chunkBuckets: seq<nat>,
    writeBuckets: seq<nat>,
    writeSeq: seq<nat>,
    writeJitter: nat,
    writeJitterPercent: nat,
    g1: nat,
    g2: nat,
    g3: nat,
    g4: nat,
    g5: nat,
    g6: nat,
    saltBlockLen: nat,
    mixStrideHandshake: nat,
    mixRoundsHandshake: nat)

  function Pick(raw: nat, lo: nat, hi: nat): (n: nat)
    ensures lo <= n
    ensures lo <= hi ==> n <= hi
  {
    if hi <= lo then lo else lo + raw % (hi - lo + 1)
  }

  function Buckets(f: Prf, tag: Label, lo: nat, hi: nat, n: nat): (b: seq<nat>)
    requires lo <= hi
    ensures |b| == n
    ensures forall i :: 0 <= i < n ==> lo <= b[i] <= hi
  {
    if n == 0 then [] else Buckets(f, tag, lo, hi, n - 1) + [Pick(f.word(tag, 0, n - 1), lo, hi)]
  }

  /** The bounds every derived profile keeps, and all the rest of the model relies on. */
  ghost predicate InRange(p: Profile) {
    && 0xb8 <= p.padMax <= MAX_EXTRA_TARGET_PADDING
    && p.padMin <= p.padMax
    && 2 <= p.padInterval
    && 8 <= p.prefixMin <= p.prefixMax <= V6_MAX_PREFIX_LEN
    && 0x20 <= p.saltBlockLen <= SALT_LEN + 0x80
    && MixInRange(p)
    && 0x200 <= p.chunkInitial <= MTU_CAP
    && 0x100 <= p.firstRecordCap <= Min(p.chunkInitial, 0x300)
    && 0x2000 <= p.chunkMax <= CHUNK_MAX_RAW_BOUND
    && 0x400 <= p.chunkStep <= 0x0b68
    && p.writeFirst <= 8
    && |p.chunkBuckets| == |p.writeBuckets| == |p.writeSeq| == 8
    && (forall i :: 0 <= i < 8 ==> 0x1000 <= p.chunkBuckets[i] <= p.chunkMax)
    && (forall i :: 0 <= i < 8 ==> 0x140 <= p.writeBuckets[i] <= MTU_CAP)
    && (forall i :: 0 <= i < 8 ==> 0x168 <= p.writeSeq[i] <= MTU_CAP)
    && p.writeJitter <= 0x60
    && p.writeJitterPercent <= 0x30
    && GeneratorsInRange(p)
  }

  ghost predicate MixInRange(p: Profile) {
    && 1 <= p.mixRounds <= 3
    && 2 <= p.mixStride <= 13
    && 8 <= p.mixBlock <= 0x40
  }

  ghost predicate GeneratorsInRange(p: Profile) {
    && 0x18 <= p.bitMin <= p.bitMax <= 0x4c
    && 0x18 <= p.g1 <= 0x80
    && 0x10 <= p.g2 <= 0x60
    && 0x10 <= p.g3 <= 0x60
    && p.g4 <= 9
    && 1 <= p.g5 <= 8
    && 7 <= p.g6 <= 0x17
  }

  /** Every pick of `Profile::derive`, over an arbitrary keyed function. */
  function Derive(f: Prf): (p: Profile)
    ensures InRange(p)
  {
    var w := (tag: Label, domain: nat) => f.word(tag, 0, domain);
    var padMin := Pick(w(PadMin, 0), 0x18, 0xa0);
    var prefixMinHandshake := Pick(w(PrefixMin, HANDSHAKE_DOMAIN), 0x10, 0x60);
    var prefixMaxHandshake :=
      Min(prefixMinHandshake + Pick(w(PrefixMax, HANDSHAKE_DOMAIN), 0x10, 0xa0), V6_MAX_PREFIX_LEN);
    var prefixMin := Pick(w(PrefixMin, 0), 0x08, 0x50);
    var chunkInitial := Pick(w(ChunkInitial, 0), 0x200, MTU_CAP);
    var chunkMax := Pick(w(ChunkMax, 0), 0x2000, CHUNK_MAX_RAW_BOUND);
    var firstCap := Pick(w(ChunkInitial, CHUNK_INITIAL_DOMAIN), 0x100, 0x300);
    Profile(
      f,
      w(Generator, 0) % 4,
      padMin,
      Min(padMin + Pick(w(PadMax, 0), 0xa0, 0x3c0), MAX_EXTRA_TARGET_PADDING),
      Pick(w(PadCount, 0), 2, 8),
      Pick(w(PadInterval, 0), 2, 0x0b),
      Pick(w(SmallLimit, 0), 0x60, 0x300),
      Pick(w(BitMin, 0), 0x18, 0x29),
      Pick(w(BitMax, 0), 0x3a, 0x4c),
      prefixMin,
      Min(prefixMin + Pick(w(PrefixMax, 0), 0x10, 0xa0), V6_MAX_PREFIX_LEN),
      w(MixMode, 0) % 3,
      Pick(w(MixRounds, 0), 1, 3),
      Pick(w(MixStride, 0), 2, 13),
      Pick(w(MixOffsetBase, 0), 0, 15),
      Pick(w(MixBlock, 0), 8, 0x40),
      w(ChunkPolicy, 0) % 3,
      chunkInitial,
      Max(0x100, Min(firstCap, Min(chunkInitial, 0x300))),
      chunkMax,
      Min(Pick(w(ChunkStep, 0), 0x400, 0x1000), 0x0b68),
      Min(Pick(w(ChunkJitter, 0), 0x10, 0xc0), 0x0b6),
      Pick(w(IdleReset, 0), 0x0c, 0x5a),
      w(WritePolicy, 0) % 3,
      Pick(w(WriteFirst, 0), 4, 8),
      Buckets(f, ChunkBucket, 0x1000, chunkMax, 8),
      Buckets(f, WriteBucket, 0x140, MTU_CAP, 8),
      Buckets(f, WriteSeq, 0x168, MTU_CAP, 8),
      Pick(w(WriteJitter, 0), 0x08, 0x60),
      Pick(w(WritePolicy, WRITE_PERCENT_DOMAIN), 8, 0x30),
      Pick(w(Generator, 1), 0x18, 0x80),
      Pick(w(Generator, 2), 0x10, 0x60),
      Pick(w(Generator, 3), 0x10, 0x60),
      Pick(w(Generator, 4), 0x00, 0x09),
      Pick(w(Generator, 5), 0x01, 0x08),
      Pick(w(Generator, 6), 0x07, 0x17),
      SALT_LEN + Pick(w(RecordPrefix, HANDSHAKE_DOMAIN), prefixMinHandshake, prefixMaxHandshake),
      Pick(w(MixStride, MIX_HANDSHAKE_DOMAIN), 0x11, 0xfb),
      Pick(w(MixRounds, MIX_HANDSHAKE_DOMAIN), 1, 4))
  }

  /** A profile that some keyed function derives is in range, so ranges are all the model keeps of it. */
  type Shape = p: Profile | InRange(p)
    ghost witness Derive(Prf((_, _, _) => 0, (_, _, _, _) => 0, (_, _) => 0, _ => 0))

  function RecordPrefixLen(p: Profile, sequence: nat): (n: nat)
    requires InRange(p)
    ensures 8 <= n <= V6_MAX_PREFIX_LEN
  {
    Pick(p.prf.word(RecordPrefix, sequence, 0), p.prefixMin, p.prefixMax)
  }

  function MaxPaddingLen(p: Profile): nat { p.padMax + MAX_EXTRA_TARGET_PADDING }

  /** First guess of the padding target, before the search raises it to the current length. */
  function TargetStart(p: Profile, sequence: nat, len: nat): (t: nat)
    requires InRange(p)
    ensures 1 <= t <= MTU_CAP + 0x60
  {
    var t :=
      if sequence < p.writeFirst then p.writeSeq[sequence]
      else p.writeBuckets[p.prf.word(WriteTarget, sequence, len) % 8];
    if p.writePolicy == 2 then
      var j := p.prf.word(WriteJitterValue, sequence, 0) % (2 * p.writeJitter + 1) - p.writeJitter;
      Max(t + j, 1)
    else t
  }

  function JitterBound(p: Profile, len: nat): nat
  {
    Min(MAX_EXTRA_TARGET_PADDING, p.writeJitterPercent * len / 100)
  }

  lemma JitterBoundLimit(p: Profile, len: nat)
    requires p.writeJitterPercent <= 0x30
    requires len <= TARGET_DIRECT_LIMIT
    ensures 0 <= JitterBound(p, len) <= 700
  {
    var percent := p.writeJitterPercent;
    assert percent * len <= percent * TARGET_DIRECT_LIMIT;
  }

  function TargetJittered(p: Profile, sequence: nat, len: nat): (t: nat)
    requires InRange(p)
    requires len <= TARGET_DIRECT_LIMIT
    ensures 1 <= t <= 2256
  {
    var t := TargetStart(p, sequence, len);
    var bound := JitterBound(p, len);
    JitterBoundLimit(p, len);
    if p.prf.word(WriteTarget, sequence, bound) % 2 == 0 then t + bound
    else if t > bound / 2 then t - bound / 2
    else t
  }

  /**
    * The length a record aims for. The search ends at or above the current
    * length; for every length it searches from, the early exit past 65535 is
    * never taken.
    */
  method WriteTargetLen(p: Profile, sequence: nat, len: nat) returns (target: nat)
    requires InRange(p)
    ensures len <= TARGET_DIRECT_LIMIT ==> len <= target <= 2256
    ensures TARGET_DIRECT_LIMIT < len <= TARGET_U16_LIMIT ==> target == len
    ensures TARGET_U16_LIMIT < len ==> target == U32_MAX
    ensures target == TargetLen(p, sequence, len)
  {
    if len > TARGET_DIRECT_LIMIT {
      return if len <= TARGET_U16_LIMIT then len else U32_MAX;
    }
    target := TargetJittered(p, sequence, len);
    while len > target
      invariant 1 <= target <= 2256
      invariant Raised(p, sequence, len, target) == TargetLen(p, sequence, len)
      decreases len - target
    {
      var cand := p.writeBuckets[p.prf.word(WriteNext, sequence, target) % 8];
      if target < cand {
        target := cand;
      } else {
        target := target + p.padMax;
        if target > 0xffff {
          assert false;
        }
      }
    }
  }

  /** The search loop as a recursion: raise the target until it reaches `len`. */
  function Raised(p: Profile, sequence: nat, len: nat, target: nat): (t: nat)
    requires InRange(p)
    ensures len <= t
    ensures target <= 2256 && len <= TARGET_DIRECT_LIMIT ==> t <= 2256
    decreases len - target
  {
    if len <= target then target
    else
      var cand := p.writeBuckets[p.prf.word(WriteNext, sequence, target) % 8];
      Raised(p, sequence, len, if target < cand then cand else target + p.padMax)
  }

  function TargetLen(p: Profile, sequence: nat, len: nat): (t: nat)
    requires InRange(p)
    ensures len <= U32_MAX ==> len <= t
    ensures len <= TARGET_DIRECT_LIMIT ==> t <= 2256
  {
    if len > TARGET_U16_LIMIT then U32_MAX
    else if len > TARGET_DIRECT_LIMIT then len
    else Raised(p, sequence, len, TargetJittered(p, sequence, len))
  }

  /** Padding chosen before the target search. */
  function BasePadding(p: Profile, sequence: nat, payloadLen: nat): (n: nat)
    requires InRange(p)
    ensures n <= p.padMax
  {
    if sequence < p.padCount || (payloadLen != 0 && payloadLen <= p.smallLimit) || sequence % p.padInterval == 0
    then Pick(p.prf.word(PayloadPadding, sequence, payloadLen), p.padMin, p.padMax)
    else 0
  }

  /** Padding of one record; never more than the space `reserve` holds for it. */
  function FinalPaddingLen(p: Profile, sequence: nat, prefixLen: nat, payloadLen: nat, first: bool): (n: nat)
    requires InRange(p)
    ensures n <= MaxPaddingLen(p)
    ensures n <= V6_MAX_PADDING_RESERVE
  {
    var base := BasePadding(p, sequence, payloadLen);
    var len := prefixLen + HEADER_CIPHER_LEN + base + BodyCipherLen(payloadLen)
               + if first then p.saltBlockLen else 0;
    var target := TargetLen(p, sequence, len);
    if len < target then base + Min(MAX_EXTRA_TARGET_PADDING, target - len) else base
  }

  /** A whole shaped record, salt block included, fits the wire cap. */
  lemma ShapedRecordFits(p: Profile, sequence: nat, payloadLen: nat, first: bool)
    requires InRange(p)
    requires payloadLen <= MAX_PACKET_SIZE_V6
    ensures
      p.saltBlockLen + RecordPrefixLen(p, sequence) + HEADER_CIPHER_LEN
      + FinalPaddingLen(p, sequence, RecordPrefixLen(p, sequence), payloadLen, first)
      + BodyCipherLen(payloadLen) <= V6_WIRE_CAP
    ensures
      p.saltBlockLen + RecordPrefixLen(p, sequence) + HEADER_CIPHER_LEN + MaxPaddingLen(p)
      + payloadLen + TAG_LEN <= V6_WIRE_CAP
  {
  }

  /** Payload budget of a stream record for the current window. */
  function ChunkLimit(p: Profile, sequence: nat, current: nat): (n: nat)
    requires InRange(p)
    ensures 0x40 <= n <= p.chunkMax
  {
    var cur := if current == 0 then p.chunkInitial else current;
    var shaped :=
      if p.chunkPolicy == 1 then p.chunkBuckets[p.prf.word(ChunkSize, sequence, cur) % 8]
      else if p.chunkPolicy == 2 then
        var j := p.prf.word(ChunkJitterValue, sequence, cur) % (2 * p.chunkJitter + 1) - p.chunkJitter;
        Max(cur + j, 0x40)
      else cur;
    Max(0x40, Min(shaped, p.chunkMax))
  }

  function AdvanceChunkSize(p: Profile, current: nat): nat
  {
    if current == 0 then p.chunkInitial else Min(current + p.chunkStep, p.chunkMax)
  }
}
