/**
  * Byte exchange between a record's padding and its cipher text: the v4 swap of
  * even positions and the v6 multi-round mix.
  */
module Mixing {
  import opened Arithmetic
  import opened Protocol
  import opened Profile
  import opened Words

  type Pick = nat -> bool

  /** `mine` after exchanging every picked position that `other` also has. */
  function Exchange(mine: Bytes, other: Bytes, pick: Pick): (r: Bytes)
    ensures |r| == |mine|
    ensures forall i :: 0 <= i < |r| ==> r[i] == if i < |other| && pick(i) then other[i] else mine[i]
  {
    seq(|mine|, i requires 0 <= i < |mine| => if i < |other| && pick(i) then other[i] else mine[i])
  }

  /** Exchanging the same positions twice restores both sides. */
  lemma ExchangeUndoes(p: Bytes, c: Bytes, pick: Pick)
    ensures Exchange(Exchange(p, c, pick), Exchange(c, p, pick), pick) == p
  {
  }

  /** Two exchanges are one on the symmetric difference of their positions. */
  lemma ExchangeComposes(p: Bytes, c: Bytes, first: Pick, second: Pick, both: Pick)
    requires forall i: nat :: both(i) == (first(i) != second(i))
    ensures Exchange(Exchange(p, c, first), Exchange(c, p, first), second) == Exchange(p, c, both)
  {
  }

  /** Positions one v6 round exchanges, for sides that share `n` positions. */
  predicate RoundPicks(p: Profile, sequence: nat, n: nat, round: nat, i: nat)
    requires MixInRange(p)
  {
    var stride := p.mixStride + round % 3;
    if p.mixMode == 1 then i / p.mixBlock < n / p.mixBlock && (i / p.mixBlock) % 2 == round % 2
    else if p.mixMode == 2 then i % stride == (p.prf.word(MixOffset, sequence, round) + p.mixOffsetBase) % stride
    else i % stride == p.mixOffsetBase % stride
  }

  /** Positions exchanged by an odd number of the first `rounds` rounds. */
  predicate NetPicks(p: Profile, sequence: nat, n: nat, rounds: nat, i: nat)
    requires MixInRange(p)
  {
    rounds > 0 && (NetPicks(p, sequence, n, rounds - 1, i) != RoundPicks(p, sequence, n, rounds - 1, i))
  }

  function RoundPick(p: Profile, sequence: nat, n: nat, round: nat): Pick
    requires MixInRange(p)
  {
    (i: nat) => RoundPicks(p, sequence, n, round, i)
  }

  function NetPick(p: Profile, sequence: nat, n: nat, rounds: nat): Pick
    requires MixInRange(p)
  {
    (i: nat) => NetPicks(p, sequence, n, rounds, i)
  }

  /** Rounds applied one after the other, as the code runs them. */
  function Rounds(p: Profile, sequence: nat, pad: Bytes, cipher: Bytes, rounds: nat): (r: (Bytes, Bytes))
    requires MixInRange(p)
    ensures |r.0| == |pad| && |r.1| == |cipher|
  {
    if rounds == 0 then (pad, cipher)
    else
      var (p', c') := Rounds(p, sequence, pad, cipher, rounds - 1);
      var pick := RoundPick(p, sequence, Min(|pad|, |cipher|), rounds - 1);
      (Exchange(p', c', pick), Exchange(c', p', pick))
  }

  /** All rounds together are one exchange on the positions picked an odd number of times. */
  lemma {:induction false} RoundsAreOneExchange(p: Profile, sequence: nat, pad: Bytes, cipher: Bytes, rounds: nat)
    requires MixInRange(p)
    ensures
      var net := NetPick(p, sequence, Min(|pad|, |cipher|), rounds);
      Rounds(p, sequence, pad, cipher, rounds) == (Exchange(pad, cipher, net), Exchange(cipher, pad, net))
  {
    var n := Min(|pad|, |cipher|);
    if rounds == 0 {
      var net := NetPick(p, sequence, n, 0);
      assert Exchange(pad, cipher, net) == pad;
      assert Exchange(cipher, pad, net) == cipher;
    } else {
      RoundsAreOneExchange(p, sequence, pad, cipher, rounds - 1);
      var before := NetPick(p, sequence, n, rounds - 1);
      var now := RoundPick(p, sequence, n, rounds - 1);
      var net := NetPick(p, sequence, n, rounds);
      ExchangeComposes(pad, cipher, before, now, net);
      ExchangeComposes(cipher, pad, before, now, net);
    }
  }

  /** Mixing is its own inverse, for every profile, sequence number and pair of lengths. */
  lemma MixUndoes(p: Profile, sequence: nat, pad: Bytes, cipher: Bytes)
    requires MixInRange(p)
    ensures
      var (p1, c1) := Rounds(p, sequence, pad, cipher, p.mixRounds);
      Rounds(p, sequence, p1, c1, p.mixRounds) == (pad, cipher)
  {
    var (p1, c1) := Rounds(p, sequence, pad, cipher, p.mixRounds);
    var net := NetPick(p, sequence, Min(|pad|, |cipher|), p.mixRounds);
    RoundsAreOneExchange(p, sequence, pad, cipher, p.mixRounds);
    RoundsAreOneExchange(p, sequence, p1, c1, p.mixRounds);
    ExchangeUndoes(pad, cipher, net);
    ExchangeUndoes(cipher, pad, net);
  }

  function StridePick(stride: nat, offset: nat): Pick
    requires stride >= 1
  {
    (i: nat) => i % stride == offset
  }

  /** Swap every `stride`-th position from `offset`, in place. */
  method SwapStrided(pad: array<byte>, cipher: array<byte>, n: nat, offset: nat, stride: nat)
    requires pad != cipher
    requires n == Min(pad.Length, cipher.Length)
    requires offset < stride
    modifies pad, cipher
    ensures pad[..] == Exchange(old(pad[..]), old(cipher[..]), StridePick(stride, offset))
    ensures cipher[..] == Exchange(old(cipher[..]), old(pad[..]), StridePick(stride, offset))
  {
    var at := offset;
    DivModUnique(offset, stride, 0, offset);
    while at < n
      invariant at % stride == offset
      invariant forall i :: 0 <= i < pad.Length ==>
        pad[i] == if i < n && i < at && i % stride == offset then old(cipher[i]) else old(pad[i])
      invariant forall i :: 0 <= i < cipher.Length ==>
        cipher[i] == if i < n && i < at && i % stride == offset then old(pad[i]) else old(cipher[i])
    {
      pad[at], cipher[at] := cipher[at], pad[at];
      NextResidue(at, stride);
      at := at + stride;
    }
  }

  function RangePick(lo: nat, hi: nat): Pick { (i: nat) => lo <= i < hi }

  /** Blocks below `k` with the given parity, among the first `count` whole blocks. */
  function BlockPick(block: nat, count: nat, parity: nat, k: nat): Pick
    requires block >= 1
  {
    (i: nat) => i / block < count && i / block < k && (i / block) % 2 == parity
  }

  lemma BlockRange(i: nat, block: nat, k: nat)
    requires block >= 1
    ensures i / block == k <==> k * block <= i < k * block + block
  {
    assert i == (i / block) * block + i % block;
    if k * block <= i < k * block + block {
      DivModUnique(i, block, k, i - k * block);
    }
  }

  lemma BlockStep(block: nat, count: nat, k: nat)
    requires block >= 1
    requires k < count
    ensures
      var parity := k % 2;
      var before := BlockPick(block, count, parity, k);
      var after := BlockPick(block, count, parity, k + 2);
      var here := RangePick(k * block, k * block + block);
      forall i: nat :: after(i) == (before(i) != here(i))
  {
    forall i: nat
      ensures
        var parity := k % 2;
        BlockPick(block, count, parity, k + 2)(i)
        == (BlockPick(block, count, parity, k)(i) != RangePick(k * block, k * block + block)(i))
    {
      BlockRange(i, block, k);
    }
  }

  method SwapRange(pad: array<byte>, cipher: array<byte>, lo: nat, hi: nat)
    requires pad != cipher
    requires lo <= hi <= pad.Length && hi <= cipher.Length
    modifies pad, cipher
    ensures pad[..] == Exchange(old(pad[..]), old(cipher[..]), RangePick(lo, hi))
    ensures cipher[..] == Exchange(old(cipher[..]), old(pad[..]), RangePick(lo, hi))
  {
    for at := lo to hi
      invariant forall i :: 0 <= i < pad.Length ==> pad[i] == if lo <= i < at then old(cipher[i]) else old(pad[i])
      invariant forall i :: 0 <= i < cipher.Length ==> cipher[i] == if lo <= i < at then old(pad[i]) else old(cipher[i])
    {
      pad[at], cipher[at] := cipher[at], pad[at];
    }
  }

  /** Swap alternate whole blocks, starting with block `parity`, in place. */
  method SwapBlocks(pad: array<byte>, cipher: array<byte>, n: nat, block: nat, count: nat, parity: nat)
    requires pad != cipher
    requires n == Min(pad.Length, cipher.Length)
    requires block >= 1
    requires count == n / block
    requires parity < 2
    modifies pad, cipher
    ensures pad[..] == Exchange(old(pad[..]), old(cipher[..]), BlockPick(block, count, parity, count))
    ensures cipher[..] == Exchange(old(cipher[..]), old(pad[..]), BlockPick(block, count, parity, count))
  {
    ghost var p0, c0 := pad[..], cipher[..];
    var k := parity;
    NoBlocks(p0, c0, block, count, parity);
    NoBlocks(c0, p0, block, count, parity);
    while k < count
      invariant k % 2 == parity
      invariant pad[..] == Exchange(p0, c0, BlockPick(block, count, parity, k))
      invariant cipher[..] == Exchange(c0, p0, BlockPick(block, count, parity, k))
    {
      BlockEnd(n, block, k);
      SwapRange(pad, cipher, k * block, k * block + block);
      BlockStep(block, count, k);
      ghost var before, here := BlockPick(block, count, parity, k), RangePick(k * block, k * block + block);
      ghost var after := BlockPick(block, count, parity, k + 2);
      ExchangeComposes(p0, c0, before, here, after);
      ExchangeComposes(c0, p0, before, here, after);
      k := k + 2;
    }
    AllBlocks(p0, c0, block, count, parity, k);
    AllBlocks(c0, p0, block, count, parity, k);
  }

  lemma NoBlocks(p: Bytes, c: Bytes, block: nat, count: nat, parity: nat)
    requires block >= 1 && parity < 2
    ensures Exchange(p, c, BlockPick(block, count, parity, parity)) == p
  {
  }

  lemma AllBlocks(p: Bytes, c: Bytes, block: nat, count: nat, parity: nat, k: nat)
    requires block >= 1
    requires count <= k
    ensures Exchange(p, c, BlockPick(block, count, parity, k)) == Exchange(p, c, BlockPick(block, count, parity, count))
  {
  }

  lemma BlockEnd(n: nat, block: nat, k: nat)
    requires block >= 1
    requires k < n / block
    ensures 0 <= k * block <= k * block + block <= n
  {
    assert n == (n / block) * block + n % block;
    assert (n / block - k) * block == (n / block) * block - k * block;
    MulAtLeast(n / block - k, block);
    assert k * block >= 0;
  }

  /** One v6 round, in place. */
  method MixRound(p: Profile, sequence: nat, round: nat, pad: array<byte>, cipher: array<byte>, n: nat)
    requires MixInRange(p)
    requires pad != cipher
    requires n == Min(pad.Length, cipher.Length)
    modifies pad, cipher
    ensures pad[..] == Exchange(old(pad[..]), old(cipher[..]), RoundPick(p, sequence, n, round))
    ensures cipher[..] == Exchange(old(cipher[..]), old(pad[..]), RoundPick(p, sequence, n, round))
  {
    ghost var p0, c0 := pad[..], cipher[..];
    var stride := p.mixStride + round % 3;
    if p.mixMode == 1 {
      DivNonNegative(n, p.mixBlock);
      var count := n / p.mixBlock;
      SwapBlocks(pad, cipher, n, p.mixBlock, count, round % 2);
      BlockRound(p, sequence, n, round, count, p0, c0);
      BlockRound(p, sequence, n, round, count, c0, p0);
    } else {
      var offset :=
        if p.mixMode == 2 then p.prf.word(MixOffset, sequence, round) + p.mixOffsetBase else p.mixOffsetBase;
      SwapStrided(pad, cipher, n, offset % stride, stride);
      StrideRound(p, sequence, n, round, offset, p0, c0);
      StrideRound(p, sequence, n, round, offset, c0, p0);
    }
  }

  lemma BlockRound(p: Profile, sequence: nat, n: nat, round: nat, count: nat, mine: Bytes, other: Bytes)
    requires MixInRange(p)
    requires p.mixMode == 1
    requires count == n / p.mixBlock
    ensures Exchange(mine, other, BlockPick(p.mixBlock, count, round % 2, count))
            == Exchange(mine, other, RoundPick(p, sequence, n, round))
  {
    SamePick(mine, other, BlockPick(p.mixBlock, count, round % 2, count), RoundPick(p, sequence, n, round));
  }

  lemma StrideRound(p: Profile, sequence: nat, n: nat, round: nat, offset: nat, mine: Bytes, other: Bytes)
    requires MixInRange(p)
    requires p.mixMode != 1
    requires offset == (if p.mixMode == 2 then p.prf.word(MixOffset, sequence, round) else 0) + p.mixOffsetBase
    ensures
      var stride := p.mixStride + round % 3;
      Exchange(mine, other, StridePick(stride, offset % stride))
      == Exchange(mine, other, RoundPick(p, sequence, n, round))
  {
    var stride := p.mixStride + round % 3;
    SamePick(mine, other, StridePick(stride, offset % stride), RoundPick(p, sequence, n, round));
  }

  /** The v6 mix, in place. */
  method MixPaddingPayload(p: Profile, sequence: nat, pad: array<byte>, cipher: array<byte>)
    requires MixInRange(p)
    requires pad != cipher
    modifies pad, cipher
    ensures (pad[..], cipher[..]) == Rounds(p, sequence, old(pad[..]), old(cipher[..]), p.mixRounds)
  {
    var n := Min(pad.Length, cipher.Length);
    for round := 0 to p.mixRounds
      invariant (pad[..], cipher[..]) == Rounds(p, sequence, old(pad[..]), old(cipher[..]), round)
    {
      MixRound(p, sequence, round, pad, cipher, n);
    }
  }

  lemma SamePick(p: Bytes, c: Bytes, a: Pick, b: Pick)
    requires forall i: nat :: a(i) == b(i)
    ensures Exchange(p, c, a) == Exchange(p, c, b)
  {
  }

  // ---- v4: even positions, a machine word at a time ----

  const EvenPick: Pick := (i: nat) => i % 2 == 0

  /** The mask of a 64-bit word, as its bytes lie in memory. */
  const MASK: Bytes := [255, 0, 255, 0, 255, 0, 255, 0]

  lemma LaneSwaps(a: byte, b: byte, mask: byte)
    requires mask == 255 || mask == 0
    ensures Xor(a, And(Xor(a, b), mask)) == if mask == 255 then b else a
    ensures Xor(b, And(Xor(a, b), mask)) == if mask == 255 then a else b
  {
    AndMask(Xor(a, b));
    XorSwaps(a, b);
    XorZero(a);
    XorZero(b);
  }

  function EvenBelow(at: nat): Pick { (i: nat) => i < at && i % 2 == 0 }

  function EvenWithin(lo: nat, hi: nat): Pick { (i: nat) => lo <= i < hi && i % 2 == 0 }

  lemma MaskAt(i: nat)
    requires i < 8
    ensures |MASK| == 8 && MASK[i] == if i % 2 == 0 then 255 else 0
  {
  }

  /** The masked difference of two words, lane by lane. */
  lemma DiffLanes(p: Bytes, c: Bytes, diff: Bytes)
    requires |p| == |c| == |MASK| && diff == AndLanes(XorLanes(p, c), MASK)
    ensures XorLanes(p, diff) == Exchange(p, c, EvenPick)
  {
    var mine, exchanged := XorLanes(p, diff), Exchange(p, c, EvenPick);
    forall i | 0 <= i < 8
      ensures mine[i] == exchanged[i]
    {
      MaskAt(i);
      LaneSwaps(p[i], c[i], MASK[i]);
    }
  }

  /** The difference is the same from either side. */
  lemma DiffCommutes(p: Bytes, c: Bytes)
    requires |p| == |c|
    ensures XorLanes(p, c) == XorLanes(c, p)
  {
    forall i | 0 <= i < |p|
      ensures Xor(p[i], c[i]) == Xor(c[i], p[i])
    {
      XorBitsCommute(p[i] as nat, c[i] as nat, 8);
    }
  }

  /** Exclusive or of the masked difference into two 64-bit words, in the machine's byte order. */
  method SwapMasked(p: Bytes, c: Bytes, big: bool) returns (p': Bytes, c': Bytes)
    requires |p| == |c| == 8
    ensures p' == Exchange(p, c, EvenPick) && c' == Exchange(c, p, EvenPick)
  {
    var a, b := FromNative(p, big), FromNative(c, big);
    var diff := AndBits(XorBits(a, b, 64), FromNative(MASK, big), 64);
    p', c' := ToNative(XorBits(a, diff, 64), 8, big), ToNative(XorBits(b, diff, 64), 8, big);
    ghost var lanes := AndLanes(XorLanes(p, c), MASK);
    XorNative(p, c, big);
    AndNative(XorLanes(p, c), MASK, big);
    XorNative(p, lanes, big);
    XorNative(c, lanes, big);
    NativeRoundTrip(XorLanes(p, lanes), big);
    NativeRoundTrip(XorLanes(c, lanes), big);
    DiffLanes(p, c, lanes);
    DiffCommutes(p, c);
    DiffLanes(c, p, lanes);
  }

  method PutBytes(a: array<byte>, at: nat, s: Bytes)
    requires at + |s| <= a.Length
    modifies a
    ensures forall i :: 0 <= i < a.Length ==> a[i] == if at <= i < at + |s| then s[i - at] else old(a[i])
  {
    forall i | 0 <= i < |s| { a[at + i] := s[i]; }
  }

  /** One word of each side: exchanging the masked difference swaps exactly the even positions. */
  method SwapWord(pad: array<byte>, cipher: array<byte>, at: nat, big: bool)
    requires pad != cipher
    requires at + 8 <= pad.Length && at + 8 <= cipher.Length
    requires at % 2 == 0
    modifies pad, cipher
    ensures pad[..] == Exchange(old(pad[..]), old(cipher[..]), EvenWithin(at, at + 8))
    ensures cipher[..] == Exchange(old(cipher[..]), old(pad[..]), EvenWithin(at, at + 8))
  {
    var p, c := SwapMasked(pad[at..at + 8], cipher[at..at + 8], big);
    PutBytes(pad, at, p);
    PutBytes(cipher, at, c);
  }

  method SwapOne(pad: array<byte>, cipher: array<byte>, at: nat)
    requires pad != cipher
    requires at < pad.Length && at < cipher.Length
    requires at % 2 == 0
    modifies pad, cipher
    ensures pad[..] == Exchange(old(pad[..]), old(cipher[..]), EvenWithin(at, at + 2))
    ensures cipher[..] == Exchange(old(cipher[..]), old(pad[..]), EvenWithin(at, at + 2))
  {
    pad[at], cipher[at] := cipher[at], pad[at];
  }

  lemma EvenStep(p: Bytes, c: Bytes, at: nat, next: nat)
    requires at <= next
    ensures Exchange(Exchange(p, c, EvenBelow(at)), Exchange(c, p, EvenBelow(at)), EvenWithin(at, next))
            == Exchange(p, c, EvenBelow(next))
  {
    ExchangeComposes(p, c, EvenBelow(at), EvenWithin(at, next), EvenBelow(next));
  }

  lemma EvenEnds(p: Bytes, c: Bytes, at: nat)
    requires at >= Min(|p|, |c|)
    ensures Exchange(p, c, EvenBelow(0)) == p
    ensures Exchange(p, c, EvenBelow(at)) == Exchange(p, c, EvenPick)
  {
  }

  /** The v4 swap: whole words by masked exclusive or, in either byte order, then the tail byte by byte. */
  method SwapEvenIndices(pad: array<byte>, cipher: array<byte>, big: bool)
    requires pad != cipher
    modifies pad, cipher
    ensures pad[..] == Exchange(old(pad[..]), old(cipher[..]), EvenPick)
    ensures cipher[..] == Exchange(old(cipher[..]), old(pad[..]), EvenPick)
  {
    ghost var p0, c0 := pad[..], cipher[..];
    var limit := Min(pad.Length, cipher.Length);
    var at := 0;
    EvenEnds(p0, c0, limit);
    EvenEnds(c0, p0, limit);
    while at + 8 <= limit
      invariant at % 2 == 0
      invariant pad[..] == Exchange(p0, c0, EvenBelow(at))
      invariant cipher[..] == Exchange(c0, p0, EvenBelow(at))
    {
      SwapWord(pad, cipher, at, big);
      EvenStep(p0, c0, at, at + 8);
      EvenStep(c0, p0, at, at + 8);
      at := at + 8;
    }
    while at < limit
      invariant at % 2 == 0
      invariant pad[..] == Exchange(p0, c0, EvenBelow(at))
      invariant cipher[..] == Exchange(c0, p0, EvenBelow(at))
    {
      SwapOne(pad, cipher, at);
      EvenStep(p0, c0, at, at + 2);
      EvenStep(c0, p0, at, at + 2);
      at := at + 2;
    }
    EvenEnds(p0, c0, at);
    EvenEnds(c0, p0, at);
  }
}
