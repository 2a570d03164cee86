/** v4 padding with an exact number of set bits, drawn from a stream of random words. */
module PaddingBits {
  import opened Arithmetic
  import opened Bits
  import opened Protocol
  import opened Words

  const WORDS := 512
  const U64_MAX := 0xffff_ffff_ffff_ffff

  /** Draws bounded numbers from blocks of random words; `supply` is what the entropy source will return. */
  class BitRng {
    var supply: seq<seq<nat>>
    var random: seq<nat>
    var next: nat

    ghost predicate Valid()
      reads this
    {
      && (forall b :: 0 <= b < |supply| ==> |supply[b]| == WORDS)
      && next <= WORDS
      && (next < WORDS ==> |random| == WORDS)
    }

    constructor (supply: seq<seq<nat>>)
      requires forall b :: 0 <= b < |supply| ==> |supply[b]| == WORDS
      ensures Valid()
      ensures this.supply == supply
    {
      this.supply := supply;
      random := [];
      next := WORDS;
    }

    /**
      * A number up to `max`. It is the residue of an accepted word, and words
      * are accepted from a range that every residue divides evenly.
      */
    method Pick(max: nat) returns (r: Result<nat>, ghost word: nat)
      requires Valid()
      requires max < U64_MAX
      modifies this
      ensures Valid()
      ensures r.Ok? ==> r.value <= max
      ensures Zone(max + 1) % (max + 1) == 0 && U64_MAX - max <= Zone(max + 1) <= U64_MAX
      ensures r.Ok? ==> word < Zone(max + 1) && r.value == word % (max + 1)
      ensures r.Err? ==> r.error == Entropy && supply == []
    {
      var span := max + 1;
      var zone := Zone(span);
      ZoneDivides(span);
      word := 0;
      while true
        invariant Valid()
        decreases |supply|, WORDS - next
      {
        if next == WORDS {
          if supply == [] {
            return Err(Entropy), 0;
          }
          random, supply := supply[0], supply[1..];
          next := 0;
        }
        var value := random[next];
        next := next + 1;
        if value < zone {
          word := value;
          return Ok(value % span), value;
        }
      }
    }
  }

  /** Words below the zone are accepted; it is the largest multiple of `span` that fits a word. */
  function Zone(span: nat): int
    requires span >= 1
  {
    U64_MAX - U64_MAX % span
  }

  lemma ZoneDivides(span: nat)
    requires span >= 1
    ensures Zone(span) % span == 0
    ensures U64_MAX - span < Zone(span) <= U64_MAX
  {
    var q := U64_MAX / span;
    assert Zone(span) == q * span;
    DivModUnique(q * span, span, q, 0);
  }

  /** The two fillers: all bits clear, or all bits set. */
  method Fill(padding: array<byte>, on: bool)
    modifies padding
    ensures forall i :: 0 <= i < 8 * padding.Length ==> StringBit(padding[..], i) == on
    ensures TotalOnes(padding[..]) == if on then 8 * padding.Length else 0
  {
    var b: byte := if on then 255 else 0;
    forall i | 0 <= i < padding.Length { padding[i] := b; }
    UniformByte(on);
    assert forall i :: 0 <= i < padding.Length ==> padding[..][i] == b;
    TotalOnesUniform(padding[..], b);
  }

  lemma UniformByte(on: bool)
    ensures
      var b := if on then 255 else 0;
      (forall k :: 0 <= k < 8 ==> Bit(b, k) == on) && Ones(b, 8) == if on then 8 else 0
  {
    var b := if on then 255 else 0;
    assert b / 2 == if on then 127 else 0;
    forall k | 0 <= k < 8
      ensures Bit(b, k) == on
    {
      assert Bit(255, 0) && Bit(255, 1) && Bit(255, 2) && Bit(255, 3)
          && Bit(255, 4) && Bit(255, 5) && Bit(255, 6) && Bit(255, 7);
      ZeroBits(k);
    }
    OnesUniform(b, 8, on);
  }

  lemma {:induction false} ZeroBits(k: nat)
    ensures !Bit(0, k)
  {
    if k > 0 {
      ZeroBits(k - 1);
    }
  }

  /** Flip one bit of the string that is not yet `on`. */
  method PutStringBit(padding: array<byte>, index: nat, on: bool)
    requires index < 8 * padding.Length
    requires StringBit(padding[..], index) != on
    modifies padding
    ensures forall i :: 0 <= i < 8 * padding.Length && i != index ==>
      StringBit(padding[..], i) == StringBit(old(padding[..]), i)
    ensures TotalOnes(padding[..]) == TotalOnes(old(padding[..])) + (if on then 1 else -1)
  {
    ghost var before := padding[..];
    var b := PutBit(padding[index / 8], index % 8, on);
    padding[index / 8] := b;
    assert padding[..] == before[index / 8 := b];
    TotalOnesUpdate(before, index / 8, b);
  }

  /**
    * Turn `bits - from` distinct bits `on`: candidate `j` is drawn from `0..=j`,
    * and a candidate already taken gives way to `j` itself, which is still free.
    */
  method Sample(padding: array<byte>, from: nat, on: bool, rng: BitRng) returns (r: Result<()>)
    requires rng.Valid()
    requires from <= 8 * padding.Length < U64_MAX
    requires forall i :: 0 <= i < 8 * padding.Length ==> StringBit(padding[..], i) != on
    modifies padding, rng
    ensures rng.Valid()
    ensures r.Ok? ==> TotalOnes(padding[..])
                      == TotalOnes(old(padding[..])) + (8 * padding.Length - from) * (if on then 1 else -1)
  {
    var bits := 8 * padding.Length;
    for j := from to bits
      invariant rng.Valid()
      invariant forall i :: j <= i < bits ==> StringBit(padding[..], i) != on
      invariant TotalOnes(padding[..]) == TotalOnes(old(padding[..])) + (j - from) * (if on then 1 else -1)
    {
      var picked, word := rng.Pick(j);
      if picked.Err? {
        return Err(picked.error);
      }
      var candidate := picked.value;
      var index := if StringBit(padding[..], candidate) == on then j else candidate;
      PutStringBit(padding, index, on);
    }
    r := Ok(());
  }

  /** Exactly `target` bits are set, whichever branch is taken and whatever the entropy. */
  method FillPaddingBits(padding: array<byte>, target: nat, rng: BitRng) returns (r: Result<()>)
    requires rng.Valid()
    requires target <= 8 * padding.Length < U64_MAX
    modifies padding, rng
    ensures rng.Valid()
    ensures r.Ok? ==> TotalOnes(padding[..]) == target
  {
    var bits := 8 * padding.Length;
    if target <= bits - target {
      Fill(padding, false);
      r := Sample(padding, bits - target, true, rng);
    } else {
      Fill(padding, true);
      r := Sample(padding, target, false, rng);
    }
  }

  /** Set bits of the length rounded down to a multiple of four, a 64-bit word at a time and then byte by byte. */
  method CountOnes(bytes: Bytes, big: bool) returns (total: nat)
    ensures total == TotalOnes(bytes[..|bytes| / 4 * 4])
  {
    var slice := bytes[..|bytes| / 4 * 4];
    var at := 0;
    total := 0;
    while at + 8 <= |slice|
      invariant 0 <= at <= |slice|
      invariant total == TotalOnes(slice[..at])
    {
      var word := FromNative(slice[at..at + 8], big);
      total := total + Ones(word, 64);
      OnesNative(slice[at..at + 8], big);
      TotalOnesConcat(slice[..at], slice[at..at + 8]);
      assert slice[..at] + slice[at..at + 8] == slice[..at + 8];
      at := at + 8;
    }
    while at < |slice|
      invariant 0 <= at <= |slice|
      invariant total == TotalOnes(slice[..at])
    {
      TotalOnesConcat(slice[..at], [slice[at]]);
      assert slice[..at] + [slice[at]] == slice[..at + 1];
      total := total + PopCount(slice[at]);
      at := at + 1;
    }
    assert slice[..at] == slice;
  }
}
