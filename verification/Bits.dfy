/** Single bits of a byte, and how many of them are set. */
module Bits {
  import opened Protocol

  predicate Bit(b: nat, k: nat)
  {
    if k == 0 then b % 2 == 1 else Bit(b / 2, k - 1)
  }

  predicate ByteBit(b: byte, k: nat) { Bit(b as nat, k) }

  /** `b` with bit `k` set (`on`) or cleared. */
  function WithBit(b: nat, k: nat, on: bool): nat
  {
    if k == 0 then b / 2 * 2 + (if on then 1 else 0)
    else b % 2 + 2 * WithBit(b / 2, k - 1, on)
  }

  function Ones(b: nat, width: nat): (n: nat)
    ensures n <= width
  {
    if width == 0 then 0 else b % 2 + Ones(b / 2, width - 1)
  }

  function PopCount(b: byte): (n: nat)
    ensures n <= 8
  {
    Ones(b as nat, 8)
  }

  lemma {:induction false} WithBitBound(b: nat, k: nat, on: bool, width: nat)
    requires b < Pow2(width)
    requires k < width
    ensures WithBit(b, k, on) < Pow2(width)
  {
    var half, top := Pow2(width - 1), b / 2;
    assert Pow2(width) == 2 * half;
    assert top < half;
    if k > 0 {
      WithBitBound(top, k - 1, on, width - 1);
      var rest := WithBit(top, k - 1, on);
      assert WithBit(b, k, on) == b % 2 + 2 * rest;
    }
  }

  lemma {:induction false} BitOfWithBit(b: nat, k: nat, on: bool, j: nat)
    ensures Bit(WithBit(b, k, on), j) == if j == k then on else Bit(b, j)
  {
    if k > 0 {
      var rest := WithBit(b / 2, k - 1, on);
      assert (b % 2 + 2 * rest) / 2 == rest;
      if j > 0 {
        BitOfWithBit(b / 2, k - 1, on, j - 1);
      }
    }
  }

  /** Changing one bit changes the count by exactly that bit. */
  lemma {:induction false} OnesWithBit(b: nat, k: nat, on: bool, width: nat)
    requires k < width
    ensures Ones(WithBit(b, k, on), width)
            == Ones(b, width) + (if on then 1 else 0) - (if Bit(b, k) then 1 else 0)
  {
    if k > 0 {
      var rest := WithBit(b / 2, k - 1, on);
      assert (b % 2 + 2 * rest) / 2 == rest;
      OnesWithBit(b / 2, k - 1, on, width - 1);
    }
  }

  lemma {:induction false} OnesUniform(b: nat, width: nat, on: bool)
    requires forall k :: 0 <= k < width ==> Bit(b, k) == on
    ensures Ones(b, width) == if on then width else 0
  {
    if width > 0 {
      assert Bit(b, 0) == on;
      forall k | 0 <= k < width - 1
        ensures Bit(b / 2, k) == on
      {
        assert Bit(b, k + 1) == on;
      }
      OnesUniform(b / 2, width - 1, on);
    }
  }

  /** A byte with one bit changed. */
  function PutBit(b: byte, k: nat, on: bool): (r: byte)
    requires k < 8
    ensures forall j :: 0 <= j < 8 ==> ByteBit(r, j) == if j == k then on else ByteBit(b, j)
    ensures PopCount(r) == PopCount(b) + (if on then 1 else 0) - (if ByteBit(b, k) then 1 else 0)
  {
    assert Pow2(8) == 256;
    WithBitBound(b as nat, k, on, 8);
    OnesWithBit(b as nat, k, on, 8);
    var r := WithBit(b as nat, k, on) as byte;
    PutBitBits(b, k, on, r);
    r
  }

  lemma PutBitBits(b: byte, k: nat, on: bool, r: byte)
    requires r as nat == WithBit(b as nat, k, on)
    ensures forall j :: 0 <= j < 8 ==> ByteBit(r, j) == if j == k then on else ByteBit(b, j)
  {
    forall j | 0 <= j < 8
      ensures ByteBit(r, j) == if j == k then on else ByteBit(b, j)
    {
      BitOfWithBit(b as nat, k, on, j);
    }
  }

  /** Set bits of a whole byte string. */
  function TotalOnes(s: Bytes): nat
  {
    if s == [] then 0 else PopCount(s[0]) + TotalOnes(s[1..])
  }

  lemma {:induction false} TotalOnesUpdate(s: Bytes, i: nat, b: byte)
    requires i < |s|
    ensures TotalOnes(s[i := b]) == TotalOnes(s) - PopCount(s[i]) + PopCount(b)
  {
    if i == 0 {
      assert s[0 := b][1..] == s[1..];
    } else {
      assert s[i := b][1..] == s[1..][i - 1 := b];
      TotalOnesUpdate(s[1..], i - 1, b);
    }
  }

  lemma {:induction false} TotalOnesConcat(s: Bytes, t: Bytes)
    ensures TotalOnes(s + t) == TotalOnes(s) + TotalOnes(t)
  {
    if s == [] {
      assert s + t == t;
    } else {
      assert (s + t)[1..] == s[1..] + t;
      TotalOnesConcat(s[1..], t);
    }
  }

  lemma {:induction false} TotalOnesUniform(s: Bytes, b: byte)
    requires forall i :: 0 <= i < |s| ==> s[i] == b
    ensures TotalOnes(s) == |s| * PopCount(b)
  {
    if s != [] {
      TotalOnesUniform(s[1..], b);
      assert |s| * PopCount(b) == (|s| - 1) * PopCount(b) + PopCount(b);
    }
  }

  /** Bit `i` of a byte string, least significant bit of each byte first. */
  predicate StringBit(s: Bytes, i: nat)
    requires i < 8 * |s|
  {
    ByteBit(s[i / 8], i % 8)
  }
}
