/** Machine words: a run of bytes read as one number, in either byte order, and what bit operations do to its bytes. */
module Words {
  import opened Arithmetic
  import opened Bits
  import opened Protocol
  import Nonces

  // ---- Bits of a number in two parts ----

  /** The low `k` bits of `x`, with `a` above them. */
  function Joined(x: nat, a: nat, k: nat): nat
  {
    if k == 0 then a else x % 2 + 2 * Joined(x / 2, a, k - 1)
  }

  lemma {:induction false} JoinedValue(x: nat, a: nat, k: nat)
    requires x < Pow2(k)
    ensures Joined(x, a, k) == x + Pow2(k) * a
  {
    if k > 0 {
      JoinedValue(x / 2, a, k - 1);
      Doubled(Pow2(k - 1), a);
    }
  }

  lemma Doubled(p: nat, n: nat)
    ensures 2 * (p * n) == 2 * p * n
  {
  }

  lemma XorDigits(c: nat, d: nat, u: nat, v: nat, n: nat)
    requires c < 2 && d < 2 && n > 0
    ensures XorBits(c + 2 * u, d + 2 * v, n) == (if c == d then 0 else 1) + 2 * XorBits(u, v, n - 1)
  {
    Digit(c, u);
    Digit(d, v);
  }

  lemma {:induction false} XorJoined(x: nat, y: nat, a: nat, b: nat, k: nat, m: nat)
    ensures XorBits(Joined(x, a, k), Joined(y, b, k), k + m) == Joined(XorBits(x, y, k), XorBits(a, b, m), k)
  {
    if k > 0 {
      XorJoined(x / 2, y / 2, a, b, k - 1, m);
      XorDigits(x % 2, y % 2, Joined(x / 2, a, k - 1), Joined(y / 2, b, k - 1), k + m);
      Digit(if x % 2 == y % 2 then 0 else 1, XorBits(x / 2, y / 2, k - 1));
    }
  }

  lemma {:induction false} AndJoined(x: nat, y: nat, a: nat, b: nat, k: nat, m: nat)
    ensures AndBits(Joined(x, a, k), Joined(y, b, k), k + m) == Joined(AndBits(x, y, k), AndBits(a, b, m), k)
  {
    if k > 0 {
      AndJoined(x / 2, y / 2, a, b, k - 1, m);
      Digit(x % 2, Joined(x / 2, a, k - 1));
      Digit(y % 2, Joined(y / 2, b, k - 1));
      Digit(if x % 2 == 1 && y % 2 == 1 then 1 else 0, AndBits(x / 2, y / 2, k - 1));
    }
  }

  lemma {:induction false} OnesJoined(x: nat, a: nat, k: nat, m: nat)
    ensures Ones(Joined(x, a, k), k + m) == Ones(x, k) + Ones(a, m)
  {
    if k > 0 {
      OnesJoined(x / 2, a, k - 1, m);
      Digit(x % 2, Joined(x / 2, a, k - 1));
    }
  }

  function OrBits(a: nat, b: nat, bits: nat): nat
  {
    if bits == 0 then 0
    else (if a % 2 == 1 || b % 2 == 1 then 1 else 0) + 2 * OrBits(a / 2, b / 2, bits - 1)
  }

  lemma {:induction false} OrZero(a: nat, m: nat)
    requires a < Pow2(m)
    ensures OrBits(a, 0, m) == a
  {
    if m > 0 {
      OrZero(a / 2, m - 1);
    }
  }

  lemma {:induction false} OrJoined(x: nat, a: nat, k: nat, m: nat)
    requires x < Pow2(k) && a < Pow2(m)
    ensures OrBits(Joined(0, a, k), x, k + m) == Joined(x, a, k)
  {
    if k > 0 {
      OrJoined(x / 2, a, k - 1, m);
    } else {
      OrZero(a, m);
    }
  }

  /** A disjunction with bits above those of the other side is a sum. */
  lemma OrInParts(x: nat, a: nat, k: nat, m: nat)
    requires x < Pow2(k) && a < Pow2(m)
    ensures OrBits(Pow2(k) * a, x, k + m) == x + Pow2(k) * a
  {
    OrJoined(x, a, k, m);
    JoinedValue(0, a, k);
    JoinedValue(x, a, k);
  }

  lemma {:induction false} JoinedLow(a: nat, k: nat)
    ensures Joined(a, 0, k) == a % Pow2(k)
  {
    if k > 0 {
      JoinedLow(a / 2, k - 1);
      LowParts(a, Pow2(k - 1));
    }
  }

  lemma {:induction false} AndZero(a: nat, bits: nat)
    ensures AndBits(a, 0, bits) == 0
  {
    if bits > 0 {
      AndZero(a / 2, bits - 1);
    }
  }

  lemma {:induction false} AndLowMask(a: nat, k: nat, bits: nat)
    requires k <= bits
    ensures AndBits(a, Pow2(k) - 1, bits) == Joined(a, 0, k)
  {
    if k > 0 {
      var p := Pow2(k - 1);
      assert (2 * p - 1) % 2 == 1 && (2 * p - 1) / 2 == p - 1;
      AndLowMask(a / 2, k - 1, bits - 1);
    } else {
      AndZero(a, bits);
    }
  }

  /** A conjunction with a low mask keeps the low bits. */
  lemma AndLow(a: nat, k: nat, bits: nat)
    requires k <= bits
    ensures AndBits(a, Pow2(k) - 1, bits) == a % Pow2(k)
  {
    AndLowMask(a, k, bits);
    JoinedLow(a, k);
  }

  lemma LowParts(a: nat, p: nat)
    requires p >= 1
    ensures a % (2 * p) == a % 2 + 2 * (a / 2 % p)
  {
    var q, r := a / 2 / p, a / 2 % p;
    assert a / 2 == q * p + r;
    assert q * (2 * p) == 2 * (q * p);
    DivModUnique(a, 2 * p, q, a % 2 + 2 * r);
  }

  // ---- Lanes ----

  function XorLanes(a: Bytes, b: Bytes): (r: Bytes)
    requires |a| == |b|
    ensures |r| == |a| && forall i :: 0 <= i < |r| ==> r[i] == Xor(a[i], b[i])
  {
    seq(|a|, i requires 0 <= i < |a| => Xor(a[i], b[i]))
  }

  function AndLanes(a: Bytes, b: Bytes): (r: Bytes)
    requires |a| == |b|
    ensures |r| == |a| && forall i :: 0 <= i < |r| ==> r[i] == And(a[i], b[i])
  {
    seq(|a|, i requires 0 <= i < |a| => And(a[i], b[i]))
  }

  /** An exclusive or of whole numbers acts on each byte alone. */
  lemma ByteJoined(x: byte, a: nat)
    ensures Joined(x as nat, a, 8) == x as nat + 256 * a
  {
    assert Pow2(8) == 256;
    JoinedValue(x as nat, a, 8);
  }

  lemma XorOfByte(x: byte, y: byte, a: nat, b: nat, m: nat)
    ensures XorBits(x as nat + 256 * a, y as nat + 256 * b, 8 + m) == Xor(x, y) as nat + 256 * XorBits(a, b, m)
  {
    ByteJoined(x, a);
    ByteJoined(y, b);
    ByteJoined(Xor(x, y), XorBits(a, b, m));
    XorJoined(x as nat, y as nat, a, b, 8, m);
  }

  lemma AndOfByte(x: byte, y: byte, a: nat, b: nat, m: nat)
    ensures AndBits(x as nat + 256 * a, y as nat + 256 * b, 8 + m) == And(x, y) as nat + 256 * AndBits(a, b, m)
  {
    ByteJoined(x, a);
    ByteJoined(y, b);
    ByteJoined(And(x, y), AndBits(a, b, m));
    AndJoined(x as nat, y as nat, a, b, 8, m);
  }

  /** An exclusive or works byte by byte. */
  lemma {:induction false} XorByLanes(a: Bytes, b: Bytes)
    requires |a| == |b|
    ensures XorBits(Nonces.Value(a), Nonces.Value(b), 8 * |a|) == Nonces.Value(XorLanes(a, b))
  {
    if a != [] {
      XorByLanes(a[1..], b[1..]);
      XorOfByte(a[0], b[0], Nonces.Value(a[1..]), Nonces.Value(b[1..]), 8 * (|a| - 1));
      assert XorLanes(a, b)[1..] == XorLanes(a[1..], b[1..]);
    }
  }

  /** And so does a conjunction. */
  lemma {:induction false} AndByLanes(a: Bytes, b: Bytes)
    requires |a| == |b|
    ensures AndBits(Nonces.Value(a), Nonces.Value(b), 8 * |a|) == Nonces.Value(AndLanes(a, b))
  {
    if a != [] {
      AndByLanes(a[1..], b[1..]);
      AndOfByte(a[0], b[0], Nonces.Value(a[1..]), Nonces.Value(b[1..]), 8 * (|a| - 1));
      assert AndLanes(a, b)[1..] == AndLanes(a[1..], b[1..]);
    }
  }

  lemma OnesOfByte(x: byte, a: nat, m: nat)
    ensures Ones(x as nat + 256 * a, 8 + m) == Ones(x as nat, 8) + Ones(a, m)
  {
    ByteJoined(x, a);
    OnesJoined(x as nat, a, 8, m);
  }

  /** The set bits of a number are those of its bytes. */
  lemma {:induction false} OnesByLanes(s: Bytes)
    ensures Ones(Nonces.Value(s), 8 * |s|) == TotalOnes(s)
  {
    if s != [] {
      OnesByLanes(s[1..]);
      OnesOfByte(s[0], Nonces.Value(s[1..]), 8 * (|s| - 1));
    }
  }

  // ---- Words in the machine's byte order ----

  /** The `n` bytes of a number, least significant first. */
  function BytesOf(w: nat, n: nat): (s: Bytes)
    ensures |s| == n
  {
    if n == 0 then [] else [(w % 256) as byte] + BytesOf(w / 256, n - 1)
  }

  lemma LowestByte(x: byte, rest: nat)
    ensures ((x as nat + 256 * rest) % 256) as byte == x && (x as nat + 256 * rest) / 256 == rest
  {
  }

  lemma {:induction false} BytesOfValue(s: Bytes)
    ensures BytesOf(Nonces.Value(s), |s|) == s
  {
    if s != [] {
      BytesOfValue(s[1..]);
      LowestByte(s[0], Nonces.Value(s[1..]));
      assert s == [s[0]] + s[1..];
    }
  }

  /** Memory order to significance, or back. */
  function Turned(s: Bytes, big: bool): (r: Bytes)
    ensures |r| == |s|
    ensures forall i :: 0 <= i < |r| ==> r[i] == if big then s[|s| - 1 - i] else s[i]
  {
    seq(|s|, i requires 0 <= i < |s| => if big then s[|s| - 1 - i] else s[i])
  }

  function FromNative(s: Bytes, big: bool): nat { Nonces.Value(Turned(s, big)) }

  function ToNative(w: nat, n: nat, big: bool): (s: Bytes)
    ensures |s| == n
  {
    Turned(BytesOf(w, n), big)
  }

  lemma NativeRoundTrip(s: Bytes, big: bool)
    ensures ToNative(FromNative(s, big), |s|, big) == s
  {
    BytesOfValue(Turned(s, big));
    assert Turned(Turned(s, big), big) == s;
  }

  lemma XorNative(a: Bytes, b: Bytes, big: bool)
    requires |a| == |b|
    ensures XorBits(FromNative(a, big), FromNative(b, big), 8 * |a|) == FromNative(XorLanes(a, b), big)
  {
    XorByLanes(Turned(a, big), Turned(b, big));
    var lanes, turned := XorLanes(Turned(a, big), Turned(b, big)), Turned(XorLanes(a, b), big);
    forall i | 0 <= i < |a|
      ensures lanes[i] == turned[i]
    {
      var at := if big then |a| - 1 - i else i;
      assert lanes[i] == Xor(a[at], b[at]) && turned[i] == XorLanes(a, b)[at];
    }
    assert lanes == turned;
  }

  lemma AndNative(a: Bytes, b: Bytes, big: bool)
    requires |a| == |b|
    ensures AndBits(FromNative(a, big), FromNative(b, big), 8 * |a|) == FromNative(AndLanes(a, b), big)
  {
    AndByLanes(Turned(a, big), Turned(b, big));
    var lanes, turned := AndLanes(Turned(a, big), Turned(b, big)), Turned(AndLanes(a, b), big);
    forall i | 0 <= i < |a|
      ensures lanes[i] == turned[i]
    {
      var at := if big then |a| - 1 - i else i;
      assert lanes[i] == And(a[at], b[at]) && turned[i] == AndLanes(a, b)[at];
    }
    assert lanes == turned;
  }

  lemma OnesNative(s: Bytes, big: bool)
    ensures Ones(FromNative(s, big), 8 * |s|) == TotalOnes(s)
  {
    OnesByLanes(Turned(s, big));
    TotalOnesTurned(s, big);
  }

  lemma {:induction false} TotalOnesTurned(s: Bytes, big: bool)
    ensures TotalOnes(Turned(s, big)) == TotalOnes(s)
  {
    if s == [] || !big {
      assert Turned(s, big) == s;
    } else {
      TotalOnesTurned(s[1..], big);
      assert Turned(s, big) == Turned(s[1..], big) + [s[0]];
      TotalOnesConcat(Turned(s[1..], big), [s[0]]);
    }
  }
}
