/** The 96-bit little-endian record counter used as the AEAD nonce. */
module Nonces {
  import opened Arithmetic
  import opened Protocol

  /** Wrapping increment, least significant byte first. */
  function Succ(n: Bytes): (r: Bytes)
    ensures |r| == |n|
  {
    if n == [] then []
    else if n[0] == 255 then [0] + Succ(n[1..])
    else [n[0] + 1] + n[1..]
  }

  /** The number a little-endian byte string denotes. */
  function Value(n: Bytes): nat
  {
    if n == [] then 0 else n[0] as nat + 256 * Value(n[1..])
  }

  function Pow256(k: nat): (p: nat)
    ensures p >= 1
  {
    if k == 0 then 1 else 256 * Pow256(k - 1)
  }

  const NONCE_SPACE := Pow256(NONCE_LEN)

  lemma {:induction false} ValueBound(n: Bytes)
    ensures Value(n) < Pow256(|n|)
  {
    if n != [] {
      ValueBound(n[1..]);
    }
  }

  /** `Succ` adds one, and wraps to zero at the end of the counter's range. */
  lemma {:induction false} SuccCounts(n: Bytes)
    ensures Value(Succ(n)) == if Value(n) + 1 == Pow256(|n|) then 0 else Value(n) + 1
  {
    if n != [] {
      var rest := n[1..];
      ValueBound(rest);
      if n[0] == 255 {
        SuccCounts(rest);
        assert Succ(n)[1..] == Succ(rest);
      } else {
        assert Succ(n)[1..] == rest;
      }
    }
  }

  lemma {:induction false} ValueInjective(a: Bytes, b: Bytes)
    requires |a| == |b|
    requires Value(a) == Value(b)
    ensures a == b
  {
    if a != [] {
      ValueInjective(a[1..], b[1..]);
      assert a == [a[0]] + a[1..] && b == [b[0]] + b[1..];
    }
  }

  /** `n` after `k` increments. */
  function After(n: Bytes, k: nat): (r: Bytes)
    ensures |r| == |n|
  {
    if k == 0 then n else Succ(After(n, k - 1))
  }

  /** A fresh nonce after `k` increments. */
  function Nth(k: nat): (n: Bytes)
    ensures |n| == NONCE_LEN
  {
    After(Zeros(NONCE_LEN), k)
  }

  lemma {:induction false} ZerosValue(k: nat)
    ensures Value(Zeros(k)) == 0
  {
    if k > 0 {
      assert Zeros(k)[1..] == Zeros(k - 1);
      ZerosValue(k - 1);
    }
  }

  /** `k` counted up from zero, wrapping at `p`. */
  function Wrapped(k: nat, p: nat): nat
  {
    if k == 0 || Wrapped(k - 1, p) + 1 == p then 0 else Wrapped(k - 1, p) + 1
  }

  lemma {:induction false} WrappedIsMod(k: nat, p: nat)
    requires p >= 1
    ensures Wrapped(k, p) == k % p
  {
    if k > 0 {
      WrappedIsMod(k - 1, p);
      ModStep(k - 1, p);
    }
  }

  lemma {:induction false} AfterValue(n: Bytes, k: nat)
    requires Value(n) == 0
    ensures Value(After(n, k)) == Wrapped(k, Pow256(|n|))
  {
    if k > 0 {
      AfterValue(n, k - 1);
      SuccCounts(After(n, k - 1));
    }
  }

  lemma ModStep(k: nat, p: nat)
    requires p >= 1
    ensures (k + 1) % p == if k % p + 1 == p then 0 else k % p + 1
  {
    var q, r := k / p, k % p;
    assert k == q * p + r;
    if r + 1 == p {
      assert (q + 1) * p == q * p + p;
      DivModUnique(k + 1, p, q + 1, 0);
    } else {
      DivModUnique(k + 1, p, q, r + 1);
    }
  }

  /** Two increment counts give the same nonce exactly when they agree modulo 2^96. */
  lemma NonceReuse(i: nat, j: nat)
    ensures Nth(i) == Nth(j) <==> i % NONCE_SPACE == j % NONCE_SPACE
  {
    ZerosValue(NONCE_LEN);
    AfterValue(Zeros(NONCE_LEN), i);
    AfterValue(Zeros(NONCE_LEN), j);
    WrappedIsMod(i, NONCE_SPACE);
    WrappedIsMod(j, NONCE_SPACE);
    if Value(Nth(i)) == Value(Nth(j)) {
      ValueInjective(Nth(i), Nth(j));
    }
  }

  lemma SmallResidues(i: nat, j: nat)
    requires i < j < NONCE_SPACE
    ensures i % NONCE_SPACE != j % NONCE_SPACE
  {
    DivModUnique(i, NONCE_SPACE, 0, i);
    DivModUnique(j, NONCE_SPACE, 0, j);
  }

  /** One or two increments never restore a nonce, which is how a failed seal notices it used one. */
  lemma SuccMoves(n: Bytes)
    requires n != []
    ensures Succ(n) != n
    ensures Succ(Succ(n)) != n
  {
    assert Succ(n)[0] != n[0];
    assert Succ(Succ(n))[0] != n[0];
  }

  /** A carry runs through a prefix of 255s and stops at the first other byte. */
  lemma {:induction false} SuccShape(n: Bytes, i: nat)
    requires i <= |n|
    requires forall j :: 0 <= j < i ==> n[j] == 255
    ensures i == |n| ==> Succ(n) == Zeros(i)
    ensures i < |n| && n[i] != 255 ==> Succ(n) == Zeros(i) + [n[i] + 1] + n[i + 1..]
  {
    if i == 0 {
      assert Zeros(0) == [];
    } else {
      var rest := n[1..];
      SuccShape(rest, i - 1);
      assert Zeros(i) == [0] + Zeros(i - 1);
      if i < |n| {
        assert rest[i..] == n[i + 1..];
      }
    }
  }

  /** In-place increment with early exit on the first byte that does not carry. */
  method Increment(a: array<byte>)
    modifies a
    ensures a[..] == Succ(old(a[..]))
  {
    ghost var was := a[..];
    var i := 0;
    while i < a.Length
      invariant i <= a.Length
      invariant forall j :: 0 <= j < i ==> was[j] == 255 && a[j] == 0
      invariant forall j :: i <= j < a.Length ==> a[j] == was[j]
    {
      a[i] := if a[i] == 255 then 0 else a[i] + 1;
      if a[i] != 0 {
        SuccShape(was, i);
        return;
      }
      i := i + 1;
    }
    SuccShape(was, i);
  }
}
