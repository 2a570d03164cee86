/** Hiding the session salt at shuffled positions of the v6 salt block. */
module Salts {
  import opened Protocol
  import opened Profile

  /** A permutation of `0..|s|`. */
  ghost predicate IsPermutation(s: seq<nat>) {
    && (forall i :: 0 <= i < |s| ==> s[i] < |s|)
    && (forall i, j :: 0 <= i < j < |s| ==> s[i] != s[j])
  }

  function Swapped(s: seq<nat>, i: nat, j: nat): (r: seq<nat>)
    requires i < |s| && j < |s|
    ensures |r| == |s|
    ensures IsPermutation(s) ==> IsPermutation(r)
  {
    s[i := s[j]][j := s[i]]
  }

  function Identity(n: nat): (s: seq<nat>)
    ensures |s| == n
    ensures IsPermutation(s)
  {
    seq(n, i requires 0 <= i < n => i)
  }

  function Target(f: Prf, round: nat, len: nat, i: nat): (j: nat)
    requires i < len
    ensures i <= j < len
  {
    i + f.shuffle(MIX_HANDSHAKE_DOMAIN + round, i) % (len - i)
  }

  /** The first `upto` swaps of one shuffle round. */
  function RoundSwaps(f: Prf, round: nat, s: seq<nat>, upto: nat): (r: seq<nat>)
    requires upto <= |s|
    ensures |r| == |s|
    ensures IsPermutation(s) ==> IsPermutation(r)
  {
    if upto == 0 then s
    else Swapped(RoundSwaps(f, round, s, upto - 1), upto - 1, Target(f, round, |s|, upto - 1))
  }

  /** The shuffle after `rounds` rounds; a permutation whatever the keyed function returns. */
  function Shuffle(f: Prf, len: nat, rounds: nat): (r: seq<nat>)
    ensures |r| == len
    ensures IsPermutation(r)
  {
    if rounds == 0 then Identity(len) else RoundSwaps(f, rounds - 1, Shuffle(f, len, rounds - 1), len)
  }

  method ShufflePerm(f: Prf, rounds: nat, out: array<nat>)
    modifies out
    ensures out[..] == Shuffle(f, out.Length, Max(rounds, 1))
    ensures IsPermutation(out[..])
  {
    var len := out.Length;
    forall i | 0 <= i < len { out[i] := i; }
    assert out[..] == Identity(len);
    for round := 0 to Max(rounds, 1)
      invariant out[..] == Shuffle(f, len, round)
    {
      ghost var before := out[..];
      for i := 0 to len
        invariant out[..] == RoundSwaps(f, round, before, i)
      {
        var j := Target(f, round, len, i);
        out[i], out[j] := out[j], out[i];
        assert out[..] == Swapped(RoundSwaps(f, round, before, i), i, j);
      }
    }
  }

  /** Block positions of salt bytes `0..16`, in order. */
  function Positions(p: Profile): (r: seq<nat>)
    requires p.saltBlockLen >= SALT_LEN
    ensures |r| == SALT_LEN
    ensures forall i :: 0 <= i < SALT_LEN ==> r[i] < p.saltBlockLen
    ensures forall i, j :: 0 <= i < j < SALT_LEN ==> r[i] != r[j]
  {
    Shuffle(p.prf, p.saltBlockLen, Max(p.mixRoundsHandshake, 1))[..SALT_LEN]
  }

  /** `block` with salt bytes `0..k` masked into their positions. */
  function Hidden(p: Profile, block: Bytes, salt: Bytes, k: nat): (r: Bytes)
    requires p.saltBlockLen >= SALT_LEN
    requires |block| == p.saltBlockLen && |salt| == SALT_LEN && k <= SALT_LEN
    ensures |r| == |block|
  {
    if k == 0 then block
    else Hidden(p, block, salt, k - 1)[Positions(p)[k - 1] := Xor(p.prf.mask(k - 1), salt[k - 1])]
  }

  function Extracted(p: Profile, block: Bytes): (salt: Bytes)
    requires p.saltBlockLen >= SALT_LEN
    requires |block| == p.saltBlockLen
    ensures |salt| == SALT_LEN
  {
    var pos := Positions(p);
    seq(SALT_LEN, i requires 0 <= i < SALT_LEN => Xor(p.prf.mask(i), block[pos[i]]))
  }

  /** The places `pos[..k]` hold the bytes of `want` and all others those of `block`. */
  ghost predicate Placed(pos: seq<nat>, want: Bytes, block: Bytes, r: Bytes, k: nat)
    requires k <= |pos| == |want| && |r| == |block|
    requires forall i :: 0 <= i < |pos| ==> pos[i] < |block|
  {
    && (forall i :: 0 <= i < k ==> r[pos[i]] == want[i])
    && (forall at :: 0 <= at < |block| && at !in pos[..k] ==> r[at] == block[at])
  }

  lemma PlaceOne(pos: seq<nat>, want: Bytes, block: Bytes, r: Bytes, k: nat)
    requires k < |pos| == |want| && |r| == |block|
    requires forall i :: 0 <= i < |pos| ==> pos[i] < |block|
    requires forall i, j :: 0 <= i < j < |pos| ==> pos[i] != pos[j]
    requires Placed(pos, want, block, r, k)
    ensures Placed(pos, want, block, r[pos[k] := want[k]], k + 1)
  {
    assert pos[..k + 1] == pos[..k] + [pos[k]];
  }

  function Masked(p: Profile, salt: Bytes): (r: Bytes)
    requires |salt| == SALT_LEN
    ensures |r| == SALT_LEN && forall i :: 0 <= i < SALT_LEN ==> r[i] == Xor(p.prf.mask(i), salt[i])
  {
    seq(SALT_LEN, i requires 0 <= i < SALT_LEN => Xor(p.prf.mask(i), salt[i]))
  }

  /** Hiding touches the chosen positions and no others. */
  lemma {:induction false} HiddenAt(p: Profile, block: Bytes, salt: Bytes, k: nat)
    requires p.saltBlockLen >= SALT_LEN
    requires |block| == p.saltBlockLen && |salt| == SALT_LEN && k <= SALT_LEN
    ensures Placed(Positions(p), Masked(p, salt), block, Hidden(p, block, salt, k), k)
  {
    if k > 0 {
      HiddenAt(p, block, salt, k - 1);
      PlaceOne(Positions(p), Masked(p, salt), block, Hidden(p, block, salt, k - 1), k - 1);
    }
  }

  lemma MaskUndoes(m: byte, s: byte)
    ensures Xor(m, Xor(m, s)) == s
  {
    XorSwaps(m, s);
  }

  /** Reading a salt block back returns the salt written into it, over any filler. */
  lemma ExtractHidden(p: Profile, block: Bytes, salt: Bytes)
    requires p.saltBlockLen >= SALT_LEN
    requires |block| == p.saltBlockLen && |salt| == SALT_LEN
    ensures Extracted(p, Hidden(p, block, salt, SALT_LEN)) == salt
  {
    HiddenAt(p, block, salt, SALT_LEN);
    forall i | 0 <= i < SALT_LEN
      ensures Extracted(p, Hidden(p, block, salt, SALT_LEN))[i] == salt[i]
    {
      MaskUndoes(p.prf.mask(i), salt[i]);
    }
  }

  /** The same bytes but at these places. */
  ghost predicate Elsewhere(pos: seq<nat>, before: Bytes, after: Bytes)
    requires |after| == |before|
  {
    forall at :: 0 <= at < |before| && at !in pos ==> after[at] == before[at]
  }

  lemma HiddenElsewhere(p: Profile, before: Bytes, after: Bytes, salt: Bytes)
    requires p.saltBlockLen >= SALT_LEN
    requires |before| == p.saltBlockLen && |salt| == SALT_LEN && after == Hidden(p, before, salt, SALT_LEN)
    ensures Elsewhere(Positions(p), before, after)
  {
    HiddenAt(p, before, salt, SALT_LEN);
    assert Positions(p)[..SALT_LEN] == Positions(p);
  }

  method WriteSalt(p: Profile, block: array<byte>, salt: Bytes)
    requires p.saltBlockLen >= SALT_LEN
    requires block.Length == p.saltBlockLen && |salt| == SALT_LEN
    modifies block
    ensures block[..] == Hidden(p, old(block[..]), salt, SALT_LEN)
    ensures Elsewhere(Positions(p), old(block[..]), block[..])
  {
    var perm := new nat[p.saltBlockLen];
    ShufflePerm(p.prf, p.mixRoundsHandshake, perm);
    ghost var before := block[..];
    for i := 0 to SALT_LEN
      invariant perm[..] == Shuffle(p.prf, p.saltBlockLen, Max(p.mixRoundsHandshake, 1))
      invariant block[..] == Hidden(p, before, salt, i)
    {
      assert perm[i] == Positions(p)[i];
      block[perm[i]] := Xor(p.prf.mask(i), salt[i]);
    }
    HiddenElsewhere(p, before, block[..], salt);
  }

  /** Unmask the bytes of `block` at the given positions. */
  method Gather(mask: nat -> byte, block: Bytes, at: seq<nat>) returns (r: Bytes)
    requires forall i :: 0 <= i < |at| ==> at[i] < |block|
    ensures |r| == |at| && forall i :: 0 <= i < |at| ==> r[i] == Xor(mask(i), block[at[i]])
  {
    r := [];
    for i := 0 to |at|
      invariant |r| == i && forall k :: 0 <= k < i ==> r[k] == Xor(mask(k), block[at[k]])
    {
      r := r + [Xor(mask(i), block[at[i]])];
    }
  }

  method ExtractSalt(p: Profile, block: Bytes) returns (salt: Bytes)
    requires p.saltBlockLen >= SALT_LEN
    requires |block| == p.saltBlockLen
    ensures salt == Extracted(p, block)
  {
    var perm := new nat[p.saltBlockLen];
    ShufflePerm(p.prf, p.mixRoundsHandshake, perm);
    assert perm[..SALT_LEN] == Positions(p);
    salt := Gather(p.prf.mask, block, perm[..SALT_LEN]);
  }
}
