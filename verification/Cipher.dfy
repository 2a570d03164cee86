/**
  * AES-128-GCM seen from outside: a keystream and a tag, both arbitrary
  * functions, combined the way counter mode and GCM combine them. The inverse
  * and length laws are consequences, not assumptions.
  */
module Cipher {
  import opened Protocol

  /** Keystream byte and tag byte of one key, nonce and position. */
  datatype Gcm = Gcm(
    keystream: (Bytes, Bytes, nat) -> byte,
    tag: (Bytes, Bytes, Bytes, Bytes, nat) -> byte)

  /** What the record layer uses: a key derivation that may fail, and a seal and open pair. */
  datatype Suite = Suite(
    derive: Bytes -> Option<Bytes>,
    seal: (Bytes, Bytes, Bytes, Bytes) -> Bytes,
    open: (Bytes, Bytes, Bytes, Bytes) -> Result<Bytes>)

  /** Sealing adds a tag, and opening undoes it under the same key, nonce and associated data. */
  predicate SealLaw(s: Suite, key: Bytes, nonce: Bytes, aad: Bytes, plain: Bytes)
  {
    var sealed := s.seal(key, nonce, aad, plain);
    |sealed| == |plain| + TAG_LEN && s.open(key, nonce, aad, sealed) == Ok(plain)
  }

  /** Whatever opens was a tag longer than what it opens to. */
  predicate OpenLaw(s: Suite, key: Bytes, nonce: Bytes, aad: Bytes, sealed: Bytes)
  {
    var plain := s.open(key, nonce, aad, sealed);
    plain.Ok? ==> |sealed| == |plain.value| + TAG_LEN
  }

  ghost predicate Lawful(s: Suite) {
    && (forall key, nonce, aad, plain :: SealLaw(s, key, nonce, aad, plain))
    && (forall key, nonce, aad, sealed :: OpenLaw(s, key, nonce, aad, sealed))
  }

  function Keyed(g: Gcm, key: Bytes, nonce: Bytes, text: Bytes): (r: Bytes)
    ensures |r| == |text|
  {
    seq(|text|, i requires 0 <= i < |text| => Xor(text[i], g.keystream(key, nonce, i)))
  }

  function Tag(g: Gcm, key: Bytes, nonce: Bytes, aad: Bytes, cipher: Bytes): (r: Bytes)
    ensures |r| == TAG_LEN
  {
    seq(TAG_LEN, i => if i < 0 then 0 else g.tag(key, nonce, aad, cipher, i))
  }

  /** Cipher text followed by its tag. */
  function Seal(g: Gcm, key: Bytes, nonce: Bytes, aad: Bytes, plain: Bytes): (r: Bytes)
    ensures |r| == |plain| + TAG_LEN
  {
    var cipher := Keyed(g, key, nonce, plain);
    cipher + Tag(g, key, nonce, aad, cipher)
  }

  /** Checks the trailing tag, then recovers the plain text. */
  function Open(g: Gcm, key: Bytes, nonce: Bytes, aad: Bytes, sealed: Bytes): (r: Result<Bytes>)
    ensures r.Ok? ==> |sealed| == |r.value| + TAG_LEN
    ensures r.Err? ==> r.error == if |sealed| < TAG_LEN then Truncated else Aead
  {
    if |sealed| < TAG_LEN then Err(Truncated)
    else
      var n := |sealed| - TAG_LEN;
      if sealed[n..] == Tag(g, key, nonce, aad, sealed[..n])
      then Ok(Keyed(g, key, nonce, sealed[..n]))
      else Err(Aead)
  }

  /** Opening under the same key, nonce and associated data returns what was sealed. */
  lemma OpenSeal(g: Gcm, key: Bytes, nonce: Bytes, aad: Bytes, plain: Bytes)
    ensures Open(g, key, nonce, aad, Seal(g, key, nonce, aad, plain)) == Ok(plain)
  {
    var cipher := Keyed(g, key, nonce, plain);
    var sealed := Seal(g, key, nonce, aad, plain);
    assert sealed[..|plain|] == cipher;
    assert sealed[|plain|..] == Tag(g, key, nonce, aad, cipher);
    assert Keyed(g, key, nonce, cipher) == plain by {
      forall i | 0 <= i < |plain|
        ensures Keyed(g, key, nonce, cipher)[i] == plain[i]
      {
        XorUndoes(plain[i], g.keystream(key, nonce, i));
      }
    }
  }

  /** Only the sealed text opens: an accepted block is the seal of what it opens to. */
  lemma SealOpen(g: Gcm, key: Bytes, nonce: Bytes, aad: Bytes, sealed: Bytes)
    requires Open(g, key, nonce, aad, sealed).Ok?
    ensures Seal(g, key, nonce, aad, Open(g, key, nonce, aad, sealed).value) == sealed
  {
    var n := |sealed| - TAG_LEN;
    var plain := Open(g, key, nonce, aad, sealed).value;
    assert Keyed(g, key, nonce, plain) == sealed[..n] by {
      forall i | 0 <= i < n
        ensures Keyed(g, key, nonce, plain)[i] == sealed[i]
      {
        XorUndoes(sealed[i], g.keystream(key, nonce, i));
      }
    }
    assert sealed == sealed[..n] + sealed[n..];
  }

  /** The suite built from a keystream and a tag. */
  function GcmSuite(g: Gcm, derive: Bytes -> Option<Bytes>): Suite
  {
    Suite(derive,
          (key, nonce, aad, plain) => Seal(g, key, nonce, aad, plain),
          (key, nonce, aad, sealed) => Open(g, key, nonce, aad, sealed))
  }

  lemma GcmLawful(g: Gcm, derive: Bytes -> Option<Bytes>)
    ensures Lawful(GcmSuite(g, derive))
  {
    forall key, nonce, aad, plain
      ensures SealLaw(GcmSuite(g, derive), key, nonce, aad, plain)
    {
      OpenSeal(g, key, nonce, aad, plain);
    }
  }
}
