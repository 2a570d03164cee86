/** The three codecs as plans for the record layer, and that each is sound with its format. */
module Policies {
  import opened Cipher
  import opened Codecs
  import opened Encoders
  import opened Profile
  import opened Protocol
  import opened Records
  import opened Senders
  import opened Streams
  import opened Windows
  import Generators

  function FormatOf(p: Policy): Format
  {
    match p
    case V4Policy(_) => V4()
    case UnshapedPolicy => Unshaped()
    case ShapedPolicy(profile) => Shaped(profile)
  }

  /** Padding bytes a reservation keeps room for. */
  function PaddingRoom(p: Policy, first: bool, cap: nat): nat
  {
    match p
    case V4Policy(padding) => if first && cap > 0 then padding else 0
    case UnshapedPolicy => 0
    case ShapedPolicy(profile) => MaxPaddingLen(profile)
  }

  /** Padding bytes a record of `n` payload bytes carries. */
  function PaddingFor(p: Policy, q: nat, prefixLen: nat, first: bool, room: nat, n: nat): nat
  {
    match p
    case V4Policy(_) => if n == 0 then 0 else room
    case UnshapedPolicy => 0
    case ShapedPolicy(profile) => FinalPaddingLen(profile, q, prefixLen, n, first)
  }

  function BudgetOf(p: Policy, w: Window, q: nat, now: nat): nat
  {
    if Matches(p, w) then Budget(p, w, q, now) else 0
  }

  function RefreshedOf(p: Policy, w: Window, now: nat): Window
  {
    if Matches(p, w) then Refreshed(p, w, now) else w
  }

  function CommittedOf(p: Policy, w: Window, q: nat, at: nat, now: nat): Window
  {
    Committed(p, if Matches(p, w) then w else Fresh(p), q, at, now)
  }

  function PlanOf(p: Policy): Plan
  {
    Plan(p.ShapedPolicy?,
         DatagramLimit(p),
         (first: bool, cap: nat) => PaddingRoom(p, first, cap),
         (q: nat, prefixLen: nat, first: bool, room: nat, n: nat) => PaddingFor(p, q, prefixLen, first, room, n),
         (w: Window, q: nat, now: nat) => BudgetOf(p, w, q, now),
         (w: Window, now: nat) => RefreshedOf(p, w, now),
         (w: Window, q: nat, at: nat, now: nat) => CommittedOf(p, w, q, at, now),
         w => Reachable(p, w))
  }

  /** The filler of shaped records; the others take arbitrary bytes. */
  function ProfileFill(profile: Shape): (nat, nat) -> Bytes
  {
    (q: nat, n: nat) => Generators.Official(profile, q, n)
  }

  /** The filler a codec's encoder uses: its profile's, or entropy. */
  function FillOf(p: Policy, entropy: (nat, nat) -> Bytes): (nat, nat) -> Bytes
  {
    if p.ShapedPolicy? then ProfileFill(p.profile) else entropy
  }

  lemma FillOfFills(p: Policy, entropy: (nat, nat) -> Bytes)
    requires Fills(entropy)
    ensures Fills(FillOf(p, entropy))
  {
    if p.ShapedPolicy? {
      forall q, n
        ensures FillLaw(ProfileFill(p.profile), q, n)
      {
      }
    }
  }

  /** Paddings the v4 encoder can be made with. */
  predicate Admissible(p: Policy) { p.V4Policy? ==> p.initialPadding <= MAX_PACKET_SIZE }

  lemma PrefixSound(p: Policy, q: nat)
    ensures PrefixLaw(PlanOf(p), FormatOf(p), q)
  {
    if p.ShapedPolicy? {
      assert FormatOf(p).prefix(q) == ShapedPrefix(p.profile, q);
    }
  }

  lemma RoomSound(p: Policy, first: bool, cap: nat)
    requires Admissible(p)
    ensures RoomLaw(PlanOf(p), first, cap)
  {
  }

  lemma PaddingSound(p: Policy, q: nat, first: bool, cap: nat, n: nat)
    requires Admissible(p)
    ensures PaddingLaw(PlanOf(p), FormatOf(p), q, first, cap, n)
  {
  }

  lemma WindowSound(p: Policy, w: Window, q: nat, at: nat, now: nat)
    ensures WindowLaw(PlanOf(p), w, q, at, now)
  {
    if Reachable(p, w) {
      ReachableSteps(p, w, q, at, now);
      BudgetPositive(p, w, q, now);
    }
  }

  /**
    * Reservation stability for every codec: whatever the profile, the padding
    * and the window, a record sealed from a reservation stays inside it and
    * inside the wire cap, and its header states lengths the decoder accepts.
    */
  lemma EveryPolicySound(p: Policy)
    requires Admissible(p)
    ensures WellFormed(FormatOf(p)) && Sound(PlanOf(p), FormatOf(p))
  {
    match p {
      case V4Policy(_) => V4WellFormed();
      case UnshapedPolicy => UnshapedWellFormed();
      case ShapedPolicy(profile) => ShapedWellFormed(profile);
    }
    var plan, f := PlanOf(p), FormatOf(p);
    forall q ensures PrefixLaw(plan, f, q) { PrefixSound(p, q); }
    forall first, cap ensures RoomLaw(plan, first, cap) { RoomSound(p, first, cap); }
    forall q, first, cap, n ensures PaddingLaw(plan, f, q, first, cap, n) { PaddingSound(p, q, first, cap, n); }
    forall w, q, at, now ensures WindowLaw(plan, w, q, at, now) { WindowSound(p, w, q, at, now); }
  }

  /** A v4 padding that takes the whole first segment. */
  predicate Starves(p: Policy) { p.V4Policy? && p.initialPadding >= V4_MSS_BASE - V4_FIRST_RECORD_OVERHEAD }

  /**
    * When reading nothing means the end: every stream record has room for a
    * byte, except exactly when a v4 padding of 1405 or more takes the whole
    * first segment; and then exactly the first record has none.
    */
  lemma PolicyRoomy(p: Policy)
    ensures Roomy(PlanOf(p)) <==> !Starves(p)
    ensures Cramped(PlanOf(p)) <==> Starves(p)
  {
    var plan := PlanOf(p);
    forall w, q, now
      ensures if Starves(p) then CrampedLaw(plan, w, q, now) else RoomyLaw(plan, w, q, now)
    {
      if plan.reachable(w) {
        BudgetPositive(p, w, q, now);
      }
    }
    ReachableSteps(p, Fresh(p), 0, 0, 0);
    BudgetPositive(p, Fresh(p), 0, 0);
    assert RoomyLaw(plan, Fresh(p), 0, 0) <==> !Starves(p);
    assert CrampedLaw(plan, Fresh(p), 0, 0) <==> Starves(p);
  }

  /** A session as it is set up: any keystream and tag, any key derivation that succeeds on the salt, any codec. */
  function SessionKeys(p: Policy, g: Gcm, derive: Bytes -> Option<Bytes>, salt: Bytes, key: Bytes): Keys
  {
    Keys(GcmSuite(g, derive), FormatOf(p), salt, key)
  }

  lemma SessionKeysValid(p: Policy, g: Gcm, derive: Bytes -> Option<Bytes>, salt: Bytes, key: Bytes)
    requires |salt| == SALT_LEN && derive(salt) == Some(key) && Admissible(p)
    ensures ValidKeys(SessionKeys(p, g, derive, salt, key))
  {
    GcmLawful(g, derive);
    EveryPolicySound(p);
  }

  /**
    * Round trip over whole runs for each codec, with nothing left abstract but
    * the cipher's two functions: any run of records a codec accepts decodes to
    * exactly its payloads and kinds, and leaves the decoder at the encoder's
    * nonce, sequence number and salt flag, whatever follows on the wire.
    */
  lemma EveryCodecRoundTrips(p: Policy, g: Gcm, derive: Bytes -> Option<Bytes>, salt: Bytes, key: Bytes,
                             c: Core, recs: seq<Rec>, rest: Bytes, max: nat, parser: Parser)
    requires |salt| == SALT_LEN && derive(salt) == Some(key) && Admissible(p)
    requires Fits(SessionKeys(p, g, derive, salt, key), c, recs, max)
    requires parser == RecordParser(GcmSuite(g, derive), FormatOf(p), max)
    ensures
      var k := SessionKeys(p, g, derive, salt, key);
      Drain(parser, DecAt(k, c), Wires(k, c, recs) + rest)
      == Then(Items(recs), Drain(parser, DecAt(k, CoreAfter(c, recs)), rest))
  {
    SessionKeysValid(p, g, derive, salt, key);
    RunRoundTrip(SessionKeys(p, g, derive, salt, key), c, recs, rest, max, parser);
  }
}
