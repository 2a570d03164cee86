/**
  * Sealing records in place. A reservation holds room for one record; sealing
  * it writes the record over the caller's payload, and dropping it leaves the
  * buffer and the encoder as they were.
  */
module Encoders {
  import opened Buffers
  import opened Cipher
  import opened Hosts
  import opened Protocol
  import opened Records
  import opened Windows
  import Nonces

  datatype EncoderState = Ready | Reserving | Poisoned

  /** Absolute offsets of a reserved record; `maxPayload` includes the prefix. */
  datatype Slot = Slot(recordStart: nat, payloadStart: nat, prefixLen: nat, maxPayload: nat)

  datatype Reservation = Reservation(slot: Slot, saltLen: nat, paddingLen: nat, reservedAt: nat)

  function Stored(k: Keys, c: Core, r: Rec, rotated: bool): Bytes
  {
    if rotated then
      BodyParts(k, c, r).1
      + (SaltPart(k, c) + k.format.prefix(c.sequence) + HeadPart(k, c, r) + BodyParts(k, c, r).0)
    else Wire(k, c, r)
  }

  function SplitOf(payloadLen: nat, rotated: bool): nat { if rotated then BodyCipherLen(payloadLen) else 0 }

  /** Sending a stored record from its split on, then up to it, puts it in wire order. */
  lemma StoredRotates(k: Keys, c: Core, r: Rec, rotated: bool)
    requires ValidKeys(k)
    requires Sealable(k.format, r)
    ensures
      var s, n := Stored(k, c, r, rotated), SplitOf(|r.payload|, rotated);
      n <= |s| && |s| == |Wire(k, c, r)| && s[n..] + s[..n] == Wire(k, c, r)
  {
    WireLen(k, c, r);
    var s, n := Stored(k, c, r, rotated), SplitOf(|r.payload|, rotated);
    if rotated {
      assert s[..n] == BodyParts(k, c, r).1;
    } else {
      assert s[..0] == [];
    }
  }

  /** How one codec sizes its records; what differs between the three encoders. */
  datatype Plan = Plan(
    /** Stored payload first and sent from the split on. */
    rotates: bool,
    datagramLimit: nat,
    /** Padding room a reservation of that capacity holds, on a first or later record. */
    reserve: (bool, nat) -> nat,
    /** Padding a sealed record carries: sequence, prefix length, first, room held, payload length. */
    padding: (nat, nat, bool, nat, nat) -> nat,
    /** Stream budget: window, sequence, time. */
    budget: (Window, nat, nat) -> nat,
    refreshed: (Window, nat) -> Window,
    /** Window after a record: sequence, reserve time, seal time. */
    committed: (Window, nat, nat, nat) -> Window,
    reachable: Window -> bool)

  /** A reservation always fits the wire cap. */
  predicate RoomLaw(p: Plan, first: bool, cap: nat)
  {
    cap <= p.datagramLimit ==>
      MAX_SALT_BLOCK_LEN + V6_MAX_PREFIX_LEN + HEADER_CIPHER_LEN + p.reserve(first, cap) + cap + TAG_LEN <= V6_WIRE_CAP
  }

  /** Only rotated records have a prefix. */
  predicate PrefixLaw(p: Plan, f: Format, q: nat)
  {
    |f.prefix(q)| <= if p.rotates then V6_MAX_PREFIX_LEN else 0
  }

  /** The padding fits the room held for it, and the header can state both lengths. */
  predicate PaddingLaw(p: Plan, f: Format, q: nat, first: bool, cap: nat, n: nat)
  {
    n <= cap <= p.datagramLimit ==>
      && PlannedPadding(p, f, q, first, cap, n) <= p.reserve(first, cap)
      && f.accepts(PlannedPadding(p, f, q, first, cap, n), n)
  }

  predicate WindowLaw(p: Plan, w: Window, q: nat, at: nat, now: nat)
  {
    && SaltSent(p.refreshed(w, now)) == SaltSent(w)
    && SaltSent(p.committed(w, q, at, now))
    && (p.reachable(w) ==>
          && p.budget(w, q, now) <= p.datagramLimit
          && p.reachable(p.refreshed(w, now))
          && p.reachable(p.committed(w, q, at, now)))
  }

  /** What the record layer needs of a plan and a format that go together. */
  ghost predicate Sound(p: Plan, f: Format) {
    && f.saltLen <= MAX_SALT_BLOCK_LEN
    && (forall q :: PrefixLaw(p, f, q))
    && (forall first, cap :: RoomLaw(p, first, cap))
    && (forall q, first, cap, n :: PaddingLaw(p, f, q, first, cap, n))
    && (forall w, q, at, now :: WindowLaw(p, w, q, at, now))
  }

  /** Padding bytes come out as long as asked for. */
  predicate FillLaw(fill: (nat, nat) -> Bytes, q: nat, n: nat) { |fill(q, n)| == n }

  ghost predicate Fills(fill: (nat, nat) -> Bytes) { forall q, n :: FillLaw(fill, q, n) }

  function PlannedPadding(p: Plan, f: Format, q: nat, first: bool, cap: nat, n: nat): nat
  {
    p.padding(q, |f.prefix(q)|, first, p.reserve(first, cap), n)
  }

  function LimitFor(p: Plan, w: Window, sequence: nat, now: nat, size: RecordSize): nat
  {
    if size.Stream? then p.budget(w, sequence, now) else p.datagramLimit
  }

  /** The window once a request of that size has been made. */
  function Asked(p: Plan, w: Window, now: nat, size: RecordSize): Window
  {
    if size.Stream? then p.refreshed(w, now) else w
  }

  /** Bytes a reservation holds: salt, prefix, header, padding room, payload and tag. */
  function Room(p: Plan, f: Format, c: Core, cap: nat): nat
  {
    (if c.first then f.saltLen else 0) + |f.prefix(c.sequence)| + HEADER_CIPHER_LEN
    + p.reserve(c.first, cap) + cap + TAG_LEN
  }

  /** The record sealed over `payload` from a reservation of that capacity. */
  function RecordOf(p: Plan, f: Format, fill: (nat, nat) -> Bytes, c: Core, cap: nat, payload: Bytes): Rec
  {
    Rec(payload, fill(c.sequence, PlannedPadding(p, f, c.sequence, c.first, cap, |payload|)))
  }

  /** The sealed record never outgrows its reservation, and always fits the wire cap. */
  lemma RecordFits(p: Plan, k: Keys, fill: (nat, nat) -> Bytes, c: Core, cap: nat, payload: Bytes)
    requires ValidKeys(k) && Sound(p, k.format)
    requires Fills(fill)
    requires |payload| <= cap <= p.datagramLimit
    ensures
      var rec := RecordOf(p, k.format, fill, c, cap, payload);
      && Sealable(k.format, rec)
      && |Wire(k, c, rec)| <= Room(p, k.format, c, cap) <= V6_WIRE_CAP
  {
    assert PaddingLaw(p, k.format, c.sequence, c.first, cap, |payload|);
    assert FillLaw(fill, c.sequence, PlannedPadding(p, k.format, c.sequence, c.first, cap, |payload|));
    assert RoomLaw(p, c.first, cap);
    assert PrefixLaw(p, k.format, c.sequence);
    WireLen(k, c, RecordOf(p, k.format, fill, c, cap, payload));
  }

  /** Hold `total` bytes, commit the first `lead` of them with the salt in front, then the payload prefix. */
  method PlaceRecord(buf: Buffer, total: nat, lead: nat, salt: Bytes, prefix: Bytes) returns (r: Result<nat>)
    requires buf.Valid()
    requires |salt| <= lead
    requires lead + |prefix| <= total
    modifies buf
    ensures buf.Valid() && buf.Capacity() == old(buf.Capacity())
    ensures r.Err? ==> unchanged(buf)
    ensures r.Err? <==> |old(buf.Filled())| + total > buf.Limit()
    ensures r.Err? ==> r.error == (if |buf.Filled()| + total > buf.max then PayloadTooLarge
                                   else BufferTooSmall(|buf.Filled()| + total, buf.Capacity()))
    ensures r.Ok? ==>
      && buf.start <= r.value
      && r.value + total <= buf.Limit()
      && |buf.storage| == r.value + lead + |prefix|
      && buf.storage[buf.start..r.value] == old(buf.Filled())
      && buf.storage[r.value..r.value + |salt|] == salt
      && buf.storage[r.value + lead..] == prefix
  {
    r := buf.ReserveRecord(total, lead);
    if r.Err? {
      return;
    }
    var at := r.value;
    ghost var laid := buf.storage;
    LaidOut(laid, buf.start, at, old(buf.Filled()), Zeros(lead));
    buf.Write(at, salt);
    var extended := buf.ExtendFromSlice(prefix);
    Placed(laid, buf.start, at, salt, prefix);
  }

  lemma LaidOut(s: Bytes, start: nat, at: nat, live: Bytes, zeros: Bytes)
    requires start <= at <= |s| && s[start..] == live + zeros && |zeros| == |s| - at
    ensures s[start..at] == live
  {
    assert s[start..at] == s[start..][..at - start];
  }

  lemma Placed(s: Bytes, start: nat, at: nat, salt: Bytes, prefix: Bytes)
    requires start <= at && at + |salt| <= |s|
    ensures
      var r := Splice(s, at, salt) + prefix;
      r[start..at] == s[start..at] && r[at..at + |salt|] == salt && r[|s|..] == prefix
  {
  }

  /** Store a record in wire order, over its payload; the salt is already in front. */
  method PutInOrder(buf: Buffer, at: nat, salt: Bytes, head: Bytes, padding: Bytes, body: Bytes)
    requires buf.Valid()
    requires buf.start <= at
    requires at + |salt| <= |buf.storage|
    requires buf.storage[at..at + |salt|] == salt
    requires at + |salt| + |head| + |padding| + |body| <= buf.Limit()
    modifies buf
    ensures buf.Valid() && buf.start == old(buf.start) && buf.Capacity() == old(buf.Capacity())
    ensures buf.storage == old(buf.storage)[..at] + (salt + head + padding + body)
  {
    var headerStart := at + |salt|;
    var tail := padding + body;
    ghost var before := buf.storage;
    assert before[..headerStart] == before[..at] + salt;
    buf.SetRecordEnd(headerStart + |head| + |tail|);
    ghost var open := buf.storage;
    assert open[..headerStart] == before[..headerStart];
    buf.Write(headerStart, head);
    buf.Write(headerStart + |head|, tail);
    CoverTail(open, headerStart, head, tail);
    Reassociate(before[..at], salt, head, padding, body);
  }

  lemma Reassociate(a: Bytes, b: Bytes, c: Bytes, d: Bytes, e: Bytes)
    ensures (a + b) + c + (d + e) == a + (b + c + d + e)
  {
  }

  /**
    * Store a record payload first: sealed payload, then salt block, prefix,
    * header and padding, each written at its own offset.
    */
  method PutRotated(buf: Buffer, at: nat, salt: Bytes, prefix: Bytes, head: Bytes, padding: Bytes, body: Bytes)
    requires buf.Valid()
    requires buf.start <= at <= |buf.storage|
    requires at + |salt| + |prefix| + |head| + |padding| + |body| <= buf.Limit()
    modifies buf
    ensures buf.Valid() && buf.start == old(buf.start) && buf.Capacity() == old(buf.Capacity())
    ensures buf.storage == old(buf.storage)[..at] + (body + (salt + prefix + head + padding))
  {
    var prefixStart := at + |body| + |salt|;
    var paddingStart := prefixStart + |prefix| + |head|;
    OpenRecord(buf, at, at + |body|, paddingStart + |padding|);
    ghost var open := buf.storage;
    WriteFields(buf, prefixStart, salt, prefix, head, padding);
    buf.Write(at, body);
    CoverFront(open, at, body, salt + prefix + head + padding);
    assert open[..at] == old(buf.storage)[..at];
  }

  /** Drop what lies behind the payload and commit zeros up to the record's end. */
  method OpenRecord(buf: Buffer, ghost at: nat, payloadEnd: nat, end: nat)
    requires buf.Valid()
    requires buf.start <= at <= |buf.storage| && at <= payloadEnd <= end <= buf.Limit()
    modifies buf
    ensures buf.Valid() && buf.start == old(buf.start) && buf.Capacity() == old(buf.Capacity())
    ensures |buf.storage| == end && buf.storage[..at] == old(buf.storage)[..at]
  {
    buf.SetRecordEnd(payloadEnd);
    buf.ZeroExtendTo(end);
  }

  /** Salt block, prefix, header and padding around the index where the prefix starts. */
  method WriteFields(buf: Buffer, prefixStart: nat, salt: Bytes, prefix: Bytes, head: Bytes, padding: Bytes)
    requires buf.Valid()
    requires |salt| <= prefixStart && prefixStart + |prefix| + |head| + |padding| == |buf.storage|
    modifies buf`storage
    ensures buf.Valid()
    ensures buf.storage == old(buf.storage)[..prefixStart - |salt|] + (salt + prefix + head + padding)
  {
    var headerStart := prefixStart + |prefix|;
    buf.Write(prefixStart - |salt|, salt);
    buf.Write(prefixStart, prefix);
    buf.Write(headerStart, head);
    buf.Write(headerStart + |head|, padding);
    CoverFields(old(buf.storage), prefixStart - |salt|, salt, prefix, head, padding);
  }

  /** Fields written side by side cover everything from `at` on. */
  lemma CoverFields(s: Bytes, at: nat, a: Bytes, b: Bytes, c: Bytes, d: Bytes)
    requires at + |a| + |b| + |c| + |d| == |s|
    ensures
      var s1 := Splice(s, at, a);
      var s2 := Splice(s1, at + |a|, b);
      var s3 := Splice(s2, at + |a| + |b|, c);
      Splice(s3, at + |a| + |b| + |c|, d) == s[..at] + (a + b + c + d)
  {
  }

  lemma CoverFront(s: Bytes, at: nat, body: Bytes, rest: Bytes)
    requires at + |body| + |rest| == |s|
    ensures Splice(s[..at + |body|] + rest, at, body) == s[..at] + (body + rest)
  {
  }

  lemma CoverTail(s: Bytes, at: nat, a: Bytes, b: Bytes)
    requires at + |a| + |b| == |s|
    ensures Splice(Splice(s, at, a), at + |a|, b) == s[..at] + a + b
  {
  }

  /** Seals use the counter's values in order, each once. */
  ghost predicate NoncesInOrder(used: seq<Bytes>) {
    forall i :: 0 <= i < |used| ==> used[i] == Nonces.Nth(i)
  }

  class Encoder {
    const keys: Keys
    const plan: Plan
    /** Padding bytes of record `sequence`: the profile's filler, or entropy for v4. */
    const fill: (nat, nat) -> Bytes
    var nonce: Bytes
    var sequence: nat
    var window: Window
    var state: EncoderState
    /** Nonces of the successful AEAD seals, oldest first. */
    ghost var used: seq<Bytes>

    ghost predicate Valid()
      reads this
    {
      && ValidKeys(keys)
      && Sound(plan, keys.format)
      && Fills(fill)
      && plan.reachable(window)
      && nonce == Nonces.Nth(|used|)
      && NoncesInOrder(used)
    }

    function Now(): Core
      reads this
    {
      Core(nonce, sequence, !SaltSent(window))
    }

    /** Bytes committed in front of the payload when it stays in wire order. */
    function Lead(r: Reservation): nat
    {
      if plan.rotates then 0 else r.saltLen + HEADER_CIPHER_LEN + r.paddingLen
    }

    function Total(r: Reservation): nat
      reads this
    {
      Room(plan, keys.format, Now(), r.slot.maxPayload)
    }

    /** `r` is outstanding in `buf`: its room is held and its fixed part is in place. */
    ghost predicate Holds(buf: Buffer, r: Reservation)
      reads this, buf
    {
      var s := r.slot;
      && state == Reserving
      && buf.Valid()
      && buf.start <= s.recordStart
      && s.payloadStart == s.recordStart + Lead(r)
      && s.prefixLen <= s.maxPayload <= plan.datagramLimit
      && s.payloadStart + s.prefixLen <= |buf.storage|
      && s.recordStart + Total(r) <= buf.Limit()
      && r.saltLen == (if SaltSent(window) then 0 else keys.format.saltLen)
      && r.paddingLen == plan.reserve(!SaltSent(window), s.maxPayload)
      && (!plan.rotates ==>
            buf.storage[s.recordStart..s.recordStart + r.saltLen] == SaltPart(keys, Now()))
    }

    /** The committed payload of an outstanding reservation starts with `payload`. */
    ghost predicate HoldsPayload(buf: Buffer, r: Reservation, payload: Bytes)
      reads buf
    {
      var at := r.slot.payloadStart;
      at + |payload| <= |buf.storage| && buf.storage[at..at + |payload|] == payload
    }

    /** The bytes in front of the reserved record. */
    function Before(buf: Buffer, r: Reservation): Bytes
      requires Holds(buf, r)
      reads this, buf
    {
      buf.storage[buf.start..r.slot.recordStart]
    }

    /** One record was sealed from core `c` behind `before`, and the encoder moved on by exactly that record. */
    ghost predicate Sealed(buf: Buffer, before: Bytes, c: Core, cap: nat, payload: Bytes, split: nat)
      reads this, buf
    {
      && buf.Valid()
      && split == SplitOf(|payload|, plan.rotates)
      && buf.Filled() == before + Stored(keys, c, RecordOf(plan, keys.format, fill, c, cap, payload), plan.rotates)
      && Now() == NextCore(c, |payload|)
      && state == Ready
    }

    /** No record was sealed: `before` is all that is left, and unless poisoned the encoder is where it was. */
    ghost predicate Cancelled(buf: Buffer, before: Bytes, c: Core, seals: seq<Bytes>)
      reads this, buf
    {
      && buf.Valid()
      && buf.Filled() == before
      && state != Reserving
      && (state == Ready ==> Now() == c && used == seals)
    }

    /** The window and state a seal attempt leaves. */
    ghost predicate Left(w: Window, q: nat, at: nat, now: nat, fault: Fault, sealed: bool, struck: bool)
      reads this
    {
      && window == (if sealed then plan.committed(w, q, at, now) else w)
      && state == if struck && !fault.HeaderFault? then Poisoned else Ready
    }

    /** The outcome of a seal attempt: one record sealed, or none. */
    ghost predicate Resolved(buf: Buffer, before: Bytes, c: Core, seals: seq<Bytes>, cap: nat, payload: Bytes, split: Result<nat>)
      reads this, buf
    {
      match split
      case Ok(n) => Sealed(buf, before, c, cap, payload, n)
      case Err(_) => Cancelled(buf, before, c, seals)
    }

    /** What sealing a payload put in honestly comes to: its record, just if no fault strikes. */
    ghost predicate CameOut(buf: Buffer, before: Bytes, c: Core, seals: seq<Bytes>, w: Window, r: Reservation, payload: Bytes,
                            fault: Fault, now: nat, split: Result<nat>)
      reads this, buf
    {
      && Valid() && buf.Valid() && seals <= used
      && Resolved(buf, before, c, seals, r.slot.maxPayload, payload, split)
      && Left(w, c.sequence, r.reservedAt, now, fault, split.Ok?, split.Err?)
      && (split.Err? ==> split.error == Aead || split.error == Entropy)
      && (split.Ok? <==> !Struck(fault, c, r.slot.maxPayload, |payload|))
    }

    constructor (keys: Keys, plan: Plan, fill: (nat, nat) -> Bytes, window: Window)
      requires ValidKeys(keys) && Sound(plan, keys.format)
      requires Fills(fill)
      requires plan.reachable(window) && !SaltSent(window)
      ensures Valid()
      ensures this.keys == keys && this.plan == plan && this.fill == fill && this.window == window
      ensures Now() == Core(Nonces.Nth(0), 0, true) && state == Ready && used == []
    {
      this.keys := keys;
      this.plan := plan;
      this.fill := fill;
      this.window := window;
      nonce, sequence, state := Zeros(NONCE_LEN), 0, Ready;
      used := [];
    }

    /** Why a record of that capacity finds no room: the buffer may not grow that far, or has not yet. */
    ghost predicate Refuses(buf: Buffer, cap: nat, error: Error)
      requires buf.Valid()
      reads this, buf
    {
      var needed := |buf.Filled()| + Room(plan, keys.format, Now(), cap);
      && needed > buf.Limit()
      && error == if needed > buf.max then PayloadTooLarge else BufferTooSmall(needed, buf.Capacity())
    }

    /** Whether the fault is one that the seal of a record with `n` payload bytes, from core `c`, meets. */
    predicate Struck(fault: Fault, c: Core, cap: nat, n: nat)
    {
      Strikes(fault, PlannedPadding(plan, keys.format, c.sequence, c.first, cap, n), n)
    }

    /** Payload capacity for a request, refreshing the window as it is asked. */
    method Admit(prefixLen: nat, size: RecordSize, now: nat) returns (r: Result<nat>)
      requires Valid()
      modifies this`window
      ensures Valid() && Now() == old(Now())
      ensures r == PayloadCapacity(size, prefixLen, LimitFor(plan, old(window), sequence, now, size))
      ensures window == Asked(plan, old(window), now, size)
      ensures r.Ok? ==> prefixLen <= r.value <= plan.datagramLimit
    {
      var limit := LimitFor(plan, window, sequence, now, size);
      assert WindowLaw(plan, window, sequence, now, now);
      if size.Stream? {
        window := plan.refreshed(window, now);
      }
      r := PayloadCapacity(size, prefixLen, limit);
    }

    /** Lay an admitted record out in `buf`. */
    method Lay(buf: Buffer, prefix: Bytes, maxPayload: nat, now: nat) returns (r: Result<Reservation>)
      requires Valid() && buf.Valid()
      requires state.Ready?
      requires |prefix| <= maxPayload <= plan.datagramLimit
      modifies this`state, buf
      ensures Valid() && buf.Valid() && buf.Capacity() == old(buf.Capacity())
      ensures r.Err? ==> state.Ready? && unchanged(buf) && Refuses(buf, maxPayload, r.error)
      ensures r.Ok? ==> Holds(buf, r.value) && Before(buf, r.value) == old(buf.Filled())
      ensures r.Ok? ==>
        var s := r.value.slot;
        buf.storage[s.payloadStart..] == prefix && s.prefixLen == |prefix| && s.maxPayload == maxPayload
        && r.value.reservedAt == now && |old(buf.Filled())| + Room(plan, keys.format, Now(), maxPayload) <= buf.Limit()
    {
      var first := !SaltSent(window);
      var saltLen := if first then keys.format.saltLen else 0;
      var paddingLen := plan.reserve(first, maxPayload);
      var lead := if plan.rotates then 0 else saltLen + HEADER_CIPHER_LEN + paddingLen;
      var total := saltLen + |keys.format.prefix(sequence)| + HEADER_CIPHER_LEN + paddingLen + maxPayload + TAG_LEN;
      var salt := if plan.rotates then [] else SaltPart(keys, Now());
      assert SaltLaw(keys.format, keys.salt) && PrefixLaw(plan, keys.format, sequence);
      var at := PlaceRecord(buf, total, lead, salt, prefix);
      if at.Err? {
        return Err(at.error);
      }
      state := Reserving;
      r := Ok(Reservation(Slot(at.value, at.value + lead, |prefix|, maxPayload), saltLen, paddingLen, now));
    }

    /** Reserve a record whose payload starts with `prefix`. */
    method Reserve(buf: Buffer, prefix: Bytes, size: RecordSize, now: nat) returns (r: Result<Reservation>)
      requires Valid() && buf.Valid()
      modifies this`window, this`state, buf
      ensures Valid() && buf.Valid() && buf.Capacity() == old(buf.Capacity())
      ensures Now() == old(Now())
      ensures old(state).Reserving? ==> r == Err(PendingWire)
      ensures old(state).Poisoned? ==> r == Err(EncoderPoisoned)
      ensures window == if old(state).Ready? then Asked(plan, old(window), now, size) else old(window)
      ensures r.Err? ==> state == old(state) && unchanged(buf)
      ensures r.Err? && state.Ready? ==>
        match PayloadCapacity(size, |prefix|, LimitFor(plan, old(window), sequence, now, size))
        case Err(e) => r.error == e
        case Ok(cap) => Refuses(buf, cap, r.error)
      ensures r.Ok? ==> Holds(buf, r.value) && Before(buf, r.value) == old(buf.Filled())
      ensures r.Ok? ==>
        var s := r.value.slot;
        && buf.storage[s.payloadStart..] == prefix
        && s.prefixLen == |prefix| && r.value.reservedAt == now
        && |old(buf.Filled())| + Room(plan, keys.format, Now(), s.maxPayload) <= buf.Limit()
        && PayloadCapacity(size, |prefix|, LimitFor(plan, old(window), sequence, now, size)) == Ok(s.maxPayload)
    {
      if state.Reserving? {
        return Err(PendingWire);
      }
      if state.Poisoned? {
        return Err(EncoderPoisoned);
      }
      var capacity := Admit(|prefix|, size, now);
      if capacity.Err? {
        return Err(capacity.error);
      }
      r := Lay(buf, prefix, capacity.value, now);
    }

    /** One AEAD seal; on success the nonce moves on and is never used again. */
    method AeadSeal(aad: Bytes, plain: Bytes, fails: bool) returns (r: Result<Bytes>)
      requires Valid()
      modifies this`nonce, this`used
      ensures Valid()
      ensures r == if fails then Err(Aead) else Ok(keys.suite.seal(keys.key, old(nonce), aad, plain))
      ensures r.Err? ==> nonce == old(nonce) && used == old(used)
      ensures r.Ok? ==> nonce == Nonces.Succ(old(nonce)) && used == old(used) + [old(nonce)]
    {
      if fails {
        return Err(Aead);
      }
      r := Ok(keys.suite.seal(keys.key, nonce, aad, plain));
      used := used + [nonce];
      nonce := Nonces.Succ(nonce);
    }

    /** Seal header and payload and mix the padding in; a fault after the header has used up its nonce. */
    method SealParts(payload: Bytes, padding: Bytes, fault: Fault) returns (r: Result<(Bytes, Bytes, Bytes)>)
      requires Valid()
      modifies this`nonce, this`used
      ensures Valid()
      ensures r.Ok? <==> !Strikes(fault, |padding|, |payload|)
      ensures r.Ok? ==>
        var c, rec := old(Now()), Rec(payload, padding);
        && r.value == (HeadPart(keys, c, rec), BodyParts(keys, c, rec).0, BodyParts(keys, c, rec).1)
        && nonce == NextCore(c, |payload|).nonce
      ensures r.Err? ==> (nonce == old(nonce) <==> fault.HeaderFault?)
      ensures r.Err? && fault.HeaderFault? ==> used == old(used)
      ensures r.Err? ==> r.error == Aead || r.error == Entropy
      ensures old(used) <= used
    {
      var header := AeadSeal(keys.format.prefix(sequence), keys.format.plainHeader(|padding|, |payload|), fault.HeaderFault?);
      if header.Err? {
        return Err(header.error);
      }
      Nonces.SuccMoves(old(nonce));
      if payload == [] {
        return Ok((header.value, padding, []));
      }
      var sealed := AeadSeal(keys.format.bind(padding), payload, fault.BodyFault?);
      if sealed.Err? {
        return Err(sealed.error);
      }
      if padding != [] && fault.PaddingFault? {
        return Err(Entropy);
      }
      var mixed := keys.format.mix(sequence, padding, sealed.value);
      r := Ok((header.value, mixed.0, mixed.1));
    }

    /** Write the sealed parts over the payload, in the policy's layout. */
    method Put(buf: Buffer, r: Reservation, ghost c: Core, ghost rec: Rec, parts: (Bytes, Bytes, Bytes))
      requires Valid() && buf.Valid()
      requires buf.start <= r.slot.recordStart <= |buf.storage|
      requires c.sequence == sequence && c.first == !SaltSent(window)
      requires Sealable(keys.format, rec)
      requires parts == (HeadPart(keys, c, rec), BodyParts(keys, c, rec).0, BodyParts(keys, c, rec).1)
      requires r.slot.recordStart + |Wire(keys, c, rec)| <= buf.Limit()
      requires !plan.rotates ==>
        && r.slot.recordStart + r.saltLen <= |buf.storage|
        && buf.storage[r.slot.recordStart..r.slot.recordStart + r.saltLen] == SaltPart(keys, c)
      modifies buf
      ensures buf.Valid() && buf.start == old(buf.start) && buf.Capacity() == old(buf.Capacity())
      ensures buf.storage == old(buf.storage)[..r.slot.recordStart] + Stored(keys, c, rec, plan.rotates)
    {
      WireLen(keys, c, rec);
      var at := r.slot.recordStart;
      var salt := if SaltSent(window) then [] else keys.format.saltBlock(keys.salt);
      assert salt == SaltPart(keys, c);
      if plan.rotates {
        PutRotated(buf, at, salt, keys.format.prefix(sequence), parts.0, parts.1, parts.2);
      } else {
        assert PrefixLaw(plan, keys.format, sequence);
        assert salt + [] == salt;
        PutInOrder(buf, at, salt, parts.0, parts.1, parts.2);
      }
    }

    /** Account for a record sealed from core `c`. */
    method Advance(ghost c: Core, payloadLen: nat, reservedAt: nat, now: nat)
      requires Valid()
      requires c.sequence == sequence && nonce == NextCore(c, payloadLen).nonce
      modifies this`window, this`sequence
      ensures Valid()
      ensures Now() == NextCore(c, payloadLen)
      ensures window == plan.committed(old(window), old(sequence), reservedAt, now)
    {
      assert WindowLaw(plan, window, sequence, reservedAt, now);
      window := plan.committed(window, sequence, reservedAt, now);
      sequence := NextSequence(sequence);
    }

    /** Store a sealed record and account for it. */
    method Complete(buf: Buffer, r: Reservation, ghost c: Core, rec: Rec, parts: (Bytes, Bytes, Bytes), now: nat)
      requires Valid() && buf.Valid()
      requires buf.start <= r.slot.recordStart <= |buf.storage|
      requires c.sequence == sequence && c.first == !SaltSent(window) && nonce == NextCore(c, |rec.payload|).nonce
      requires Sealable(keys.format, rec)
      requires parts == (HeadPart(keys, c, rec), BodyParts(keys, c, rec).0, BodyParts(keys, c, rec).1)
      requires r.slot.recordStart + |Wire(keys, c, rec)| <= buf.Limit()
      requires !plan.rotates ==>
        && r.slot.recordStart + r.saltLen <= |buf.storage|
        && buf.storage[r.slot.recordStart..r.slot.recordStart + r.saltLen] == SaltPart(keys, c)
      modifies this`window, this`sequence, this`state, buf
      ensures Valid() && buf.Valid() && buf.Capacity() == old(buf.Capacity())
      ensures state == Ready
      ensures buf.Filled() == old(buf.storage[buf.start..r.slot.recordStart]) + Stored(keys, c, rec, plan.rotates)
      ensures Now() == NextCore(c, |rec.payload|)
      ensures window == plan.committed(old(window), old(sequence), r.reservedAt, now)
    {
      state := Ready;
      Put(buf, r, c, rec, parts);
      Advance(c, |rec.payload|, r.reservedAt, now);
    }

    /** Give up a record whose seal failed; if that used up a nonce, give up the encoder. */
    method Abandon(buf: Buffer, at: nat, nonceBefore: Bytes)
      requires Valid() && buf.Valid()
      requires buf.start <= at <= |buf.storage|
      modifies this`state, buf
      ensures Valid() && buf.Valid() && buf.Capacity() == old(buf.Capacity())
      ensures state == if nonce != nonceBefore then Poisoned else Ready
      ensures buf.Filled() == old(buf.storage[buf.start..at])
    {
      state := if nonce != nonceBefore then Poisoned else Ready;
      var cut := buf.Truncate(at);
    }

    /**
      * Seal the payload at the reservation's slot. Success appends one stored record
      * and advances the encoder by one record; failure leaves the bytes in
      * front of the record, and poisons the encoder if a nonce was used.
      */
    method Finish(buf: Buffer, r: Reservation, payload: Bytes, fault: Fault, now: nat) returns (split: Result<nat>)
      requires Valid() && Holds(buf, r)
      requires |payload| <= r.slot.maxPayload
      requires HoldsPayload(buf, r, payload)
      modifies this, buf
      ensures Valid() && buf.Valid() && buf.Capacity() == old(buf.Capacity())
      ensures old(used) <= used
      ensures Resolved(buf, old(Before(buf, r)), old(Now()), old(used), r.slot.maxPayload, payload, split)
      ensures Left(old(window), old(sequence), r.reservedAt, now, fault, split.Ok?, split.Err?)
      ensures split.Err? ==> split.error == Aead || split.error == Entropy
      ensures split.Ok? <==> !Struck(fault, old(Now()), r.slot.maxPayload, |payload|)
    {
      var c := Now();
      var rec := RecordOf(plan, keys.format, fill, c, r.slot.maxPayload, payload);
      RecordFits(plan, keys, fill, c, r.slot.maxPayload, payload);
      assert FillLaw(fill, sequence, PlannedPadding(plan, keys.format, sequence, c.first, r.slot.maxPayload, |payload|));
      var nonceBefore := nonce;
      var parts := SealParts(payload, rec.padding, fault);
      if parts.Err? {
        Abandon(buf, r.slot.recordStart, nonceBefore);
        return Err(parts.error);
      }
      Complete(buf, r, c, rec, parts.value, now);
      split := Ok(SplitOf(|payload|, plan.rotates));
    }

    /** Cancel an unsealed reservation. */
    method Drop(buf: Buffer, r: Reservation)
      requires Valid() && Holds(buf, r)
      modifies this`state, buf
      ensures Valid() && buf.Valid() && buf.Capacity() == old(buf.Capacity())
      ensures state == Ready && Cancelled(buf, old(Before(buf, r)), old(Now()), old(used))
    {
      state := Ready;
      var cut := buf.Truncate(r.slot.recordStart);
    }

    /** Copy `bytes` into the zero-filled payload after the prefix. */
    method WritePayload(buf: Buffer, r: Reservation, bytes: Bytes) returns (ghost payload: Bytes)
      requires Valid() && Holds(buf, r)
      requires r.slot.prefixLen + |bytes| <= r.slot.maxPayload
      modifies buf
      ensures Holds(buf, r) && Before(buf, r) == old(Before(buf, r)) && buf.Capacity() == old(buf.Capacity())
      ensures payload == old(buf.storage[r.slot.payloadStart..r.slot.payloadStart + r.slot.prefixLen]) + bytes
      ensures HoldsPayload(buf, r, payload)
      ensures |buf.storage| == Max(|old(buf.storage)|, r.slot.payloadStart + r.slot.maxPayload)
    {
      var s := r.slot;
      var at := s.payloadStart + s.prefixLen;
      ghost var was := buf.storage;
      payload := was[s.payloadStart..at] + bytes;
      PutPayload(buf, at, s.payloadStart + s.maxPayload, bytes);
      ghost var saltEnd := if plan.rotates then s.recordStart else s.recordStart + r.saltLen;
      PayloadPut(was, buf.storage, at, buf.start, s.recordStart, saltEnd, s.payloadStart, bytes);
    }

    /**
      * Seal `written` bytes after the prefix, put in through `WritePayload`, as
      * the payload they make up with it. Claiming more than the record admits,
      * or more than was written, cancels it.
      */
    method Seal(buf: Buffer, r: Reservation, written: nat, ghost payload: Bytes, fault: Fault, now: nat)
      returns (split: Result<nat>)
      requires Valid() && Holds(buf, r)
      requires |payload| == r.slot.prefixLen + written
      requires r.slot.payloadStart + |payload| <= |buf.storage| ==> HoldsPayload(buf, r, payload)
      modifies this, buf
      ensures Valid() && buf.Valid() && buf.Capacity() == old(buf.Capacity())
      ensures old(used) <= used
      ensures Resolved(buf, old(Before(buf, r)), old(Now()), old(used), r.slot.maxPayload, payload, split)
      ensures split.Ok? <==>
        && |payload| <= r.slot.maxPayload && r.slot.payloadStart + |payload| <= |old(buf.storage)|
        && !Struck(fault, old(Now()), r.slot.maxPayload, |payload|)
      ensures Left(old(window), old(sequence), r.reservedAt, now, fault, split.Ok?,
                   split.Err? && split.error != PayloadTooLarge && split.error != PendingWire)
      ensures |payload| > r.slot.maxPayload ==> split == Err(PayloadTooLarge)
      ensures |payload| <= r.slot.maxPayload && r.slot.payloadStart + |payload| > |old(buf.storage)| ==>
        split == Err(PendingWire)
      ensures split.Err? && |payload| <= r.slot.maxPayload && r.slot.payloadStart + |payload| <= |old(buf.storage)| ==>
        split.error == Aead || split.error == Entropy
    {
      var total := r.slot.prefixLen + written;
      if total > r.slot.maxPayload {
        Drop(buf, r);
        return Err(PayloadTooLarge);
      }
      if |buf.storage| < r.slot.payloadStart + total {
        Drop(buf, r);
        return Err(PendingWire);
      }
      var sealed := buf.storage[r.slot.payloadStart..r.slot.payloadStart + total];
      assert sealed == payload;
      split := Finish(buf, r, sealed, fault, now);
    }

    /** Seal a payload that was put in as it is claimed. */
    method SealWritten(buf: Buffer, r: Reservation, written: nat, ghost payload: Bytes, fault: Fault, now: nat)
      returns (split: Result<nat>)
      requires Valid() && Holds(buf, r) && HoldsPayload(buf, r, payload)
      requires |payload| == r.slot.prefixLen + written <= r.slot.maxPayload
      modifies this, buf
      ensures buf.Capacity() == old(buf.Capacity())
      ensures CameOut(buf, old(Before(buf, r)), old(Now()), old(used), old(window), r, payload, fault, now, split)
    {
      split := Seal(buf, r, written, payload, fault, now);
    }

    /** Commit bytes a reader left right after the prefix. */
    method CommitPayload(buf: Buffer, r: Reservation, written: nat) returns (payload: Bytes)
      requires Valid() && Holds(buf, r)
      requires r.slot.prefixLen + written <= r.slot.maxPayload
      requires |buf.storage| == r.slot.payloadStart + r.slot.prefixLen
      modifies buf
      ensures Holds(buf, r) && Before(buf, r) == old(Before(buf, r)) && buf.Capacity() == old(buf.Capacity())
      ensures written <= |old(buf.spare)|
      ensures payload == old(buf.storage)[r.slot.payloadStart..] + old(buf.spare)[..written]
      ensures HoldsPayload(buf, r, payload)
    {
      var s := r.slot;
      ghost var was := buf.storage;
      payload := buf.storage[s.payloadStart..] + buf.spare[..written];
      TailSlice(buf.storage, buf.spare[..written], s.payloadStart);
      var committed := buf.Commit(written);
      assert buf.storage[..|was|] == was;
      PrefixSlice(was, buf.storage, |was|, buf.start, s.recordStart);
      if !plan.rotates {
        PrefixSlice(was, buf.storage, |was|, s.recordStart, s.recordStart + r.saltLen);
      }
    }

    /**
      * Seal `written` bytes a reader left in the uncommitted payload. Claiming
      * too many, or having committed payload as well, cancels the record.
      */
    method SealInit(buf: Buffer, r: Reservation, written: nat, ghost payload: Bytes, fault: Fault, now: nat)
      returns (split: Result<nat>)
      requires Valid() && Holds(buf, r)
      requires |payload| == r.slot.prefixLen + written
      requires written <= |buf.spare| && |buf.storage| == r.slot.payloadStart + r.slot.prefixLen ==>
        payload == buf.storage[r.slot.payloadStart..] + buf.spare[..written]
      modifies this, buf
      ensures Valid() && buf.Valid() && buf.Capacity() == old(buf.Capacity())
      ensures old(used) <= used
      ensures Resolved(buf, old(Before(buf, r)), old(Now()), old(used), r.slot.maxPayload, payload, split)
      ensures split.Ok? <==>
        && |payload| <= r.slot.maxPayload && |old(buf.storage)| == r.slot.payloadStart + r.slot.prefixLen
        && !Struck(fault, old(Now()), r.slot.maxPayload, |payload|)
      ensures Left(old(window), old(sequence), r.reservedAt, now, fault, split.Ok?,
                   split.Err? && split.error != PayloadTooLarge && split.error != PendingWire)
      ensures |payload| > r.slot.maxPayload ==> split == Err(PayloadTooLarge)
      ensures |payload| <= r.slot.maxPayload && |old(buf.storage)| != r.slot.payloadStart + r.slot.prefixLen ==>
        split == Err(PendingWire)
      ensures split.Err? && |payload| <= r.slot.maxPayload
              && |old(buf.storage)| == r.slot.payloadStart + r.slot.prefixLen ==>
        split.error == Aead || split.error == Entropy
    {
      var s, total := r.slot, r.slot.prefixLen + written;
      if total > s.maxPayload {
        Drop(buf, r);
        return Err(PayloadTooLarge);
      }
      if |buf.storage| != s.payloadStart + s.prefixLen {
        Drop(buf, r);
        return Err(PendingWire);
      }
      var committed := CommitPayload(buf, r, written);
      split := Finish(buf, r, committed, fault, now);
    }
  }

  /** Copy `bytes` into a reserved record behind its prefix, and seal it. */
  method FillCopied(e: Encoder, buf: Buffer, r: Reservation, bytes: Bytes, fault: Fault, now: nat)
    returns (split: Result<nat>, ghost payload: Bytes)
    requires e.Valid() && e.Holds(buf, r) && |buf.storage| == r.slot.payloadStart + r.slot.prefixLen
    requires r.slot.prefixLen + |bytes| <= r.slot.maxPayload
    modifies e, buf
    ensures buf.Capacity() == old(buf.Capacity()) && payload == old(buf.storage)[r.slot.payloadStart..] + bytes
    ensures e.CameOut(buf, old(e.Before(buf, r)), old(e.Now()), old(e.used), old(e.window), r, payload, fault, now, split)
  {
    WholeTail(buf.storage, r.slot.payloadStart, r.slot.prefixLen);
    payload := e.WritePayload(buf, r, bytes);
    split := e.SealWritten(buf, r, |bytes|, payload, fault, now);
  }

  /** Read `bytes` into the raw slot instead: the same record for the same bytes, whatever the slot held. */
  method FillRead(e: Encoder, buf: Buffer, r: Reservation, bytes: Bytes, fault: Fault, now: nat)
    returns (split: Result<nat>, ghost payload: Bytes)
    requires e.Valid() && e.Holds(buf, r) && |buf.storage| == r.slot.payloadStart + r.slot.prefixLen
    requires r.slot.prefixLen + |bytes| <= r.slot.maxPayload
    modifies e, buf
    ensures buf.Capacity() == old(buf.Capacity()) && payload == old(buf.storage)[r.slot.payloadStart..] + bytes
    ensures e.CameOut(buf, old(e.Before(buf, r)), old(e.Now()), old(e.used), old(e.window), r, payload, fault, now, split)
  {
    payload := buf.storage[r.slot.payloadStart..] + bytes;
    PutRaw(e, buf, r, bytes);
    split := SealRead(e, buf, r, |bytes|, payload, fault, now);
  }

  /** Seal bytes a reader left in the raw slot. */
  method SealRead(e: Encoder, buf: Buffer, r: Reservation, written: nat, ghost payload: Bytes, fault: Fault, now: nat)
    returns (split: Result<nat>)
    requires e.Valid() && e.Holds(buf, r) && |buf.storage| == r.slot.payloadStart + r.slot.prefixLen && written <= |buf.spare|
    requires payload == buf.storage[r.slot.payloadStart..] + buf.spare[..written]
    requires |payload| == r.slot.prefixLen + written <= r.slot.maxPayload
    modifies e, buf
    ensures buf.Capacity() == old(buf.Capacity())
    ensures e.CameOut(buf, old(e.Before(buf, r)), old(e.Now()), old(e.used), old(e.window), r, payload, fault, now, split)
  {
    split := e.SealInit(buf, r, written, payload, fault, now);
  }

  /** Let a reader leave `bytes` in the raw slot of an outstanding reservation. */
  method PutRaw(e: Encoder, buf: Buffer, r: Reservation, bytes: Bytes)
    requires e.Valid() && e.Holds(buf, r) && |buf.storage| == r.slot.payloadStart + r.slot.prefixLen
    requires r.slot.prefixLen + |bytes| <= r.slot.maxPayload
    modifies buf`spare
    ensures e.Holds(buf, r) && e.Before(buf, r) == old(e.Before(buf, r)) && buf.Capacity() == old(buf.Capacity())
    ensures |bytes| <= |buf.spare| && buf.spare[..|bytes|] == bytes
  {
    buf.Scribble(bytes);
  }

  lemma WholeTail(s: Bytes, at: nat, n: nat)
    requires at + n == |s|
    ensures s[at..at + n] == s[at..]
  {
  }

  /** Zero-fill up to `end` and copy `bytes` in from `at`. */
  method PutPayload(buf: Buffer, at: nat, end: nat, bytes: Bytes)
    requires buf.Valid()
    requires at <= |buf.storage|
    requires at + |bytes| <= end <= buf.Limit()
    modifies buf
    ensures buf.Valid() && buf.start == old(buf.start) && buf.Capacity() == old(buf.Capacity())
    ensures |buf.storage| == Max(|old(buf.storage)|, end)
    ensures buf.storage[..at] == old(buf.storage)[..at]
    ensures buf.storage[at..at + |bytes|] == bytes
  {
    buf.ZeroExtendTo(end);
    buf.Write(at, bytes);
  }

  lemma TailSlice(was: Bytes, more: Bytes, at: nat)
    requires at <= |was|
    ensures (was + more)[at..at + |was[at..] + more|] == was[at..] + more
  {
  }

  lemma JoinSlices(s: Bytes, lo: nat, mid: nat, hi: nat)
    requires lo <= mid <= hi <= |s|
    ensures s[lo..hi] == s[lo..mid] + s[mid..hi]
  {
  }

  /** Bytes put in at `at` leave what is in front of them, and extend the payload they are part of. */
  lemma PayloadPut(was: Bytes, after: Bytes, at: nat, start: nat, record: nat, saltEnd: nat, payload: nat, bytes: Bytes)
    requires start <= record <= saltEnd <= at && payload <= at <= |was| && at + |bytes| <= |after|
    requires after[..at] == was[..at] && after[at..at + |bytes|] == bytes
    ensures after[start..record] == was[start..record] && after[record..saltEnd] == was[record..saltEnd]
    ensures after[payload..at + |bytes|] == was[payload..at] + bytes
  {
    PrefixSlice(was, after, at, start, record);
    PrefixSlice(was, after, at, record, saltEnd);
    PrefixSlice(was, after, at, payload, at);
    JoinSlices(after, payload, at, at + |bytes|);
  }

  /** Slices within a common prefix agree. */
  lemma PrefixSlice(was: Bytes, after: Bytes, at: nat, lo: nat, hi: nat)
    requires at <= |was| && at <= |after|
    requires after[..at] == was[..at]
    requires lo <= hi <= at
    ensures after[lo..hi] == was[lo..hi]
  {
    assert after[lo..hi] == after[..at][lo..hi];
    assert was[lo..hi] == was[..at][lo..hi];
  }

  /** No nonce serves two seals until the 96-bit counter comes around. */
  lemma NonceUsedOnce(used: seq<Bytes>, i: nat, j: nat)
    requires NoncesInOrder(used)
    requires i < |used| && j < |used|
    ensures used[i] == used[j] <==> i % Nonces.NONCE_SPACE == j % Nonces.NONCE_SPACE
    ensures i < j < Nonces.NONCE_SPACE ==> used[i] != used[j]
  {
    Nonces.NonceReuse(i, j);
    if i < j < Nonces.NONCE_SPACE {
      Nonces.SmallResidues(i, j);
    }
  }
}
