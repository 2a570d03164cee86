/** Every run of an encoder: reservations sealed, dropped, leaked or failed, in any order, over one buffer. */
module Lifecycles {
  import opened Buffers
  import opened Encoders
  import opened Hosts
  import opened Protocol
  import opened Records
  import opened Streams
  import opened Windows

  /**
    * How the bytes of a reserved record are put in: copied into the zeroed
    * payload, read into the raw slot, not at all, or copied and then claimed as
    * read.
    */
  datatype Way = Copied | ReadIn | Unwritten | Mixed

  /** What a caller does with the encoder; `at` is when it reserves and `now` when it seals. */
  datatype Op =
    | Send(prefix: Bytes, size: RecordSize, at: nat, bytes: Bytes, way: Way, fault: Fault, now: nat)
    | Overrun(prefix: Bytes, size: RecordSize, at: nat)
    | Cancel(prefix: Bytes, size: RecordSize, at: nat)
    | Leak(prefix: Bytes, size: RecordSize, at: nat)

  // ---- What each operation comes to ----

  datatype Setting = Setting(keys: Keys, plan: Plan, fill: (nat, nat) -> Bytes, limit: nat)

  /** Where an encoder stands: `len` is the number of live bytes in its buffer. */
  datatype Stage = Stage(core: Core, window: Window, state: EncoderState, len: nat)

  /** Payload capacity, if the request is admitted and its room is there. */
  function Grant(m: Setting, s: Stage, op: Op): Option<nat>
  {
    match PayloadCapacity(op.size, |op.prefix|, LimitFor(m.plan, s.window, s.core.sequence, op.at, op.size))
    case Err(_) => None
    case Ok(cap) => if s.len + Room(m.plan, m.keys.format, s.core, cap) <= m.limit then Some(cap) else None
  }

  /** What a record of capacity `cap` takes of the bytes sent. */
  function Payload(op: Op, cap: nat): Bytes
    requires op.Send? && |op.prefix| <= cap
  {
    op.prefix + op.bytes[..Min(|op.bytes|, cap - |op.prefix|)]
  }

  /** Whether the bytes claimed are bytes put in the way they are claimed. */
  predicate Honest(op: Op, cap: nat)
    requires op.Send? && |op.prefix| <= cap
  {
    match op.way
    case Copied => true
    case ReadIn => true
    case Unwritten => |Payload(op, cap)| == |op.prefix|
    case Mixed => cap == |op.prefix|
  }

  predicate Fails(m: Setting, c: Core, op: Op, cap: nat)
    requires op.Send? && |op.prefix| <= cap
  {
    var n := |Payload(op, cap)|;
    Strikes(op.fault, PlannedPadding(m.plan, m.keys.format, c.sequence, c.first, cap, n), n)
  }

  /** Send a reserved record. */
  function Sending(m: Setting, s: Stage, op: Op, cap: nat): (Stage, Option<Rec>)
    requires op.Send? && |op.prefix| <= cap
  {
    if !Honest(op, cap) then (s, None)
    else if Fails(m, s.core, op, cap) then (s.(state := if op.fault.HeaderFault? then Ready else Poisoned), None)
    else
      var rec := RecordOf(m.plan, m.keys.format, m.fill, s.core, cap, Payload(op, cap));
      (Stage(NextCore(s.core, |rec.payload|), m.plan.committed(s.window, s.core.sequence, op.at, op.now), Ready,
             s.len + |Wire(m.keys, s.core, rec)|),
       Some(rec))
  }

  /** One operation: where it leaves the encoder, and the record it sealed. */
  function Taken(m: Setting, s: Stage, op: Op): (Stage, Option<Rec>)
  {
    if s.state != Ready then (s, None)
    else
      var cap, asked := Grant(m, s, op), s.(window := Asked(m.plan, s.window, op.at, op.size));
      if cap.None? then (asked, None)
      else
        match op
        case Send(_, _, _, _, _, _, _) => Sending(m, asked, op, cap.value)
        case Overrun(_, _, _) => (asked, None)
        case Cancel(_, _, _) => (asked, None)
        case Leak(_, _, _) => (asked.(state := Reserving), None)
  }

  function StageAfter(m: Setting, s: Stage, script: seq<Op>): Stage
  {
    if script == [] then s
    else
      var n := |script| - 1;
      Taken(m, StageAfter(m, s, script[..n]), script[n]).0
  }

  /** The record each operation of a script seals, if any. */
  function Outcomes(m: Setting, s: Stage, script: seq<Op>): seq<Option<Rec>>
  {
    if script == [] then []
    else
      var n := |script| - 1;
      Outcomes(m, s, script[..n]) + [Taken(m, StageAfter(m, s, script[..n]), script[n]).1]
  }

  /** Records of a run as they are stored, one after the other. */
  function StoreSealer(k: Keys, rotated: bool): Sealer
  {
    (c: Core, r: Rec) => Stored(k, c, r, rotated)
  }

  function Successes(outcomes: seq<Option<Rec>>): seq<Rec>
  {
    if outcomes == [] then []
    else
      var before, last := Successes(outcomes[..|outcomes| - 1]), outcomes[|outcomes| - 1];
      if last.Some? then before + [last.value] else before
  }

  lemma SuccessesAppend(outcomes: seq<Option<Rec>>, last: Option<Rec>)
    ensures Successes(outcomes + [last])
            == if last.Some? then Successes(outcomes) + [last.value] else Successes(outcomes)
  {
    assert (outcomes + [last])[..|outcomes|] == outcomes;
  }

  lemma PrefixTrans(a: seq<Bytes>, b: seq<Bytes>, c: seq<Bytes>)
    requires a <= b && b <= c
    ensures a <= c
  {
  }

  // ---- The encoder does just that ----

  function SettingOf(e: Encoder, buf: Buffer): Setting
    reads e, buf
  {
    Setting(e.keys, e.plan, e.fill, buf.Limit())
  }

  function StageOf(e: Encoder, buf: Buffer): Stage
    requires buf.Valid()
    reads e, buf
  {
    Stage(e.Now(), e.window, e.state, |buf.Filled()|)
  }

  /** The encoder stands at that stage; one that is out of use may have moved on. */
  ghost predicate StandsAt(e: Encoder, buf: Buffer, s: Stage)
    requires buf.Valid()
    reads e, buf
  {
    e.state == s.state && (e.state == Ready ==> StageOf(e, buf) == s)
  }

  /** What one operation leaves: one more record, or the bytes and the encoder as they were, poison and leaks apart. */
  ghost predicate Attempted(e: Encoder, buf: Buffer, filled: Bytes, c: Core, seals: seq<Bytes>, outcome: Option<Rec>)
    reads e, buf
  {
    && e.Valid() && buf.Valid()
    && match outcome
       case Some(rec) =>
         && e.state == Ready && e.Now() == NextCore(c, |rec.payload|)
         && Sealable(e.keys.format, rec) && |Wire(e.keys, c, rec)| <= V6_WIRE_CAP
         && buf.Filled() == filled + Stored(e.keys, c, rec, e.plan.rotates)
       case None =>
         && (if e.state == Reserving then filled <= buf.Filled() else buf.Filled() == filled)
         && (e.state != Poisoned ==> e.Now() == c && e.used == seals)
  }

  /** A sealed reservation as an outcome. */
  lemma SealedOutcome(e: Encoder, buf: Buffer, filled: Bytes, c: Core, seals: seq<Bytes>, cap: nat, payload: Bytes, split: nat)
    requires e.Valid() && e.Sealed(buf, filled, c, cap, payload, split)
    requires |payload| <= cap <= e.plan.datagramLimit
    ensures
      var rec := RecordOf(e.plan, e.keys.format, e.fill, c, cap, payload);
      Attempted(e, buf, filled, c, seals, Some(rec)) && |buf.Filled()| == |filled| + |Wire(e.keys, c, rec)|
  {
    RecordFits(e.plan, e.keys, e.fill, c, cap, payload);
    StoredRotates(e.keys, c, RecordOf(e.plan, e.keys.format, e.fill, c, cap, payload), e.plan.rotates);
  }

  /** How a seal attempt came out: it succeeds just if the claim is honest and no fault strikes. */
  ghost predicate Resolves(e: Encoder, buf: Buffer, before: Bytes, was: Stage, seals: seq<Bytes>, r: Reservation,
                          op: Op, honest: bool, payload: Bytes, split: Result<nat>)
    requires op.Send?
    reads e, buf
  {
    var struck := e.Struck(op.fault, was.core, r.slot.maxPayload, |payload|);
    && e.Resolved(buf, before, was.core, seals, r.slot.maxPayload, payload, split)
    && e.Left(was.window, was.core.sequence, r.reservedAt, op.now, op.fault, split.Ok?, honest && struck)
    && (split.Ok? <==> honest && !struck)
  }

  /** Put bytes in and claim them as they were put in. */
  method SealHonest(e: Encoder, buf: Buffer, r: Reservation, op: Op, bytes: Bytes)
    returns (split: Result<nat>, ghost payload: Bytes)
    requires op.Send? && (op.way.Copied? || op.way.ReadIn?)
    requires e.Valid() && e.Holds(buf, r) && |buf.storage| == r.slot.payloadStart + r.slot.prefixLen
    requires r.slot.prefixLen + |bytes| <= r.slot.maxPayload
    modifies e, buf
    ensures e.Valid() && buf.Valid() && buf.Capacity() == old(buf.Capacity()) && old(e.used) <= e.used
    ensures payload == old(buf.storage)[r.slot.payloadStart..] + bytes
    ensures Resolves(e, buf, old(e.Before(buf, r)), old(StageOf(e, buf)), old(e.used), r, op, true, payload, split)
  {
    if op.way.Copied? {
      split, payload := FillCopied(e, buf, r, bytes, op.fault, op.now);
    } else {
      split, payload := FillRead(e, buf, r, bytes, op.fault, op.now);
    }
  }

  /** Seal bytes that were never written. */
  method SealUnwritten(e: Encoder, buf: Buffer, r: Reservation, op: Op, bytes: Bytes)
    returns (split: Result<nat>, ghost payload: Bytes)
    requires op.Send?
    requires e.Valid() && e.Holds(buf, r) && |buf.storage| == r.slot.payloadStart + r.slot.prefixLen
    requires r.slot.prefixLen + |bytes| <= r.slot.maxPayload
    modifies e, buf
    ensures e.Valid() && buf.Valid() && buf.Capacity() == old(buf.Capacity()) && old(e.used) <= e.used
    ensures payload == old(buf.storage)[r.slot.payloadStart..] + bytes
    ensures Resolves(e, buf, old(e.Before(buf, r)), old(StageOf(e, buf)), old(e.used), r, op, |bytes| == 0, payload, split)
  {
    WholeTail(buf.storage, r.slot.payloadStart, r.slot.prefixLen);
    payload := buf.storage[r.slot.payloadStart..] + bytes;
    split := e.Seal(buf, r, |bytes|, payload, op.fault, op.now);
  }

  /** Copy bytes into the payload, and then claim them as read into the raw slot. */
  method SealMixed(e: Encoder, buf: Buffer, r: Reservation, op: Op, bytes: Bytes)
    returns (split: Result<nat>, ghost payload: Bytes)
    requires op.Send?
    requires e.Valid() && e.Holds(buf, r) && |buf.storage| == r.slot.payloadStart + r.slot.prefixLen
    requires r.slot.prefixLen + |bytes| <= r.slot.maxPayload
    modifies e, buf
    ensures e.Valid() && buf.Valid() && buf.Capacity() == old(buf.Capacity()) && old(e.used) <= e.used
    ensures payload == old(buf.storage)[r.slot.payloadStart..] + bytes
    ensures Resolves(e, buf, old(e.Before(buf, r)), old(StageOf(e, buf)), old(e.used), r, op,
                    r.slot.maxPayload == r.slot.prefixLen, payload, split)
  {
    WholeTail(buf.storage, r.slot.payloadStart, r.slot.prefixLen);
    payload := e.WritePayload(buf, r, bytes);
    split := e.SealInit(buf, r, |bytes|, payload, op.fault, op.now);
  }

  /** Put bytes into an outstanding reservation the way the operation says, and seal it. */
  method SealAs(e: Encoder, buf: Buffer, r: Reservation, op: Op) returns (split: Result<nat>, ghost payload: Bytes)
    requires op.Send? && e.Valid() && e.Holds(buf, r)
    requires r.slot.prefixLen == |op.prefix| && buf.storage[r.slot.payloadStart..] == op.prefix
    modifies e, buf
    ensures e.Valid() && buf.Valid() && buf.Capacity() == old(buf.Capacity()) && old(e.used) <= e.used
    ensures payload == Payload(op, r.slot.maxPayload)
    ensures Resolves(e, buf, old(e.Before(buf, r)), old(StageOf(e, buf)), old(e.used), r, op,
                    Honest(op, r.slot.maxPayload), payload, split)
  {
    var bytes := op.bytes[..Min(|op.bytes|, r.slot.maxPayload - r.slot.prefixLen)];
    match op.way {
      case Unwritten => split, payload := SealUnwritten(e, buf, r, op, bytes);
      case Mixed => split, payload := SealMixed(e, buf, r, op, bytes);
      case _ => split, payload := SealHonest(e, buf, r, op, bytes);
    }
  }

  /** Send an outstanding reservation. */
  method SendInto(e: Encoder, buf: Buffer, r: Reservation, op: Op, ghost filled: Bytes)
    returns (ghost s: Stage, ghost outcome: Option<Rec>)
    requires op.Send? && e.Valid() && e.Holds(buf, r) && e.Before(buf, r) == filled && r.reservedAt == op.at
    requires r.slot.prefixLen == |op.prefix| && buf.storage[r.slot.payloadStart..] == op.prefix
    modifies e, buf
    ensures Attempted(e, buf, filled, old(e.Now()), old(e.used), outcome)
    ensures buf.Capacity() == old(buf.Capacity()) && old(e.used) <= e.used && StandsAt(e, buf, s)
    ensures (s, outcome) ==
            Sending(SettingOf(e, buf), Stage(old(e.Now()), old(e.window), Ready, |filled|), op, r.slot.maxPayload)
  {
    ghost var c := e.Now();
    s := Stage(c, e.window, Ready, |filled|);
    var split;
    ghost var payload := [];
    split, payload := SealAs(e, buf, r, op);
    if split.Ok? {
      SealedOutcome(e, buf, filled, c, old(e.used), r.slot.maxPayload, payload, split.value);
    }
    ghost var sent := Sending(SettingOf(e, buf), s, op, r.slot.maxPayload);
    s, outcome := sent.0, sent.1;
  }

  /** Give a reservation up, by claiming more than it holds or by dropping it. */
  method Abandon(e: Encoder, buf: Buffer, r: Reservation, overrun: bool, at: nat, ghost filled: Bytes)
    returns (ghost s: Stage)
    requires e.Valid() && e.Holds(buf, r) && e.Before(buf, r) == filled
    requires |buf.storage| == r.slot.payloadStart + r.slot.prefixLen
    modifies e, buf
    ensures Attempted(e, buf, filled, old(e.Now()), old(e.used), None)
    ensures buf.Capacity() == old(buf.Capacity()) && old(e.used) <= e.used && StandsAt(e, buf, s)
    ensures s == Stage(old(e.Now()), old(e.window), Ready, |filled|)
  {
    if overrun {
      ghost var claim := Zeros(r.slot.maxPayload + 1);
      var split := e.Seal(buf, r, r.slot.maxPayload + 1 - r.slot.prefixLen, claim, NoFault, at);
    } else {
      e.Drop(buf, r);
    }
    s := StageOf(e, buf);
  }

  /** One operation, whatever state the encoder is in. */
  method Attempt(e: Encoder, buf: Buffer, op: Op) returns (ghost s: Stage, ghost outcome: Option<Rec>)
    requires e.Valid() && buf.Valid()
    modifies e, buf
    ensures Attempted(e, buf, old(buf.Filled()), old(e.Now()), old(e.used), outcome)
    ensures buf.Capacity() == old(buf.Capacity()) && old(e.used) <= e.used && StandsAt(e, buf, s)
    ensures (s, outcome) == Taken(SettingOf(e, buf), old(StageOf(e, buf)), op)
    ensures old(e.state) != Ready ==> e.used == old(e.used) && buf.Filled() == old(buf.Filled())
  {
    ghost var filled, was := buf.Filled(), StageOf(e, buf);
    var reserved := e.Reserve(buf, op.prefix, op.size, op.at);
    if reserved.Err? {
      ghost var left := Taken(SettingOf(e, buf), was, op);
      s, outcome := left.0, left.1;
      return;
    }
    var r := reserved.value;
    s, outcome := StageOf(e, buf), None;
    match op {
      case Send(_, _, _, _, _, _, _) =>
        s, outcome := SendInto(e, buf, r, op, filled);
      case Overrun(_, _, _) =>
        s := Abandon(e, buf, r, true, op.at, filled);
      case Cancel(_, _, _) =>
        s := Abandon(e, buf, r, false, op.at, filled);
      case Leak(_, _, _) =>
        s := Taken(SettingOf(e, buf), was, op).0;
    }
  }

  /**
    * The buffer holds `filled` and behind it the records of `sent`, stored,
    * with only a leaked reservation behind those; a ready encoder stands behind
    * them.
    */
  ghost predicate Kept(e: Encoder, buf: Buffer, filled: Bytes, c: Core, sent: seq<Rec>)
    reads e, buf
  {
    && e.Valid() && buf.Valid()
    && Fits(e.keys, c, sent, V6_WIRE_CAP)
    && (e.state == Ready ==> e.Now() == CoreAfter(c, sent))
    && var stored := filled + WiresBy(StoreSealer(e.keys, e.plan.rotates), c, sent);
       if e.state == Reserving then stored <= buf.Filled() else buf.Filled() == stored
  }

  /** One operation of a run. */
  method RunOne(e: Encoder, buf: Buffer, op: Op, ghost filled: Bytes, ghost c: Core, ghost sent: seq<Rec>)
    returns (ghost s: Stage, ghost outcome: Option<Rec>)
    requires Kept(e, buf, filled, c, sent)
    modifies e, buf
    ensures Kept(e, buf, filled, c, if outcome.Some? then sent + [outcome.value] else sent)
    ensures buf.Capacity() == old(buf.Capacity()) && old(e.used) <= e.used && StandsAt(e, buf, s)
    ensures (s, outcome) == Taken(SettingOf(e, buf), old(StageOf(e, buf)), op)
    ensures old(e.state) != Ready ==> e.used == old(e.used) && buf.Filled() == old(buf.Filled())
  {
    s, outcome := Attempt(e, buf, op);
    if outcome.Some? {
      RunGrows(e.keys, StoreSealer(e.keys, e.plan.rotates), c, sent, outcome.value, filled);
    }
  }

  /** Operations on an encoder out of use change nothing, so only its state matters. */
  lemma StepFrom(m: Setting, s: Stage, t: Stage, op: Op)
    requires s.state == t.state && (s.state == Ready ==> s == t)
    ensures Taken(m, s, op).1 == Taken(m, t, op).1
    ensures Taken(m, s, op).0.state == Taken(m, t, op).0.state
    ensures Taken(m, t, op).0.state == Ready ==> Taken(m, s, op).0 == Taken(m, t, op).0
  {
  }

  lemma OutcomesAppend(m: Setting, s: Stage, script: seq<Op>, i: nat)
    requires i < |script|
    ensures
      var next := Taken(m, StageAfter(m, s, script[..i]), script[i]);
      && StageAfter(m, s, script[..i + 1]) == next.0
      && Outcomes(m, s, script[..i + 1]) == Outcomes(m, s, script[..i]) + [next.1]
  {
    assert script[..i + 1][..i] == script[..i];
  }

  /** A run from stage `from`, with the buffer at `filled`, is through the first `i` operations of the script. */
  ghost predicate Reached(e: Encoder, buf: Buffer, from: Stage, filled: Bytes, script: seq<Op>, i: nat,
                          outcomes: seq<Option<Rec>>)
    reads e, buf
  {
    && i <= |script| && Kept(e, buf, filled, from.core, Successes(outcomes))
    && outcomes == Outcomes(SettingOf(e, buf), from, script[..i])
    && StandsAt(e, buf, StageAfter(SettingOf(e, buf), from, script[..i]))
  }

  /** The next operation of a run. */
  method RunNext(e: Encoder, buf: Buffer, ghost from: Stage, ghost filled: Bytes, script: seq<Op>, i: nat,
                 ghost outcomes: seq<Option<Rec>>)
    returns (ghost outcome: Option<Rec>)
    requires i < |script| && Reached(e, buf, from, filled, script, i, outcomes)
    modifies e, buf
    ensures Reached(e, buf, from, filled, script, i + 1, outcomes + [outcome])
    ensures SettingOf(e, buf) == old(SettingOf(e, buf)) && old(e.used) <= e.used
    ensures old(e.state) != Ready ==>
      e.state != Ready && e.used == old(e.used) && buf.Filled() == old(buf.Filled()) && outcome == None
  {
    ghost var was, m, s := StageOf(e, buf), SettingOf(e, buf), from;
    s, outcome := RunOne(e, buf, script[i], filled, from.core, Successes(outcomes));
    StepFrom(m, was, StageAfter(m, from, script[..i]), script[i]);
    OutcomesAppend(m, from, script, i);
    SuccessesAppend(outcomes, outcome);
  }

  /**
    * Any run: every operation comes to what `Taken` says of it; the buffer gains
    * exactly the successful records, stored one behind the other; the encoder
    * stands behind them; seals have used the nonces in order, none twice; and
    * an encoder that is poisoned or holds a leaked reservation adds nothing
    * more.
    */
  method Run(e: Encoder, buf: Buffer, script: seq<Op>) returns (ghost outcomes: seq<Option<Rec>>)
    requires e.Valid() && buf.Valid()
    modifies e, buf
    ensures SettingOf(e, buf) == old(SettingOf(e, buf))
    ensures outcomes == Outcomes(SettingOf(e, buf), old(StageOf(e, buf)), script)
    ensures Kept(e, buf, old(buf.Filled()), old(e.Now()), Successes(outcomes))
    ensures StandsAt(e, buf, StageAfter(SettingOf(e, buf), old(StageOf(e, buf)), script))
    ensures NoncesInOrder(e.used) && old(e.used) <= e.used
    ensures old(e.state) != Ready ==> e.used == old(e.used) && buf.Filled() == old(buf.Filled()) && Successes(outcomes) == []
  {
    outcomes := [];
    ghost var filled, from := buf.Filled(), StageOf(e, buf);
    assert filled + [] == filled;
    for i := 0 to |script|
      invariant SettingOf(e, buf) == old(SettingOf(e, buf))
      invariant Reached(e, buf, from, filled, script, i, outcomes) && old(e.used) <= e.used
      invariant from.state != Ready ==>
        e.state != Ready && e.used == old(e.used) && buf.Filled() == filled && Successes(outcomes) == []
    {
      ghost var used := e.used;
      ghost var outcome := RunNext(e, buf, from, filled, script, i, outcomes);
      PrefixTrans(old(e.used), used, e.used);
      SuccessesAppend(outcomes, outcome);
      outcomes := outcomes + [outcome];
    }
    assert script[..|script|] == script;
  }

  lemma RunGrows(k: Keys, store: Sealer, c: Core, sent: seq<Rec>, r: Rec, filled: Bytes)
    requires Fits(k, c, sent, V6_WIRE_CAP)
    requires Sealable(k.format, r) && |Wire(k, CoreAfter(c, sent), r)| <= V6_WIRE_CAP
    ensures Fits(k, c, sent + [r], V6_WIRE_CAP)
    ensures CoreAfter(c, sent + [r]) == NextCore(CoreAfter(c, sent), |r.payload|)
    ensures filled + WiresBy(store, c, sent + [r]) == (filled + WiresBy(store, c, sent)) + store(CoreAfter(c, sent), r)
  {
    FitsAppend(RecordChecker(k, V6_WIRE_CAP), c, sent, r);
    CoreAfterAppends(c, sent, r);
    WiresAppend(store, c, sent, r);
    Associates(filled, WiresBy(store, c, sent), store(CoreAfter(c, sent), r));
  }
}
