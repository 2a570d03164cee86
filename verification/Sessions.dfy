/** A session as it runs: a handshake written as records of its own, the relay behind it, and one receiver over both. */
module Sessions {
  import opened Batches
  import Cipher
  import opened Encoders
  import opened Hosts
  import opened Policies
  import opened Protocol
  import opened Records
  import opened Relay
  import opened Senders
  import opened Sockets
  import opened Streams
  import opened Windows
  import opened Writers

  // ---- Runs behind runs ----

  lemma {:induction false} WiresJoin(seal: Sealer, c: Core, a: seq<Rec>, b: seq<Rec>, after: Core, rest: Bytes)
    requires after == CoreAfter(c, a) && rest == WiresBy(seal, after, b)
    ensures WiresBy(seal, c, a + b) == WiresBy(seal, c, a) + rest
    decreases |a|
  {
    if a == [] {
      assert a + b == b && [] + rest == rest;
    } else {
      var next, tail := NextCore(c, |a[0].payload|), a[1..];
      WiresJoin(seal, next, tail, b, after, rest);
      FrontOf(a, b);
      var wires := WiresBy(seal, next, tail);
      assert WiresBy(seal, c, a + b) == seal(c, a[0]) + (wires + rest);
      Associates(seal(c, a[0]), wires, rest);
    }
  }

  lemma FrontOf(a: seq<Rec>, b: seq<Rec>)
    requires a != []
    ensures (a + b)[0] == a[0] && (a + b)[1..] == a[1..] + b
  {
  }

  lemma {:induction false} FitsJoin(ok: Checker, c: Core, a: seq<Rec>, b: seq<Rec>, after: Core)
    requires after == CoreAfter(c, a) && FitsBy(ok, c, a) && FitsBy(ok, after, b)
    ensures FitsBy(ok, c, a + b)
    decreases |a|
  {
    if a == [] {
      assert a + b == b;
    } else {
      FitsJoin(ok, NextCore(c, |a[0].payload|), a[1..], b, after);
      FrontOf(a, b);
    }
  }

  lemma {:induction false} PayloadsJoin(a: seq<Rec>, b: seq<Rec>)
    ensures Payloads(a + b) == Payloads(a) + Payloads(b)
  {
    if a == [] {
      assert a + b == b && [] + Payloads(b) == Payloads(b);
    } else {
      PayloadsJoin(a[1..], b);
      assert (a + b)[1..] == a[1..] + b;
      Associates(a[0].payload, Payloads(a[1..]), Payloads(b));
    }
  }

  lemma EndsBehind(a: seq<Rec>, b: seq<Rec>)
    requires AllData(a) && Ended(b)
    ensures Ended(a + b)
  {
    assert (a + b)[..|a + b| - 1] == a + b[..|b| - 1];
  }

  /** What went out of two runs, one behind the other, is part of both together. */
  lemma PartJoins(k: Keys, a: seq<Rec>, b: seq<Rec>, said: Bytes, plain: Bytes, out: Bytes, queued: Bytes)
    requires ValidKeys(k) && Fits(k, START, a, V6_WIRE_CAP) && Fits(k, CoreAfter(START, a), b, V6_WIRE_CAP)
    requires Payloads(a) == said && Payloads(b) <= plain
    requires Wires(k, START, a) + Wires(k, CoreAfter(START, a), b) == out + queued
    ensures PartOf(k, a + b, said + plain, out)
    ensures Payloads(a + b) == said + Payloads(b)
    ensures queued == [] ==> Wires(k, START, a + b) == out
  {
    var after := CoreAfter(START, a);
    WiresJoin(WireSealer(k), START, a, b, after, WiresBy(WireSealer(k), after, b));
    FitsJoin(RecordChecker(k, V6_WIRE_CAP), START, a, b, after);
    PayloadsJoin(a, b);
    assert queued == [] ==> out + queued == out;
  }

  // ---- The sending side ----

  /** The sender relays `plain` behind the records of `lead`. */
  ghost predicate Continues(sender: Sender, policy: Policy, k: Keys, plain: Bytes, lead: seq<Rec>)
  {
    && ValidKeys(k) && sender.encoder.keys == k && sender.encoder.plan == PlanOf(policy)
    && Fits(k, START, lead, V6_WIRE_CAP) && AllData(lead)
    && sender.begin == CoreAfter(START, lead) && sender.before == Wires(k, START, lead) && sender.plain == plain
    && (sender.bare <==> Starves(policy) && sender.begin.first) && (Starves(policy) ==> lead == [])
  }

  /** Wherever the sender is, what has gone out is part of a run that carries part of it all. */
  lemma BehindPartial(sender: Sender, policy: Policy, k: Keys, plain: Bytes, lead: seq<Rec>)
    requires sender.Valid() && Continues(sender, policy, k, plain, lead)
    ensures PartOf(k, lead + sender.sent, Payloads(lead) + plain, sender.writer.output)
  {
    sender.Audit(sender.encode.Filled());
    var queued := Emission(sender.batch.Live(), sender.encode.Filled())[sender.batch.written..];
    PrefixOfInput(Payloads(sender.sent), sender.lost, sender.reader.input);
    PartJoins(k, lead, sender.sent, Payloads(lead), plain, sender.writer.output, queued);
  }

  /** A finished sender has put out a whole run, which carries the handshake and what the codec delivers. */
  lemma BehindWhole(sender: Sender, policy: Policy, k: Keys, plain: Bytes, lead: seq<Rec>)
    requires sender.Complete() && Continues(sender, policy, k, plain, lead)
    ensures WholeRun(k, lead + sender.sent, sender.writer.output)
    ensures Payloads(lead + sender.sent) == Payloads(lead) + Delivered(policy, plain)
  {
    PolicyRoomy(policy);
    EndsBehind(lead, sender.sent);
    if Starves(policy) {
      OnlyZeroChunk(sender.sent);
    } else {
      assert Payloads(sender.sent) + [] + [] == Payloads(sender.sent);
    }
    assert sender.writer.output + [] == sender.writer.output;
    PrefixOfInput(Payloads(sender.sent), [], sender.reader.input);
    PartJoins(k, lead, sender.sent, Payloads(lead), plain, sender.writer.output, []);
  }

  /** A new connection and its encoder. */
  method Connect(policy: Policy, keys: Keys, fill: (nat, nat) -> Bytes) returns (encoder: Encoder, writer: Sink, host: Host)
    requires ValidKeys(keys) && keys.format == FormatOf(policy) && Admissible(policy) && Fills(fill)
    ensures fresh(encoder) && fresh(writer) && fresh(host)
    ensures encoder.Valid() && encoder.state == Ready && encoder.Now() == START
    ensures encoder.keys == keys && encoder.plan == PlanOf(policy)
    ensures writer.output == [] && writer.closed == 0 && writer.stalls == 0 && writer.faults == 0 && host.faults == 0
  {
    EveryPolicySound(policy);
    ReachableSteps(policy, Fresh(policy), 0, 0, 0);
    writer := new Sink();
    host := new Host();
    encoder := new Encoder(keys, PlanOf(policy), fill, Fresh(policy));
  }

  /** Open a connection and write the handshake on it. */
  method Say(said: Bytes, policy: Policy, keys: Keys, fill: (nat, nat) -> Bytes, patience: nat)
    returns (opening: Poll<()>, encoder: Encoder, writer: Sink, host: Host, ghost lead: seq<Rec>)
    requires ValidKeys(keys) && keys.format == FormatOf(policy) && Admissible(policy) && Fills(fill)
    ensures fresh(encoder) && fresh(writer) && fresh(host) && encoder.Valid() && writer.closed == 0
    ensures encoder.keys == keys && encoder.plan == PlanOf(policy)
    ensures PartOf(keys, lead, said, writer.output)
    ensures opening.Done? ==>
      && AllData(lead) && Payloads(lead) == said && (Starves(policy) ==> said == [])
      && encoder.state == Ready && encoder.Now() == CoreAfter(START, lead) && writer.output == Wires(keys, START, lead)
    ensures writer.faults + host.faults == 0 && writer.stalls <= patience && (Starves(policy) ==> said == []) ==> opening.Done?
  {
    PolicyRoomy(policy);
    encoder, writer, host := Connect(policy, keys, fill);
    opening, lead := WritePlainRecords(encoder, writer, host, said, patience);
    FromNothing(keys, lead, said, writer.output);
  }

  /** What went out from the start of a connection. */
  lemma FromNothing(k: Keys, run: seq<Rec>, src: Bytes, out: Bytes)
    requires ValidKeys(k) && Partly(k, START, run, [], out, src)
    ensures PartOf(k, run, src, out) && [] + Wires(k, START, run) == Wires(k, START, run)
  {
    assert [] + Wires(k, START, run) == Wires(k, START, run);
  }

  method SendBehind(sender: Sender, policy: Policy, k: Keys, ghost plain: Bytes, ghost lead: seq<Rec>, patience: nat)
    returns (r: Poll<()>)
    requires sender.Valid() && sender.Running() && Continues(sender, policy, k, plain, lead)
    modifies sender, sender.writer, sender.reader, sender.encoder, sender.host, sender.encode, sender.batch
    ensures PartOf(k, lead + sender.sent, Payloads(lead) + plain, sender.writer.output)
    ensures r.Done? ==>
      && WholeRun(k, lead + sender.sent, sender.writer.output)
      && Payloads(lead + sender.sent) == Payloads(lead) + Delivered(policy, plain)
    ensures r.Pending? ==>
      sender.reader.stalls + sender.writer.stalls > old(sender.reader.stalls + sender.writer.stalls) + patience
    ensures r.Broken? ==> sender.Faults() > old(sender.Faults())
    ensures sender.writer.closed == old(sender.writer.closed) + if r.Done? && !sender.keepOpen then 1 else 0
  {
    r := RunSender(sender, patience);
    BehindResult(sender, policy, k, plain, lead, r.Done?);
  }

  /** Relay on an open connection, behind its handshake. */
  method RelayBehind(encoder: Encoder, writer: Sink, host: Host, plain: Bytes, policy: Policy, keepOpen: bool, patience: nat,
                     ghost lead: seq<Rec>)
    returns (sending: Poll<()>, ghost run: seq<Rec>, ghost faults: nat, ghost stalls: nat)
    requires encoder.Valid() && encoder.state == Ready && encoder.plan == PlanOf(policy) && writer.closed == 0
    requires PartOf(encoder.keys, lead, Payloads(lead), writer.output) && AllData(lead) && (Starves(policy) ==> lead == [])
    requires encoder.Now() == CoreAfter(START, lead) && writer.output == Wires(encoder.keys, START, lead)
    modifies encoder, writer, host
    ensures PartOf(encoder.keys, run, Payloads(lead) + plain, writer.output)
    ensures sending.Done? ==>
      WholeRun(encoder.keys, run, writer.output) && Payloads(run) == Payloads(lead) + Delivered(policy, plain)
    ensures writer.closed == if sending.Done? && !keepOpen then 1 else 0
    ensures faults <= old(writer.faults + host.faults) && stalls <= old(writer.stalls) + patience ==> sending.Done?
  {
    var sender := OpenBehind(encoder, writer, host, plain, policy, keepOpen, lead);
    sending := SendBehind(sender, policy, encoder.keys, plain, lead, patience);
    run, faults, stalls := lead + sender.sent, sender.Faults(), sender.reader.stalls + writer.stalls;
  }

  /** A sender on an open connection. */
  method OpenBehind(encoder: Encoder, writer: Sink, host: Host, plain: Bytes, policy: Policy, keepOpen: bool,
                    ghost lead: seq<Rec>)
    returns (sender: Sender)
    requires encoder.Valid() && encoder.state == Ready && encoder.plan == PlanOf(policy)
    requires PartOf(encoder.keys, lead, Payloads(lead), writer.output) && AllData(lead) && (Starves(policy) ==> lead == [])
    requires encoder.Now() == CoreAfter(START, lead) && writer.output == Wires(encoder.keys, START, lead)
    ensures fresh(sender) && fresh(sender.reader) && fresh(sender.encode) && fresh(sender.batch)
    ensures sender.writer == writer && sender.encoder == encoder && sender.host == host && sender.keepOpen == keepOpen
    ensures sender.Valid() && sender.Running() && Continues(sender, policy, encoder.keys, plain, lead)
    ensures sender.reader.stalls == 0 && sender.reader.faults == 0
  {
    PolicyRoomy(policy);
    var local := new Source(plain);
    sender := new Sender(local, writer, encoder, host, keepOpen);
  }

  lemma BehindResult(sender: Sender, policy: Policy, k: Keys, plain: Bytes, lead: seq<Rec>, done: bool)
    requires sender.Valid() && Continues(sender, policy, k, plain, lead) && (done ==> sender.Complete())
    ensures PartOf(k, lead + sender.sent, Payloads(lead) + plain, sender.writer.output)
    ensures done ==>
      && WholeRun(k, lead + sender.sent, sender.writer.output)
      && Payloads(lead + sender.sent) == Payloads(lead) + Delivered(policy, plain)
  {
    BehindPartial(sender, policy, k, plain, lead);
    if done {
      BehindWhole(sender, policy, k, plain, lead);
    }
  }

  /** The sending side of a session: write the handshake, then relay on the same connection. */
  method Converse(said: Bytes, plain: Bytes, policy: Policy, keys: Keys, fill: (nat, nat) -> Bytes, keepOpen: bool, patience: nat)
    returns (opening: Poll<()>, sending: Poll<()>, wire: Bytes, shut: nat, ghost run: seq<Rec>, ghost faults: nat,
             ghost stalls: nat)
    requires ValidKeys(keys) && keys.format == FormatOf(policy) && Admissible(policy) && Fills(fill)
    ensures PartOf(keys, run, said + plain, wire)
    ensures sending.Done? ==> opening.Done? && WholeRun(keys, run, wire) && Payloads(run) == said + Delivered(policy, plain)
    ensures Starves(policy) && said != [] ==> !opening.Done?
    ensures shut == if sending.Done? && !keepOpen then 1 else 0
    ensures faults == 0 && stalls <= patience && (Starves(policy) ==> said == []) ==> sending.Done?
  {
    var encoder, writer, host;
    ghost var lead;
    opening, encoder, writer, host, lead := Say(said, policy, keys, fill, patience);
    if opening.Done? {
      NoPayloads(lead);
      sending, run, faults, stalls := RelayBehind(encoder, writer, host, plain, policy, keepOpen, patience, lead);
    } else {
      sending, run, faults, stalls := opening, lead, writer.faults + host.faults, writer.stalls;
    }
    wire, shut := writer.output, writer.closed;
  }

  lemma NoPayloads(recs: seq<Rec>)
    requires AllData(recs)
    ensures Payloads(recs) == [] ==> recs == []
  {
  }

  /** The prefixes of every codec's records are short. */
  lemma ShortPrefixes(policy: Policy)
    ensures forall q :: |FormatOf(policy).prefix(q)| <= V6_MAX_PREFIX_LEN
  {
    forall q
      ensures |FormatOf(policy).prefix(q)| <= V6_MAX_PREFIX_LEN
    {
      PrefixSound(policy, q);
      assert PrefixLaw(PlanOf(policy), FormatOf(policy), q);
    }
  }

  /**
    * A whole session of any codec over any schedule: the handshake, the relay
    * behind it, and one receiver over both. Whatever fails, what comes out is a
    * prefix of the handshake and the input; without failures and with enough
    * patience all of both comes out, unless the codec starves its first record:
    * then a handshake is never sent, and without one nothing is delivered.
    */
  method Session(said: Bytes, plain: Bytes, policy: Policy, g: Cipher.Gcm, derive: Bytes -> Option<Bytes>, salt: Bytes,
                 key: Bytes, entropy: (nat, nat) -> Bytes, keepOpen: bool, patience: nat)
    returns (opening: Poll<()>, sending: Poll<()>, receiving: Poll<()>, out: Bytes, shut: nat, closed: nat,
             ghost faults: nat, ghost stalls: nat)
    requires |salt| == SALT_LEN && derive(salt) == Some(key) && Admissible(policy) && Fills(entropy)
    ensures out <= said + plain
    ensures sending.Done? ==> opening.Done?
    ensures sending.Done? && receiving.Done? ==>
      out == said + Delivered(policy, plain) && (out == said + plain <==> !Starves(policy) || plain == [])
    ensures Starves(policy) && said != [] ==> !opening.Done?
    ensures sending.Done? && receiving.Broken? ==> receiving.error == Io
    ensures faults == 0 && stalls <= patience && (Starves(policy) ==> said == []) ==> sending.Done? && receiving.Done?
    ensures shut == if sending.Done? && !keepOpen then 1 else 0
    ensures closed == if receiving.Done? then 1 else 0
  {
    SessionKeysValid(policy, g, derive, salt, key);
    FillOfFills(policy, entropy);
    ShortPrefixes(policy);
    var keys, wire := SessionKeys(policy, g, derive, salt, key), [];
    ghost var run, f, t;
    opening, sending, wire, shut, run, faults, stalls :=
      Converse(said, plain, policy, keys, FillOf(policy, entropy), keepOpen, patience);
    receiving, out, closed, f, t := ReceiveAll(wire, keys, run, said + plain, patience);
    faults, stalls := faults + f, stalls + t;
    assert |said + plain| == |said| + |plain|;
  }
}
