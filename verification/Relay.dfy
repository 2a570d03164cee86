/** End to end: what a sender's run puts on the wire, a receiver turns back into the bytes that were read. */
module Relay {
  import opened Batches
  import opened Buffers
  import Cipher
  import opened Decoders
  import opened Encoders
  import opened Hosts
  import opened Policies
  import opened Protocol
  import opened Receivers
  import opened Records
  import opened Senders
  import opened Sockets
  import opened Streams
  import opened Windows
  import Nonces

  lemma {:induction false} ItemsCarryPayloads(recs: seq<Rec>)
    ensures Texts(Items(recs)) == Payloads(recs)
  {
    if recs != [] {
      ItemsCarryPayloads(recs[1..]);
      assert Items(recs)[1..] == Items(recs[1..]);
    }
  }

  lemma {:induction false} ItemAt(recs: seq<Rec>, i: nat)
    requires i < |recs|
    ensures Items(recs)[i] == ItemOf(recs[i])
  {
    if i > 0 {
      ItemAt(recs[1..], i - 1);
    }
  }

  /** An exhausted input yields nothing more. */
  lemma EmptyYieldsNothing(s: Cipher.Suite, f: Format, max: nat, d: Dec, p: Parser)
    requires p == RecordParser(s, f, max)
    ensures Drain(p, d, []).items == []
  {
  }

  /** A stream cut anywhere yields a prefix of what the whole stream yields. */
  lemma {:induction false} CutYieldsPrefix(p: Parser, d: Dec, x: Bytes, y: Bytes)
    requires Incremental(p) && Coherent(d)
    ensures Drain(p, d, x).items <= Drain(p, d, x + y).items
    decreases |x|
  {
    assert Extends(p, d, x, y);
    DrainResumes(p, d, x, y);
    match p(d, x)
    case NeedMore(_, _) =>
    case Failed(_) =>
    case Parsed(n, item, d') =>
      CutYieldsPrefix(p, d', x[n..], y);
      assert (x + y)[n..] == x[n..] + y;
  }

  /** What the whole run yields. */
  lemma RunYields(k: Keys, c: Core, sent: seq<Rec>, p: Parser)
    requires ValidKeys(k) && Fits(k, c, sent, V6_WIRE_CAP)
    requires p == RecordParser(k.suite, k.format, V6_WIRE_CAP)
    ensures Drain(p, DecAt(k, c), Wires(k, c, sent)).items == Items(sent)
    ensures Drain(p, DecAt(k, c), Wires(k, c, sent)).tail == Drain(p, DecAt(k, CoreAfter(c, sent)), []).tail
  {
    RunRoundTrip(k, c, sent, [], V6_WIRE_CAP, p);
    assert Wires(k, c, sent) + [] == Wires(k, c, sent);
    EmptyYieldsNothing(k.suite, k.format, V6_WIRE_CAP, DecAt(k, CoreAfter(c, sent)), p);
    assert Items(sent) + [] == Items(sent);
  }

  lemma ClosedPrefix(items: seq<Item>, sent: seq<Rec>)
    requires Ended(sent) && items <= Items(sent) && Closed(items)
    ensures items == Items(sent)
  {
    var n := |items| - 1;
    ItemAt(sent, n);
  }

  /**
    * A receiver that has finished on the wire bytes of a run that ended has
    * decoded that run exactly, and no error can have stopped it.
    */
  lemma RunDelivered(k: Keys, c: Core, sent: seq<Rec>, drain: Drainer, items: seq<Item>, now: Dec, rest: Bytes)
    requires ValidKeys(k) && Fits(k, c, sent, V6_WIRE_CAP) && Ended(sent)
    requires drain == DrainerOf(RecordParser(k.suite, k.format, V6_WIRE_CAP))
    requires Yielded(drain, DecAt(k, c), Wires(k, c, sent), items, now, rest, None)
    requires Closed(items) || (Open(items) && rest == [])
    ensures items == Items(sent) && Texts(items) == Payloads(sent)
  {
    var p := RecordParser(k.suite, k.format, V6_WIRE_CAP);
    RunYields(k, c, sent, p);
    if Closed(items) {
      ClosedPrefix(items, sent);
    } else {
      EmptyYieldsNothing(k.suite, k.format, V6_WIRE_CAP, now, p);
      assert items + [] == items;
    }
    ItemsCarryPayloads(sent);
  }

  lemma {:induction false} PrefixTexts(a: seq<Item>, b: seq<Item>)
    requires a <= b
    ensures Texts(a) <= Texts(b)
    decreases |a|
  {
    if a != [] {
      PrefixTexts(a[1..], b[1..]);
    }
  }

  /**
    * Whatever part of a run's wire bytes arrives, and wherever the receiver is
    * in it, what it has decoded is a prefix of what was sent.
    */
  lemma NeverWrongBytes(k: Keys, c: Core, sent: seq<Rec>, drain: Drainer, stream: Bytes, more: Bytes,
                        items: seq<Item>, now: Dec, rest: Bytes, failed: Option<Error>)
    requires ValidKeys(k) && Fits(k, c, sent, V6_WIRE_CAP)
    requires drain == DrainerOf(RecordParser(k.suite, k.format, V6_WIRE_CAP))
    requires stream + more == Wires(k, c, sent)
    requires Yielded(drain, DecAt(k, c), stream, items, now, rest, failed)
    ensures items <= Items(sent) && Texts(items) <= Payloads(sent)
  {
    var p := RecordParser(k.suite, k.format, V6_WIRE_CAP);
    RecordsIncremental(k.suite, k.format, V6_WIRE_CAP);
    CutYieldsPrefix(p, DecAt(k, c), stream, more);
    RunYields(k, c, sent, p);
    PrefixTexts(items, Items(sent));
    ItemsCarryPayloads(sent);
  }

  /** The bytes of a run that ended leave a receiver with nothing undecoded: no error, and no half record. */
  lemma NeverRefused(k: Keys, c: Core, sent: seq<Rec>, drain: Drainer, items: seq<Item>, now: Dec, rest: Bytes, e: Error)
    requires ValidKeys(k) && Fits(k, c, sent, V6_WIRE_CAP) && sent != []
    requires |k.format.prefix(CoreAfter(c, sent).sequence)| <= V6_MAX_PREFIX_LEN
    requires drain == DrainerOf(RecordParser(k.suite, k.format, V6_WIRE_CAP))
    ensures !Yielded(drain, DecAt(k, c), Wires(k, c, sent), items, now, rest, Some(e))
    ensures Yielded(drain, DecAt(k, c), Wires(k, c, sent), items, now, rest, None) && Stuck(drain, now, rest) ==> rest == []
  {
    var p := RecordParser(k.suite, k.format, V6_WIRE_CAP);
    RunYields(k, c, sent, p);
    LaterCore(c, sent);
    var d := DecAt(k, CoreAfter(c, sent));
    assert Parse(k.suite, k.format, d, V6_WIRE_CAP, []).NeedMore?;
  }

  lemma {:induction false} LaterCore(c: Core, sent: seq<Rec>)
    requires sent != []
    ensures !CoreAfter(c, sent).first
    decreases |sent|
  {
    if |sent| > 1 {
      LaterCore(NextCore(c, |sent[0].payload|), sent[1..]);
    } else {
      assert sent[1..] == [];
    }
  }

  /** A run with nothing in it but its zero chunk carries nothing. */
  lemma OnlyZeroChunk(sent: seq<Rec>)
    requires Ended(sent) && |sent| == 1
    ensures Payloads(sent) == []
  {
    assert sent[1..] == [];
  }

  /** Poll a sender until it is done or fails, through at most `patience` waits. */
  method RunSender(sender: Sender, patience: nat) returns (r: Poll<()>)
    requires sender.Valid() && sender.Running()
    modifies sender, sender.writer, sender.reader, sender.encoder, sender.host, sender.encode, sender.batch
    ensures sender.Valid()
    ensures r.Done? ==> sender.Running() && sender.Complete()
    ensures r.Pending? ==>
      sender.reader.stalls + sender.writer.stalls > old(sender.reader.stalls + sender.writer.stalls) + patience
    ensures r.Broken? ==> sender.Faults() > old(sender.Faults())
    ensures sender.writer.closed == old(sender.writer.closed) + if r.Done? && !sender.keepOpen then 1 else 0
    decreases patience
  {
    r := sender.Poll();
    if r.Pending? && patience > 0 {
      r := RunSender(sender, patience - 1);
    }
  }

  /** The same for a receiver; an error of the stream needs no fault. */
  method RunReceiver(receiver: Receiver, patience: nat) returns (r: Poll<()>)
    requires receiver.Valid() && receiver.Tied() && receiver.Running()
    modifies receiver, receiver.writer, receiver.reader, receiver.host, receiver.decoder, receiver.recv, receiver.batch
    ensures receiver.Valid()
    ensures r.Done? ==> receiver.Complete()
    ensures r.Pending? ==>
      receiver.reader.stalls + receiver.writer.stalls > old(receiver.reader.stalls + receiver.writer.stalls) + patience
    ensures r.Broken? ==> receiver.Fair(r.error, old(receiver.Faults()))
    ensures receiver.writer.closed == if r.Done? then old(receiver.writer.closed) + 1 else old(receiver.writer.closed)
    decreases patience
  {
    r := receiver.Poll();
    if r.Pending? && patience > 0 {
      r := RunReceiver(receiver, patience - 1);
    }
  }

  const START := Core(Nonces.Nth(0), 0, true)

  /** `wire` is part of a session's run from its first record on, and the run carries part of `plain`. */
  ghost predicate PartOf(k: Keys, sent: seq<Rec>, plain: Bytes, wire: Bytes)
  {
    && ValidKeys(k) && Fits(k, START, sent, V6_WIRE_CAP)
    && Payloads(sent) <= plain
    && wire <= Wires(k, START, sent)
  }

  /** `wire` is all of a session's run, which ended. */
  ghost predicate WholeRun(k: Keys, sent: seq<Rec>, wire: Bytes)
  {
    Ended(sent) && wire == Wires(k, START, sent)
  }

  /** What a relay delivers of `plain`: all of it, unless the codec starves its first record. */
  function Delivered(policy: Policy, plain: Bytes): Bytes { if Starves(policy) then [] else plain }

  /** The sender relays `plain` from the start of a session. */
  ghost predicate Started(sender: Sender, policy: Policy, k: Keys, plain: Bytes)
  {
    && sender.encoder.keys == k && sender.encoder.plan == PlanOf(policy) && sender.begin == START
    && sender.plain == plain && sender.before == [] && (sender.bare <==> Starves(policy))
  }

  /** Set up a sender for a session of its own. */
  method OpenSender(plain: Bytes, policy: Policy, keys: Keys, fill: (nat, nat) -> Bytes, keepOpen: bool)
    returns (sender: Sender)
    requires ValidKeys(keys) && keys.format == FormatOf(policy) && Admissible(policy) && Fills(fill)
    ensures fresh(sender) && fresh(sender.reader) && fresh(sender.writer) && fresh(sender.encoder)
    ensures fresh(sender.host) && fresh(sender.encode) && fresh(sender.batch)
    ensures sender.Valid() && sender.Running() && sender.keepOpen == keepOpen && Started(sender, policy, keys, plain)
    ensures sender.reader.stalls == 0 && sender.writer.stalls == 0 && sender.Faults() == 0 && sender.writer.closed == 0
  {
    EveryPolicySound(policy);
    PolicyRoomy(policy);
    ReachableSteps(policy, Fresh(policy), 0, 0, 0);
    var local := new Source(plain);
    var wire := new Sink();
    var host := new Host();
    var encoder := new Encoder(keys, PlanOf(policy), fill, Fresh(policy));
    sender := new Sender(local, wire, encoder, host, keepOpen);
  }

  /** Wherever a sender is, what it has put out is part of a run that carries part of its input. */
  lemma SenderPartial(sender: Sender, policy: Policy, k: Keys, plain: Bytes)
    requires sender.Valid() && Started(sender, policy, k, plain)
    ensures PartOf(k, sender.sent, plain, sender.writer.output)
  {
    sender.Audit(sender.encode.Filled());
    var queued := Emission(sender.batch.Live(), sender.encode.Filled())[sender.batch.written..];
    PrefixOfRun(Wires(k, START, sender.sent), sender.writer.output, queued);
    PrefixOfInput(Payloads(sender.sent), sender.lost, sender.reader.input);
  }

  lemma PrefixOfRun(run: Bytes, out: Bytes, queued: Bytes)
    requires [] + run == out + queued
    ensures out <= run
  {
    assert [] + run == run;
  }

  lemma PrefixOfInput(a: Bytes, b: Bytes, c: Bytes)
    ensures a <= a + b + c
  {
  }

  /** A finished sender has put out a whole run that carries what the codec delivers. */
  lemma SenderWhole(sender: Sender, policy: Policy, k: Keys, plain: Bytes)
    requires sender.Complete() && Started(sender, policy, k, plain)
    ensures WholeRun(k, sender.sent, sender.writer.output)
    ensures Payloads(sender.sent) == Delivered(policy, plain)
  {
    PolicyRoomy(policy);
    var run := Wires(k, START, sender.sent);
    assert [] + run == run;
    if Starves(policy) {
      OnlyZeroChunk(sender.sent);
    } else {
      assert Payloads(sender.sent) + [] + [] == Payloads(sender.sent);
    }
  }

  lemma SenderResult(sender: Sender, policy: Policy, k: Keys, plain: Bytes, done: bool)
    requires sender.Valid() && Started(sender, policy, k, plain) && (done ==> sender.Complete())
    ensures PartOf(k, sender.sent, plain, sender.writer.output)
    ensures done ==> WholeRun(k, sender.sent, sender.writer.output) && Payloads(sender.sent) == Delivered(policy, plain)
  {
    SenderPartial(sender, policy, k, plain);
    if done {
      SenderWhole(sender, policy, k, plain);
    }
  }

  method SendFrom(sender: Sender, policy: Policy, k: Keys, ghost plain: Bytes, patience: nat) returns (r: Poll<()>)
    requires sender.Valid() && sender.Running() && Started(sender, policy, k, plain)
    modifies sender, sender.writer, sender.reader, sender.encoder, sender.host, sender.encode, sender.batch
    ensures PartOf(k, sender.sent, plain, sender.writer.output)
    ensures r.Done? ==> WholeRun(k, sender.sent, sender.writer.output) && Payloads(sender.sent) == Delivered(policy, plain)
    ensures r.Pending? ==>
      sender.reader.stalls + sender.writer.stalls > old(sender.reader.stalls + sender.writer.stalls) + patience
    ensures r.Broken? ==> sender.Faults() > old(sender.Faults())
    ensures sender.writer.closed == old(sender.writer.closed) + if r.Done? && !sender.keepOpen then 1 else 0
  {
    r := RunSender(sender, patience);
    SenderResult(sender, policy, k, plain, r.Done?);
  }

  /** A whole session's sending side. */
  method SendAll(plain: Bytes, policy: Policy, keys: Keys, fill: (nat, nat) -> Bytes, keepOpen: bool, patience: nat)
    returns (r: Poll<()>, wire: Bytes, shut: nat, ghost sent: seq<Rec>, ghost faults: nat, ghost stalls: nat)
    requires ValidKeys(keys) && keys.format == FormatOf(policy) && Admissible(policy) && Fills(fill)
    ensures PartOf(keys, sent, plain, wire)
    ensures r.Done? ==> WholeRun(keys, sent, wire) && Payloads(sent) == Delivered(policy, plain)
    ensures shut == if r.Done? && !keepOpen then 1 else 0
    ensures faults == 0 && stalls <= patience ==> r.Done?
  {
    var sender := OpenSender(plain, policy, keys, fill, keepOpen);
    r := SendFrom(sender, policy, keys, plain, patience);
    wire, shut := sender.writer.output, sender.writer.closed;
    sent, faults, stalls := sender.sent, sender.Faults(), sender.reader.stalls + sender.writer.stalls;
  }

  /** Set up a receiver for a stream it sees from the start. */
  method OpenReceiver(wire: Bytes, keys: Keys) returns (receiver: Receiver)
    requires ValidKeys(keys)
    ensures fresh(receiver) && fresh(receiver.reader) && fresh(receiver.writer) && fresh(receiver.decoder)
    ensures fresh(receiver.host) && fresh(receiver.recv) && fresh(receiver.batch)
    ensures receiver.Valid() && receiver.Tied() && receiver.Running() && Opened(receiver, keys, wire)
    ensures receiver.writer.closed == 0 && receiver.Faults() == 0
    ensures receiver.reader.stalls == 0 && receiver.writer.stalls == 0
  {
    var remote := new Source(wire);
    var sink := new Sink();
    var host := new Host();
    var decoder := new Decoder(keys.suite, keys.format);
    var recv := new Buffer(V6_WIRE_CAP);
    assert [] + wire == wire;
    receiver := new Receiver(remote, sink, decoder, host, recv);
  }

  /** The receiver reads `wire` from the start of a session. */
  ghost predicate Opened(receiver: Receiver, k: Keys, wire: Bytes)
  {
    && receiver.decoder.suite == k.suite && receiver.decoder.format == k.format
    && receiver.recv.max == V6_WIRE_CAP && receiver.before == []
    && receiver.first == DecAt(k, START) && receiver.stream == wire
  }

  /** Wherever a receiver is, what it has written is a prefix of what was sent. */
  lemma ReceiverPartial(receiver: Receiver, k: Keys, sent: seq<Rec>, plain: Bytes, wire: Bytes)
    requires receiver.Valid() && receiver.Tied() && Opened(receiver, k, wire) && PartOf(k, sent, plain, wire)
    ensures receiver.writer.output <= Payloads(sent)
  {
    var more := Wires(k, START, sent)[|wire|..];
    NeverWrongBytes(k, START, sent, receiver.drain, wire, more, receiver.items, receiver.decoder.View(),
                    receiver.Rest(), receiver.failed);
    assert [] + Texts(receiver.items) == Texts(receiver.items);
  }

  /** On a whole run a receiver is done with exactly what was sent, and fails only with its sockets or host. */
  lemma ReceiverWhole(receiver: Receiver, k: Keys, sent: seq<Rec>, plain: Bytes, wire: Bytes, r: Poll<()>, f0: nat)
    requires receiver.Valid() && receiver.Tied() && Opened(receiver, k, wire)
    requires PartOf(k, sent, plain, wire) && WholeRun(k, sent, wire)
    requires forall q :: |k.format.prefix(q)| <= V6_MAX_PREFIX_LEN
    requires r.Done? ==> receiver.Complete()
    requires r.Broken? ==> receiver.Fair(r.error, f0)
    ensures r.Done? ==> receiver.writer.output == Payloads(sent)
    ensures r.Broken? ==> r.error == Io && receiver.Faults() > f0
  {
    var now, rest := receiver.decoder.View(), receiver.Rest();
    if r.Done? {
      RunDelivered(k, START, sent, receiver.drain, receiver.items, now, rest);
      assert [] + Texts(receiver.items) == Texts(receiver.items);
    } else if r.Broken? {
      NeverRefused(k, START, sent, receiver.drain, receiver.items, now, rest, r.error);
    }
  }

  method ReceiveFrom(receiver: Receiver, keys: Keys, ghost wire: Bytes, ghost sent: seq<Rec>, ghost plain: Bytes, patience: nat)
    returns (r: Poll<()>)
    requires receiver.Valid() && receiver.Tied() && receiver.Running() && Opened(receiver, keys, wire)
    requires PartOf(keys, sent, plain, wire)
    requires forall q :: |keys.format.prefix(q)| <= V6_MAX_PREFIX_LEN
    modifies receiver, receiver.writer, receiver.reader, receiver.host, receiver.decoder, receiver.recv, receiver.batch
    ensures receiver.writer.output <= Payloads(sent)
    ensures WholeRun(keys, sent, wire) && r.Done? ==> receiver.writer.output == Payloads(sent)
    ensures WholeRun(keys, sent, wire) && r.Broken? ==> r.error == Io && receiver.Faults() > old(receiver.Faults())
    ensures r.Pending? ==>
      receiver.reader.stalls + receiver.writer.stalls > old(receiver.reader.stalls + receiver.writer.stalls) + patience
    ensures receiver.writer.closed == if r.Done? then old(receiver.writer.closed) + 1 else old(receiver.writer.closed)
  {
    r := RunReceiver(receiver, patience);
    ReceiverPartial(receiver, keys, sent, plain, wire);
    if WholeRun(keys, sent, wire) {
      ReceiverWhole(receiver, keys, sent, plain, wire, r, old(receiver.Faults()));
    }
  }

  /** A session's receiving side, on whatever part of its wire there is. */
  method ReceiveAll(wire: Bytes, keys: Keys, ghost sent: seq<Rec>, ghost plain: Bytes, patience: nat)
    returns (r: Poll<()>, out: Bytes, closed: nat, ghost faults: nat, ghost stalls: nat)
    requires PartOf(keys, sent, plain, wire)
    requires forall q :: |keys.format.prefix(q)| <= V6_MAX_PREFIX_LEN
    ensures out <= Payloads(sent)
    ensures WholeRun(keys, sent, wire) && r.Done? ==> out == Payloads(sent)
    ensures WholeRun(keys, sent, wire) && r.Broken? ==> r.error == Io
    ensures WholeRun(keys, sent, wire) && faults == 0 && stalls <= patience ==> r.Done?
    ensures closed == if r.Done? then 1 else 0
  {
    var receiver := OpenReceiver(wire, keys);
    r := ReceiveFrom(receiver, keys, wire, sent, plain, patience);
    out, closed := receiver.writer.output, receiver.writer.closed;
    faults, stalls := receiver.Faults(), receiver.reader.stalls + receiver.writer.stalls;
  }

  /**
    * The relay, for every codec, input and schedule of short reads, partial
    * writes, waits and faults. Whatever happens, what comes out is a prefix of
    * what went in. If both pumps succeed it is what the codec delivers, and the
    * far end has been shut down once. And without faults, and with no more
    * waits than one is prepared for, both do succeed.
    */
  method RelayThrough(plain: Bytes, policy: Policy, keys: Keys, fill: (nat, nat) -> Bytes, keepOpen: bool, patience: nat)
    returns (sending: Poll<()>, receiving: Poll<()>, out: Bytes, shut: nat, closed: nat, ghost faults: nat, ghost stalls: nat)
    requires ValidKeys(keys) && keys.format == FormatOf(policy) && Admissible(policy) && Fills(fill)
    ensures out <= plain
    ensures sending.Done? && receiving.Done? ==> out == Delivered(policy, plain)
    ensures sending.Done? && receiving.Broken? ==> receiving.error == Io
    ensures faults == 0 && stalls <= patience ==> sending.Done? && receiving.Done?
    ensures shut == if sending.Done? && !keepOpen then 1 else 0
    ensures closed == if receiving.Done? then 1 else 0
  {
    var wire;
    ghost var sent;
    sending, wire, shut, sent, faults, stalls := SendAll(plain, policy, keys, fill, keepOpen, patience);
    forall q
      ensures |keys.format.prefix(q)| <= V6_MAX_PREFIX_LEN
    {
      PrefixSound(policy, q);
      assert PrefixLaw(PlanOf(policy), keys.format, q);
    }
    ghost var f, s;
    receiving, out, closed, f, s := ReceiveAll(wire, keys, sent, plain, patience);
    faults, stalls := faults + f, stalls + s;
  }

  /** The relay over a session set up from any keystream, tag, key derivation, salt and entropy. */
  method RelaySession(plain: Bytes, policy: Policy, g: Cipher.Gcm, derive: Bytes -> Option<Bytes>, salt: Bytes, key: Bytes,
                      entropy: (nat, nat) -> Bytes, keepOpen: bool, patience: nat)
    returns (sending: Poll<()>, receiving: Poll<()>, out: Bytes, shut: nat, closed: nat, ghost faults: nat, ghost stalls: nat)
    requires |salt| == SALT_LEN && derive(salt) == Some(key) && Admissible(policy) && Fills(entropy)
    ensures out <= plain
    ensures sending.Done? && receiving.Done? ==> (out == plain <==> !Starves(policy) || plain == [])
    ensures sending.Done? && receiving.Done? && Starves(policy) ==> out == []
    ensures sending.Done? && receiving.Broken? ==> receiving.error == Io
    ensures faults == 0 && stalls <= patience ==> sending.Done? && receiving.Done?
    ensures shut == if sending.Done? && !keepOpen then 1 else 0
    ensures closed == if receiving.Done? then 1 else 0
  {
    SessionKeysValid(policy, g, derive, salt, key);
    FillOfFills(policy, entropy);
    sending, receiving, out, shut, closed, faults, stalls :=
      RelayThrough(plain, policy, SessionKeys(policy, g, derive, salt, key), FillOf(policy, entropy), keepOpen, patience);
  }
}
