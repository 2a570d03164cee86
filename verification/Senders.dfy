/** From a local socket to the Snell stream: read, seal, batch, write, and end with one zero chunk. */
module Senders {
  import opened Batches
  import opened Buffers
  import opened Encoders
  import opened Hosts
  import opened Leases
  import opened Protocol
  import opened Records
  import opened Sockets
  import opened Streams
  import opened Windows

  const RECORD_HINT := MAX_PACKET_SIZE_V6

  datatype Phase = Reading | SendZeroChunk | Draining | ShuttingDown

  ghost predicate AllData(recs: seq<Rec>) { forall i :: 0 <= i < |recs| ==> recs[i].payload != [] }

  /** Data, then exactly one zero chunk. */
  ghost predicate Ended(recs: seq<Rec>)
  {
    && |recs| > 0
    && AllData(recs[..|recs| - 1])
    && recs[|recs| - 1].payload == []
  }

  predicate RoomyLaw(p: Plan, w: Window, q: nat, now: nat)
  {
    p.reachable(w) ==> p.budget(w, q, now) > 0
  }

  /** Every stream record has room for at least one byte. */
  ghost predicate Roomy(p: Plan) { forall w, q, now :: RoomyLaw(p, w, q, now) }

  predicate CrampedLaw(p: Plan, w: Window, q: nat, now: nat)
  {
    p.reachable(w) ==> (p.budget(w, q, now) == 0 <==> !SaltSent(w))
  }

  /** Exactly the first record has no room for any. */
  ghost predicate Cramped(p: Plan) { forall w, q, now :: CrampedLaw(p, w, q, now) }

  /** What a failing socket, allocator, cipher or entropy source reports. */
  predicate Hardware(e: Error) { e == Io || e == Aead || e == Entropy }

  /** Sealed payloads, lost bytes and what is still to be read make up the whole input. */
  ghost predicate Adds(sent: seq<Rec>, lost: Bytes, input: Bytes, plain: Bytes)
  {
    Payloads(sent) + lost + input == plain
  }

  /** What was sealed since core `begin` is what went out since `before`, and what is still queued. */
  ghost predicate Booked(k: Keys, begin: Core, sent: seq<Rec>, now: Core, before: Bytes, out: Bytes, queued: Bytes)
  {
    && now == CoreAfter(begin, sent)
    && Fits(k, begin, sent, V6_WIRE_CAP)
    && before + Wires(k, begin, sent) == out + queued
  }

  lemma BookRecord(k: Keys, begin: Core, sent: seq<Rec>, now: Core, before: Bytes, out: Bytes, queued: Bytes, r: Rec, w: Bytes)
    requires Booked(k, begin, sent, now, before, out, queued)
    requires Sealable(k.format, r) && w == Wire(k, now, r) && |w| <= V6_WIRE_CAP
    ensures Booked(k, begin, sent + [r], NextCore(now, |r.payload|), before, out, queued + w)
  {
    CoreAfterAppends(begin, sent, r);
    FitsAppend(RecordChecker(k, V6_WIRE_CAP), begin, sent, r);
    WiresAppend(WireSealer(k), begin, sent, r);
    Associates(before, Wires(k, begin, sent), w);
    Associates(out, queued, w);
  }

  /** The same with the queue as what is left of a batch. */
  lemma BookQueued(k: Keys, begin: Core, sent: seq<Rec>, now: Core, before: Bytes, out: Bytes, all: Bytes,
                   n: nat, r: Rec, w: Bytes)
    requires n <= |all|
    requires Booked(k, begin, sent, now, before, out, all[n..])
    requires Sealable(k.format, r) && w == Wire(k, now, r) && |w| <= V6_WIRE_CAP
    ensures Booked(k, begin, sent + [r], NextCore(now, |r.payload|), before, out, (all + w)[n..])
  {
    BookRecord(k, begin, sent, now, before, out, all[n..], r, w);
    LeftOver(all, w, n);
  }

  lemma LeftOver(all: Bytes, w: Bytes, n: nat)
    requires n <= |all|
    ensures (all + w)[n..] == all[n..] + w
  {
  }

  lemma BookWrite(k: Keys, begin: Core, sent: seq<Rec>, now: Core, before: Bytes, out: Bytes, all: Bytes, from: nat, to: nat)
    requires from <= to <= |all|
    requires Booked(k, begin, sent, now, before, out, all[from..])
    ensures Booked(k, begin, sent, now, before, out + all[from..to], all[to..])
  {
    assert all[from..] == all[from..to] + all[to..];
    Associates(out, all[from..to], all[to..]);
  }

  /** One read into a reserved record, of `cap` payload bytes: a sealed record, or none at all. */
  ghost predicate ReadOutcome(encoder: Encoder, buf: Buffer, p: Poll<(nat, nat)>, payload: Bytes,
                              before: Bytes, c: Core, seals: seq<Bytes>, cap: nat, atEnd: bool)
    reads encoder, buf
  {
    && encoder.Valid() && buf.Valid()
    && (p.Done? ==> |payload| == p.value.0 <= cap)
    && (p.Done? && payload == [] ==> atEnd || cap == 0)
    && (p.Pending? ==> payload == [])
    && (p.Broken? ==> Hardware(p.error))
    && if p.Done? && payload != [] then encoder.Sealed(buf, before, c, cap, payload, p.value.1)
       else encoder.Cancelled(buf, before, c, seals) && (!p.Broken? ==> encoder.state == Ready)
  }

  /** Read once into a reserved record and seal what arrived; otherwise the reservation is dropped. */
  method PollReadRecord(reader: Source, encoder: Encoder, buf: Buffer, r: Reservation, fault: Fault, now: nat)
    returns (p: Poll<(nat, nat)>, ghost payload: Bytes)
    requires encoder.Valid() && encoder.Holds(buf, r)
    requires r.slot.prefixLen == 0 && |buf.storage| == r.slot.payloadStart
    modifies reader, encoder, buf
    ensures payload + reader.input == old(reader.input)
    ensures reader.stalls == if p.Pending? then old(reader.stalls) + 1 else old(reader.stalls)
    ensures reader.faults >= old(reader.faults)
    ensures p.Broken? ==> reader.faults > old(reader.faults) || !fault.NoFault?
    ensures ReadOutcome(encoder, buf, p, payload, old(encoder.Before(buf, r)), old(encoder.Now()), old(encoder.used),
                        r.slot.maxPayload, reader.input == [])
  {
    var got := reader.PollRead(r.slot.maxPayload);
    payload := [];
    match got {
      case Pending =>
        encoder.Drop(buf, r);
        p := Pending;
      case Broken(e) =>
        encoder.Drop(buf, r);
        p := Broken(e);
      case Done(bytes) =>
        payload := bytes;
        if bytes == [] {
          encoder.Drop(buf, r);
          return Done((0, 0)), payload;
        }
        EmptyFront(buf.storage, r.slot.payloadStart, bytes);
        var split;
        split, payload := FillRead(encoder, buf, r, bytes, fault, now);
        if split.Err? {
          return Broken(split.error), payload;
        }
        p := Done((|bytes|, split.value));
    }
  }

  lemma EmptyFront(s: Bytes, at: nat, bytes: Bytes)
    requires at == |s|
    ensures s[at..] + bytes == bytes
  {
  }

  /** No record was sealed; an encoder that was not ready is as it was. */
  ghost predicate NotSealed(encoder: Encoder, buf: Buffer, was: Was)
    requires buf.Valid()
    reads encoder, buf
  {
    && buf.Filled() == was.filled
    && if was.state == Ready then encoder.Cancelled(buf, was.filled, was.core, was.seals)
       else encoder.state == was.state && encoder.Now() == was.core
  }

  /** A stream record into an empty buffer of full size, with something to carry if it must. */
  ghost predicate Spacious(p: Plan, max: nat, size: RecordSize, src: Bytes, must: bool)
  {
    && size.Stream? && max >= V6_WIRE_CAP
    && (must ==> src != [] && size.hint > 0 && Roomy(p))
  }

  /** A stream record is never refused for its size, and fits an empty buffer. */
  lemma StreamFits(p: Plan, f: Format, c: Core, w: Window, now: nat, hint: nat)
    requires Sound(p, f) && p.reachable(w)
    ensures
      var cap := PayloadCapacity(Stream(hint), 0, p.budget(w, c.sequence, now));
      && cap == Ok(Min(hint, p.budget(w, c.sequence, now)))
      && cap.value <= p.datagramLimit
      && Room(p, f, c, cap.value) <= V6_WIRE_CAP
      && (hint > 0 && Roomy(p) ==> cap.value > 0)
      && (Cramped(p) && !SaltSent(w) ==> cap.value == 0)
  {
    var cap := Min(hint, p.budget(w, c.sequence, now));
    assert WindowLaw(p, w, c.sequence, now, now);
    assert RoomLaw(p, c.first, cap) && PrefixLaw(p, f, c.sequence);
    if Roomy(p) {
      assert RoomyLaw(p, w, c.sequence, now);
    }
    if Cramped(p) {
      assert CrampedLaw(p, w, c.sequence, now);
    }
  }

  /** Reserve a stream record with as much room as the window allows; an empty buffer always takes one. */
  method ReserveStream(encoder: Encoder, buf: Buffer, hint: nat, now: nat) returns (r: Option<Reservation>)
    requires encoder.Valid() && encoder.state == Ready && buf.Valid()
    requires buf.max == V6_WIRE_CAP && buf.Capacity() >= buf.max
    modifies encoder`window, encoder`state, buf
    ensures encoder.Valid() && encoder.Now() == old(encoder.Now())
    ensures r.None? ==> encoder.state == Ready && unchanged(buf) && buf.Filled() != []
    ensures r.Some? ==>
      var s := r.value.slot;
      && encoder.Holds(buf, r.value) && encoder.Before(buf, r.value) == old(buf.Filled())
      && s.prefixLen == 0 && |buf.storage| == s.payloadStart
      && s.maxPayload == Min(hint, encoder.plan.budget(old(encoder.window), encoder.sequence, now))
      && (hint > 0 && s.maxPayload == 0 ==> !Roomy(encoder.plan))
  {
    StreamFits(encoder.plan, encoder.keys.format, encoder.Now(), encoder.window, now, hint);
    var reserved := encoder.Reserve(buf, [], Stream(hint), now);
    r := if reserved.Ok? then Some(reserved.value) else None;
  }

  /** Fill a reserved record from `src` and seal it. */
  method FillRecord(encoder: Encoder, buf: Buffer, v: Reservation, src: Bytes, must: bool, host: Host)
    returns (r: Result<(nat, nat)>)
    requires encoder.Valid() && encoder.Holds(buf, v)
    requires v.slot.prefixLen == 0 && |buf.storage| == v.slot.payloadStart
    modifies encoder, buf, host
    ensures encoder.Valid() && buf.Valid() && host.faults >= old(host.faults)
    ensures r.Ok? ==> r.value.0 == Min(v.slot.maxPayload, |src|) && (must ==> r.value.0 > 0)
    ensures r.Ok? ==>
      encoder.Sealed(buf, old(encoder.Before(buf, v)), old(encoder.Now()), v.slot.maxPayload,
                     src[..Min(v.slot.maxPayload, |src|)], r.value.1)
    ensures r.Err? ==> encoder.Cancelled(buf, old(encoder.Before(buf, v)), old(encoder.Now()), old(encoder.used))
    ensures r.Err? && r.error == PayloadTooLarge ==>
      encoder.state == Ready && must && (src == [] || v.slot.maxPayload == 0)
    ensures r.Err? && r.error != PayloadTooLarge ==> Hardware(r.error) && host.faults > old(host.faults)
  {
    var take := Min(v.slot.maxPayload, |src|);
    if must && take == 0 {
      encoder.Drop(buf, v);
      return Err(PayloadTooLarge);
    }
    var now: nat := *;
    var fault := host.NextSeal();
    EmptyFront(buf.storage, v.slot.payloadStart, src[..take]);
    var split;
    ghost var payload;
    split, payload := FillCopied(encoder, buf, v, src[..take], fault, now);
    if split.Err? {
      return Err(split.error);
    }
    r := Ok((take, split.value));
  }

  /** An encoder, its buffer and the host's faults when a record is to be encoded. */
  datatype Was = Was(filled: Bytes, core: Core, seals: seq<Bytes>, state: EncoderState, faults: nat)

  ghost function WasOf(encoder: Encoder, buf: Buffer, host: Host): Was
    requires buf.Valid()
    reads encoder, buf, host
  {
    Was(buf.Filled(), encoder.Now(), encoder.used, encoder.state, host.faults)
  }

  /** What encoding one record of `src` comes to. */
  ghost predicate Encoded(encoder: Encoder, buf: Buffer, host: Host, was: Was, size: RecordSize, src: Bytes, must: bool,
                          r: Result<(nat, nat)>, cap: nat)
    reads encoder, buf, host
  {
    && encoder.Valid() && buf.Valid() && host.faults >= was.faults
    && match r
       case Ok(pair) =>
         && cap <= encoder.plan.datagramLimit && pair.0 == Min(cap, |src|) && (must ==> pair.0 > 0)
         && encoder.Sealed(buf, was.filled, was.core, cap, src[..Min(cap, |src|)], pair.1)
         && !(must && size.Stream? && Cramped(encoder.plan) && was.core.first)
       case Err(e) =>
         && NotSealed(encoder, buf, was)
         && if e == PayloadTooLarge then
              encoder.state == was.state && !(Spacious(encoder.plan, buf.max, size, src, must) && was.filled == [])
            else was.state == Ready ==> Hardware(e) && host.faults > was.faults
  }

  /** Reserve a record with nothing in front, and why not. */
  method AskFor(encoder: Encoder, buf: Buffer, size: RecordSize) returns (r: Result<Reservation>)
    requires encoder.Valid() && buf.Valid()
    modifies encoder`window, encoder`state, buf
    ensures encoder.Valid() && buf.Valid() && encoder.Now() == old(encoder.Now()) && buf.Capacity() == old(buf.Capacity())
    ensures r.Ok? ==>
      var s := r.value.slot;
      && old(encoder.state) == Ready && encoder.Holds(buf, r.value) && encoder.Before(buf, r.value) == old(buf.Filled())
      && s.prefixLen == 0 && |buf.storage| == s.payloadStart && s.maxPayload <= encoder.plan.datagramLimit
      && (size.Stream? && Cramped(encoder.plan) && encoder.Now().first ==> s.maxPayload == 0)
      && (size.Stream? && size.hint > 0 && Roomy(encoder.plan) ==> s.maxPayload > 0)
    ensures r.Err? ==> encoder.state == old(encoder.state) && unchanged(buf)
    ensures r.Err? && r.error.BufferTooSmall? ==>
      buf.Capacity() < r.error.needed <= buf.max && (size.Stream? && buf.Filled() == [] ==> r.error.needed <= V6_WIRE_CAP)
    ensures r.Err? && !r.error.BufferTooSmall? && encoder.state == Ready ==>
      r.error == PayloadTooLarge && !(size.Stream? && buf.max >= V6_WIRE_CAP && buf.Filled() == [])
    ensures r.Err? && !r.error.BufferTooSmall? && encoder.state != Ready ==> r.error != PayloadTooLarge
  {
    var now: nat := *;
    if size.Stream? {
      StreamFits(encoder.plan, encoder.keys.format, encoder.Now(), encoder.window, now, size.hint);
    }
    r := encoder.Reserve(buf, [], size, now);
  }

  /** One attempt: the outcome, or how large the buffer has to be for another. */
  method TryRecord(encoder: Encoder, buf: Buffer, size: RecordSize, src: Bytes, must: bool, host: Host)
    returns (r: Option<Result<(nat, nat)>>, needed: nat, ghost cap: nat)
    requires encoder.Valid() && buf.Valid()
    modifies encoder, buf, host
    ensures r.Some? ==> Encoded(encoder, buf, host, old(WasOf(encoder, buf, host)), size, src, must, r.value, cap)
    ensures r.None? ==>
      && encoder.Valid() && buf.Valid() && WasOf(encoder, buf, host) == old(WasOf(encoder, buf, host))
      && buf.Capacity() == old(buf.Capacity()) < needed <= buf.max
      && (size.Stream? && buf.Filled() == [] ==> needed <= V6_WIRE_CAP)
  {
    cap, needed := 0, 0;
    var reserved := AskFor(encoder, buf, size);
    if reserved.Ok? {
      cap := reserved.value.slot.maxPayload;
      var filled := FillRecord(encoder, buf, reserved.value, src, must, host);
      return Some(filled), needed, cap;
    }
    if !reserved.error.BufferTooSmall? {
      return Some(Err(reserved.error)), needed, cap;
    }
    r, needed := None, reserved.error.needed;
  }

  /**
    * Encode one record of up to `src`, growing the buffer as the codec asks.
    * `must` refuses a record with no room for any byte of a source.
    */
  method EncodeRecord(encoder: Encoder, buf: Buffer, size: RecordSize, src: Bytes, must: bool, host: Host)
    returns (r: Result<(nat, nat)>, ghost cap: nat)
    requires encoder.Valid() && buf.Valid()
    modifies encoder, buf, host
    ensures Encoded(encoder, buf, host, old(WasOf(encoder, buf, host)), size, src, must, r, cap)
  {
    ghost var was := WasOf(encoder, buf, host);
    cap := 0;
    while true
      invariant encoder.Valid() && buf.Valid() && WasOf(encoder, buf, host) == was
      decreases Max(buf.max - buf.Capacity(), 0)
    {
      var one, needed;
      one, needed, cap := TryRecord(encoder, buf, size, src, must, host);
      if one.Some? {
        r := one.value;
        return;
      }
      var grown := Ensure(buf, needed, host);
      if grown.Err? {
        r := Err(grown.error);
        return;
      }
    }
  }

  /** Encode a zero chunk behind what the buffer holds; only what it holds can keep it from fitting. */
  method EncodeZero(encoder: Encoder, buf: Buffer, host: Host) returns (r: Result<nat>, ghost cap: nat)
    requires encoder.Valid() && encoder.state == Ready && buf.Valid() && buf.max == V6_WIRE_CAP
    modifies encoder, buf, host
    ensures encoder.Valid() && buf.Valid() && host.faults >= old(host.faults)
    ensures r.Ok? ==>
      cap <= encoder.plan.datagramLimit && encoder.Sealed(buf, old(buf.Filled()), old(encoder.Now()), cap, [], r.value)
    ensures r.Err? ==> encoder.Cancelled(buf, old(buf.Filled()), old(encoder.Now()), old(encoder.used))
    ensures r.Err? ==>
      if r.error == PayloadTooLarge then encoder.state == Ready && old(buf.Filled()) != []
      else Hardware(r.error) && host.faults > old(host.faults)
  {
    var encoded;
    encoded, cap := EncodeRecord(encoder, buf, Stream(0), [], false, host);
    ghost var none: Bytes := [];
    assert none[..Min(cap, 0)] == none;
    r := if encoded.Ok? then Ok(encoded.value.1) else Err(encoded.error);
  }

  /** The entries cover exactly `filled`; what was sealed since core `begin` went out or is still queued, in order. */
  ghost predicate Balanced(k: Keys, begin: Core, before: Bytes, live: seq<Entry>, filled: Bytes, written: nat,
                           sent: seq<Rec>, core: Core, output: Bytes)
  {
    && Tiles(live, |filled|) && EndOf(live) == |filled| && written <= |Emission(live, filled)|
    && Booked(k, begin, sent, core, before, output, Emission(live, filled)[written..])
  }

  type Books = (seq<Entry>, Bytes, nat, seq<Rec>, Core, Bytes) -> bool

  ghost function BooksOf(k: Keys, begin: Core, before: Bytes): Books
  {
    (live: seq<Entry>, filled: Bytes, written: nat, sent: seq<Rec>, core: Core, output: Bytes) =>
      Balanced(k, begin, before, live, filled, written, sent, core, output)
  }

  predicate Tells(books: Books, told: Books, live: seq<Entry>, filled: Bytes, written: nat, sent: seq<Rec>, core: Core,
                  output: Bytes)
  {
    books(live, filled, written, sent, core, output) == told(live, filled, written, sent, core, output)
  }

  /** The books are kept as told. */
  ghost predicate Genuine(books: Books, told: Books)
  {
    forall live, filled, written, sent, core, output :: Tells(books, told, live, filled, written, sent, core, output)
  }

  /** The pump from a local reader to a Snell writer. */
  class Sender {
    const reader: Source
    const writer: Sink
    const encoder: Encoder
    const host: Host
    const encode: Buffer
    const batch: EncodeBatch
    const keepOpen: bool
    var phase: Phase
    /** The encoder's core, the writer's output and all the reader has to give, when the pump starts. */
    ghost const begin: Core
    ghost const before: Bytes
    ghost const plain: Bytes
    ghost const books: Books
    /** The first record of this pump has no room for payload. */
    ghost const bare: bool
    /** Records sealed so far, and bytes read for a record whose seal failed. */
    ghost var sent: seq<Rec>
    ghost var lost: Bytes
    /** The encoder's core after those records; a poisoned encoder may be past it. */
    ghost var core: Core
    /** A record without room was read into, so an empty read was no end of input. */
    ghost var starved: bool

    /** The batch covers exactly `filled`; with it, every sealed record is written or queued, in order. */
    ghost predicate Covers(filled: Bytes)
      reads this`sent, this`core, batch, writer
    {
      && Genuine(books, BooksOf(encoder.keys, begin, before))
      && batch.Valid() && books(batch.Live(), filled, batch.written, sent, core, writer.output)
    }

    /** What that says. */
    lemma Audit(filled: Bytes)
      requires Covers(filled)
      ensures Balanced(encoder.keys, begin, before, batch.Live(), filled, batch.written, sent, core, writer.output)
    {
      assert Tells(books, BooksOf(encoder.keys, begin, before), batch.Live(), filled, batch.written, sent, core, writer.output);
    }

    lemma Certify(filled: Bytes)
      requires Genuine(books, BooksOf(encoder.keys, begin, before)) && batch.Valid()
      requires Balanced(encoder.keys, begin, before, batch.Live(), filled, batch.written, sent, core, writer.output)
      ensures Covers(filled)
    {
      assert Tells(books, BooksOf(encoder.keys, begin, before), batch.Live(), filled, batch.written, sent, core, writer.output);
    }

    /** Every byte read is in a sealed record, unless its seal failed. */
    ghost predicate Accounts()
      reads this`sent, this`lost, reader
    {
      Adds(sent, lost, reader.input, plain)
    }

    ghost predicate InPhase()
      reads this, batch, reader
    {
      && (starved ==> !Roomy(encoder.plan))
      && match phase
         case Reading => AllData(sent) && (bare ==> sent == [])
         case SendZeroChunk => AllData(sent) && (bare ==> sent == []) && (reader.input == [] || starved)
         case Draining => Ended(sent) && (bare ==> |sent| == 1) && (reader.input == [] || starved)
         case ShuttingDown =>
           Ended(sent) && (bare ==> |sent| == 1) && (reader.input == [] || starved) && batch.len == 0 && !keepOpen
    }

    ghost predicate Valid()
      reads this, encoder, encode, batch, reader, writer
    {
      && encoder.Valid() && encode.Valid() && encode.max == V6_WIRE_CAP
      && (encoder.state == Ready ==> encoder.Now() == core)
      && (bare ==> Cramped(encoder.plan) && begin.first)
      && Covers(encode.Filled())
      && Accounts() && InPhase()
    }

    /** No error has been reported. */
    ghost predicate Running()
      reads this, encoder
    {
      lost == [] && encoder.state == Ready
    }

    /** Faults met by the sockets and the host so far. */
    ghost function Faults(): nat
      reads reader, writer, host
    {
      reader.faults + writer.faults + host.faults
    }

    constructor (reader: Source, writer: Sink, encoder: Encoder, host: Host, keepOpen: bool)
      requires encoder.Valid() && encoder.state == Ready
      ensures Valid() && Running() && phase == Reading && sent == []
      ensures this.reader == reader && this.writer == writer && this.encoder == encoder && this.host == host
      ensures this.keepOpen == keepOpen
      ensures begin == encoder.Now() && before == writer.output && plain == reader.input
      ensures bare <==> Cramped(encoder.plan) && encoder.Now().first
      ensures fresh(encode) && fresh(batch)
    {
      this.reader, this.writer, this.encoder, this.host, this.keepOpen := reader, writer, encoder, host, keepOpen;
      encode := new Buffer(V6_WIRE_CAP);
      batch := new EncodeBatch();
      phase := Reading;
      begin, before, plain := encoder.Now(), writer.output, reader.input;
      bare := Cramped(encoder.plan) && encoder.Now().first;
      books := BooksOf(encoder.keys, encoder.Now(), writer.output);
      sent, lost, core, starved := [], [], encoder.Now(), false;
      new;
      Certify([]);
    }

    /** Enter the record just sealed behind the bytes of the batch. */
    method Queue(split: nat, ghost rec: Rec, ghost stored: Bytes, ghost filled: Bytes)
      requires Covers(filled) && batch.len < ENCODE_BATCH_MAX
      requires encode.Valid() && encode.Filled() == filled + stored
      requires split <= |stored| && InOrder(stored, split) == Wire(encoder.keys, core, rec)
      requires Sealable(encoder.keys.format, rec) && |stored| <= V6_WIRE_CAP
      modifies this`sent, this`core, batch`records, batch`len
      ensures Covers(encode.Filled()) && batch.len > 0
      ensures core == NextCore(old(core), |rec.payload|) && sent == old(sent) + [rec]
    {
      Audit(filled);
      ghost var was, wire := Emission(batch.Live(), filled), InOrder(stored, split);
      BookQueued(encoder.keys, begin, sent, core, before, writer.output, was, batch.written, rec, wire);
      batch.Push(|encode.storage| - encode.start, split, filled, stored, encode.Filled());
      sent, core := sent + [rec], NextCore(core, |rec.payload|);
      Certify(encode.Filled());
    }

    /** The same for a record the encoder has just sealed over `payload`. */
    method QueueSealed(split: nat, ghost cap: nat, ghost payload: Bytes, ghost filled: Bytes)
      requires encoder.Valid() && Covers(filled) && batch.len < ENCODE_BATCH_MAX
      requires |payload| <= cap <= encoder.plan.datagramLimit
      requires encoder.Sealed(encode, filled, core, cap, payload, split)
      modifies this`sent, this`core, batch`records, batch`len
      ensures Covers(encode.Filled()) && batch.len > 0
      ensures encoder.Now() == core
      ensures |sent| == |old(sent)| + 1 && sent[..|old(sent)|] == old(sent) && sent[|old(sent)|].payload == payload
    {
      ghost var p, k := encoder.plan, encoder.keys;
      ghost var rec := RecordOf(p, k.format, encoder.fill, core, cap, payload);
      RecordFits(p, k, encoder.fill, core, cap, payload);
      StoredRotates(k, core, rec, p.rotates);
      Queue(split, rec, Stored(k, core, rec, p.rotates), filled);
    }

    /** What holds of a pump whose encoder has a reservation over `filled`, or had until just now. */
    ghost predicate Midway(filled: Bytes, input: Bytes)
      reads this, batch, writer
    {
      && encode.max == V6_WIRE_CAP && Covers(filled) && batch.len < ENCODE_BATCH_MAX
      && lost == [] && Adds(sent, lost, input, plain)
      && (bare ==> Cramped(encoder.plan) && begin.first)
      && (starved ==> !Roomy(encoder.plan))
      && phase == Reading && AllData(sent) && (bare ==> sent == [])
    }

    /** Queue the record sealed over bytes just read. */
    method QueueRead(split: nat, ghost cap: nat, ghost payload: Bytes, ghost filled: Bytes)
      requires encoder.Valid() && Midway(filled, payload + reader.input) && !bare
      requires 0 < |payload| <= cap <= encoder.plan.datagramLimit
      requires encoder.Sealed(encode, filled, core, cap, payload, split)
      modifies this`sent, this`core, batch`records, batch`len
      ensures Valid() && batch.len > 0
    {
      QueueSealed(split, cap, payload, filled);
      ReadAdds(old(sent), sent, payload, reader.input, plain);
    }

    /** What one read leaves, counting from the given stalls, faults, input length and batch length. */
    ghost predicate Outcome(o: Poll<nat>, s0: nat, f0: nat, n0: nat, len0: nat)
      reads this, encoder, reader, writer, host, batch
    {
      && Faults() >= f0 && reader.stalls >= s0 && |reader.input| <= n0
      && match o
         case Pending => Running() && reader.stalls > s0 && batch.len == len0
         case Done(n) =>
           && Running()
           && if n > 0 then batch.len > 0 && |reader.input| < n0
              else batch.len == len0 && (reader.input == [] || starved)
         case Broken(e) =>
           && batch.len == len0
           && if e == PayloadTooLarge then Running() && batch.len > 0 else Faults() > f0 && Hardware(e)
    }

    /** With no record sealed, the books are as they were, whatever was read and lost. */
    method GiveUp(ghost payload: Bytes, ghost filled: Bytes, ghost seals: seq<Bytes>)
      requires encoder.Valid() && encoder.Cancelled(encode, filled, core, seals)
      requires Midway(filled, payload + reader.input)
      modifies this`lost
      ensures Valid() && lost == payload
    {
      lost := payload;
      LostAdds(sent, payload, reader.input, plain);
    }

    /** Account for one read into a reserved record. */
    method Settle(p: Poll<(nat, nat)>, ghost payload: Bytes, ghost cap: nat, ghost filled: Bytes, ghost seals: seq<Bytes>)
      returns (o: Poll<nat>)
      requires ReadOutcome(encoder, encode, p, payload, filled, core, seals, cap, reader.input == [])
      requires cap <= encoder.plan.datagramLimit && (bare ==> cap == 0) && (cap == 0 ==> starved)
      requires Midway(filled, payload + reader.input)
      modifies this`sent, this`core, this`lost, batch`records, batch`len
      ensures Valid()
      ensures o.Pending? == p.Pending? && o.Broken? == p.Broken?
      ensures !o.Broken? ==> Running()
      ensures o.Broken? ==> Hardware(o.error)
      ensures o.Done? ==> o.value == |payload|
      ensures if o.Done? && o.value > 0 then batch.len > 0 else batch.len == old(batch.len)
      ensures o.Done? && o.value == 0 ==> reader.input == [] || starved
    {
      if p.Done? && p.value.0 > 0 {
        QueueRead(p.value.1, cap, payload, filled);
      } else {
        GiveUp(payload, filled, seals);
      }
      o := match p
           case Pending => Pending
           case Broken(e) => Broken(e)
           case Done(pair) => Done(pair.0);
    }

    /** Read once into a reserved record, and queue it if anything came. */
    method ReadInto(v: Reservation, ghost filled: Bytes) returns (o: Poll<nat>)
      requires encoder.Valid() && encoder.Holds(encode, v) && encoder.Before(encode, v) == filled
      requires encoder.Now() == core && Midway(filled, reader.input)
      requires v.slot.prefixLen == 0 && |encode.storage| == v.slot.payloadStart
      requires (bare ==> v.slot.maxPayload == 0) && (v.slot.maxPayload == 0 ==> starved)
      modifies this`sent, this`core, this`lost, reader, encoder, host, encode, batch`records, batch`len
      ensures Valid()
      ensures Outcome(o, old(reader.stalls), old(Faults()), |old(reader.input)|, old(batch.len))
      ensures o.Broken? ==> o.error != PayloadTooLarge
    {
      var now: nat := *;
      var fault := host.NextSeal();
      var p;
      ghost var payload, seals := [], encoder.used;
      p, payload := PollReadRecord(reader, encoder, encode, v, fault, now);
      o := Settle(p, payload, v.slot.maxPayload, filled, seals);
    }

    /** Reserve the next record; a full buffer is the only reason to be refused one. */
    method ReserveNext(now: nat) returns (r: Option<Reservation>)
      requires encoder.Valid() && encoder.state == Ready && encoder.Now() == core
      requires encode.Valid() && Midway(encode.Filled(), reader.input) && encode.Capacity() >= encode.max
      requires bare ==> encoder.plan.budget(encoder.window, encoder.sequence, now) == 0
      modifies this`starved, encoder, encode
      ensures encoder.Valid() && encoder.Now() == core && Midway(old(encode.Filled()), reader.input)
      ensures r.None? ==> encoder.state == Ready && unchanged(encode) && encode.Filled() != []
      ensures r.Some? ==>
        var v := r.value;
        && encoder.Holds(encode, v) && encoder.Before(encode, v) == old(encode.Filled())
        && v.slot.prefixLen == 0 && |encode.storage| == v.slot.payloadStart
        && (bare ==> v.slot.maxPayload == 0) && (v.slot.maxPayload == 0 ==> starved)
    {
      r := ReserveStream(encoder, encode, RECORD_HINT, now);
      if r.Some? && r.value.slot.maxPayload == 0 {
        Starve(old(encode.Filled()));
      }
    }

    /** Note that a record had no room. */
    ghost method Starve(filled: Bytes)
      requires Midway(filled, reader.input) && !Roomy(encoder.plan)
      modifies this`starved
      ensures starved && Midway(filled, reader.input)
    {
      starved := true;
    }

    lemma StillReading()
      requires encoder.Valid() && encoder.state == Ready && encoder.Now() == core
      requires encode.Valid() && Midway(encode.Filled(), reader.input)
      ensures Valid() && Running()
    {
    }

    /** Reserve a record and read into it. */
    method ReserveAndRead() returns (o: Poll<nat>)
      requires Valid() && Running() && phase == Reading && batch.len < ENCODE_BATCH_MAX
      requires encode.Capacity() >= encode.max
      modifies this`sent, this`core, this`lost, this`starved, reader, encoder, host, encode, batch`records, batch`len
      ensures Valid()
      ensures Outcome(o, old(reader.stalls), old(Faults()), |old(reader.input)|, old(batch.len))
    {
      var now: nat := *;
      ghost var filled := encode.Filled();
      BareFirst(encoder.window, now);
      FullWhenQueued();
      var reserved := ReserveNext(now);
      if reserved.None? {
        StillReading();
        return Broken(PayloadTooLarge);
      }
      o := ReadInto(reserved.value, filled);
    }

    /** What the buffer holds is queued. */
    lemma FullWhenQueued()
      requires Valid()
      ensures encode.Filled() != [] ==> batch.len > 0
    {
      Audit(encode.Filled());
    }

    /** While a pump without room in its first record is reading, the next record is that first one. */
    lemma BareFirst(w: Window, now: nat)
      requires Valid() && Running() && phase == Reading && w == encoder.window
      ensures bare ==> encoder.plan.budget(w, encoder.sequence, now) == 0
    {
      if bare {
        Audit(encode.Filled());
        assert CrampedLaw(encoder.plan, w, encoder.sequence, now);
        assert CoreAfter(begin, []) == begin;
      }
    }

    /** One turn of filling the batch. */
    method ReadOne() returns (o: Poll<nat>)
      requires Valid() && Running() && phase == Reading && batch.len < ENCODE_BATCH_MAX
      modifies this`sent, this`core, this`lost, this`starved, reader, encoder, host, encode, batch`records, batch`len
      ensures Valid()
      ensures Outcome(o, old(reader.stalls), old(Faults()), |old(reader.input)|, old(batch.len))
    {
      var ready := reader.PollReady();
      if ready.Pending? {
        return Pending;
      }
      if ready.Broken? {
        return Broken(ready.error);
      }
      var grown := Ensure(encode, encode.max, host);
      if grown.Err? {
        return Broken(grown.error);
      }
      o := ReserveAndRead();
    }

    /** The reader has ended, or seems to: a zero chunk is due. */
    method ReachEnd()
      requires Valid() && phase == Reading && (reader.input == [] || starved)
      modifies this`phase
      ensures Valid() && phase == SendZeroChunk
    {
      phase := SendZeroChunk;
    }

    /** Give the encode buffer's storage back while it holds nothing. */
    method Release()
      requires Valid()
      modifies encode
      ensures Valid()
    {
      ReleaseEmpty(encode);
    }

    /** What keeps a pump from finishing: a peer made it wait, or a socket or the host failed. */
    ghost predicate Held(r: Poll<()>, r0: nat, w0: nat, f0: nat)
      reads this, encoder, reader, writer, host
    {
      match r
      case Pending => Running() && (reader.stalls > r0 || writer.stalls > w0)
      case Broken(e) => Faults() > f0 && Hardware(e)
      case Done(_) => false
    }

    /** What a poll may answer, counting stalls and faults from `r0`, `w0` and `f0`. */
    ghost predicate Answer(r: Poll<()>, r0: nat, w0: nat, f0: nat)
      reads this, encoder, reader, writer, host
    {
      if r.Done? then Running() && Complete() else Held(r, r0, w0, f0)
    }

    /** The counters have not gone below the given values. */
    ghost predicate Since(r0: nat, w0: nat, f0: nat)
      reads reader, writer, host
    {
      reader.stalls >= r0 && writer.stalls >= w0 && Faults() >= f0
    }

    /** What a read means for filling the batch: go on, stop, or report a result at once. */
    method OnRead(o: Poll<nat>, hadPending: bool, ghost r0: nat, ghost w0: nat, ghost f0: nat,
                  ghost s: nat, ghost f: nat, ghost n: nat, ghost len: nat)
      returns (r: Option<Poll<()>>, more: bool)
      requires Valid() && phase == Reading && Outcome(o, s, f, n, len) && hadPending == (len > 0)
      requires r0 <= s && f0 <= f && Since(r0, w0, f0)
      modifies this`phase, encode
      ensures Valid() && Since(r0, w0, f0)
      ensures r.None? ==> Running() && (phase == SendZeroChunk || (phase == Reading && batch.len > 0))
      ensures r.None? && phase == SendZeroChunk ==> !more
      ensures r.None? && (more || (phase == Reading && len == 0)) ==> |reader.input| < n
      ensures r.Some? ==> Held(r.value, r0, w0, f0)
    {
      r, more := None, false;
      match o {
        case Pending =>
          if !hadPending {
            Release();
            r := Some(Pending);
          }
        case Broken(e) =>
          if !(hadPending && e == PayloadTooLarge) {
            r := Some(Broken(e));
          }
        case Done(n) =>
          if n == 0 {
            ReachEnd();
          } else {
            more := true;
          }
      }
    }

    /** One turn of filling the batch: whether to go on, stop, or report a result at once. */
    method FillStep(ghost r0: nat, ghost w0: nat, ghost f0: nat) returns (r: Option<Poll<()>>, more: bool)
      requires Valid() && Running() && phase == Reading && batch.len < ENCODE_BATCH_MAX && Since(r0, w0, f0)
      modifies this, reader, encoder, host, encode, batch`records, batch`len
      ensures Valid() && Since(r0, w0, f0)
      ensures r.None? ==> Running() && (phase == SendZeroChunk || (phase == Reading && batch.len > 0))
      ensures r.None? && phase == SendZeroChunk ==> !more
      ensures |reader.input| <= |old(reader.input)|
      ensures r.None? && phase == Reading && old(batch.len) == 0 ==> |reader.input| < |old(reader.input)|
      ensures r.None? && more ==> |reader.input| < |old(reader.input)|
      ensures r.Some? ==> Held(r.value, r0, w0, f0)
    {
      var hadPending := batch.len > 0;
      var o := ReadOne();
      r, more := OnRead(o, hadPending, r0, w0, f0, old(reader.stalls), old(Faults()), |old(reader.input)|, old(batch.len));
    }

    /**
      * Fill the batch with whatever the reader has. Without a result the batch
      * holds something to write, or the reader has ended.
      */
    method FillBatch(ghost r0: nat, ghost w0: nat, ghost f0: nat) returns (r: Option<Poll<()>>)
      requires Valid() && Running() && phase == Reading && batch.len == 0 && Since(r0, w0, f0)
      modifies this, reader, encoder, host, encode, batch`records, batch`len
      ensures Valid() && Since(r0, w0, f0)
      ensures r.None? ==> Running() && (phase == SendZeroChunk || (phase == Reading && batch.len > 0))
      ensures r.None? && phase == Reading ==> |reader.input| < |old(reader.input)|
      ensures r.Some? ==> Held(r.value, r0, w0, f0)
    {
      r := None;
      var more := true;
      while more && r.None? && batch.len < ENCODE_BATCH_MAX
        invariant Valid() && Since(r0, w0, f0)
        invariant r.None? ==> Running() && (phase == Reading || (phase == SendZeroChunk && !more))
        invariant |reader.input| <= |old(reader.input)|
        invariant r.None? && batch.len > 0 && phase == Reading ==> |reader.input| < |old(reader.input)|
        invariant r.None? && phase == Reading && !more ==> batch.len > 0
        invariant r.Some? ==> Held(r.value, r0, w0, f0)
        decreases more && r.None?, |reader.input|
      {
        r, more := FillStep(r0, w0, f0);
      }
    }

    /** Queue the zero chunk just sealed; nothing may follow it. */
    method QueueZero(split: nat, ghost cap: nat, ghost filled: Bytes)
      requires encoder.Valid() && Covers(filled) && batch.len < ENCODE_BATCH_MAX
      requires cap <= encoder.plan.datagramLimit
      requires encoder.Sealed(encode, filled, core, cap, [], split) && encode.max == V6_WIRE_CAP
      requires lost == [] && Accounts() && phase == SendZeroChunk && InPhase()
      requires bare ==> Cramped(encoder.plan) && begin.first
      modifies this`phase, this`sent, this`core, batch`records, batch`len
      ensures Valid() && batch.len > 0 && phase == Draining
    {
      QueueSealed(split, cap, [], filled);
      assert [] + reader.input == reader.input;
      ReadAdds(old(sent), sent, [], reader.input, plain);
      phase := Draining;
    }

    /** Seal the zero chunk, unless the queued records have to be written first. */
    method SendZero() returns (r: Option<Error>)
      requires Valid() && Running() && phase == SendZeroChunk && batch.len < ENCODE_BATCH_MAX
      modifies this`phase, this`sent, this`core, encoder, host, encode, batch`records, batch`len
      ensures Valid() && host.faults >= old(host.faults)
      ensures r.None? ==> Running() && batch.len > 0
      ensures phase == SendZeroChunk || phase == Draining
      ensures r.None? && old(batch.len) == 0 ==> phase == Draining
      ensures r.Some? ==> Hardware(r.value) && host.faults > old(host.faults)
    {
      ghost var filled := encode.Filled();
      FullWhenQueued();
      var hadPending := batch.len > 0;
      var encoded;
      ghost var cap := 0;
      encoded, cap := EncodeZero(encoder, encode, host);
      if encoded.Ok? {
        QueueZero(encoded.value, cap, filled);
        return None;
      }
      r := if hadPending && encoded.error == PayloadTooLarge then None else Some(encoded.error);
    }

    /** The batch over `filled` is written to its end. */
    ghost predicate AllOut(filled: Bytes)
      reads batch
    {
      && batch.Valid() && Tiles(batch.Live(), |filled|)
      && batch.written == |Emission(batch.Live(), filled)|
    }

    /** Write what is queued, or part of it. */
    method WriteQueued() returns (r: Poll<()>)
      requires encode.Valid() && Covers(encode.Filled())
      modifies writer`output, writer`stalls, writer`faults, batch`written
      ensures Covers(encode.Filled())
      ensures r.Done? ==> AllOut(encode.Filled())
      ensures writer.stalls == if r.Pending? then old(writer.stalls) + 1 else old(writer.stalls)
      ensures if r.Broken? then r.error == Io && writer.faults > old(writer.faults) else writer.faults == old(writer.faults)
    {
      Audit(encode.Filled());
      ghost var all, from := Emission(batch.Live(), encode.Filled()), batch.written;
      r := batch.PollWrite(writer, encode.Filled());
      BookWrite(encoder.keys, begin, sent, core, before, old(writer.output), all, from, batch.written);
      Certify(encode.Filled());
    }

    /** All of it is out: start over with an empty batch and buffer. */
    method EmptyQueue()
      requires encode.Valid() && Covers(encode.Filled()) && AllOut(encode.Filled())
      modifies batch`written, batch`len, encode
      ensures encode.Valid() && encode.Filled() == [] && Covers([]) && batch.len == 0
    {
      Audit(encode.Filled());
      ghost var all := Emission(batch.Live(), encode.Filled());
      assert all[|all|..] == [];
      batch.Clear();
      var consumed := encode.Consume(|encode.storage| - encode.start);
      assert encode.Filled() == [];
      Certify([]);
    }

    /** Write what is queued; when all of it is out the buffer is empty again. */
    method Flush() returns (r: Poll<()>)
      requires Valid() && batch.len > 0 && phase != ShuttingDown
      modifies writer`output, writer`stalls, writer`faults, batch`written, batch`len, encode
      ensures Valid()
      ensures r.Done? ==> batch.len == 0
      ensures writer.stalls == if r.Pending? then old(writer.stalls) + 1 else old(writer.stalls)
      ensures if r.Broken? then r.error == Io && writer.faults > old(writer.faults) else writer.faults == old(writer.faults)
    {
      r := WriteQueued();
      if r.Done? {
        EmptyQueue();
      }
    }

    /** Read records into an empty batch while the reader has not ended. */
    method Refill(ghost r0: nat, ghost w0: nat, ghost f0: nat) returns (r: Option<Poll<()>>)
      requires Valid() && Running() && phase != ShuttingDown && Since(r0, w0, f0)
      modifies this, reader, encoder, host, encode, batch`records, batch`len
      ensures Valid() && Since(r0, w0, f0)
      ensures r.None? ==> Running() && (phase == Reading ==> batch.len > 0)
      ensures r.None? ==>
        || (phase == SendZeroChunk && old(phase) == Reading)
        || (phase == old(phase) && |reader.input| < |old(reader.input)|)
        || (phase == old(phase) && |reader.input| == |old(reader.input)| && batch.len == old(batch.len))
      ensures old(phase) != Reading ==> r.None? && phase == old(phase) && batch.len == old(batch.len)
      ensures r.Some? ==> Held(r.value, r0, w0, f0)
    {
      r := None;
      if phase == Reading && batch.len == 0 {
        r := FillBatch(r0, w0, f0);
      }
    }

    /** Queue the zero chunk once it is due, if the batch has room. */
    method ZeroIfDue(ghost r0: nat, ghost w0: nat, ghost f0: nat) returns (r: Option<Poll<()>>)
      requires Valid() && Running() && phase != ShuttingDown && Since(r0, w0, f0)
      modifies this`phase, this`sent, this`core, encoder, host, encode, batch`records, batch`len
      ensures Valid() && Since(r0, w0, f0)
      ensures r.None? ==> Running()
      ensures phase == old(phase) || (phase == Draining && old(phase) == SendZeroChunk)
      ensures r.None? && phase == SendZeroChunk ==> old(batch.len) > 0 && batch.len > 0
      ensures old(phase) != SendZeroChunk ==> r.None? && batch.len == old(batch.len)
      ensures r.Some? ==> Held(r.value, r0, w0, f0)
    {
      r := None;
      if phase == SendZeroChunk && batch.len < ENCODE_BATCH_MAX {
        var failed := SendZero();
        r := if failed.Some? then Some(Broken(failed.value)) else None;
      }
    }

    /** Queue what can be queued: records read, then the zero chunk. */
    method Prepare(ghost r0: nat, ghost w0: nat, ghost f0: nat) returns (r: Option<Poll<()>>)
      requires Valid() && Running() && phase != ShuttingDown && Since(r0, w0, f0)
      modifies this, reader, encoder, host, encode, batch`records, batch`len
      ensures Valid() && Since(r0, w0, f0)
      ensures r.None? ==> Running() && phase != ShuttingDown && (batch.len == 0 ==> phase == Draining)
      ensures r.None? ==>
        || Rank(phase) < Rank(old(phase))
        || (phase == old(phase) && |reader.input| < |old(reader.input)|)
        || (phase == old(phase) && |reader.input| == |old(reader.input)| && (old(batch.len) > 0 || phase == Draining))
      ensures old(phase) == Draining ==> batch.len == old(batch.len)
      ensures r.Some? ==> Held(r.value, r0, w0, f0)
    {
      r := Refill(r0, w0, f0);
      if r.None? {
        r := ZeroIfDue(r0, w0, f0);
      }
    }

    /** Write what is queued; once the zero chunk is out, finish or start shutting down. */
    method Deliver(ghost r0: nat, ghost w0: nat, ghost f0: nat) returns (r: Option<Poll<()>>)
      requires Valid() && Running() && phase != ShuttingDown && Since(r0, w0, f0)
      requires batch.len == 0 ==> phase == Draining
      modifies this`phase, writer`output, writer`stalls, writer`faults, batch`written, batch`len, encode
      ensures Valid() && Since(r0, w0, f0)
      ensures r.None? ==> batch.len == 0 && ((phase == old(phase) && old(batch.len) > 0) || phase == ShuttingDown)
      ensures r.Some? ==> phase == old(phase) && Answer(r.value, r0, w0, f0) && (r.value.Done? ==> keepOpen)
    {
      if batch.len > 0 {
        var flushed := Flush();
        return if flushed.Done? then None else Some(flushed);
      }
      Release();
      if keepOpen {
        DrainedIsComplete();
        return Some(Done(()));
      }
      phase := ShuttingDown;
      r := None;
    }

    /**
      * Data records and then one zero chunk are out, carrying all of the input,
      * unless a record had no room: then whatever is left of the input is lost.
      */
    ghost predicate Complete()
      reads this, encoder, reader, writer
    {
      && Ended(sent) && Adds(sent, [], reader.input, plain)
      && (reader.input == [] || starved) && (starved ==> !Roomy(encoder.plan))
      && (bare ==> |sent| == 1)
      && Fits(encoder.keys, begin, sent, V6_WIRE_CAP)
      && writer.output == before + Wires(encoder.keys, begin, sent)
    }

    lemma DrainedIsComplete()
      requires Valid() && lost == [] && batch.len == 0
      requires phase == Draining || phase == ShuttingDown
      ensures Complete()
    {
      Audit(encode.Filled());
      assert batch.Live() == [];
      var none: Bytes := [];
      assert none[batch.written..] == [];
      assert writer.output + [] == writer.output;
    }

    /** One turn of the pump: a result, or strictly closer to one. */
    method Turn(ghost r0: nat, ghost w0: nat, ghost f0: nat) returns (r: Option<Poll<()>>)
      requires Valid() && Running() && phase != ShuttingDown && Since(r0, w0, f0)
      modifies this, writer`output, writer`stalls, writer`faults, reader, encoder, host, encode, batch
      ensures Valid() && Since(r0, w0, f0)
      ensures r.None? ==> Running()
      ensures r.None? ==>
        || Rank(phase) < Rank(old(phase))
        || (phase == old(phase) && |reader.input| < |old(reader.input)|)
        || (phase == old(phase) && |reader.input| == |old(reader.input)| && old(batch.len) > 0 && batch.len == 0)
      ensures r.Some? ==> Answer(r.value, r0, w0, f0) && (r.value.Done? ==> keepOpen)
    {
      r := Prepare(r0, w0, f0);
      if r.None? {
        r := Deliver(r0, w0, f0);
      }
    }

    /** Shut the writer down once everything is out. */
    method Close(ghost r0: nat, ghost w0: nat, ghost f0: nat) returns (r: Poll<()>)
      requires Valid() && Running() && phase == ShuttingDown && Since(r0, w0, f0)
      modifies writer`closed, writer`stalls, writer`faults
      ensures Valid() && Answer(r, r0, w0, f0) && Since(r0, w0, f0) && !keepOpen
      ensures writer.closed == if r.Done? then old(writer.closed) + 1 else old(writer.closed)
    {
      DrainedIsComplete();
      r := writer.PollShutdown();
    }

    /** Turns until there is a result, or everything is out and only the shutdown is left. */
    method RunTurns(ghost r0: nat, ghost w0: nat, ghost f0: nat) returns (result: Option<Poll<()>>)
      requires Valid() && Running() && Since(r0, w0, f0)
      modifies this, writer`output, writer`stalls, writer`faults, reader, encoder, host, encode, batch
      ensures Valid() && Since(r0, w0, f0)
      ensures result.None? ==> Running() && phase == ShuttingDown
      ensures result.Some? ==> Answer(result.value, r0, w0, f0) && (result.value.Done? ==> keepOpen)
    {
      result := None;
      while phase != ShuttingDown && result.None?
        invariant Valid() && Since(r0, w0, f0)
        invariant result.None? ==> Running()
        invariant result.Some? ==> Answer(result.value, r0, w0, f0) && (result.value.Done? ==> keepOpen)
        decreases result.None?, Rank(phase), |reader.input|, batch.len > 0
      {
        result := Turn(r0, w0, f0);
      }
    }

    /**
      * One poll of the pump. It ends with success only when everything read has
      * gone out with exactly one zero chunk behind it; it waits only when the
      * reader or the writer made it wait; and it fails only when a socket or
      * the host did. Until then what has gone out is a prefix of the sealed
      * records, whatever the outcome.
      */
    method Poll() returns (r: Poll<()>)
      requires Valid() && Running()
      modifies this, writer, reader, encoder, host, encode, batch
      ensures Valid() && Answer(r, old(reader.stalls), old(writer.stalls), old(Faults()))
      ensures Since(old(reader.stalls), old(writer.stalls), old(Faults()))
      ensures writer.closed == old(writer.closed) + if r.Done? && !keepOpen then 1 else 0
    {
      var result := RunTurns(reader.stalls, writer.stalls, Faults());
      if result.Some? {
        return result.value;
      }
      r := Close(old(reader.stalls), old(writer.stalls), old(Faults()));
    }
  }

  function Rank(phase: Phase): nat
  {
    match phase
    case Reading => 3
    case SendZeroChunk => 2
    case Draining => 1
    case ShuttingDown => 0
  }

  lemma LostAdds(sent: seq<Rec>, payload: Bytes, input: Bytes, plain: Bytes)
    requires Adds(sent, [], payload + input, plain)
    ensures Adds(sent, payload, input, plain)
  {
    assert Payloads(sent) + payload + input == Payloads(sent) + [] + (payload + input);
  }

  lemma ReadAdds(before: seq<Rec>, sent: seq<Rec>, payload: Bytes, input: Bytes, plain: Bytes)
    requires |sent| == |before| + 1 && sent[..|before|] == before && sent[|before|].payload == payload
    requires Adds(before, [], payload + input, plain)
    ensures Adds(sent, [], input, plain)
    ensures AllData(before) && payload != [] ==> AllData(sent)
    ensures AllData(before) && payload == [] ==> Ended(sent)
  {
    assert sent == before + [sent[|before|]];
    PayloadsAppend(before, sent[|before|]);
    assert Payloads(sent) + [] + input == Payloads(before) + [] + (payload + input);
  }
}
