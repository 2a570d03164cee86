/** Whole streams of records: what a decoder yields does not depend on how the bytes arrive. */
module Streams {
  import opened Cipher
  import opened Headers
  import opened Protocol
  import opened Records
  import Nonces

  // ---- One record, more input ----

  /** A decided parse stays as it is when input is appended; an undecided one resumes where it stopped. */
  ghost predicate Resumes(s: Suite, f: Format, max: nat, r: Status, more: Bytes, r': Status)
  {
    match r
    case NeedMore(m, d) => r' == Parse(s, f, d, max, more) && (r'.Parsed? ==> m <= r'.len)
    case _ => r' == r
  }

  lemma BodyResumes(s: Suite, f: Format, d: Dec, max: nat, x: Bytes, y: Bytes)
    requires d.step.AtBody?
    ensures Resumes(s, f, max, ParseBody(s, f, d, max, x), x + y, ParseBody(s, f, d, max, x + y))
  {
    var h := d.step.header;
    var start, end := BodyStart(f, d.core), BodyEnd(f, d.core, h);
    if end <= |x| {
      assert (x + y)[start..start + h.paddingLen] == x[start..start + h.paddingLen];
      assert (x + y)[start + h.paddingLen..end] == x[start + h.paddingLen..end];
    }
  }

  lemma HeaderResumes(s: Suite, f: Format, d: Dec, max: nat, x: Bytes, y: Bytes)
    requires d.step.AtHeader?
    ensures Resumes(s, f, max, ParseHeader(s, f, d, max, x), x + y, ParseHeader(s, f, d, max, x + y))
  {
    var from, start, end := PrefixStart(f, d.core), HeaderStart(f, d.core), BodyStart(f, d.core);
    if end <= |x| {
      assert (x + y)[from..start] == x[from..start];
      assert (x + y)[start..end] == x[start..end];
      var header := OpenHeader(s, f, d, x[from..start], x[start..end]);
      if header.Ok? {
        BodyResumes(s, f, d.(core := d.core.(nonce := Nonces.Succ(d.core.nonce)), step := AtBody(header.value)), max, x, y);
      }
    }
  }

  lemma SaltResumes(s: Suite, f: Format, d: Dec, max: nat, x: Bytes, y: Bytes)
    requires d.step.AtSalt?
    requires d.core.first
    ensures Resumes(s, f, max, ParseSalt(s, f, d, max, x), x + y, ParseSalt(s, f, d, max, x + y))
  {
    var n := f.saltLen;
    if n <= |x| {
      assert (x + y)[..n] == x[..n];
      var key := if d.key.Some? then d.key else s.derive(f.readSalt(x[..n]));
      HeaderResumes(s, f, d.(key := key, step := AtHeader), max, x, y);
    }
  }

  /** The salt is read only in front of the first record. */
  predicate Coherent(d: Dec) { d.step.AtSalt? ==> d.core.first }

  /**
    * Fragmentation, one record: parsing a longer input gives the same record or
    * error, or resumes from the saved state; and the length asked for is above
    * what is buffered and never past the end of the record.
    */
  lemma ParseResumes(s: Suite, f: Format, d: Dec, max: nat, x: Bytes, y: Bytes)
    requires Coherent(d)
    ensures Resumes(s, f, max, Parse(s, f, d, max, x), x + y, Parse(s, f, d, max, x + y))
    ensures Parse(s, f, d, max, x).NeedMore? ==> Coherent(Parse(s, f, d, max, x).after)
    ensures Parse(s, f, d, max, x).Parsed? ==> Coherent(Parse(s, f, d, max, x).after)
  {
    match d.step
    case AtSalt => SaltResumes(s, f, d, max, x, y);
    case AtHeader => HeaderResumes(s, f, d, max, x, y);
    case AtBody(_) => BodyResumes(s, f, d, max, x, y);
  }

  // ---- One sealed record ----

  function ItemOf(r: Rec): Item { Item(r.payload, if r.payload == [] then ZeroChunk else Data) }

  /** The decoder in lock step with an encoder that is about to seal from `c`. */
  function DecAt(k: Keys, c: Core): Dec
  {
    if c.first then Dec(None, c, AtSalt) else Dec(Some(k.key), c, AtHeader)
  }

  /** Where the parts of a sealed record lie. */
  lemma WireSlices(k: Keys, c: Core, r: Rec, rest: Bytes)
    requires ValidKeys(k)
    requires Sealable(k.format, r)
    ensures
      var f, input := k.format, Wire(k, c, r) + rest;
      var at0, at1, at2, at3, at4 :=
        PrefixStart(f, c), HeaderStart(f, c), BodyStart(f, c), BodyStart(f, c) + |r.padding|,
        BodyEnd(f, c, Header(|r.padding|, |r.payload|));
      && at4 == |Wire(k, c, r)| <= |input|
      && input[..at0] == SaltPart(k, c)
      && input[at0..at1] == f.prefix(c.sequence)
      && input[at1..at2] == HeadPart(k, c, r)
      && input[at2..at3] == BodyParts(k, c, r).0
      && input[at3..at4] == BodyParts(k, c, r).1
      && input[at4..] == rest
  {
    WireLen(k, c, r);
  }

  lemma OpenBodyParts(k: Keys, c: Core, r: Rec, d: Dec)
    requires ValidKeys(k)
    requires r.payload != []
    requires d.core == c.(nonce := Nonces.Succ(c.nonce))
    ensures OpenBody(k.suite, k.format, d, k.key, BodyParts(k, c, r).0, BodyParts(k, c, r).1) == Ok(r.payload)
  {
    assert MixLaw(k.format, c.sequence, r.padding, SealedPayload(k, c, r));
    assert SealLaw(k.suite, k.key, Nonces.Succ(c.nonce), k.format.bind(r.padding), r.payload);
  }

  lemma HeadParses(k: Keys, c: Core, r: Rec, rest: Bytes, max: nat, d: Dec)
    requires ValidKeys(k)
    requires Sealable(k.format, r)
    requires |Wire(k, c, r)| <= max
    requires d == Dec(Some(k.key), c, AtHeader)
    ensures Parse(k.suite, k.format, d, max, Wire(k, c, r) + rest)
            == Parsed(|Wire(k, c, r)|, ItemOf(r), DecAt(k, NextCore(c, |r.payload|)))
  {
    WireSlices(k, c, r, rest);
    var f, input, h := k.format, Wire(k, c, r) + rest, Header(|r.padding|, |r.payload|);
    assert HeaderLaw(f, |r.padding|, |r.payload|);
    assert SealLaw(k.suite, k.key, c.nonce, f.prefix(c.sequence), f.plainHeader(|r.padding|, |r.payload|));
    assert OpenHeader(k.suite, f, d, f.prefix(c.sequence), HeadPart(k, c, r)) == Ok(h);
    var d' := d.(core := c.(nonce := Nonces.Succ(c.nonce)), step := AtBody(h));
    if r.payload != [] {
      OpenBodyParts(k, c, r, d');
    } else if r.padding == [] {
      assert BodyStart(f, c) == BodyEnd(f, c, h);
    }
    assert Boundary(d', r.payload != []) == DecAt(k, NextCore(c, |r.payload|));
  }

  /**
    * Round trip, one record: whatever follows it on the wire, a sealed record
    * parses to its payload and kind, uses exactly its own bytes, and leaves the
    * decoder at the encoder's next nonce, sequence number and salt flag.
    */
  lemma WireParses(k: Keys, c: Core, r: Rec, rest: Bytes, max: nat)
    requires ValidKeys(k)
    requires Sealable(k.format, r)
    requires |Wire(k, c, r)| <= max
    ensures Parse(k.suite, k.format, DecAt(k, c), max, Wire(k, c, r) + rest)
            == Parsed(|Wire(k, c, r)|, ItemOf(r), DecAt(k, NextCore(c, |r.payload|)))
  {
    HeadParses(k, c, r, rest, max, Dec(Some(k.key), c, AtHeader));
    if c.first {
      WireSlices(k, c, r, rest);
      var f, input := k.format, Wire(k, c, r) + rest;
      assert SaltLaw(f, k.salt);
      assert input[..f.saltLen] == f.saltBlock(k.salt);
    }
  }

  // ---- Whole streams ----

  type Parser = (Dec, Bytes) -> Status

  function RecordParser(s: Suite, f: Format, max: nat): Parser
  {
    (d: Dec, input: Bytes) => Parse(s, f, d, max, input)
  }

  /** How a stream of bytes ends for a decoder: short of a record, or refused. */
  datatype Tail = Short(after: Dec, rest: Bytes) | Refused(error: Error)

  datatype Drained = Drained(items: seq<Item>, tail: Tail)

  /** Every record of `input`, parsed in one go up to the first error. */
  function Drain(p: Parser, d: Dec, input: Bytes): Drained
    decreases |input|
  {
    match p(d, input)
    case NeedMore(_, d') => Drained([], Short(d', input))
    case Failed(e) => Drained([], Refused(e))
    case Parsed(n, item, d') =>
      if 0 < n <= |input| then Then([item], Drain(p, d', input[n..])) else Drained([], Short(d, input))
  }

  function Then(items: seq<Item>, r: Drained): Drained { r.(items := items + r.items) }

  lemma EmptyThen(r: Drained)
    ensures Then([], r) == r
  {
    assert [] + r.items == r.items;
  }

  lemma ThenAssociates(a: seq<Item>, b: seq<Item>, r: Drained)
    ensures Then(a, Then(b, r)) == Then(a + b, r)
  {
    assert a + (b + r.items) == (a + b) + r.items;
  }

  function Items(recs: seq<Rec>): (r: seq<Item>)
    ensures |r| == |recs|
  {
    if recs == [] then [] else [ItemOf(recs[0])] + Items(recs[1..])
  }

  function CoreAfter(c: Core, recs: seq<Rec>): Core
    decreases |recs|
  {
    if recs == [] then c else CoreAfter(NextCore(c, |recs[0].payload|), recs[1..])
  }

  type Sealer = (Core, Rec) -> Bytes

  function WiresBy(seal: Sealer, c: Core, recs: seq<Rec>): Bytes
    decreases |recs|
  {
    if recs == [] then [] else seal(c, recs[0]) + WiresBy(seal, NextCore(c, |recs[0].payload|), recs[1..])
  }

  function WireSealer(k: Keys): Sealer
  {
    (c: Core, r: Rec) => Wire(k, c, r)
  }

  /** Records sealed one after the other, in wire order. */
  function Wires(k: Keys, c: Core, recs: seq<Rec>): Bytes { WiresBy(WireSealer(k), c, recs) }

  type Checker = (Core, Rec) -> bool

  ghost predicate FitsBy(ok: Checker, c: Core, recs: seq<Rec>)
    decreases |recs|
  {
    recs == [] || (ok(c, recs[0]) && FitsBy(ok, NextCore(c, |recs[0].payload|), recs[1..]))
  }

  function RecordChecker(k: Keys, max: nat): Checker
  {
    (c: Core, r: Rec) => Sealable(k.format, r) && |Wire(k, c, r)| <= max
  }

  /** Every record of the run can be sealed and fits a buffer of `max` bytes. */
  ghost predicate Fits(k: Keys, c: Core, recs: seq<Rec>, max: nat) { FitsBy(RecordChecker(k, max), c, recs) }

  lemma {:induction false} CoreAfterAppends(c: Core, recs: seq<Rec>, r: Rec)
    ensures CoreAfter(c, recs + [r]) == NextCore(CoreAfter(c, recs), |r.payload|)
    decreases |recs|
  {
    if recs == [] {
      assert [r][1..] == [];
    } else {
      CoreAfterAppends(NextCore(c, |recs[0].payload|), recs[1..], r);
      assert (recs + [r])[1..] == recs[1..] + [r];
    }
  }

  lemma {:induction false} WiresAppend(seal: Sealer, c: Core, recs: seq<Rec>, r: Rec)
    ensures WiresBy(seal, c, recs + [r]) == WiresBy(seal, c, recs) + seal(CoreAfter(c, recs), r)
    decreases |recs|
  {
    if recs == [] {
      assert [r][1..] == [];
      assert seal(c, r) + [] == seal(c, r);
    } else {
      var c', w := NextCore(c, |recs[0].payload|), seal(CoreAfter(c, recs), r);
      WiresAppend(seal, c', recs[1..], r);
      assert (recs + [r])[1..] == recs[1..] + [r];
      Associates(seal(c, recs[0]), WiresBy(seal, c', recs[1..]), w);
    }
  }

  lemma Associates(a: Bytes, b: Bytes, c: Bytes)
    ensures a + (b + c) == (a + b) + c
  {
  }

  lemma {:induction false} FitsAppend(ok: Checker, c: Core, recs: seq<Rec>, r: Rec)
    requires FitsBy(ok, c, recs) && ok(CoreAfter(c, recs), r)
    ensures FitsBy(ok, c, recs + [r])
    decreases |recs|
  {
    if recs == [] {
      assert [r][1..] == [];
    } else {
      FitsAppend(ok, NextCore(c, |recs[0].payload|), recs[1..], r);
      assert (recs + [r])[1..] == recs[1..] + [r];
    }
  }

  /** The payloads of a run, end to end. */
  function Payloads(recs: seq<Rec>): Bytes
  {
    if recs == [] then [] else recs[0].payload + Payloads(recs[1..])
  }

  lemma {:induction false} PayloadsAppend(recs: seq<Rec>, r: Rec)
    ensures Payloads(recs + [r]) == Payloads(recs) + r.payload
  {
    if recs == [] {
      assert [r][1..] == [];
      assert r.payload + [] == r.payload;
    } else {
      PayloadsAppend(recs[1..], r);
      assert (recs + [r])[1..] == recs[1..] + [r];
    }
  }

  type Drainer = (Dec, Bytes) -> Drained

  function DrainerOf(p: Parser): Drainer
  {
    (d: Dec, input: Bytes) => Drain(p, d, input)
  }

  function LockStep(k: Keys): Core -> Dec
  {
    (c: Core) => DecAt(k, c)
  }

  /** A record that passes `ok` is drained off the front of whatever follows it. */
  predicate Peels(seal: Sealer, ok: Checker, at: Core -> Dec, drain: Drainer, c: Core, r: Rec, tail: Bytes)
  {
    ok(c, r) ==>
      drain(at(c), seal(c, r) + tail) == Then([ItemOf(r)], drain(at(NextCore(c, |r.payload|)), tail))
  }

  /** If each record can be drained off the front, so can a run of them. */
  lemma {:induction false} RunPeels(seal: Sealer, ok: Checker, at: Core -> Dec, drain: Drainer,
                                    c: Core, recs: seq<Rec>, rest: Bytes)
    requires forall c, r, tail :: Peels(seal, ok, at, drain, c, r, tail)
    requires FitsBy(ok, c, recs)
    ensures drain(at(c), WiresBy(seal, c, recs) + rest) == Then(Items(recs), drain(at(CoreAfter(c, recs)), rest))
    decreases |recs|
  {
    if recs == [] {
      assert WiresBy(seal, c, recs) + rest == rest;
      EmptyThen(drain(at(c), rest));
    } else {
      var r := recs[0];
      var c' := NextCore(c, |r.payload|);
      var tail, more := WiresBy(seal, c', recs[1..]), drain(at(CoreAfter(c, recs)), rest);
      calc {
        drain(at(c), WiresBy(seal, c, recs) + rest);
        { Associates(seal(c, r), tail, rest); }
        drain(at(c), seal(c, r) + (tail + rest));
        { assert Peels(seal, ok, at, drain, c, r, tail + rest); }
        Then([ItemOf(r)], drain(at(c'), tail + rest));
        { RunPeels(seal, ok, at, drain, c', recs[1..], rest); }
        Then([ItemOf(r)], Then(Items(recs[1..]), more));
        { ThenAssociates([ItemOf(r)], Items(recs[1..]), more); }
        Then(Items(recs), more);
      }
    }
  }

  lemma RecordPeels(k: Keys, max: nat, p: Parser, c: Core, r: Rec, tail: Bytes)
    requires ValidKeys(k) && p == RecordParser(k.suite, k.format, max)
    ensures Peels(WireSealer(k), RecordChecker(k, max), LockStep(k), DrainerOf(p), c, r, tail)
  {
    if Sealable(k.format, r) && |Wire(k, c, r)| <= max {
      var w := Wire(k, c, r);
      WireParses(k, c, r, tail, max);
      WireLen(k, c, r);
      assert (w + tail)[|w|..] == tail;
    }
  }

  /** Round trip over whole runs, ending in lock step, whatever bytes follow. */
  lemma RunRoundTrip(k: Keys, c: Core, recs: seq<Rec>, rest: Bytes, max: nat, p: Parser)
    requires ValidKeys(k)
    requires Fits(k, c, recs, max)
    requires p == RecordParser(k.suite, k.format, max)
    ensures Drain(p, DecAt(k, c), Wires(k, c, recs) + rest)
            == Then(Items(recs), Drain(p, DecAt(k, CoreAfter(c, recs)), rest))
  {
    var seal, ok, at, drain := WireSealer(k), RecordChecker(k, max), LockStep(k), DrainerOf(p);
    forall c, r, tail
      ensures Peels(seal, ok, at, drain, c, r, tail)
    {
      RecordPeels(k, max, p, c, r, tail);
    }
    RunPeels(seal, ok, at, drain, c, recs, rest);
    assert drain(at(c), Wires(k, c, recs) + rest) == Drain(p, DecAt(k, c), Wires(k, c, recs) + rest);
    assert drain(at(CoreAfter(c, recs)), rest) == Drain(p, DecAt(k, CoreAfter(c, recs)), rest);
  }

  // ---- More input ----

  /** More input leaves a decided parse alone, and an undecided one resumes from its saved state. */
  ghost predicate Extends(p: Parser, d: Dec, x: Bytes, y: Bytes)
  {
    match p(d, x)
    case NeedMore(m, d') =>
      Coherent(d') && |x| < m && p(d, x + y) == p(d', x + y) && (p(d', x + y).Parsed? ==> m <= p(d', x + y).len)
    case Failed(_) => p(d, x + y) == p(d, x)
    case Parsed(n, _, d') => Coherent(d') && 0 < n <= |x| && p(d, x + y) == p(d, x)
  }

  ghost predicate Incremental(p: Parser)
  {
    forall d, x, y :: Coherent(d) ==> Extends(p, d, x, y)
  }

  lemma RecordsIncremental(s: Suite, f: Format, max: nat)
    ensures Incremental(RecordParser(s, f, max))
  {
    forall d, x, y | Coherent(d)
      ensures Extends(RecordParser(s, f, max), d, x, y)
    {
      ParseResumes(s, f, d, max, x, y);
    }
  }

  /** Undecided parses change only the saved state, never what the rest of the stream yields. */
  lemma DrainResumes(p: Parser, d: Dec, x: Bytes, y: Bytes)
    requires Incremental(p)
    requires Coherent(d)
    ensures
      match p(d, x)
      case NeedMore(_, d') => Drain(p, d, x + y) == Drain(p, d', x + y)
      case Failed(e) => Drain(p, d, x + y) == Drained([], Refused(e))
      case Parsed(n, item, d') => 0 < n <= |x| && Drain(p, d, x + y) == Then([item], Drain(p, d', (x + y)[n..]))
  {
    assert Extends(p, d, x, y);
    match p(d, x)
    case NeedMore(_, d') =>
      if p(d', x + y).Parsed? {
        assert Extends(p, d', x + y, []);
      }
    case Failed(_) =>
    case Parsed(_, _, _) =>
  }

  // ---- What a stream has yielded ----

  /** `items` is what the stream has yielded up to the decoder state `now`, before `rest`; or up to its error. */
  ghost predicate Yielded(drain: Drainer, first: Dec, stream: Bytes, items: seq<Item>, now: Dec, rest: Bytes,
                          failed: Option<Error>)
  {
    match failed
    case None => drain(first, stream) == Then(items, drain(now, rest))
    case Some(e) => drain(first, stream) == Drained(items, Refused(e))
  }

  /** Not enough of a record is there to decode it. */
  ghost predicate Stuck(drain: Drainer, now: Dec, input: Bytes) { drain(now, input) == Drained([], Short(now, input)) }

  /** What one parse at `now` does to that. */
  lemma YieldsStatus(p: Parser, first: Dec, stream: Bytes, items: seq<Item>, now: Dec, x: Bytes, y: Bytes, drain: Drainer)
    requires Incremental(p) && Coherent(now) && drain == DrainerOf(p)
    requires Yielded(drain, first, stream, items, now, x + y, None)
    ensures
      match p(now, x)
      case NeedMore(_, d) => Yielded(drain, first, stream, items, d, x + y, None) && Stuck(drain, d, x)
      case Failed(e) => Yielded(drain, first, stream, items, now, x + y, Some(e))
      case Parsed(n, item, d) => 0 < n <= |x| && Yielded(drain, first, stream, items + [item], d, x[n..] + y, None)
  {
    DrainResumes(p, now, x, y);
    match p(now, x)
    case NeedMore(_, _) =>
      assert Extends(p, now, x, []);
      assert x + [] == x;
    case Failed(_) =>
      assert items + [] == items;
    case Parsed(n, item, d) =>
      assert (x + y)[n..] == x[n..] + y;
      ThenAssociates(items, [item], Drain(p, d, x[n..] + y));
  }
}
