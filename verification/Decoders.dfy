/** Opening records in place, as many ahead as the buffer holds, with records consumed in decode order. */
module Decoders {
  import opened Buffers
  import opened Cipher
  import opened Headers
  import opened Protocol
  import opened Records
  import opened Streams
  import Nonces

  /** A record handed out: bytes it occupies, and where its plaintext lies in the live bytes. */
  datatype DecodedRecord = DecodedRecord(consumed: nat, from: nat, to: nat, kind: Kind)

  datatype DecodeStatus = Wait(minimum: nat) | Ready(record: DecodedRecord)

  class Decoder {
    const suite: Suite
    const format: Format
    var key: Option<Bytes>
    var core: Core
    var step: Step
    /** Bytes of records handed out and not yet consumed, at the front of the buffer. */
    var pending: nat

    ghost predicate Valid()
      reads this
    {
      && Lawful(suite) && WellFormed(format)
      && Coherent(View())
      && (step.AtSalt? ==> pending == 0)
    }

    function View(): Dec
      reads this
    {
      Dec(key, core, step)
    }

    constructor (suite: Suite, format: Format)
      requires Lawful(suite) && WellFormed(format)
      ensures Valid() && this.suite == suite && this.format == format && pending == 0
      ensures View() == Dec(None, Core(Nonces.Nth(0), 0, true), AtSalt)
    {
      this.suite, this.format := suite, format;
      key, core, step, pending := None, Core(Zeros(NONCE_LEN), 0, true), AtSalt, 0;
    }

    /** Bytes of `buf` that no handed-out record covers. */
    function Ahead(buf: Buffer): Bytes
      requires buf.Valid() && pending <= |buf.Filled()|
      reads this, buf
    {
      buf.Filled()[pending..]
    }

    /** What `Decode` answers when the parse at the pending offset comes out as `r`. */
    ghost predicate Answers(r: Status, out: Result<DecodeStatus>, before: Bytes, offset: nat, after: Bytes)
      reads this
    {
      && |after| == |before|
      && offset <= |before|
      && match r
         case NeedMore(m, d) =>
           out == Ok(Wait(offset + m)) && View() == d && pending == offset && after == before
         case Failed(e) =>
           out == Err(e) && pending == offset && after[..offset] == before[..offset]
         case Parsed(n, item, d) =>
           && out.Ok? && out.value.Ready?
           && View() == d && pending == offset + n <= |before|
           && after[..offset] == before[..offset]
           && after[offset + n..] == before[offset + n..]
           && var record := out.value.record;
           && record.consumed == n && record.kind == item.kind
           && record.from <= record.to <= |before|
           && after[record.from..record.to] == item.plain
           && (item.kind == ZeroChunk ==> record.from == record.to == 0)
           && (item.kind == Data ==> offset <= record.from && record.to <= offset + n)
    }

    /**
      * Whether `minimum` bytes of the live buffer are there. A record must fit
      * the buffer on its own; crowded out by pending ones it has to wait.
      */
    method Need(buf: Buffer, minimum: nat) returns (r: Result<Option<DecodeStatus>>)
      requires buf.Valid() && pending <= minimum
      ensures r == (if minimum - pending > buf.max then Err(PayloadTooLarge)
                    else if |buf.Filled()| < minimum then Ok(Some(Wait(minimum)))
                    else Ok(None))
    {
      if minimum - pending > buf.max {
        return Err(PayloadTooLarge);
      }
      if |buf.storage| - buf.start < minimum {
        return Ok(Some(Wait(minimum)));
      }
      r := Ok(None);
    }

    /** Hand out the record that ends `len` bytes past the pending ones. */
    method Emit(len: nat, from: nat, to: nat, kind: Kind) returns (out: DecodeStatus)
      modifies this`pending
      ensures pending == old(pending) + len
      ensures out == Ready(DecodedRecord(len, from, to, kind))
    {
      pending := pending + len;
      out := Ready(DecodedRecord(len, from, to, kind));
    }

    /** Derive the session key, unless one was installed. */
    method SaltStep(buf: Buffer) returns (out: Option<Result<DecodeStatus>>)
      requires Valid() && buf.Valid() && pending <= |buf.Filled()|
      requires step.AtSalt?
      modifies this`key, this`step
      ensures Valid()
      ensures
        var r := Parse(suite, format, old(View()), buf.max, Ahead(buf));
        if out.Some? then Answers(r, out.value, buf.Filled(), pending, buf.Filled())
        else step.AtHeader? && Parse(suite, format, View(), buf.max, Ahead(buf)) == r
    {
      assert Ahead(buf) == buf.Filled();
      var need := Need(buf, format.saltLen);
      if need.Err? {
        return Some(Err(need.error));
      }
      if need.value.Some? {
        return Some(Ok(need.value.value));
      }
      if key.None? {
        key := suite.derive(format.readSalt(buf.Filled()[..format.saltLen]));
        if key.None? {
          return Some(Err(Kdf));
        }
      }
      step := AtHeader;
      out := None;
    }

    /** Open a header and read it; an opened one has used up its nonce. */
    method OpenHead(prefix: Bytes, sealed: Bytes) returns (h: Result<Header>)
      requires Valid()
      modifies this`core
      ensures Valid()
      ensures h == OpenHeader(suite, format, old(View()), prefix, sealed)
      ensures h.Ok? ==> core == old(core).(nonce := Nonces.Succ(old(core.nonce))) && key.Some?
    {
      if key.None? {
        return Err(Aead);
      }
      var plain := suite.open(key.value, core.nonce, prefix, sealed);
      if plain.Err? {
        return Err(plain.error);
      }
      core := core.(nonce := Nonces.Succ(core.nonce));
      h := format.parseHeader(plain.value);
    }

    /** Open a copy of the header; an empty record ends here. */
    method HeaderStep(buf: Buffer) returns (out: Option<Result<DecodeStatus>>)
      requires Valid() && buf.Valid() && pending <= |buf.Filled()|
      requires step.AtHeader?
      modifies this
      ensures Valid()
      ensures
        var r := Parse(suite, format, old(View()), buf.max, old(Ahead(buf)));
        if out.Some? then Answers(r, out.value, buf.Filled(), old(pending), buf.Filled())
        else step.AtBody? && pending == old(pending) && Parse(suite, format, View(), buf.max, Ahead(buf)) == r
    {
      var need := Need(buf, pending + BodyStart(format, core));
      if need.Err? {
        return Some(Err(need.error));
      }
      if need.value.Some? {
        return Some(Ok(need.value.value));
      }
      out := ReadHeader(buf);
    }

    /** The header is all there. */
    method ReadHeader(buf: Buffer) returns (out: Option<Result<DecodeStatus>>)
      requires Valid() && buf.Valid() && step.AtHeader?
      requires pending + BodyStart(format, core) <= |buf.Filled()| && BodyStart(format, core) <= buf.max
      modifies this
      ensures Valid()
      ensures
        var r := ParseHeader(suite, format, old(View()), buf.max, old(Ahead(buf)));
        if out.Some? then Answers(r, out.value, buf.Filled(), old(pending), buf.Filled())
        else step.AtBody? && pending == old(pending) && ParseBody(suite, format, View(), buf.max, Ahead(buf)) == r
    {
      var filled, len := buf.Filled(), BodyStart(format, core);
      var from, start := pending + PrefixStart(format, core), pending + HeaderStart(format, core);
      HeaderParses(suite, format, View(), buf.max, filled, pending);
      var header := OpenHead(filled[from..start], filled[start..pending + len]);
      if header.Err? {
        return Some(Err(header.error));
      }
      if header.value.paddingLen == 0 && header.value.payloadLen == 0 {
        NextRecord();
        var status := Emit(len, 0, 0, ZeroChunk);
        return Some(Ok(status));
      }
      step := AtBody(header.value);
      out := None;
    }

    method NextRecord()
      modifies this`core, this`step
      ensures core == Core(old(core.nonce), NextSequence(old(core.sequence)), false) && step == AtHeader
    {
      core := Core(core.nonce, NextSequence(core.sequence), false);
      step := AtHeader;
    }

    /** Mix back and open the body in place; an empty payload is only skipped. */
    method BodyStep(buf: Buffer) returns (out: Result<DecodeStatus>)
      requires Valid() && buf.Valid() && pending <= |buf.Filled()|
      requires step.AtBody?
      modifies this, buf
      ensures Valid() && buf.Valid() && buf.start == old(buf.start) && buf.Capacity() == old(buf.Capacity())
      ensures Answers(Parse(suite, format, old(View()), buf.max, old(Ahead(buf))), out,
                      old(buf.Filled()), old(pending), buf.Filled())
    {
      var h := step.header;
      var end := pending + BodyEnd(format, core, h);
      var need := Need(buf, end);
      if need.Err? {
        return Err(need.error);
      }
      if need.value.Some? {
        return Ok(need.value.value);
      }
      if h.payloadLen == 0 {
        NextRecord();
        var status := Emit(end - pending, 0, 0, ZeroChunk);
        return Ok(status);
      }
      if key.None? {
        return Err(Aead);
      }
      BodyParses(suite, format, View(), buf.max, buf.Filled(), pending);
      out := OpenData(buf, h);
    }

    /** The body is all there and carries data. */
    method OpenData(buf: Buffer, h: Header) returns (out: Result<DecodeStatus>)
      requires Valid() && buf.Valid()
      requires step == AtBody(h) && h.payloadLen > 0 && key.Some?
      requires pending + BodyEnd(format, core, h) <= |buf.Filled()|
      modifies this, buf
      ensures Valid() && buf.Valid() && buf.start == old(buf.start) && buf.Capacity() == old(buf.Capacity())
      ensures Answers(old(DataStatus(suite, format, View(), buf.Filled(), pending)), out,
                      old(buf.Filled()), old(pending), buf.Filled())
    {
      ghost var was, at := buf.Filled(), pending;
      ghost var r := DataStatus(suite, format, View(), was, at);
      var start := pending + BodyStart(format, core);
      var mid := start + h.paddingLen;
      var end := pending + BodyEnd(format, core, h);
      var plain := OpenInPlace(buf, start, mid, end, key.value);
      PrefixOf(was, buf.Filled(), start, at);
      if plain.Err? {
        AnswersFailed(r, plain.error, was, buf.Filled(), at);
        return Err(plain.error);
      }
      var status := HandOut(end - pending, mid, mid + h.payloadLen);
      out := Ok(status);
      AnswersData(r, out, was, buf.Filled(), at, mid, end, plain.value);
    }

    lemma AnswersFailed(r: Status, e: Error, was: Bytes, after: Bytes, at: nat)
      requires r == Failed(e) && pending == at <= |was| == |after| && after[..at] == was[..at]
      ensures Answers(r, Err(e), was, at, after)
    {
    }

    /** The answer for a data record opened in place. */
    lemma AnswersData(r: Status, out: Result<DecodeStatus>, was: Bytes, after: Bytes, at: nat, mid: nat, end: nat, plain: Bytes)
      requires at <= mid <= end <= |was| == |after| && mid + |plain| <= end && pending == end
      requires r == Parsed(end - at, Item(plain, Data), View())
      requires out == Ok(Ready(DecodedRecord(end - at, mid, mid + |plain|, Data)))
      requires after[..at] == was[..at] && after[end..] == was[end..] && after[mid..mid + |plain|] == plain
      ensures Answers(r, out, was, at, after)
    {
    }

    /** An opened data record is handed out; it has used up its nonce. */
    method HandOut(len: nat, from: nat, to: nat) returns (out: DecodeStatus)
      requires Valid()
      modifies this
      ensures Valid() && View() == Boundary(old(View()), true) && pending == old(pending) + len
      ensures out == Ready(DecodedRecord(len, from, to, Data))
    {
      core := core.(nonce := Nonces.Succ(core.nonce));
      NextRecord();
      out := Emit(len, from, to, Data);
    }

    /** Undo the mix between padding and sealed payload, then replace the sealed payload by what it opens to. */
    method OpenInPlace(buf: Buffer, start: nat, mid: nat, end: nat, k: Bytes) returns (plain: Result<Bytes>)
      requires Valid() && buf.Valid()
      requires start <= mid <= end <= |buf.Filled()|
      modifies buf
      ensures buf.Valid() && buf.start == old(buf.start) && buf.Capacity() == old(buf.Capacity())
      ensures plain == OpenBody(suite, format, View(), k, old(buf.Filled())[start..mid], old(buf.Filled())[mid..end])
      ensures |buf.Filled()| == |old(buf.Filled())|
      ensures buf.Filled()[..start] == old(buf.Filled())[..start] && buf.Filled()[end..] == old(buf.Filled())[end..]
      ensures plain.Ok? ==> end - mid == |plain.value| + TAG_LEN && buf.Filled()[mid..mid + |plain.value|] == plain.value
    {
      ghost var was := buf.Filled();
      var padding, sealed := buf.Filled()[start..mid], buf.Filled()[mid..end];
      assert MixLaw(format, core.sequence, padding, sealed);
      var mixed := format.mix(core.sequence, padding, sealed);
      assert OpenLaw(suite, k, core.nonce, format.bind(mixed.0), mixed.1);
      plain := suite.open(k, core.nonce, format.bind(mixed.0), mixed.1);
      var body := if plain.Ok? then plain.value + mixed.1[|plain.value|..] else mixed.1;
      Overwrite(buf, start, mixed.0 + body);
      SplicedParts(was, start, mixed.0, body, if plain.Ok? then |plain.value| else 0);
    }

    /** Open the next complete record after those already handed out. */
    method Decode(buf: Buffer) returns (out: Result<DecodeStatus>)
      requires Valid() && buf.Valid() && pending <= |buf.Filled()|
      modifies this, buf
      ensures Valid() && buf.Valid() && buf.start == old(buf.start) && buf.Capacity() == old(buf.Capacity())
      ensures Answers(Parse(suite, format, old(View()), buf.max, old(Ahead(buf))), out,
                      old(buf.Filled()), old(pending), buf.Filled())
    {
      ghost var r := Parse(suite, format, View(), buf.max, Ahead(buf));
      var done: Option<Result<DecodeStatus>> := None;
      while done.None?
        invariant Valid() && buf.Valid() && buf.start == old(buf.start) && buf.Capacity() == old(buf.Capacity())
        invariant done.None? ==>
          && buf.Filled() == old(buf.Filled()) && pending == old(pending)
          && Parse(suite, format, View(), buf.max, Ahead(buf)) == r
        invariant done.Some? ==> Answers(r, done.value, old(buf.Filled()), old(pending), buf.Filled())
        decreases done.None?, if step.AtSalt? then 2 else if step.AtHeader? then 1 else 0
      {
        match step {
          case AtSalt =>
            done := SaltStep(buf);
          case AtHeader =>
            done := HeaderStep(buf);
          case AtBody(_) =>
            var body := BodyStep(buf);
            done := Some(body);
        }
      }
      out := done.value;
    }

    /** Drop a handed-out record from the front of the buffer. */
    method Consume(buf: Buffer, record: DecodedRecord) returns (r: Result<()>)
      requires Valid() && buf.Valid() && pending <= |buf.Filled()|
      modifies this`pending, buf
      ensures Valid() && buf.Valid() && buf.Capacity() == old(buf.Capacity())
      ensures r.Ok? <==> record.consumed <= old(pending)
      ensures r.Err? ==> r.error == PlaintextNotDrained && pending == old(pending) && unchanged(buf)
      ensures r.Ok? ==>
        && pending == old(pending) - record.consumed
        && buf.Filled() == old(buf.Filled())[record.consumed..]
        && pending <= |buf.Filled()|
        && Ahead(buf) == old(Ahead(buf))
    {
      if record.consumed > pending {
        return Err(PlaintextNotDrained);
      }
      pending := pending - record.consumed;
      r := buf.Consume(record.consumed);
    }
  }

  /** Replace live bytes from index `at` of them on. */
  method Overwrite(buf: Buffer, at: nat, bytes: Bytes)
    requires buf.Valid() && at + |bytes| <= |buf.Filled()|
    modifies buf
    ensures buf.Valid() && buf.start == old(buf.start) && buf.Capacity() == old(buf.Capacity())
    ensures buf.Filled() == Splice(old(buf.Filled()), at, bytes)
  {
    LiveSplice(buf.storage, buf.start, at, bytes);
    buf.Write(buf.start + at, bytes);
  }

  /** A header that is all there, behind `at` bytes: what its parse comes to. */
  lemma HeaderParses(s: Suite, f: Format, d: Dec, max: nat, was: Bytes, at: nat)
    requires d.step.AtHeader? && at + BodyStart(f, d.core) <= |was| && BodyStart(f, d.core) <= max
    ensures
      var start, len := at + HeaderStart(f, d.core), BodyStart(f, d.core);
      ParseHeader(s, f, d, max, was[at..]) ==
      match OpenHeader(s, f, d, was[at + PrefixStart(f, d.core)..start], was[start..at + len])
      case Err(e) => Failed(e)
      case Ok(h) =>
        var d' := d.(core := d.core.(nonce := Nonces.Succ(d.core.nonce)), step := AtBody(h));
        if h.paddingLen == 0 && h.payloadLen == 0 then Parsed(len, Item([], ZeroChunk), Boundary(d', false))
        else ParseBody(s, f, d', max, was[at..])
  {
    OffsetSlice(was, at, PrefixStart(f, d.core), HeaderStart(f, d.core));
    OffsetSlice(was, at, HeaderStart(f, d.core), BodyStart(f, d.core));
  }

  /** What the body of a data record comes to, all there behind `at` bytes. */
  function DataStatus(s: Suite, f: Format, d: Dec, was: Bytes, at: nat): Status
    requires d.step.AtBody? && d.key.Some? && at + BodyEnd(f, d.core, d.step.header) <= |was|
  {
    var start, len := at + BodyStart(f, d.core), BodyEnd(f, d.core, d.step.header);
    var mid := start + d.step.header.paddingLen;
    match OpenBody(s, f, d, d.key.value, was[start..mid], was[mid..at + len])
    case Err(e) => Failed(e)
    case Ok(plain) => Parsed(len, Item(plain, Data), Boundary(d, true))
  }

  lemma BodyParses(s: Suite, f: Format, d: Dec, max: nat, was: Bytes, at: nat)
    requires d.step.AtBody? && d.step.header.payloadLen > 0 && d.key.Some?
    requires at + BodyEnd(f, d.core, d.step.header) <= |was| && BodyEnd(f, d.core, d.step.header) <= max
    ensures ParseBody(s, f, d, max, was[at..]) == DataStatus(s, f, d, was, at)
  {
    var start, len := BodyStart(f, d.core), BodyEnd(f, d.core, d.step.header);
    var mid := start + d.step.header.paddingLen;
    OffsetSlice(was, at, start, mid);
    OffsetSlice(was, at, mid, len);
  }

  lemma LiveSplice(s: Bytes, base: nat, at: nat, part: Bytes)
    requires base + at + |part| <= |s|
    ensures Splice(s, base + at, part)[base..] == Splice(s[base..], at, part)
  {
  }

  lemma SplicedParts(s: Bytes, at: nat, a: Bytes, b: Bytes, n: nat)
    requires at + |a| + |b| <= |s|
    requires n <= |b|
    ensures
      var r := Splice(s, at, a + b);
      && r[..at] == s[..at]
      && r[at + |a| + |b|..] == s[at + |a| + |b|..]
      && r[at + |a|..at + |a| + n] == b[..n]
  {
  }

  lemma PrefixOf(a: Bytes, b: Bytes, n: nat, m: nat)
    requires m <= n <= |a| && n <= |b|
    requires a[..n] == b[..n]
    ensures a[..m] == b[..m]
  {
    assert a[..m] == a[..n][..m] && b[..m] == b[..n][..m];
  }

  lemma OffsetSlice(s: Bytes, offset: nat, lo: nat, hi: nat)
    requires lo <= hi && offset + hi <= |s|
    ensures s[offset + lo..offset + hi] == s[offset..][lo..hi]
  {
  }
}
