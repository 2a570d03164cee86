/** From the Snell stream to a local socket: read, decode ahead, write plaintext, and stop at the zero chunk. */
module Receivers {
  import opened Batches
  import opened Buffers
  import opened DecodeBatches
  import opened Decoders
  import opened Hosts
  import opened Leases
  import opened Protocol
  import opened Records
  import opened Sockets
  import opened Streams

  const READ_WINDOW := V6_WIRE_CAP

  function Texts(items: seq<Item>): Bytes
  {
    if items == [] then [] else items[0].plain + Texts(items[1..])
  }

  lemma {:induction false} TextsAppend(items: seq<Item>, item: Item)
    ensures Texts(items + [item]) == Texts(items) + item.plain
  {
    if items == [] {
      assert (items + [item])[1..] == [];
      assert item.plain + [] == item.plain;
    } else {
      assert (items + [item])[1..] == items[1..] + [item];
      TextsAppend(items[1..], item);
    }
  }

  ghost predicate Open(items: seq<Item>) { forall i :: 0 <= i < |items| ==> items[i].kind == Data }

  /** Data, then a zero chunk. */
  ghost predicate Closed(items: seq<Item>)
  {
    && |items| > 0
    && Open(items[..|items| - 1])
    && items[|items| - 1].kind == ZeroChunk
  }

  /** Read once into the free end of `buf`, making room for a record that ends at `minimum`. */
  method PollReadInto(reader: Source, buf: Buffer, minimum: nat, window: nat, host: Host)
    returns (p: Poll<nat>, ghost chunk: Bytes)
    requires buf.Valid()
    modifies reader, buf, host
    ensures buf.Valid()
    ensures buf.Filled() == old(buf.Filled()) + chunk && chunk + reader.input == old(reader.input)
    ensures if p.Done? then p.value == |chunk| else chunk == []
    ensures p.Done? && p.value == 0 ==> reader.input == []
    ensures reader.stalls == if p.Pending? then old(reader.stalls) + 1 else old(reader.stalls)
    ensures reader.faults >= old(reader.faults) && host.faults >= old(host.faults)
    ensures p.Broken? && |old(buf.Filled())| < buf.max && minimum <= buf.max <= LARGEST_CLASS ==>
      p.error == Io && reader.faults + host.faults > old(reader.faults + host.faults)
  {
    chunk := [];
    var ready := reader.PollReady();
    if ready.Pending? {
      ReleaseEmpty(buf);
      return Pending, chunk;
    }
    if ready.Broken? {
      return Broken(ready.error), chunk;
    }
    var len := |buf.storage| - buf.start;
    var needed := Max(Max(minimum, len + 1), Min(window, buf.max));
    var grown := Ensure(buf, needed, host);
    if grown.Err? {
      return Broken(grown.error), chunk;
    }
    var room := buf.SpareCapacity(Max(minimum - len, 1));
    if room.Err? {
      return Broken(room.error), chunk;
    }
    p, chunk := ReadTail(reader, buf, room.value);
  }

  /** Read into the uncommitted tail of `buf` and commit what arrived. */
  method ReadTail(reader: Source, buf: Buffer, room: nat) returns (p: Poll<nat>, ghost chunk: Bytes)
    requires buf.Valid() && 0 < room == buf.Room()
    modifies reader, buf
    ensures buf.Valid()
    ensures buf.Filled() == old(buf.Filled()) + chunk && chunk + reader.input == old(reader.input)
    ensures if p.Done? then p.value == |chunk| else chunk == []
    ensures p.Done? && p.value == 0 ==> reader.input == []
    ensures reader.stalls == if p.Pending? then old(reader.stalls) + 1 else old(reader.stalls)
    ensures p.Broken? ==> p.error == Io
    ensures reader.faults == if p.Broken? then old(reader.faults) + 1 else old(reader.faults)
  {
    chunk := [];
    var got := reader.PollRead(room);
    match got {
      case Pending =>
        ReleaseEmpty(buf);
        p := Pending;
      case Broken(e) =>
        p := Broken(e);
      case Done(bytes) =>
        chunk := bytes;
        buf.Scribble(bytes);
        assert buf.spare[..|bytes|] == bytes;
        var committed := buf.Commit(|bytes|);
        p := Done(|bytes|);
    }
  }

  /** What filling the batch comes to: go on, write what there is, or report a result at once. */
  datatype Filling = More | Stop | Report(result: Poll<()>)

  /** The pump from a Snell reader to a local writer. */
  class Receiver {
    const reader: Source
    const writer: Sink
    const decoder: Decoder
    const host: Host
    const recv: Buffer
    const batch: DecodeBatch
    var shuttingDown: bool
    /** How the stream is parsed, and where the pump starts: decoder state, bytes to come, and output. */
    ghost const drain: Drainer
    ghost const first: Dec
    ghost const stream: Bytes
    ghost const before: Bytes
    /** Records decoded so far, and the error decoding stopped with. */
    ghost var items: seq<Item>
    ghost var failed: Option<Error>

    /** The batch holds the records in the first `upTo` live bytes; all plaintext is written or in it, in order. */
    ghost predicate Owes(filled: Bytes, upTo: nat)
      reads this`items, batch`records, batch`len, batch`written, writer
    {
      && batch.Valid()
      && Consumed(batch.Live()) == upTo <= |filled|
      && Within(batch.Live(), upTo)
      && batch.written <= |Plain(batch.Live(), filled)|
      && before + Texts(items) == writer.output + Plain(batch.Live(), filled)[batch.written..]
    }

    /** The wire bytes not yet decoded. */
    ghost function Rest(): Bytes
      requires recv.Valid() && decoder.pending <= |recv.Filled()|
      reads recv, decoder, reader
    {
      decoder.Ahead(recv) + reader.input
    }

    ghost predicate InPhase(rest: Bytes)
      reads this, batch
    {
      if shuttingDown then
        && batch.len == 0 && batch.end == None && failed == None
        && (Closed(items) || (Open(items) && rest == []))
      else
        match batch.end
        case None => Open(items)
        case Some(Ok(_)) => Closed(items) && failed == None && batch.len > 0
        case Some(Err(e)) => Open(items) && failed == Some(e) && batch.len > 0
    }

    ghost predicate Valid()
      reads this, reader, writer, decoder, recv, batch
    {
      && decoder.Valid() && recv.Valid() && recv.max <= LARGEST_CLASS
      && Owes(recv.Filled(), decoder.pending)
      && Yielded(drain, first, stream, items, decoder.View(), Rest(), failed)
      && InPhase(Rest())
    }

    /** The stream is parsed as the decoder does. */
    ghost predicate Tied() { drain == DrainerOf(RecordParser(decoder.suite, decoder.format, recv.max)) }

    /** No error has been reported; one may be waiting behind the batch. */
    ghost predicate Running()
      reads this, batch
    {
      failed.Some? ==> batch.end.Some?
    }

    /** Faults met by the sockets and the host so far. */
    ghost function Faults(): nat
      reads reader, writer, host
    {
      reader.faults + writer.faults + host.faults
    }

    /** The counters have not gone below the given values. */
    ghost predicate Since(r0: nat, w0: nat, f0: nat)
      reads reader, writer, host
    {
      reader.stalls >= r0 && writer.stalls >= w0 && Faults() >= f0
    }

    constructor (reader: Source, writer: Sink, decoder: Decoder, host: Host, recv: Buffer)
      requires decoder.Valid() && recv.Valid() && recv.max <= LARGEST_CLASS && decoder.pending == 0
      ensures Valid() && Tied() && Running() && !shuttingDown && items == []
      ensures this.reader == reader && this.writer == writer && this.decoder == decoder && this.recv == recv
      ensures this.host == host
      ensures first == decoder.View() && stream == recv.Filled() + reader.input && before == writer.output
      ensures fresh(batch)
    {
      this.reader, this.writer, this.decoder, this.host, this.recv := reader, writer, decoder, host, recv;
      batch := new DecodeBatch();
      shuttingDown := false;
      drain := DrainerOf(RecordParser(decoder.suite, decoder.format, recv.max));
      first, stream, before := decoder.View(), recv.Filled() + reader.input, writer.output;
      items, failed := [], None;
      new;
      assert decoder.Ahead(recv) == recv.Filled();
      EmptyThen(drain(first, stream));
    }

    /** Enter a record just decoded behind the batch. */
    method Take(record: DecodedRecord, ghost item: Item, ghost was: Bytes, ghost at: nat)
      requires recv.Valid() && Owes(was, at) && batch.len < WRITE_BATCH_MAX
      requires |recv.Filled()| == |was| && recv.Filled()[..at] == was[..at]
      requires decoder.pending == at + record.consumed <= |was|
      requires record.from <= record.to <= decoder.pending
      requires recv.Filled()[record.from..record.to] == item.plain
      modifies this`items, batch`records, batch`len
      ensures Owes(recv.Filled(), decoder.pending)
      ensures items == old(items) + [item] && batch.len == old(batch.len) + 1
    {
      ghost var live, filled := batch.Live(), recv.Filled();
      PlainKept(live, was, filled, at);
      ghost var plain := Plain(live, was);
      batch.Push(record);
      TakeWithin(live, batch.Live(), at, decoder.pending);
      PlainAppends(live, batch.Live(), filled, item.plain);
      TextsAppend(items, item);
      TakeTexts(before, Texts(items), writer.output, plain, batch.written, item.plain);
      items := items + [item];
    }

    /** The parse at the end of the batch came out as `status`, and the decoder answered `out`. */
    ghost predicate Next(status: Status, out: Result<DecodeStatus>, was: Bytes, at: nat)
      reads this, decoder, recv, reader
    {
      && decoder.Valid() && recv.Valid() && decoder.pending <= |recv.Filled()|
      && decoder.Answers(status, out, was, at, recv.Filled())
      && (status.NeedMore? ==> |was| - at < status.minimum <= recv.max)
      && (status.Parsed? ==> HEADER_CIPHER_LEN <= status.len)
      && match status
         case NeedMore(_, _) =>
           && Yielded(drain, first, stream, items, decoder.View(), Rest(), None)
           && Stuck(drain, decoder.View(), decoder.Ahead(recv))
         case Failed(e) => Yielded(drain, first, stream, items, decoder.View(), Rest(), Some(e))
         case Parsed(_, item, _) => Yielded(drain, first, stream, items + [item], decoder.View(), Rest(), None)
    }

    /** Decode the record behind the batch. */
    method DecodeNext() returns (out: Result<DecodeStatus>, ghost status: Status)
      requires Valid() && Tied() && failed == None
      modifies decoder, recv
      ensures Next(status, out, old(recv.Filled()), old(decoder.pending))
      ensures status.Parsed? ==> |Rest()| < |old(Rest())|
      ensures !status.Parsed? ==> decoder.pending == old(decoder.pending)
      ensures status.NeedMore? ==> Rest() == old(Rest())
    {
      ghost var was, at, x, y := recv.Filled(), decoder.pending, decoder.Ahead(recv), reader.input;
      ghost var parser := RecordParser(decoder.suite, decoder.format, recv.max);
      status := parser(decoder.View(), x);
      RecordsIncremental(decoder.suite, decoder.format, recv.max);
      YieldsStatus(parser, first, stream, items, decoder.View(), x, y, drain);
      out := decoder.Decode(recv);
      if status.Parsed? {
        assert decoder.Ahead(recv) == x[status.len..];
      }
    }

    /** All plaintext decoded so far has been written. */
    ghost predicate Settled()
      reads this`items, writer
    {
      writer.output == before + Texts(items)
    }

    /** The stream ended inside a record, and everything before it is written. */
    ghost predicate CutShort(e: Error)
      reads this, reader, writer, decoder, recv
    {
      && e == UnexpectedEof && failed == None && Settled()
      && recv.Valid() && decoder.pending <= |recv.Filled()|
      && Rest() != [] && Stuck(drain, decoder.View(), Rest())
    }

    /** An error may be reported: that of a socket or the host, or the stream's own once all before it is written. */
    ghost predicate Fair(e: Error, f0: nat)
      reads this, reader, writer, host, decoder, recv
    {
      (e == Io && Faults() > f0) || CutShort(e) || (failed == Some(e) && Settled())
    }

    /** More of the batch could be filled. */
    ghost predicate Filling()
      reads this, batch
    {
      !shuttingDown && failed == None && batch.end == None && batch.len < WRITE_BATCH_MAX
    }

    /** What keeps a pump from finishing: a peer made it wait, or an error that may be reported. */
    ghost predicate Held(r: Poll<()>, r0: nat, w0: nat, f0: nat)
      reads this, reader, writer, host, decoder, recv, batch
    {
      match r
      case Pending => Running() && (reader.stalls > r0 || writer.stalls > w0)
      case Broken(e) => Fair(e, f0)
      case Done(_) => false
    }

    /** What a turn of filling leaves behind. */
    ghost predicate Outcome(o: Filling, r0: nat, w0: nat, f0: nat)
      reads this, reader, writer, host, decoder, recv, batch
    {
      match o
      case More => Filling()
      case Stop => Running() && if shuttingDown then batch.len == 0 else batch.len > 0
      case Report(r) => Held(r, r0, w0, f0)
    }

    lemma OwesNothing(filled: Bytes, upTo: nat)
      requires Owes(filled, upTo) && batch.len == 0
      ensures upTo == 0 && batch.written == 0 && Settled()
    {
      assert batch.Live() == [];
      var none: Bytes := [];
      assert none[batch.written..] == [];
      assert writer.output + [] == writer.output;
    }

    lemma NothingOwed(filled: Bytes)
      requires batch.Valid() && batch.len == 0 && batch.written == 0 && Settled()
      ensures Owes(filled, 0)
    {
      assert batch.Live() == [];
      var none: Bytes := [];
      assert none[0..] == [];
      assert writer.output + [] == writer.output;
    }

    /** Consume the only record handed out. */
    method DropRecord(record: DecodedRecord)
      requires decoder.Valid() && recv.Valid() && decoder.pending == record.consumed <= |recv.Filled()|
      modifies decoder`pending, recv
      ensures decoder.Valid() && recv.Valid() && decoder.pending == 0
      ensures Rest() == old(Rest())
    {
      var consumed := decoder.Consume(recv, record);
    }

    /** Read behind the live bytes: whatever arrives, the bytes still to be decoded are the same. */
    method Refill(minimum: nat) returns (p: Poll<nat>)
      requires recv.Valid() && decoder.pending == 0 && |recv.Filled()| < minimum <= recv.max <= LARGEST_CLASS
      modifies reader, recv, host
      ensures recv.Valid() && Rest() == old(Rest())
      ensures p.Done? && p.value > 0 ==> |reader.input| < |old(reader.input)|
      ensures p.Done? && p.value == 0 ==> reader.input == [] && decoder.Ahead(recv) == old(decoder.Ahead(recv))
      ensures p.Broken? ==> p.error == Io && Faults() > old(Faults())
      ensures reader.stalls == if p.Pending? then old(reader.stalls) + 1 else old(reader.stalls)
      ensures Faults() >= old(Faults())
    {
      ghost var filled := recv.Filled();
      assert decoder.Ahead(recv) == filled;
      ghost var chunk := [];
      p, chunk := PollReadInto(reader, recv, minimum, READ_WINDOW, host);
      assert decoder.Ahead(recv) == recv.Filled();
      Associates(filled, chunk, reader.input);
      assert chunk == [] ==> filled + chunk == filled;
    }

    /** A zero chunk with nothing in front of it: consume it and end. */
    method FinishNow(record: DecodedRecord, ghost item: Item)
      requires decoder.Valid() && recv.Valid() && decoder.pending == record.consumed <= |recv.Filled()|
      requires batch.Valid() && batch.len == 0 && batch.written == 0 && Settled() && batch.end == None
      requires item == Item([], ZeroChunk) && failed == None && Open(items)
      requires recv.max <= LARGEST_CLASS
      requires Yielded(drain, first, stream, items + [item], decoder.View(), Rest(), None)
      modifies this`items, this`shuttingDown, decoder`pending, recv
      ensures Valid() && shuttingDown && Rest() == old(Rest())
    {
      ghost var rest := Rest();
      DropRecord(record);
      EndItems(items, item);
      items := items + [item];
      shuttingDown := true;
      NothingOwed(recv.Filled());
      assert InPhase(rest);
    }

    /** What a decoded record brings with it. */
    lemma Unpack(record: DecodedRecord, status: Status, was: Bytes, at: nat)
      requires Next(status, Ok(Ready(record)), was, at) && status.Parsed?
      ensures |recv.Filled()| == |was| && at <= |was| && recv.Filled()[..at] == was[..at]
      ensures decoder.pending == at + record.consumed <= |was|
      ensures record.from <= record.to <= decoder.pending
      ensures recv.Filled()[record.from..record.to] == status.item.plain
      ensures record.kind == status.item.kind && (record.kind == ZeroChunk ==> status.item.plain == [])
    {
    }

    /** A record behind a batch that has room for it. */
    method Append(record: DecodedRecord, ghost item: Item, ghost was: Bytes, ghost at: nat)
      requires decoder.Valid() && recv.Valid() && recv.max <= LARGEST_CLASS && decoder.pending <= |recv.Filled()|
      requires Yielded(drain, first, stream, items + [item], decoder.View(), Rest(), None)
      requires Owes(was, at) && Filling() && Open(items) && item.kind == record.kind
      requires |recv.Filled()| == |was| && recv.Filled()[..at] == was[..at]
      requires decoder.pending == at + record.consumed
      requires record.from <= record.to <= decoder.pending
      requires recv.Filled()[record.from..record.to] == item.plain
      requires record.kind == ZeroChunk ==> batch.len > 0
      modifies this`items, batch`records, batch`len, batch`end
      ensures Valid() && !shuttingDown && failed == None && batch.len == old(batch.len) + 1
      ensures batch.end == if record.kind == ZeroChunk then Some(Ok(())) else None
    {
      NextItems(items, item);
      Take(record, item, was, at);
      MarkEnd(record.kind == ZeroChunk);
    }

    /** A zero chunk at the end of the batch ends it. */
    method MarkEnd(ended: bool)
      requires decoder.Valid() && recv.Valid() && recv.max <= LARGEST_CLASS && Owes(recv.Filled(), decoder.pending)
      requires Yielded(drain, first, stream, items, decoder.View(), Rest(), None)
      requires !shuttingDown && failed == None && batch.end == None && batch.len > 0
      requires if ended then Closed(items) else Open(items)
      modifies batch`end
      ensures Valid() && batch.end == if ended then Some(Ok(())) else None
    {
      if ended {
        batch.end := Some(Ok(()));
      }
    }

    method OnRecord(record: DecodedRecord, ghost status: Status, ghost was: Bytes, ghost at: nat,
                    ghost r0: nat, ghost w0: nat, ghost f0: nat) returns (o: Filling)
      requires Next(status, Ok(Ready(record)), was, at) && status.Parsed?
      requires recv.max <= LARGEST_CLASS && Owes(was, at) && Filling() && Open(items)
      modifies this`items, this`shuttingDown, decoder`pending, recv, batch`records, batch`len, batch`end
      ensures Valid() && Rest() == old(Rest()) && !o.Report? && Outcome(o, r0, w0, f0)
    {
      Unpack(record, status, was, at);
      if record.kind == ZeroChunk && batch.len == 0 {
        OwesNothing(was, at);
        FinishNow(record, status.item);
        return Stop;
      }
      Append(record, status.item, was, at);
      o := if record.kind == ZeroChunk || batch.len == WRITE_BATCH_MAX then Stop else More;
    }

    /** A decoding error waits until the records before it are written. */
    method OnError(e: Error, ghost status: Status, ghost was: Bytes, ghost at: nat,
                   ghost r0: nat, ghost w0: nat, ghost f0: nat) returns (o: Filling)
      requires Next(status, Err(e), was, at) && status.Failed?
      requires recv.max <= LARGEST_CLASS && Owes(was, at) && !shuttingDown && batch.end == None
      requires failed == None && Open(items)
      modifies this`failed, batch`end
      ensures Valid() && !o.More? && Outcome(o, r0, w0, f0)
    {
      PlainKept(batch.Live(), was, recv.Filled(), at);
      failed := Some(e);
      if batch.len == 0 {
        OwesNothing(was, at);
        return Report(Broken(e));
      }
      batch.end := Some(Err(e));
      o := Stop;
    }

    /** The input has ended: cleanly if nothing of a record is there. */
    method AtEnd(ghost r0: nat, ghost w0: nat, ghost f0: nat) returns (o: Filling)
      requires Valid() && !shuttingDown && failed == None && batch.len == 0 && batch.end == None && Settled()
      requires decoder.pending == 0 && reader.input == [] && Stuck(drain, decoder.View(), decoder.Ahead(recv))
      modifies this`shuttingDown
      ensures Valid() && !o.More? && Outcome(o, r0, w0, f0)
    {
      assert decoder.Ahead(recv) + [] == decoder.Ahead(recv) == recv.Filled();
      if recv.start == |recv.storage| {
        shuttingDown := true;
        return Stop;
      }
      o := Report(Broken(UnexpectedEof));
    }

    /** Nothing decoded is waiting: read until at least one more byte is there, or the stream has ended. */
    method ReadMore(minimum: nat, ghost r0: nat, ghost w0: nat, ghost f0: nat) returns (o: Filling)
      requires Valid() && !shuttingDown && failed == None && batch.len == 0 && batch.end == None && Since(r0, w0, f0)
      requires |recv.Filled()| < minimum <= recv.max && Stuck(drain, decoder.View(), decoder.Ahead(recv))
      modifies this`shuttingDown, reader, recv, host
      ensures Valid() && |Rest()| == |old(Rest())| && Outcome(o, r0, w0, f0) && Since(r0, w0, f0)
      ensures o.More? ==> |reader.input| < |old(reader.input)|
    {
      OwesNothing(recv.Filled(), decoder.pending);
      var p := Refill(minimum);
      NothingOwed(recv.Filled());
      match p {
        case Pending =>
          o := Report(Pending);
        case Broken(e) =>
          o := Report(Broken(e));
        case Done(n) =>
          if n > 0 {
            o := More;
          } else {
            o := AtEnd(r0, w0, f0);
          }
      }
    }

    /** The next record is not all there: write what is decoded before reading more. */
    method OnWait(minimum: nat, ghost status: Status, ghost was: Bytes, ghost at: nat,
                  ghost r0: nat, ghost w0: nat, ghost f0: nat) returns (o: Filling)
      requires Next(status, Ok(Wait(minimum)), was, at) && status.NeedMore? && Since(r0, w0, f0)
      requires recv.max <= LARGEST_CLASS && Owes(was, at) && Filling() && Open(items)
      modifies this`shuttingDown, reader, recv, host
      ensures Valid() && |Rest()| == |old(Rest())| && Outcome(o, r0, w0, f0) && Since(r0, w0, f0)
      ensures o.More? ==> |reader.input| < |old(reader.input)|
    {
      if batch.len > 0 {
        return Stop;
      }
      OwesNothing(was, at);
      o := ReadMore(minimum, r0, w0, f0);
    }

    /** What the decoder's answer means for filling the batch. */
    method OnAnswer(out: Result<DecodeStatus>, ghost status: Status, ghost was: Bytes, ghost at: nat,
                    ghost r0: nat, ghost w0: nat, ghost f0: nat) returns (o: Filling)
      requires Next(status, out, was, at) && Owes(was, at) && Filling() && Open(items)
      requires recv.max <= LARGEST_CLASS && Since(r0, w0, f0)
      modifies this, reader, host, decoder, recv, batch`records, batch`len, batch`end
      ensures Valid() && Outcome(o, r0, w0, f0) && Since(r0, w0, f0)
      ensures |Rest()| == |old(Rest())|
      ensures o.More? && !status.Parsed? ==> |reader.input| < |old(reader.input)|
      ensures batch.len > 0 && old(batch.len) == 0 ==> status.Parsed?
    {
      if out.Err? {
        o := OnError(out.error, status, was, at, r0, w0, f0);
        return;
      }
      match out.value {
        case Ready(record) =>
          o := OnRecord(record, status, was, at, r0, w0, f0);
        case Wait(minimum) =>
          o := OnWait(minimum, status, was, at, r0, w0, f0);
      }
    }

    /** One turn of filling the batch. */
    method FillStep(ghost r0: nat, ghost w0: nat, ghost f0: nat) returns (o: Filling)
      requires Valid() && Tied() && Filling() && Since(r0, w0, f0)
      modifies this, reader, host, decoder, recv, batch`records, batch`len, batch`end
      ensures Valid() && Outcome(o, r0, w0, f0) && Since(r0, w0, f0)
      ensures |Rest()| <= |old(Rest())|
      ensures o.More? && |Rest()| == |old(Rest())| ==> |reader.input| < |old(reader.input)|
      ensures batch.len > 0 && old(batch.len) == 0 ==> |Rest()| < |old(Rest())|
    {
      ghost var was, at := recv.Filled(), decoder.pending;
      var out;
      ghost var status;
      out, status := DecodeNext();
      o := OnAnswer(out, status, was, at, r0, w0, f0);
    }

    /** Decode ahead until the batch is full, the stream ends or has to be waited for. */
    method FillBatch(ghost r0: nat, ghost w0: nat, ghost f0: nat) returns (r: Option<Poll<()>>)
      requires Valid() && Tied() && Filling() && batch.len == 0 && Since(r0, w0, f0)
      modifies this, reader, host, decoder, recv, batch`records, batch`len, batch`end
      ensures Valid() && Since(r0, w0, f0)
      ensures r.None? ==> Running() && if shuttingDown then batch.len == 0 else batch.len > 0 && |Rest()| < |old(Rest())|
      ensures r.Some? ==> Held(r.value, r0, w0, f0)
    {
      var o := More;
      while o.More?
        invariant Valid() && Outcome(o, r0, w0, f0) && Since(r0, w0, f0)
        invariant |Rest()| <= |old(Rest())|
        invariant batch.len > 0 ==> |Rest()| < |old(Rest())|
        decreases o.More?, |Rest()|, |reader.input|
      {
        o := FillStep(r0, w0, f0);
      }
      r := if o.Report? then Some(o.result) else None;
    }

    /** Write the batch; when all of it is out, so is all plaintext. */
    method WriteBatch() returns (p: Poll<()>)
      requires Valid()
      modifies writer`output, writer`stalls, writer`faults, batch`written
      ensures Valid()
      ensures writer.stalls == if p.Pending? then old(writer.stalls) + 1 else old(writer.stalls)
      ensures p.Done? ==> Settled()
      ensures if p.Broken? then p.error == Io && writer.faults > old(writer.faults) else writer.faults == old(writer.faults)
    {
      ghost var all, from := Plain(batch.Live(), recv.Filled()), batch.written;
      p := batch.PollWrite(writer, recv.Filled());
      WriteOwes(before + Texts(items), old(writer.output), all, from, batch.written);
    }

    /** Consume a written batch, and end the stream or report the error that waited behind it. */
    method ConsumeBatch() returns (r: Result<bool>)
      requires Valid() && Running() && !shuttingDown && batch.len > 0 && Settled()
      modifies this`shuttingDown, decoder`pending, recv, batch
      ensures Valid() && batch.len == 0 && Rest() == old(Rest())
      ensures r.Ok? ==> Running() && shuttingDown == r.value
      ensures r.Err? ==> failed == Some(r.error) && Settled()
    {
      ghost var rest := Rest();
      r := batch.Consume(decoder, recv);
      NothingOwed(recv.Filled());
      shuttingDown := r.Ok? && r.value;
      assert Rest() == rest;
    }

    /** Write the batch, as far as the writer lets it. */
    method WriteOut(ghost r0: nat, ghost w0: nat, ghost f0: nat) returns (r: Option<Poll<()>>)
      requires Valid() && Running() && Since(r0, w0, f0)
      modifies writer`output, writer`stalls, writer`faults, batch`written
      ensures Valid() && Since(r0, w0, f0)
      ensures r.None? ==> Settled()
      ensures r.Some? ==> Held(r.value, r0, w0, f0)
    {
      var written := WriteBatch();
      r := if written.Done? then None else Some(written);
    }

    /** Consume it, once written. */
    method WrapUp(ghost r0: nat, ghost w0: nat, ghost f0: nat) returns (r: Option<Poll<()>>)
      requires Valid() && Running() && !shuttingDown && batch.len > 0 && Settled() && Since(r0, w0, f0)
      modifies this`shuttingDown, decoder`pending, recv, batch
      ensures Valid() && Rest() == old(Rest())
      ensures r.None? ==> Running() && batch.len == 0
      ensures r.Some? ==> Held(r.value, r0, w0, f0)
    {
      var ended := ConsumeBatch();
      r := if ended.Err? then Some(Broken(ended.error)) else None;
    }

    /** Write the batch and consume it. */
    method Deliver(ghost r0: nat, ghost w0: nat, ghost f0: nat) returns (r: Option<Poll<()>>)
      requires Valid() && Running() && !shuttingDown && batch.len > 0 && Since(r0, w0, f0)
      modifies this`shuttingDown, writer`output, writer`stalls, writer`faults, decoder`pending, recv, batch
      ensures Valid() && Rest() == old(Rest()) && Since(r0, w0, f0)
      ensures r.None? ==> Running() && batch.len == 0
      ensures r.Some? ==> Held(r.value, r0, w0, f0)
    {
      r := WriteOut(r0, w0, f0);
      if r.None? {
        r := WrapUp(r0, w0, f0);
      }
    }

    /** One turn of the pump: a result, or strictly closer to one. */
    method Turn(ghost r0: nat, ghost w0: nat, ghost f0: nat) returns (r: Option<Poll<()>>)
      requires Valid() && Tied() && Running() && !shuttingDown && Since(r0, w0, f0)
      modifies this, reader, host, writer`output, writer`stalls, writer`faults, decoder, recv, batch
      ensures Valid() && Since(r0, w0, f0)
      ensures r.None? ==> Running() && (shuttingDown || |Rest()| < |old(Rest())|
                                        || (|Rest()| == |old(Rest())| && old(batch.len) > 0 && batch.len == 0))
      ensures r.Some? ==> Held(r.value, r0, w0, f0)
    {
      if batch.len == 0 {
        r := FillBatch(r0, w0, f0);
      } else {
        r := Deliver(r0, w0, f0);
      }
    }

    /** Everything up to the stream's end is written: its zero chunk, or the end of input at a record boundary. */
    ghost predicate Complete()
      requires recv.Valid() && decoder.pending <= |recv.Filled()|
      reads this, reader, writer, decoder, recv
    {
      && Settled()
      && Yielded(drain, first, stream, items, decoder.View(), Rest(), None)
      && (Closed(items) || (Open(items) && Rest() == []))
    }

    /** What a poll may answer, counting stalls and faults from `r0`, `w0` and `f0`. */
    ghost predicate Answer(r: Poll<()>, r0: nat, w0: nat, f0: nat)
      reads this, reader, writer, host, decoder, recv, batch
    {
      if r.Done? then recv.Valid() && decoder.pending <= |recv.Filled()| && Complete() else Held(r, r0, w0, f0)
    }

    method Close(ghost r0: nat, ghost w0: nat, ghost f0: nat) returns (r: Poll<()>)
      requires Valid() && shuttingDown && Since(r0, w0, f0)
      modifies writer`closed, writer`stalls, writer`faults, recv
      ensures Valid() && Answer(r, r0, w0, f0) && Since(r0, w0, f0)
      ensures writer.closed == if r.Done? then old(writer.closed) + 1 else old(writer.closed)
    {
      OwesNothing(recv.Filled(), decoder.pending);
      ReleaseEmpty(recv);
      r := writer.PollShutdown();
    }

    method RunTurns(ghost r0: nat, ghost w0: nat, ghost f0: nat) returns (result: Option<Poll<()>>)
      requires Valid() && Tied() && Running() && Since(r0, w0, f0)
      modifies this, reader, host, writer`output, writer`stalls, writer`faults, decoder, recv, batch
      ensures Valid() && Since(r0, w0, f0)
      ensures result.None? ==> Running() && shuttingDown
      ensures result.Some? ==> Held(result.value, r0, w0, f0)
    {
      result := None;
      while !shuttingDown && result.None?
        invariant Valid() && Since(r0, w0, f0) && (result.None? ==> Running())
        invariant result.Some? ==> Held(result.value, r0, w0, f0)
        decreases result.None? && !shuttingDown, |Rest()|, batch.len > 0
      {
        result := Turn(r0, w0, f0);
      }
    }

    /**
      * One poll of the pump. Success means the plaintext up to the zero chunk,
      * or up to a clean end of input, is all written and the writer shut down
      * once; an error of the stream is reported only when everything before it
      * is written, and any other only when a socket or the host failed; and the
      * pump waits only when a peer made it wait.
      */
    method Poll() returns (r: Poll<()>)
      requires Valid() && Tied() && Running()
      modifies this, reader, host, writer, decoder, recv, batch
      ensures Valid() && Answer(r, old(reader.stalls), old(writer.stalls), old(Faults()))
      ensures Since(old(reader.stalls), old(writer.stalls), old(Faults()))
      ensures writer.closed == if r.Done? then old(writer.closed) + 1 else old(writer.closed)
    {
      var result := RunTurns(reader.stalls, writer.stalls, Faults());
      if result.Some? {
        return result.value;
      }
      r := Close(old(reader.stalls), old(writer.stalls), old(Faults()));
    }
  }

  lemma WriteOwes(total: Bytes, out: Bytes, all: Bytes, from: nat, to: nat)
    requires from <= to <= |all| && total == out + all[from..]
    ensures total == (out + all[from..to]) + all[to..]
    ensures to == |all| ==> total == out + all[from..to]
  {
    assert all[from..] == all[from..to] + all[to..];
    Associates(out, all[from..to], all[to..]);
    if to == |all| {
      assert all[from..to] == all[from..];
    }
  }

  lemma NextItems(items: seq<Item>, item: Item)
    requires Open(items)
    ensures if item.kind == ZeroChunk then Closed(items + [item]) else Open(items + [item])
  {
    var all := items + [item];
    assert all[..|all| - 1] == items;
  }

  lemma EndItems(items: seq<Item>, item: Item)
    requires Open(items) && item == Item([], ZeroChunk)
    ensures Closed(items + [item]) && Texts(items + [item]) == Texts(items)
  {
    NextItems(items, item);
    TextsAppend(items, item);
    assert Texts(items) + [] == Texts(items);
  }

  lemma TakeWithin(live: seq<DecodedRecord>, next: seq<DecodedRecord>, at: nat, upTo: nat)
    requires Within(live, at) && at <= upTo
    requires next != [] && Front(next) == live
    requires next[|next| - 1].from <= next[|next| - 1].to <= upTo
    ensures Within(next, upTo)
  {
    forall i | 0 <= i < |next|
      ensures next[i].from <= next[i].to <= upTo
    {
      if i < |live| {
        assert next[i] == live[i];
      }
    }
  }

  lemma TakeTexts(before: Bytes, texts: Bytes, out: Bytes, plain: Bytes, written: nat, text: Bytes)
    requires written <= |plain|
    requires before + texts == out + plain[written..]
    ensures before + (texts + text) == out + (plain + text)[written..]
  {
    assert (plain + text)[written..] == plain[written..] + text;
    assert before + (texts + text) == (before + texts) + text;
  }
}
