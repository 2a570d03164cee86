/**
  * Any schedule of a decoder over one buffer: bytes arrive in pieces of any
  * size, records are decoded ahead of being consumed, and consumed oldest
  * first.
  */
module Schedules {
  import opened Buffers
  import opened Decoders
  import opened Protocol
  import opened Records
  import opened Streams

  datatype Move = Receive(n: nat) | DecodeNext | ConsumeOldest

  /** A record handed out, and how many bytes had been consumed before it was. */
  datatype Held = Held(record: DecodedRecord, base: nat)

  // ---- Records outstanding ----

  /** The record's plaintext is where it says, in bytes that start at stream position `at`. */
  ghost predicate Readable(h: Held, item: Item, at: nat, bytes: Bytes)
  {
    var lo, hi := h.base + h.record.from - at, h.base + h.record.to - at;
    && h.record.kind == item.kind
    && match item.kind
       case ZeroChunk => item.plain == []
       case Data => 0 <= lo <= hi <= |bytes| && bytes[lo..hi] == item.plain
  }

  lemma ReadableInFront(h: Held, item: Item, at: nat, bytes: Bytes, n: nat)
    requires n <= |bytes| && Readable(h, item, at, bytes[..n])
    ensures Readable(h, item, at, bytes)
  {
    if item.kind == Data {
      var lo, hi := h.base + h.record.from - at, h.base + h.record.to - at;
      assert bytes[..n][lo..hi] == bytes[lo..hi];
    }
  }

  lemma ReadableBehind(h: Held, item: Item, at: nat, bytes: Bytes, n: nat)
    requires n <= |bytes| && Readable(h, item, at + n, bytes[n..])
    ensures Readable(h, item, at, bytes)
  {
    if item.kind == Data {
      var lo, hi := h.base + h.record.from - at, h.base + h.record.to - at;
      assert bytes[n..][lo - n..hi - n] == bytes[lo..hi];
    }
  }

  type Teller = (Held, Item, nat, Bytes) -> bool

  ghost function ReadableTeller(): Teller
  {
    (h: Held, item: Item, at: nat, bytes: Bytes) => Readable(h, item, at, bytes)
  }

  /** The outstanding records lie end to end in `front`, which starts at stream position `at`. */
  ghost predicate Outstanding(ok: Teller, queue: seq<Held>, items: seq<Item>, at: nat, front: Bytes)
  {
    if queue == [] || items == [] then queue == [] && items == [] && front == []
    else
      var n := queue[0].record.consumed;
      && n <= |front|
      && ok(queue[0], items[0], at, front[..n])
      && Outstanding(ok, queue[1..], items[1..], at + n, front[n..])
  }

  type Ledger = (seq<Held>, seq<Item>, nat, Bytes) -> bool

  ghost function LedgerOf(): Ledger
  {
    (queue: seq<Held>, items: seq<Item>, at: nat, front: Bytes) =>
      Outstanding(ReadableTeller(), queue, items, at, front)
  }

  predicate Says(ledger: Ledger, told: Ledger, queue: seq<Held>, items: seq<Item>, at: nat, front: Bytes)
  {
    ledger(queue, items, at, front) == told(queue, items, at, front)
  }

  /** The ledger tells what is outstanding. */
  ghost predicate Genuine(ledger: Ledger)
  {
    forall queue, items, at, front :: Says(ledger, LedgerOf(), queue, items, at, front)
  }

  lemma Told(ledger: Ledger, queue: seq<Held>, items: seq<Item>, at: nat, front: Bytes)
    requires Genuine(ledger)
    ensures ledger(queue, items, at, front) == Outstanding(ReadableTeller(), queue, items, at, front)
  {
    assert Says(ledger, LedgerOf(), queue, items, at, front);
  }

  lemma {:induction false} OutstandingAppend(ok: Teller, queue: seq<Held>, items: seq<Item>, at: nat, front: Bytes,
                                             h: Held, item: Item, segment: Bytes)
    requires Outstanding(ok, queue, items, at, front)
    requires h.record.consumed == |segment| && ok(h, item, at + |front|, segment)
    ensures Outstanding(ok, queue + [h], items + [item], at, front + segment)
  {
    if queue == [] {
      assert front + segment == segment && segment[..|segment|] == segment;
      assert [h][1..] == [] && [item][1..] == [] && segment[|segment|..] == [];
    } else {
      var n, longer, more, bytes := queue[0].record.consumed, queue + [h], items + [item], front + segment;
      OutstandingAppend(ok, queue[1..], items[1..], at + n, front[n..], h, item, segment);
      assert longer[0] == queue[0] && longer[1..] == queue[1..] + [h];
      assert more[0] == items[0] && more[1..] == items[1..] + [item];
      assert bytes[..n] == front[..n] && bytes[n..] == front[n..] + segment;
    }
  }

  /** Each outstanding record can still be read, shifted by what was consumed since. */
  lemma {:induction false} StillReadable(queue: seq<Held>, items: seq<Item>, at: nat, front: Bytes, i: nat)
    requires Outstanding(ReadableTeller(), queue, items, at, front) && i < |queue|
    ensures i < |items| && Readable(queue[i], items[i], at, front)
  {
    var n := queue[0].record.consumed;
    if i == 0 {
      ReadableInFront(queue[0], items[0], at, front, n);
    } else {
      StillReadable(queue[1..], items[1..], at + n, front[n..], i - 1);
      ReadableBehind(queue[i], items[i], at, front, n);
    }
  }

  /** The records at the end of `items` that a queue of that length holds. */
  function Latest(items: seq<Item>, n: nat): seq<Item>
  {
    if n <= |items| then items[|items| - n..] else []
  }

  lemma LatestAppends(items: seq<Item>, n: nat, item: Item)
    requires n <= |items|
    ensures Latest(items + [item], n + 1) == Latest(items, n) + [item]
  {
    assert (items + [item])[|items| - n..] == items[|items| - n..] + [item];
  }

  lemma SubSlice(s: Bytes, a: nat, b: nat, lo: nat, hi: nat)
    requires a <= lo <= hi <= b <= |s|
    ensures s[a..b][lo - a..hi - a] == s[lo..hi]
  {
    var t := s[a..b];
    forall k | 0 <= k < hi - lo
      ensures t[lo - a..hi - a][k] == s[lo..hi][k]
    {
      assert t[lo - a + k] == s[lo + k];
    }
  }

  /** A record can be read in the bytes it was decoded from. */
  lemma ReadableNew(record: DecodedRecord, item: Item, consumed: nat, at: nat, after: Bytes)
    requires at + record.consumed <= |after|
    requires record.from <= record.to <= |after| && after[record.from..record.to] == item.plain
    requires record.kind == item.kind
    requires item.kind == ZeroChunk ==> record.from == record.to == 0
    requires item.kind == Data ==> at <= record.from && record.to <= at + record.consumed
    ensures Readable(Held(record, consumed), item, consumed + at, after[at..at + record.consumed])
  {
    if item.kind == Data {
      SubSlice(after, at, at + record.consumed, record.from, record.to);
    }
  }

  lemma OutstandingNew(queue: seq<Held>, items: seq<Item>, consumed: nat, at: nat, after: Bytes, h: Held, item: Item)
    requires at + h.record.consumed <= |after| && Outstanding(ReadableTeller(), queue, items, consumed, after[..at])
    requires Readable(h, item, consumed + at, after[at..at + h.record.consumed])
    ensures
      Outstanding(ReadableTeller(), queue + [h], items + [item], consumed, after[..at + h.record.consumed])
  {
    var front, segment := after[..at], after[at..at + h.record.consumed];
    OutstandingAppend(ReadableTeller(), queue, items, consumed, front, h, item, segment);
    assert front + segment == after[..at + h.record.consumed];
  }

  lemma LedgerNew(ledger: Ledger, queue: seq<Held>, items: seq<Item>, consumed: nat, at: nat, after: Bytes, h: Held,
                  item: Item)
    requires Genuine(ledger) && at + h.record.consumed <= |after| && ledger(queue, items, consumed, after[..at])
    requires Readable(h, item, consumed + at, after[at..at + h.record.consumed])
    ensures ledger(queue + [h], items + [item], consumed, after[..at + h.record.consumed])
  {
    Told(ledger, queue, items, consumed, after[..at]);
    OutstandingNew(queue, items, consumed, at, after, h, item);
    Told(ledger, queue + [h], items + [item], consumed, after[..at + h.record.consumed]);
  }

  /** A record decoded into the bytes from `at` on joins the queue. */
  lemma LedgerAppends(ledger: Ledger, queue: seq<Held>, items: seq<Item>, consumed: nat, at: nat, after: Bytes,
                      record: DecodedRecord, item: Item)
    requires Genuine(ledger) && |queue| <= |items| && at + record.consumed <= |after|
    requires ledger(queue, Latest(items, |queue|), consumed, after[..at])
    requires Readable(Held(record, consumed), item, consumed + at, after[at..at + record.consumed])
    ensures ledger(queue + [Held(record, consumed)], Latest(items + [item], |queue| + 1), consumed,
                   after[..at + record.consumed])
  {
    LedgerNew(ledger, queue, Latest(items, |queue|), consumed, at, after, Held(record, consumed), item);
    LatestAppends(items, |queue|, item);
  }

  /** The oldest record leaves it. */
  lemma LedgerDrops(ledger: Ledger, queue: seq<Held>, items: seq<Item>, consumed: nat, front: Bytes)
    requires Genuine(ledger) && 0 < |queue| <= |items| && ledger(queue, Latest(items, |queue|), consumed, front)
    ensures
      var n := queue[0].record.consumed;
      n <= |front| && ledger(queue[1..], Latest(items, |queue[1..]|), consumed + n, front[n..])
  {
    var n := queue[0].record.consumed;
    assert Says(ledger, LedgerOf(), queue, Latest(items, |queue|), consumed, front);
    assert Latest(items, |queue|)[1..] == Latest(items, |queue[1..]|);
    assert Says(ledger, LedgerOf(), queue[1..], Latest(items, |queue[1..]|), consumed + n, front[n..]);
  }

  // ---- A caller and its decoder ----

  /** A record at the front of `input` is at least `need` bytes long. */
  predicate LongEnough(p: Parser, d: Dec, input: Bytes, need: int)
  {
    p(d, input).Parsed? ==> need <= p(d, input).len
  }

  /** What a decoder asks for is more than there is, and never past the end of the record. */
  lemma AsksWithin(p: Parser, d: Dec, x: Bytes)
    requires Incremental(p) && Coherent(d) && p(d, x).NeedMore?
    ensures |x| < p(d, x).minimum
    ensures forall more :: LongEnough(p, p(d, x).after, x + more, p(d, x).minimum)
  {
    assert Extends(p, d, x, []);
    forall more
      ensures LongEnough(p, p(d, x).after, x + more, p(d, x).minimum)
    {
      assert Extends(p, d, x, more);
    }
  }

  lemma ArrivedBytes(was: Bytes, pending: nat, stream: Bytes, arrived: nat, take: nat)
    requires pending <= |was| && arrived + take <= |stream|
    ensures
      var filled := was + stream[arrived..arrived + take];
      && filled[pending..] + stream[arrived + take..] == was[pending..] + stream[arrived..]
      && filled[..pending] == was[..pending]
  {
    var chunk, rest := stream[arrived..arrived + take], stream[arrived + take..];
    assert (was + chunk)[pending..] == was[pending..] + chunk;
    assert chunk + rest == stream[arrived..];
    Associates(was[pending..], chunk, rest);
    assert (was + chunk)[..pending] == was[..pending];
  }

  class Caller {
    const decoder: Decoder
    const buf: Buffer
    /** Everything the peer will send. */
    const stream: Bytes
    var arrived: nat
    var consumed: nat
    var queue: seq<Held>
    var failed: Option<Error>
    /** Every record handed out. */
    ghost var items: seq<Item>
    ghost const first: Dec
    ghost const parser: Parser
    ghost const drain: Drainer
    ghost const ledger: Ledger

    ghost predicate Wired()
    {
      && parser == RecordParser(decoder.suite, decoder.format, buf.max) && drain == DrainerOf(parser)
      && Genuine(ledger)
    }

    /** Bytes the decoder has not parsed yet, here or still to come. */
    ghost function Rest(): Bytes
      requires buf.Valid() && decoder.pending <= |buf.Filled()| && arrived <= |stream|
      reads this`arrived, decoder, buf
    {
      decoder.Ahead(buf) + stream[arrived..]
    }

    /** Bytes of the records handed out. */
    ghost function Front(): Bytes
      requires buf.Valid() && decoder.pending <= |buf.Filled()|
      reads decoder, buf
    {
      buf.Filled()[..decoder.pending]
    }

    /** The records not consumed yet are the last ones handed out, and lie in `front`. */
    ghost predicate Holding(front: Bytes)
      reads this`queue, this`items, this`consumed
    {
      |queue| <= |items| && ledger(queue, Latest(items, |queue|), consumed, front)
    }

    ghost predicate Valid()
      reads this, decoder, buf
    {
      && Wired() && decoder.Valid() && buf.Valid() && decoder.pending <= |buf.Filled()| && arrived <= |stream|
      && Yielded(drain, first, stream, items, decoder.View(), Rest(), failed)
      && Holding(Front())
    }

    constructor (decoder: Decoder, buf: Buffer, stream: Bytes)
      requires decoder.Valid() && decoder.pending == 0 && buf.Valid() && buf.Filled() == []
      ensures Valid() && this.decoder == decoder && this.buf == buf && this.stream == stream
      ensures first == decoder.View() && items == [] && failed == None
    {
      this.decoder, this.buf, this.stream := decoder, buf, stream;
      arrived, consumed, queue, failed, items := 0, 0, [], None, [];
      first, parser, ledger := decoder.View(), RecordParser(decoder.suite, decoder.format, buf.max), LedgerOf();
      drain := DrainerOf(RecordParser(decoder.suite, decoder.format, buf.max));
      new;
      assert stream[0..] == stream && [] + stream == stream;
      EmptyThen(drain(first, stream));
      assert Says(ledger, LedgerOf(), [], [], 0, []);
    }

    /** As much of what comes next as was asked for and fits. */
    method Arrive(n: nat)
      requires Valid()
      modifies this`arrived, buf
      ensures Valid() && buf.Capacity() == old(buf.Capacity())
      ensures arrived == old(arrived) + Min(n, Min(|stream| - old(arrived), Max(buf.Limit() - |old(buf.Filled())|, 0)))
      ensures buf.Filled() == old(buf.Filled()) + stream[old(arrived)..arrived]
    {
      var room := Max(buf.Limit() - (|buf.storage| - buf.start), 0);
      Extend(Min(n, Min(|stream| - arrived, room)));
    }

    method Extend(take: nat)
      requires decoder.Valid() && buf.Valid() && decoder.pending <= |buf.Filled()|
      requires arrived + take <= |stream| && (take > 0 ==> |buf.Filled()| + take <= buf.Limit())
      modifies this`arrived, buf
      ensures buf.Valid() && buf.Capacity() == old(buf.Capacity()) && arrived == old(arrived) + take
      ensures buf.Filled() == old(buf.Filled()) + stream[old(arrived)..arrived]
      ensures decoder.pending <= |buf.Filled()| && Rest() == old(Rest()) && Front() == old(Front())
    {
      ArrivedBytes(buf.Filled(), decoder.pending, stream, arrived, take);
      var extended := buf.ExtendFromSlice(stream[arrived..arrived + take]);
      arrived := arrived + take;
    }

    /**
      * `minimum` live bytes are more than there are, no more than fit once the
      * outstanding records are consumed, and no more than the next record takes.
      */
    ghost predicate Asks(minimum: nat)
      requires buf.Valid() && decoder.pending <= |buf.Filled()|
      reads this, decoder, buf
    {
      && |buf.Filled()| < minimum <= decoder.pending + buf.max
      && forall more :: LongEnough(parser, decoder.View(), decoder.Ahead(buf) + more, minimum - decoder.pending)
    }

    /** The parse behind the outstanding records came out as `status`, and the decoder answered `out`. */
    ghost predicate Next(status: Status, out: Result<DecodeStatus>, was: Bytes, at: nat)
      reads this, decoder, buf
    {
      && decoder.Valid() && buf.Valid() && decoder.pending <= |buf.Filled()| && arrived <= |stream|
      && decoder.Answers(status, out, was, at, buf.Filled())
      && match status
         case NeedMore(m, _) =>
           && Yielded(drain, first, stream, items, decoder.View(), Rest(), None)
           && Stuck(drain, decoder.View(), decoder.Ahead(buf)) && Asks(at + m)
         case Failed(e) => Yielded(drain, first, stream, items, decoder.View(), Rest(), Some(e))
         case Parsed(_, item, _) => Yielded(drain, first, stream, items + [item], decoder.View(), Rest(), None)
    }

    /** Decode, and book nothing yet. */
    method Ask() returns (out: Result<DecodeStatus>, ghost status: Status)
      requires Valid() && failed == None
      modifies decoder, buf
      ensures buf.Capacity() == old(buf.Capacity())
      ensures Next(status, out, old(buf.Filled()), old(decoder.pending))
    {
      ghost var x, y := decoder.Ahead(buf), stream[arrived..];
      RecordsIncremental(decoder.suite, decoder.format, buf.max);
      status := parser(decoder.View(), x);
      YieldsStatus(parser, first, stream, items, decoder.View(), x, y, drain);
      if status.NeedMore? {
        AsksWithin(parser, decoder.View(), x);
      }
      out := decoder.Decode(buf);
      if status.Parsed? {
        assert decoder.Ahead(buf) == x[status.len..];
      }
    }

    /** A decoded record, as it will be booked. */
    ghost predicate Decoded(record: DecodedRecord, item: Item)
      reads this, decoder, buf
    {
      && decoder.Valid() && buf.Valid() && decoder.pending <= |buf.Filled()| && arrived <= |stream|
      && Yielded(drain, first, stream, items + [item], decoder.View(), Rest(), None)
      && ledger(queue + [Held(record, consumed)], Latest(items + [item], |queue| + 1), consumed, Front())
    }

    lemma NextLedger(status: Status, record: DecodedRecord, was: Bytes, at: nat)
      requires Genuine(ledger) && buf.Valid() && decoder.pending <= |buf.Filled()| && at <= |was|
      requires decoder.Answers(status, Ok(Ready(record)), was, at, buf.Filled()) && Holding(was[..at])
      ensures status.Parsed?
      ensures ledger(queue + [Held(record, consumed)], Latest(items + [status.item], |queue| + 1), consumed, Front())
    {
      ReadableNew(record, status.item, consumed, at, buf.Filled());
      LedgerAppends(ledger, queue, items, consumed, at, buf.Filled(), record, status.item);
    }

    lemma NextDecoded(status: Status, record: DecodedRecord, was: Bytes, at: nat)
      requires Wired() && Next(status, Ok(Ready(record)), was, at) && Holding(was[..at])
      ensures status.Parsed? && Decoded(record, status.item)
    {
      NextLedger(status, record, was, at);
    }

    /** Book a decoded record. */
    method Take(record: DecodedRecord, ghost item: Item)
      requires Wired() && failed == None && |queue| <= |items| && Decoded(record, item)
      modifies this`queue, this`items
      ensures Valid()
      ensures queue == old(queue) + [Held(record, consumed)] && |items| == |old(items)| + 1 && old(items) <= items
    {
      queue, items := queue + [Held(record, consumed)], items + [item];
    }

    /** Decode the next record, ahead of those not yet consumed. */
    method Decode() returns (out: Result<DecodeStatus>)
      requires Valid() && failed == None
      modifies this`queue, this`failed, this`items, decoder, buf
      ensures Valid() && buf.Capacity() == old(buf.Capacity())
      ensures failed == if out.Err? then Some(out.error) else None
      ensures !(out.Ok? && out.value.Ready?) ==> items == old(items) && queue == old(queue)
      ensures out.Ok? && out.value.Wait? ==>
        Asks(out.value.minimum) && Stuck(drain, decoder.View(), decoder.Ahead(buf))
      ensures out.Ok? && out.value.Ready? ==>
        queue == old(queue) + [Held(out.value.record, consumed)] && |items| == |old(items)| + 1 && old(items) <= items
    {
      ghost var was, at, status := buf.Filled(), decoder.pending, Failed(Io);
      out, status := Ask();
      if out.Err? {
        failed := Some(out.error);
      } else if out.value.Ready? {
        NextDecoded(status, out.value.record, was, at);
        Take(out.value.record, status.item);
      }
    }

    /** Drop a record from the front of the buffer. */
    method Drop(record: DecodedRecord) returns (r: Result<()>)
      requires decoder.Valid() && buf.Valid() && decoder.pending <= |buf.Filled()| && arrived <= |stream|
      requires record.consumed <= decoder.pending
      modifies decoder`pending, buf
      ensures decoder.Valid() && buf.Valid() && decoder.pending <= |buf.Filled()| && buf.Capacity() == old(buf.Capacity())
      ensures r.Ok? && decoder.View() == old(decoder.View()) && Rest() == old(Rest())
      ensures Front() == old(Front())[record.consumed..]
    {
      r := decoder.Consume(buf, record);
    }

    lemma Oldest(front: Bytes)
      requires Genuine(ledger) && Holding(front) && queue != []
      ensures
        var n := queue[0].record.consumed;
        n <= |front| && ledger(queue[1..], Latest(items, |queue[1..]|), consumed + n, front[n..])
    {
      LedgerDrops(ledger, queue, items, consumed, front);
    }

    method Shift(ghost front: Bytes)
      requires 0 < |queue| <= |items|
      requires ledger(queue[1..], Latest(items, |queue[1..]|), consumed + queue[0].record.consumed, front)
      modifies this`queue, this`consumed
      ensures queue == old(queue)[1..] && consumed == old(consumed) + old(queue)[0].record.consumed
      ensures Holding(front)
    {
      queue, consumed := queue[1..], consumed + queue[0].record.consumed;
    }

    /** Consume the oldest outstanding record. */
    method Consume() returns (r: Result<()>)
      requires Valid() && queue != []
      modifies this`queue, this`consumed, decoder`pending, buf
      ensures Valid() && r.Ok? && buf.Capacity() == old(buf.Capacity())
      ensures queue == old(queue)[1..] && consumed == old(consumed) + old(queue)[0].record.consumed
    {
      Oldest(Front());
      var oldest := queue[0].record;
      Shift(Front()[oldest.consumed..]);
      r := Drop(oldest);
    }

    /** Outstanding record `i` can be read where it was handed out, less what was consumed since. */
    ghost predicate StaysReadable(i: nat)
      requires buf.Valid() && i < |queue| <= |items|
      reads this, buf
    {
      Readable(queue[i], Latest(items, |queue|)[i], consumed, buf.Filled())
    }

    lemma Reachable(i: nat)
      requires Valid() && i < |queue|
      ensures StaysReadable(i)
    {
      assert Says(ledger, LedgerOf(), queue, Latest(items, |queue|), consumed, Front());
      StillReadable(queue, Latest(items, |queue|), consumed, Front(), i);
      ReadableInFront(queue[i], Latest(items, |queue|)[i], consumed, buf.Filled(), decoder.pending);
    }

    /** The plaintext of an outstanding record. */
    method Read(i: nat) returns (plain: Bytes)
      requires Valid() && i < |queue|
      ensures plain == Latest(items, |queue|)[i].plain
    {
      Reachable(i);
      plain := ReadHeld(queue[i], Latest(items, |queue|)[i]);
    }

    method ReadHeld(h: Held, ghost item: Item) returns (plain: Bytes)
      requires buf.Valid() && Readable(h, item, consumed, buf.Filled())
      ensures plain == item.plain
    {
      plain := if h.record.kind == ZeroChunk then []
               else buf.Filled()[h.base + h.record.from - consumed..h.base + h.record.to - consumed];
    }

    /** One move; a decoder that has failed is not asked again, and nothing outstanding is nothing to consume. */
    method Make(move: Move) returns (out: Option<Result<DecodeStatus>>)
      requires Valid()
      modifies this, decoder, buf
      ensures Valid() && buf.Capacity() == old(buf.Capacity()) && old(items) <= items
      ensures out.Some? <==> move == DecodeNext && old(failed) == None
      ensures failed == if out.Some? && out.value.Err? then Some(out.value.error) else old(failed)
      ensures out.Some? && out.value.Ok? && out.value.value.Wait? ==>
        Asks(out.value.value.minimum) && Stuck(drain, decoder.View(), decoder.Ahead(buf))
    {
      out := None;
      match move {
        case Receive(n) => Arrive(n);
        case DecodeNext =>
          if failed.None? {
            var answer := Decode();
            out := Some(answer);
          }
        case ConsumeOldest =>
          if queue != [] {
            var done := Consume();
          }
      }
    }

    /** What the schedule so far has handed out, against the whole stream. */
    lemma Summary()
      requires Valid()
      ensures items <= Drain(parser, first, stream).items
      ensures failed.Some? ==> Drain(parser, first, stream) == Drained(items, Refused(failed.value))
      ensures failed == None && arrived == |stream| && Stuck(drain, decoder.View(), decoder.Ahead(buf)) ==>
        Drain(parser, first, stream) == Drained(items, Short(decoder.View(), decoder.Ahead(buf)))
      ensures forall i :: 0 <= i < |queue| ==> StaysReadable(i)
    {
      forall i | 0 <= i < |queue|
        ensures StaysReadable(i)
      {
        Reachable(i);
      }
      assert drain(first, stream) == Drain(parser, first, stream);
      assert decoder.Ahead(buf) + [] == decoder.Ahead(buf) && items + [] == items;
    }

    /**
      * Fragmentation independence: whatever the schedule, the records handed out
      * are a prefix of those the whole stream parses to in one go, their
      * plaintext stays readable until they are consumed, and an error is the one
      * the whole stream stops with. A decoder left asking for more once
      * everything has arrived has handed out all of them.
      */
    method Run(script: seq<Move>) returns (last: Option<Result<DecodeStatus>>)
      requires Valid() && failed == None
      modifies this, decoder, buf
      ensures Valid() && buf.Capacity() == old(buf.Capacity()) && old(items) <= items
      ensures items <= Drain(parser, first, stream).items
      ensures failed.Some? ==> Drain(parser, first, stream) == Drained(items, Refused(failed.value))
      ensures last.Some? && last.value.Ok? && last.value.value.Wait? && arrived == |stream| ==>
        Drain(parser, first, stream) == Drained(items, Short(decoder.View(), decoder.Ahead(buf)))
      ensures forall i :: 0 <= i < |queue| ==> StaysReadable(i)
    {
      last := None;
      for i := 0 to |script|
        invariant Valid() && buf.Capacity() == old(buf.Capacity()) && old(items) <= items
        invariant last.Some? && last.value.Ok? && last.value.value.Wait? ==>
          failed == None && Stuck(drain, decoder.View(), decoder.Ahead(buf))
      {
        last := Make(script[i]);
      }
      Summary();
    }
  }
}
