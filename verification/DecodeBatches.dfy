/** Decoded records whose plaintext is still to be written, and their consumption in order. */
module DecodeBatches {
  import opened Batches
  import opened Buffers
  import opened Decoders
  import opened Protocol
  import opened Sockets

  /** Every plaintext range lies within the first `limit` live bytes. */
  ghost predicate Within(records: seq<DecodedRecord>, limit: nat)
  {
    forall i :: 0 <= i < |records| ==> records[i].from <= records[i].to <= limit
  }

  /** The plaintext of the records, end to end. */
  function Plain(records: seq<DecodedRecord>, filled: Bytes): Bytes
    requires Within(records, |filled|)
  {
    if records == [] then []
    else
      var last, before := records[|records| - 1], records[..|records| - 1];
      Plain(before, filled) + filled[last.from..last.to]
  }

  /** Wire bytes the records occupy. */
  function Consumed(records: seq<DecodedRecord>): nat
  {
    if records == [] then 0 else records[0].consumed + Consumed(records[1..])
  }

  lemma ConsumedNext(records: seq<DecodedRecord>, i: nat)
    requires i < |records|
    ensures Consumed(records[i..]) == records[i].consumed + Consumed(records[i + 1..])
  {
    assert records[i..][1..] == records[i + 1..];
  }

  lemma {:induction false} ConsumedAppends(records: seq<DecodedRecord>, r: DecodedRecord)
    ensures Consumed(records + [r]) == Consumed(records) + r.consumed
  {
    if records == [] {
      assert (records + [r])[1..] == [];
    } else {
      assert (records + [r])[1..] == records[1..] + [r];
      ConsumedAppends(records[1..], r);
    }
  }

  lemma SamePrefixSlice(a: Bytes, b: Bytes, n: nat, lo: nat, hi: nat)
    requires n <= |a| && n <= |b| && a[..n] == b[..n]
    requires lo <= hi <= n
    ensures a[lo..hi] == b[lo..hi]
  {
    forall k | lo <= k < hi
      ensures a[k] == b[k]
    {
      assert a[k] == a[..n][k];
      assert b[k] == b[..n][k];
    }
  }

  /** Decoding further does not touch the plaintext already handed out. */
  lemma {:induction false} PlainKept(records: seq<DecodedRecord>, a: Bytes, b: Bytes, n: nat)
    requires n <= |a| && n <= |b| && a[..n] == b[..n]
    requires Within(records, n)
    ensures Plain(records, a) == Plain(records, b)
  {
    if records != [] {
      var last := records[|records| - 1];
      PlainKept(records[..|records| - 1], a, b, n);
      SamePrefixSlice(a, b, n, last.from, last.to);
    }
  }

  lemma PlainAppends(before: seq<DecodedRecord>, next: seq<DecodedRecord>, filled: Bytes, text: Bytes)
    requires next != [] && Front(next) == before && Within(next, |filled|)
    requires text == filled[next[|next| - 1].from..next[|next| - 1].to]
    ensures Within(before, |filled|) && Plain(next, filled) == Plain(before, filled) + text
  {
  }

  /** Everything of the batch's plaintext that is still to be written. */
  method GatherPlain(records: seq<DecodedRecord>, written: nat, filled: Bytes) returns (u: Unwritten)
    requires |records| <= WRITE_BATCH_MAX
    requires Within(records, |filled|)
    ensures fresh(u) && u.Valid() && u.written == written
    ensures u.offered == Plain(records, filled)
  {
    u := new Unwritten(WRITE_BATCH_MAX, written);
    var i := 0;
    assert records[..0] == [];
    while i < |records|
      invariant i <= |records|
      invariant fresh(u) && u.Valid() && u.written == written && |u.slices| == WRITE_BATCH_MAX
      invariant u.offered == Plain(records[..i], filled) && u.parts == i
    {
      var r := records[i];
      assert Front(records[..i + 1]) == records[..i];
      PlainAppends(records[..i], records[..i + 1], filled, filled[r.from..r.to]);
      u.Push(filled[r.from..r.to]);
      i := i + 1;
    }
    assert records[..i] == records;
  }

  class DecodeBatch {
    var records: seq<DecodedRecord>
    var len: nat
    var written: nat
    /** How the stream ends once the batch is written: after a zero chunk, or with an error. */
    var end: Option<Result<()>>

    ghost predicate Valid()
      reads this`records, this`len
    {
      len <= |records| == WRITE_BATCH_MAX
    }

    function Live(): seq<DecodedRecord>
      requires len <= |records|
      reads this`records, this`len
    {
      records[..len]
    }

    constructor ()
      ensures Valid() && Live() == [] && written == 0 && end == None
    {
      records := seq(WRITE_BATCH_MAX, _ => DecodedRecord(0, 0, 0, Data));
      len, written, end := 0, 0, None;
    }

    method Push(r: DecodedRecord)
      requires Valid() && len < WRITE_BATCH_MAX
      modifies this`records, this`len
      ensures Valid() && len == old(len) + 1 && Front(Live()) == old(Live()) && Live()[len - 1] == r
      ensures Consumed(Live()) == Consumed(old(Live())) + r.consumed
    {
      ConsumedAppends(Live(), r);
      records := records[len := r];
      len := len + 1;
      assert Live() == old(Live()) + [r];
    }

    method WriteOnce(w: Sink, filled: Bytes) returns (r: Poll<bool>)
      requires Valid() && Within(Live(), |filled|)
      requires written <= |Plain(Live(), filled)|
      modifies this`written, w`output, w`stalls, w`faults
      ensures old(written) <= written <= |Plain(Live(), filled)|
      ensures w.output == old(w.output) + Plain(Live(), filled)[old(written)..written]
      ensures w.stalls == if r.Pending? then old(w.stalls) + 1 else old(w.stalls)
      ensures r.Broken? ==> r.error == Io && w.faults > old(w.faults)
      ensures !r.Broken? ==> w.faults == old(w.faults)
      ensures r.Done? ==> if r.value then written == |Plain(Live(), filled)| else old(written) < written
    {
      var u := GatherPlain(Live(), written, filled);
      var n := u.PollWrite(w);
      match n {
        case Pending =>
          r := Pending;
        case Broken(e) =>
          r := Broken(e);
        case Done(k) =>
          written := written + k;
          r := Done(k == 0);
      }
    }

    /** Write the rest of the batch's plaintext, whatever the writer takes at a time. */
    method PollWrite(w: Sink, filled: Bytes) returns (r: Poll<()>)
      requires Valid() && Within(Live(), |filled|)
      requires written <= |Plain(Live(), filled)|
      modifies this`written, w`output, w`stalls, w`faults
      ensures old(written) <= written <= |Plain(Live(), filled)|
      ensures w.output == old(w.output) + Plain(Live(), filled)[old(written)..written]
      ensures w.stalls == if r.Pending? then old(w.stalls) + 1 else old(w.stalls)
      ensures r.Broken? ==> r.error == Io && w.faults > old(w.faults)
      ensures !r.Broken? ==> w.faults == old(w.faults)
      ensures r.Done? ==> written == |Plain(Live(), filled)|
    {
      ghost var all, from := Plain(Live(), filled), written;
      r := Pending;
      var done := false;
      while !done
        invariant from <= written <= |all|
        invariant w.output == old(w.output) + all[from..written]
        invariant w.stalls == if done && r.Pending? then old(w.stalls) + 1 else old(w.stalls)
        invariant done && r.Done? ==> written == |all|
        invariant r.Broken? ==> done
        invariant if r.Broken? then r.error == Io && w.faults > old(w.faults) else w.faults == old(w.faults)
        decreases !done, |all| - written
      {
        ghost var at := written;
        var n := WriteOnce(w, filled);
        JoinRange(old(w.output), all, from, at, written);
        match n {
          case Pending =>
            r, done := Pending, true;
          case Broken(e) =>
            r, done := Broken(e), true;
          case Done(finished) =>
            r, done := Done(()), finished;
        }
      }
    }

    /** Consume the records in decode order. */
    method ConsumeEach(decoder: Decoder, recv: Buffer)
      requires Valid() && decoder.Valid() && recv.Valid()
      requires decoder.pending <= |recv.Filled()| && Consumed(Live()) == decoder.pending
      modifies decoder`pending, recv
      ensures decoder.Valid() && recv.Valid() && recv.Capacity() == old(recv.Capacity()) && decoder.pending == 0
      ensures decoder.Ahead(recv) == old(decoder.Ahead(recv))
    {
      ghost var live, ahead := Live(), decoder.Ahead(recv);
      assert live[0..] == live;
      for i := 0 to len
        invariant decoder.Valid() && recv.Valid() && recv.Capacity() == old(recv.Capacity())
        invariant decoder.pending <= |recv.Filled()| && Consumed(live[i..]) == decoder.pending
        invariant decoder.Ahead(recv) == ahead
      {
        ConsumedNext(live, i);
        var consumed := decoder.Consume(recv, records[i]);
      }
    }

    /**
      * Consume the written records in decode order. What lies behind them is
      * untouched; the result is whether the stream ended with them, or the
      * error put off until now.
      */
    method Consume(decoder: Decoder, recv: Buffer) returns (r: Result<bool>)
      requires Valid() && decoder.Valid() && recv.Valid()
      requires decoder.pending <= |recv.Filled()| && Consumed(Live()) == decoder.pending
      modifies this, decoder`pending, recv
      ensures Valid() && decoder.Valid() && recv.Valid() && recv.Capacity() == old(recv.Capacity())
      ensures len == 0 && written == 0 && end == None && decoder.pending == 0
      ensures decoder.Ahead(recv) == old(decoder.Ahead(recv))
      ensures r == match old(end)
                   case None => Ok(false)
                   case Some(Ok(_)) => Ok(true)
                   case Some(Err(e)) => Err(e)
    {
      ConsumeEach(decoder, recv);
      var ending := end;
      len, written, end := 0, 0, None;
      r := match ending
           case None => Ok(false)
           case Some(Ok(_)) => Ok(true)
           case Some(Err(e)) => Err(e);
    }
  }
}
