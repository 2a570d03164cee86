/** Records gathered for one vectored write, and what is left of them after partial writes. */
module Batches {
  import opened Protocol
  import opened Sockets

  const ENCODE_BATCH_MAX := 32
  const WRITE_BATCH_MAX := 16

  /** A run of stored bytes ending at `end`, sent from `split` bytes past its start on, then up to there. */
  datatype Entry = Entry(split: nat, end: nat)

  function EndOf(records: seq<Entry>): nat
  {
    if records == [] then 0 else records[|records| - 1].end
  }

  /** Entries follow one another and stay within `len` bytes. */
  ghost predicate Tiles(records: seq<Entry>, len: nat)
  {
    records == [] ||
    (var last, before := records[|records| - 1], records[..|records| - 1];
     EndOf(before) + last.split <= last.end <= len && Tiles(before, len))
  }

  /** A record stored from its split on, then up to it. */
  function InOrder(stored: Bytes, split: nat): (wire: Bytes)
    requires split <= |stored|
    ensures |wire| == |stored|
  {
    stored[split..] + stored[..split]
  }

  /** What the batch puts on the wire. */
  function Emission(records: seq<Entry>, filled: Bytes): Bytes
    requires Tiles(records, |filled|)
  {
    if records == [] then []
    else
      var last, before := records[|records| - 1], records[..|records| - 1];
      Emission(before, filled) + InOrder(filled[EndOf(before)..last.end], last.split)
  }

  function Front<T>(s: seq<T>): seq<T>
    requires s != []
  {
    s[..|s| - 1]
  }

  /** One more entry, over the bytes `run`. */
  lemma SnocEmits(before: seq<Entry>, e: Entry, next: seq<Entry>, filled: Bytes, run: Bytes)
    requires Tiles(before, |filled|)
    requires EndOf(before) + e.split <= e.end <= |filled|
    requires next != [] && Front(next) == before && next[|next| - 1] == e
    requires run == filled[EndOf(before)..e.end]
    ensures Tiles(next, |filled|)
    ensures Emission(next, filled) == Emission(before, filled) + InOrder(run, e.split)
  {
  }

  lemma SlicesAgree(filled: Bytes, all: Bytes, lo: nat, hi: nat)
    requires |filled| <= |all| && all[..|filled|] == filled
    requires lo <= hi <= |filled|
    ensures all[lo..hi] == filled[lo..hi]
  {
    forall k | lo <= k < hi
      ensures all[k] == filled[k]
    {
      assert all[k] == all[..|filled|][k];
    }
  }

  /** Bytes added behind the batch do not change what it sends. */
  lemma {:induction false} EmissionGrows(records: seq<Entry>, filled: Bytes, all: Bytes)
    requires Tiles(records, |filled|)
    requires |filled| <= |all| && all[..|filled|] == filled
    ensures Tiles(records, |all|)
    ensures Emission(records, all) == Emission(records, filled)
  {
    if records != [] {
      var last, before := records[|records| - 1], records[..|records| - 1];
      EmissionGrows(before, filled, all);
      SlicesAgree(filled, all, EndOf(before), last.end);
    }
  }

  /** A record that gets an entry of its own. */
  lemma AppendEmits(before: seq<Entry>, next: seq<Entry>, filled: Bytes, all: Bytes, stored: Bytes, split: nat)
    requires Tiles(before, |filled|) && EndOf(before) == |filled|
    requires next != [] && Front(next) == before && next[|next| - 1] == Entry(split, |all|)
    requires |filled| <= |all| && all[..|filled|] == filled && all[|filled|..|all|] == stored && split <= |stored|
    ensures Tiles(next, |all|)
    ensures Emission(next, all) == Emission(before, filled) + InOrder(stored, split)
  {
    EmissionGrows(before, filled, all);
    SnocEmits(before, Entry(split, |all|), next, all, stored);
  }

  /** An unsplit record joined to an unsplit entry before it: the two are contiguous on the wire. */
  lemma JoinEmits(before: seq<Entry>, was: seq<Entry>, next: seq<Entry>, filled: Bytes, all: Bytes, stored: Bytes)
    requires Tiles(before, |filled|) && EndOf(before) <= |filled|
    requires was != [] && Front(was) == before && was[|was| - 1] == Entry(0, |filled|)
    requires next != [] && Front(next) == before && next[|next| - 1] == Entry(0, |all|)
    requires |filled| <= |all| && all[..|filled|] == filled && all[|filled|..|all|] == stored
    ensures Tiles(next, |all|)
    ensures Emission(next, all) == Emission(was, filled) + stored
  {
    var start := EndOf(before);
    var a, b := filled[start..|filled|], all[start..|all|];
    EmissionGrows(before, filled, all);
    SnocEmits(before, Entry(0, |filled|), was, filled, a);
    SnocEmits(before, Entry(0, |all|), next, all, b);
    JoinedRuns(filled, all, stored, start, Emission(before, filled), a, b);
  }

  lemma JoinedRuns(filled: Bytes, all: Bytes, stored: Bytes, start: nat, front: Bytes, a: Bytes, b: Bytes)
    requires start <= |filled| <= |all| && all[..|filled|] == filled && all[|filled|..|all|] == stored
    requires a == filled[start..|filled|] && b == all[start..|all|]
    ensures front + InOrder(b, 0) == (front + InOrder(a, 0)) + stored
  {
    assert b == a + stored;
  }

  /** The bytes of a batch not yet written, gathered in wire order for one vectored write. */
  class Unwritten {
    var slices: seq<Bytes>
    var len: nat
    /** Bytes of the batch already written, still to be skipped. */
    var skip: nat
    ghost const written: nat
    /** Parts added so far, end to end. */
    ghost var offered: Bytes
    ghost var parts: nat

    ghost predicate Valid()
      reads this
    {
      && len <= |slices| && len <= parts
      && skip == Max(written - |offered|, 0)
      && Flatten(slices[..len]) == (if written <= |offered| then offered[written..] else [])
      && (forall i :: 0 <= i < len ==> slices[i] != [])
    }

    constructor (room: nat, written: nat)
      ensures Valid() && offered == [] && parts == 0 && |slices| == room && this.written == written
    {
      slices := seq(room, _ => []);
      len, skip := 0, written;
      this.written := written;
      offered, parts := [], 0;
    }

    /** Add the batch's next part; one slot a part is always enough. */
    method Push(part: Bytes)
      requires Valid() && parts < |slices|
      modifies this
      ensures Valid() && |slices| == |old(slices)|
      ensures offered == old(offered) + part && parts == old(parts) + 1
    {
      offered, parts := offered + part, parts + 1;
      if skip >= |part| {
        skip := skip - |part|;
        SkipsPart(old(offered), part, written);
        return;
      }
      var rest := part[skip..];
      TakesPart(old(offered), part, written, skip);
      FlattenAppend(slices[..len], rest);
      slices := slices[len := rest];
      assert slices[..len + 1] == old(slices)[..len] + [rest];
      skip, len := 0, len + 1;
    }

    /** Write once; 0 is reported only when nothing is left, and a writer that takes nothing is an error. */
    method PollWrite(w: Sink) returns (r: Poll<nat>)
      requires Valid() && written <= |offered|
      modifies w`output, w`stalls, w`faults
      ensures w.stalls == if r.Pending? then old(w.stalls) + 1 else old(w.stalls)
      ensures r.Broken? ==> r.error == Io && w.faults > old(w.faults)
      ensures !r.Broken? ==> w.faults == old(w.faults)
      ensures !r.Done? ==> w.output == old(w.output)
      ensures r.Done? ==> written + r.value <= |offered| && w.output == old(w.output) + offered[written..written + r.value]
      ensures r.Done? ==> (r.value == 0 <==> written == |offered|)
    {
      if len == 0 {
        assert offered[written..] == [];
        return Done(0);
      }
      assert Flatten(slices[..len]) == slices[0] + Flatten(slices[..len][1..]);
      r := w.PollWrite(slices[..len]);
      if r.Done? {
        assert offered[written..][..r.value] == offered[written..written + r.value];
        if r.value == 0 {
          return Broken(Io);
        }
      }
    }
  }

  lemma SkipsPart(offered: Bytes, part: Bytes, written: nat)
    requires Max(written - |offered|, 0) >= |part|
    ensures
      var all := offered + part;
      (if written <= |all| then all[written..] else []) == (if written <= |offered| then offered[written..] else [])
  {
    if written <= |offered| {
      assert offered + part == offered;
    }
  }

  lemma TakesPart(offered: Bytes, part: Bytes, written: nat, skip: nat)
    requires skip == Max(written - |offered|, 0) < |part|
    ensures written <= |offered + part|
    ensures (offered + part)[written..] == (if written <= |offered| then offered[written..] else []) + part[skip..]
  {
  }

  /** Records sealed into the encode buffer and not yet fully written. */
  class EncodeBatch {
    var records: seq<Entry>
    var len: nat
    var written: nat

    ghost predicate Valid()
      reads this
    {
      len <= |records| == ENCODE_BATCH_MAX
    }

    function Live(): seq<Entry>
      requires len <= |records|
      reads this
    {
      records[..len]
    }

    constructor ()
      ensures Valid() && Live() == [] && written == 0
    {
      records, len, written := seq(ENCODE_BATCH_MAX, _ => Entry(0, 0)), 0, 0;
    }

    /** Let the last entry, an unsplit one, run on to the end of an unsplit record. */
    method Join(end: nat, ghost filled: Bytes, ghost stored: Bytes, ghost all: Bytes)
      requires Valid() && len > 0 && records[len - 1] == Entry(0, |filled|)
      requires Tiles(Live(), |filled|)
      requires all == filled + stored && end == |all|
      modifies this`records
      ensures Valid() && Tiles(Live(), end) && EndOf(Live()) == end && records[len - 1].split == 0
      ensures Emission(Live(), all) == Emission(old(Live()), filled) + stored
    {
      records := records[len - 1 := Entry(0, end)];
      assert Front(Live()) == Front(old(Live()));
      JoinEmits(Front(Live()), old(Live()), Live(), filled, all, stored);
    }

    /** Give a record an entry of its own. */
    method Append(end: nat, split: nat, ghost filled: Bytes, ghost stored: Bytes, ghost all: Bytes)
      requires Valid() && len < ENCODE_BATCH_MAX
      requires Tiles(Live(), |filled|) && EndOf(Live()) == |filled|
      requires all == filled + stored && end == |all| && split <= |stored|
      modifies this`records, this`len
      ensures Valid() && len == old(len) + 1 && Tiles(Live(), end) && EndOf(Live()) == end && records[len - 1].split == split
      ensures Emission(Live(), all) == Emission(old(Live()), filled) + InOrder(stored, split)
    {
      records := records[len := Entry(split, end)];
      len := len + 1;
      assert Front(Live()) == old(Live());
      AppendEmits(old(Live()), Live(), filled, all, stored, split);
    }

    /** Enter the record stored behind `filled`: the batch then also sends that record, in wire order. */
    method Push(end: nat, split: nat, ghost filled: Bytes, ghost stored: Bytes, ghost all: Bytes)
      requires Valid() && len < ENCODE_BATCH_MAX
      requires Tiles(Live(), |filled|) && EndOf(Live()) == |filled|
      requires all == filled + stored && end == |all| && split <= |stored|
      modifies this`records, this`len
      ensures Valid() && 0 < len && Tiles(Live(), end) && EndOf(Live()) == end
      ensures len == old(len) + (if split == 0 && old(len) > 0 && old(records)[old(len) - 1].split == 0 then 0 else 1)
      ensures records[len - 1].split == split
      ensures Emission(Live(), all) == Emission(old(Live()), filled) + InOrder(stored, split)
    {
      if split == 0 && len > 0 && records[len - 1].split == 0 {
        Join(end, filled, stored, all);
        assert InOrder(stored, 0) == stored;
      } else {
        Append(end, split, filled, stored, all);
      }
    }

    method Clear()
      requires Valid()
      modifies this`len, this`written
      ensures Valid() && Live() == [] && written == 0
    {
      len, written := 0, 0;
    }

    /** One write of what is left; whether the batch is done. */
    method WriteOnce(w: Sink, filled: Bytes) returns (r: Poll<bool>)
      requires Valid() && Tiles(Live(), |filled|)
      requires written <= |Emission(Live(), filled)|
      modifies this`written, w`output, w`stalls, w`faults
      ensures old(written) <= written <= |Emission(Live(), filled)|
      ensures w.output == old(w.output) + Emission(Live(), filled)[old(written)..written]
      ensures w.stalls == if r.Pending? then old(w.stalls) + 1 else old(w.stalls)
      ensures r.Broken? ==> r.error == Io && w.faults > old(w.faults)
      ensures !r.Broken? ==> w.faults == old(w.faults)
      ensures r.Done? ==> if r.value then written == |Emission(Live(), filled)| else old(written) < written
    {
      var u := Gather(Live(), written, filled);
      var n := u.PollWrite(w);
      match n {
        case Pending =>
          r := Pending;
        case Broken(e) =>
          r := Broken(e);
        case Done(k) =>
          written := written + k;
          r := Done(k == 0);
      }
    }

    /**
      * Write the rest of the batch. Whatever the writer takes at a time, what
      * goes out is the batch's emission from where it was to where it is.
      */
    method PollWrite(w: Sink, filled: Bytes) returns (r: Poll<()>)
      requires Valid() && Tiles(Live(), |filled|)
      requires written <= |Emission(Live(), filled)|
      modifies this`written, w`output, w`stalls, w`faults
      ensures old(written) <= written <= |Emission(Live(), filled)|
      ensures w.output == old(w.output) + Emission(Live(), filled)[old(written)..written]
      ensures w.stalls == if r.Pending? then old(w.stalls) + 1 else old(w.stalls)
      ensures r.Broken? ==> r.error == Io && w.faults > old(w.faults)
      ensures !r.Broken? ==> w.faults == old(w.faults)
      ensures r.Done? ==> written == |Emission(Live(), filled)|
    {
      ghost var all, from := Emission(Live(), filled), written;
      r := Pending;
      var done := false;
      while !done
        invariant from <= written <= |all|
        invariant w.output == old(w.output) + all[from..written]
        invariant w.stalls == if done && r.Pending? then old(w.stalls) + 1 else old(w.stalls)
        invariant done && r.Done? ==> written == |all|
        invariant r.Broken? ==> done
        invariant if r.Broken? then r.error == Io && w.faults > old(w.faults) else w.faults == old(w.faults)
        decreases !done, |all| - written
      {
        ghost var at := written;
        var n := WriteOnce(w, filled);
        JoinRange(old(w.output), all, from, at, written);
        match n {
          case Pending =>
            r, done := Pending, true;
          case Broken(e) =>
            r, done := Broken(e), true;
          case Done(finished) =>
            r, done := Done(()), finished;
        }
      }
    }
  }

  /** Everything of a batch that is still to be written. */
  method Gather(records: seq<Entry>, written: nat, filled: Bytes) returns (u: Unwritten)
    requires |records| <= ENCODE_BATCH_MAX
    requires Tiles(records, |filled|)
    ensures fresh(u) && u.Valid() && u.written == written
    ensures u.offered == Emission(records, filled)
  {
    u := new Unwritten(2 * ENCODE_BATCH_MAX, written);
    var start, i := 0, 0;
    assert records[..0] == [];
    while i < |records|
      invariant i <= |records|
      invariant Tiles(records[..i], |filled|) && start == EndOf(records[..i])
      invariant fresh(u) && u.Valid() && u.written == written && |u.slices| == 2 * ENCODE_BATCH_MAX
      invariant u.offered == Emission(records[..i], filled) && u.parts == 2 * i
    {
      GatherNext(u, records, filled, i, start);
      start := records[i].end;
      i := i + 1;
    }
    assert records[..i] == records;
  }

  method GatherNext(u: Unwritten, records: seq<Entry>, filled: Bytes, i: nat, start: nat)
    requires Tiles(records, |filled|) && i < |records|
    requires Tiles(records[..i], |filled|) && start == EndOf(records[..i])
    requires u.Valid() && u.parts + 2 <= |u.slices|
    requires u.offered == Emission(records[..i], filled)
    modifies u
    ensures u.Valid() && |u.slices| == |old(u.slices)| && u.parts == old(u.parts) + 2
    ensures Tiles(records[..i + 1], |filled|) && records[i].end == EndOf(records[..i + 1])
    ensures u.offered == Emission(records[..i + 1], filled)
  {
    NextEntry(records, filled, i);
    GatherEntry(u, filled, start, records[i]);
  }

  lemma NextEntry(records: seq<Entry>, filled: Bytes, i: nat)
    requires Tiles(records, |filled|) && i < |records|
    ensures Tiles(records[..i], |filled|) && Tiles(records[..i + 1], |filled|)
    ensures
      var e, start := records[i], EndOf(records[..i]);
      && start + e.split <= e.end <= |filled|
      && EndOf(records[..i + 1]) == e.end
      && Emission(records[..i + 1], filled) == Emission(records[..i], filled) + InOrder(filled[start..e.end], e.split)
  {
    TilesPrefix(records, |filled|, i);
    TilesPrefix(records, |filled|, i + 1);
    assert Front(records[..i + 1]) == records[..i];
    SnocEmits(records[..i], records[i], records[..i + 1], filled, filled[EndOf(records[..i])..records[i].end]);
  }

  /** Both parts of the entry that starts at `start`. */
  method GatherEntry(u: Unwritten, filled: Bytes, start: nat, e: Entry)
    requires start + e.split <= e.end <= |filled|
    requires u.Valid() && u.parts + 2 <= |u.slices|
    modifies u
    ensures u.Valid() && |u.slices| == |old(u.slices)| && u.parts == old(u.parts) + 2
    ensures u.offered == old(u.offered) + InOrder(filled[start..e.end], e.split)
  {
    SplitSlices(filled, start, start + e.split, e.end, u.offered);
    u.Push(filled[start + e.split..e.end]);
    u.Push(filled[start..start + e.split]);
  }

  lemma JoinRange(front: Bytes, s: Bytes, lo: nat, mid: nat, hi: nat)
    requires lo <= mid <= hi <= |s|
    ensures (front + s[lo..mid]) + s[mid..hi] == front + s[lo..hi]
  {
  }

  lemma SplitSlices(filled: Bytes, start: nat, split: nat, end: nat, front: Bytes)
    requires start <= split <= end <= |filled|
    ensures front + InOrder(filled[start..end], split - start) == front + filled[split..end] + filled[start..split]
  {
  }

  /** A prefix of a batch is a batch. */
  lemma {:induction false} TilesPrefix(records: seq<Entry>, len: nat, n: nat)
    requires Tiles(records, len)
    requires n <= |records|
    ensures Tiles(records[..n], len)
    ensures n > 0 ==> EndOf(records[..n - 1]) + records[n - 1].split <= records[n - 1].end <= len
  {
    if n < |records| {
      var before := records[..|records| - 1];
      TilesPrefix(before, len, n);
      assert before[..n] == records[..n];
      assert n > 0 ==> before[..n - 1] == records[..n - 1];
    } else {
      assert records[..n] == records;
    }
  }

  datatype RawRecord = RawRecord(bytes: Bytes, split: nat)

  /** A record as stored, and where its wire form starts in it. */
  type StoredRecord = r: RawRecord | r.split <= |r.bytes| witness RawRecord([], 0)

  function WireBytes(stores: seq<StoredRecord>): Bytes
  {
    if stores == [] then []
    else
      var last := stores[|stores| - 1];
      WireBytes(stores[..|stores| - 1]) + InOrder(last.bytes, last.split)
  }

  lemma NextStored(stores: seq<StoredRecord>, i: nat)
    requires i < |stores|
    ensures WireBytes(stores[..i + 1]) == WireBytes(stores[..i]) + InOrder(stores[i].bytes, stores[i].split)
  {
    assert Front(stores[..i + 1]) == stores[..i];
  }

  /** Entries a batch needs for the records: a run of unsplit ones shares one. */
  function Entries(stores: seq<StoredRecord>): nat
  {
    if stores == [] then 0
    else
      var n := |stores| - 1;
      Entries(stores[..n]) + if stores[n].split == 0 && n > 0 && stores[n - 1].split == 0 then 0 else 1
  }

  lemma NextEntries(stores: seq<StoredRecord>, i: nat)
    requires i < |stores|
    ensures Entries(stores[..i + 1])
            == Entries(stores[..i]) + if stores[i].split == 0 && i > 0 && stores[i - 1].split == 0 then 0 else 1
  {
    assert Front(stores[..i + 1]) == stores[..i];
  }

  method AddStored(batch: EncodeBatch, filled: Bytes, s: StoredRecord) returns (all: Bytes)
    requires batch.Valid() && batch.len < ENCODE_BATCH_MAX
    requires Tiles(batch.Live(), |filled|) && EndOf(batch.Live()) == |filled|
    modifies batch`records, batch`len
    ensures batch.Valid() && 0 < batch.len && batch.records[batch.len - 1].split == s.split
    ensures batch.len == old(batch.len)
              + if s.split == 0 && old(batch.len) > 0 && old(batch.records)[old(batch.len) - 1].split == 0 then 0 else 1
    ensures Tiles(batch.Live(), |all|) && EndOf(batch.Live()) == |all|
    ensures Emission(batch.Live(), all) == Emission(old(batch.Live()), filled) + InOrder(s.bytes, s.split)
  {
    all := filled + s.bytes;
    batch.Push(|all|, s.split, filled, s.bytes, all);
  }

  /** The batch holds the first `i` records, in as few entries as coalescing allows. */
  ghost predicate Holds(batch: EncodeBatch, filled: Bytes, stores: seq<StoredRecord>, i: nat)
    reads batch
  {
    && i <= |stores| && batch.Valid() && batch.len == Entries(stores[..i])
    && (i > 0 ==> batch.len > 0 && batch.records[batch.len - 1].split == stores[i - 1].split)
    && (i == 0 ==> batch.len == 0)
    && Tiles(batch.Live(), |filled|) && EndOf(batch.Live()) == |filled|
    && Emission(batch.Live(), filled) == WireBytes(stores[..i])
  }

  method AddNext(batch: EncodeBatch, filled: Bytes, stores: seq<StoredRecord>, i: nat) returns (all: Bytes)
    requires i < |stores| && Holds(batch, filled, stores, i) && batch.len < ENCODE_BATCH_MAX
    modifies batch`records, batch`len
    ensures Holds(batch, all, stores, i + 1)
  {
    NextStored(stores, i);
    NextEntries(stores, i);
    all := AddStored(batch, filled, stores[i]);
  }

  /**
    * A batch filled with any records while it has room: whatever their lengths
    * and splits, it sends each record taken in wire order, in turn. Runs of
    * unsplit records share an entry, so only entries are bounded.
    */
  method FillBatch(stores: seq<StoredRecord>) returns (batch: EncodeBatch, filled: Bytes, taken: nat)
    ensures fresh(batch) && batch.Valid() && batch.written == 0
    ensures taken <= |stores| && Tiles(batch.Live(), |filled|)
    ensures Emission(batch.Live(), filled) == WireBytes(stores[..taken])
    ensures batch.len == Entries(stores[..taken])
    ensures taken == |stores| || batch.len == ENCODE_BATCH_MAX
  {
    batch := new EncodeBatch();
    filled, taken := [], 0;
    assert Emission(batch.Live(), filled) == [] == WireBytes(stores[..0]);
    while taken < |stores| && batch.len < ENCODE_BATCH_MAX
      invariant fresh(batch) && batch.written == 0 && Holds(batch, filled, stores, taken)
    {
      filled := AddNext(batch, filled, stores, taken);
      taken := taken + 1;
    }
  }
}
