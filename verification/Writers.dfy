/** Writing a short message, such as a handshake, as a run of stream records. */
module Writers {
  import opened Batches
  import opened Buffers
  import opened Encoders
  import opened Hosts
  import opened Leases
  import opened Protocol
  import opened Records
  import opened Senders
  import opened Sockets
  import opened Streams
  import opened Windows

  /** Write all of `all` through at most `patience` waits. */
  method WriteAll(w: Sink, all: Bytes, patience: nat) returns (r: Poll<()>)
    modifies w`output, w`stalls, w`faults
    ensures old(w.output) <= w.output <= old(w.output) + all
    ensures r.Done? ==> w.output == old(w.output) + all
    ensures r.Broken? ==> r.error == Io && w.faults > old(w.faults)
    ensures r.Pending? ==> w.stalls > old(w.stalls) + patience
    ensures w.faults >= old(w.faults) && w.stalls >= old(w.stalls)
  {
    var written, left: nat := 0, patience;
    r := Done(());
    while written < |all| && r.Done?
      invariant written <= |all| && w.output == old(w.output) + all[..written]
      invariant w.faults >= old(w.faults) && left <= patience && w.stalls >= old(w.stalls) + (patience - left)
      invariant r.Broken? ==> r.error == Io && w.faults > old(w.faults)
      invariant r.Pending? ==> w.stalls > old(w.stalls) + patience
      decreases r.Done?, |all| - written, left
    {
      var n := w.PollWrite([all[written..]]);
      assert Flatten([all[written..]]) == all[written..];
      match n {
        case Pending =>
          if left == 0 {
            r := Pending;
          } else {
            left := left - 1;
          }
        case Broken(e) =>
          r := Broken(e);
        case Done(k) =>
          if k == 0 {
            r := Broken(Io);
          } else {
            assert all[..written] + all[written..][..k] == all[..written + k];
            Associates(old(w.output), all[..written], all[written..][..k]);
            written := written + k;
          }
      }
    }
    assert old(w.output) + all[..written] + all[written..] == old(w.output) + all;
    assert written == |all| ==> all[..written] == all;
  }

  /** Write one stored record in wire order, then empty the buffer. */
  method DrainEncode(w: Sink, buf: Buffer, split: nat, patience: nat) returns (r: Poll<()>)
    requires buf.Valid() && split <= |buf.Filled()|
    modifies w`output, w`stalls, w`faults, buf
    ensures buf.Valid()
    ensures old(w.output) <= w.output <= old(w.output) + InOrder(old(buf.Filled()), split)
    ensures r.Done? ==> buf.Filled() == [] && w.output == old(w.output) + InOrder(old(buf.Filled()), split)
    ensures r.Broken? ==> r.error == Io && w.faults > old(w.faults)
    ensures r.Pending? ==> w.stalls > old(w.stalls) + patience
    ensures w.faults >= old(w.faults) && w.stalls >= old(w.stalls)
  {
    r := WriteAll(w, InOrder(buf.Filled(), split), patience);
    if r.Done? {
      var consumed := buf.Consume(|buf.storage| - buf.start);
      ReleaseEmpty(buf);
    }
  }

  /** `sent` went out in order from core `c`, and together with `rest` makes up `src`. */
  ghost predicate Progress(k: Keys, c: Core, sent: seq<Rec>, now: Core, before: Bytes, out: Bytes, rest: Bytes, src: Bytes)
  {
    && Booked(k, c, sent, now, before, out, [])
    && AllData(sent)
    && Adds(sent, [], rest, src)
  }

  /** Part of a run went out, and the run carries part of `src`. */
  ghost predicate Partly(k: Keys, c: Core, run: seq<Rec>, before: Bytes, out: Bytes, src: Bytes)
  {
    Fits(k, c, run, V6_WIRE_CAP) && Payloads(run) <= src && out <= before + Wires(k, c, run)
  }

  lemma ProgressIsPart(k: Keys, c: Core, sent: seq<Rec>, now: Core, before: Bytes, all: Bytes, out: Bytes, rest: Bytes,
                       src: Bytes)
    requires Progress(k, c, sent, now, before, all, rest, src) && out <= all
    ensures Partly(k, c, sent, before, out, src)
  {
    assert all + [] == all;
    FrontOfSum(Payloads(sent), rest);
  }

  lemma FrontOfSum(a: Bytes, b: Bytes)
    ensures a <= a + [] + b
  {
  }

  /** One sealed record, written. */
  lemma ProgressRecord(k: Keys, p: Plan, fill: (nat, nat) -> Bytes, c: Core, sent: seq<Rec>, now: Core,
                       before: Bytes, out: Bytes, rest: Bytes, src: Bytes, cap: nat, take: nat, split: nat)
    requires ValidKeys(k) && Sound(p, k.format) && Fills(fill)
    requires Progress(k, c, sent, now, before, out, rest, src)
    requires 0 < take <= |rest| && take <= cap <= p.datagramLimit
    requires split == SplitOf(take, p.rotates)
    ensures
      var rec := RecordOf(p, k.format, fill, now, cap, rest[..take]);
      var stored := Stored(k, now, rec, p.rotates);
      && split <= |stored|
      && Progress(k, c, sent + [rec], NextCore(now, take), before, out + InOrder(stored, split), rest[take..], src)
  {
    var payload := rest[..take];
    var rec := RecordOf(p, k.format, fill, now, cap, payload);
    RecordFits(p, k, fill, now, cap, payload);
    StoredRotates(k, now, rec, p.rotates);
    BookWritten(k, c, sent, now, before, out, rec, Wire(k, now, rec));
    RestAdds(sent, rec, rest, take, src);
  }

  lemma RestAdds(sent: seq<Rec>, rec: Rec, rest: Bytes, take: nat, src: Bytes)
    requires 0 < take <= |rest| && rec.payload == rest[..take] && AllData(sent) && Adds(sent, [], rest, src)
    ensures Adds(sent + [rec], [], rest[take..], src) && AllData(sent + [rec])
  {
    assert rest[..take] + rest[take..] == rest;
    ReadAdds(sent, sent + [rec], rest[..take], rest[take..], src);
  }

  lemma BookWritten(k: Keys, c: Core, sent: seq<Rec>, now: Core, before: Bytes, out: Bytes, rec: Rec, wire: Bytes)
    requires Booked(k, c, sent, now, before, out, [])
    requires Sealable(k.format, rec) && wire == Wire(k, now, rec) && |wire| <= V6_WIRE_CAP
    ensures Booked(k, c, sent + [rec], NextCore(now, |rec.payload|), before, out + wire, [])
  {
    BookRecord(k, c, sent, now, before, out, [], rec, wire);
    Emptied(out, wire);
  }

  lemma Emptied(out: Bytes, wire: Bytes)
    ensures out + ([] + wire) == (out + wire) + []
  {
  }

  /** Why a write stopped short: a wait too many, a fault, or a record without room. */
  ghost predicate Stopped(p: Plan, e: Error, faults: nat, f0: nat)
  {
    (Hardware(e) && faults > f0) || (e == PayloadTooLarge && !Roomy(p))
  }

  /** Encode and write one record of `rest`. */
  method WriteRecord(encoder: Encoder, buf: Buffer, w: Sink, host: Host, rest: Bytes, patience: nat,
                     ghost c: Core, ghost sent: seq<Rec>, ghost before: Bytes, ghost src: Bytes)
    returns (r: Poll<nat>, ghost run: seq<Rec>)
    requires encoder.Valid() && encoder.state == Ready && buf.Valid() && buf.max == V6_WIRE_CAP && buf.Filled() == []
    requires rest != [] && Progress(encoder.keys, c, sent, encoder.Now(), before, w.output, rest, src)
    modifies encoder, buf, host, w`output, w`stalls, w`faults
    ensures encoder.Valid() && buf.Valid() && w.stalls >= old(w.stalls)
    ensures w.faults + host.faults >= old(w.faults + host.faults)
    ensures r.Done? ==>
      && 0 < r.value <= |rest| && encoder.state == Ready && buf.Filled() == []
      && Progress(encoder.keys, c, run, encoder.Now(), before, w.output, rest[r.value..], src)
    ensures Partly(encoder.keys, c, run, before, w.output, src)
    ensures Cramped(encoder.plan) && old(encoder.Now()).first ==> r.Broken?
    ensures r.Pending? ==> w.stalls > old(w.stalls) + patience
    ensures r.Broken? ==> Stopped(encoder.plan, r.error, w.faults + host.faults, old(w.faults + host.faults))
  {
    ghost var cap := 0;
    ghost var now, out := encoder.Now(), w.output;
    var encoded;
    encoded, cap := EncodeRecord(encoder, buf, Stream(|rest|), rest, true, host);
    if encoded.Err? {
      ProgressIsPart(encoder.keys, c, sent, now, before, out, out, rest, src);
      return Broken(encoded.error), sent;
    }
    var take, split := encoded.value.0, encoded.value.1;
    ghost var rec := RecordOf(encoder.plan, encoder.keys.format, encoder.fill, now, cap, rest[..take]);
    ProgressRecord(encoder.keys, encoder.plan, encoder.fill, c, sent, now, before, out, rest, src, cap, take, split);
    run := sent + [rec];
    ghost var stored := Stored(encoder.keys, now, rec, encoder.plan.rotates);
    EmptyLead(stored);
    var drained := DrainEncode(w, buf, split, patience);
    ProgressIsPart(encoder.keys, c, run, NextCore(now, take), before, out + InOrder(stored, split), w.output, rest[take..], src);
    r := match drained
         case Pending => Pending
         case Broken(e) => Broken(e)
         case Done(_) => Done(take);
  }

  lemma EmptyLead(s: Bytes)
    ensures [] + s == s
  {
  }

  /**
    * Write all of `src` as data records. Every record carries at least one
    * byte, so it ends; on success the payloads are exactly `src`. It stops
    * short only after more waits than `patience`, after a fault, or at a record
    * without room, which a roomy plan never has.
    */
  method WritePlainRecords(encoder: Encoder, w: Sink, host: Host, src: Bytes, patience: nat)
    returns (r: Poll<()>, ghost sent: seq<Rec>)
    requires encoder.Valid() && encoder.state == Ready
    modifies encoder, host, w`output, w`stalls, w`faults
    ensures encoder.Valid()
    ensures r.Done? ==>
      && AllData(sent) && Payloads(sent) == src
      && w.output == old(w.output) + Wires(encoder.keys, old(encoder.Now()), sent)
      && encoder.Now() == CoreAfter(old(encoder.Now()), sent) && encoder.state == Ready
    ensures Partly(encoder.keys, old(encoder.Now()), sent, old(w.output), w.output, src)
    ensures r.Done? && Cramped(encoder.plan) && old(encoder.Now()).first ==> src == []
    ensures src == [] ==> r.Done?
    ensures w.stalls >= old(w.stalls) && w.faults + host.faults >= old(w.faults + host.faults)
    ensures r.Pending? ==> w.stalls > old(w.stalls) + patience
    ensures r.Broken? ==> Stopped(encoder.plan, r.error, w.faults + host.faults, old(w.faults + host.faults))
  {
    var buf := new Buffer(V6_WIRE_CAP);
    var rest := src;
    ghost var c, before := encoder.Now(), w.output;
    sent := [];
    r := Done(());
    ProgressStarts(encoder.keys, c, before, src);
    ProgressIsPart(encoder.keys, c, [], c, before, before, before, src, src);
    while rest != [] && r.Done?
      invariant encoder.Valid() && buf.Valid() && buf.max == V6_WIRE_CAP && fresh(buf)
      invariant w.stalls >= old(w.stalls) && w.faults + host.faults >= old(w.faults + host.faults)
      invariant r.Done? ==>
        && encoder.state == Ready && buf.Filled() == []
        && Progress(encoder.keys, c, sent, encoder.Now(), before, w.output, rest, src)
        && (Cramped(encoder.plan) && c.first ==> rest == src && encoder.Now() == c)
      invariant src == [] ==> rest == [] && r.Done?
      invariant Partly(encoder.keys, c, sent, before, w.output, src)
      invariant r.Pending? ==> w.stalls > old(w.stalls) + patience
      invariant r.Broken? ==> Stopped(encoder.plan, r.error, w.faults + host.faults, old(w.faults + host.faults))
      decreases r.Done?, |rest|
    {
      var one;
      one, sent := WriteRecord(encoder, buf, w, host, rest, patience, c, sent, before, src);
      match one {
        case Pending =>
          r := Pending;
        case Broken(e) =>
          r := Broken(e);
        case Done(n) =>
          rest := rest[n..];
      }
    }
    if r.Done? {
      ProgressEnds(encoder.keys, c, sent, encoder.Now(), before, w.output, src);
    }
  }

  lemma ProgressStarts(k: Keys, c: Core, before: Bytes, src: Bytes)
    ensures Progress(k, c, [], c, before, before, src, src)
  {
    assert before + Wires(k, c, []) == before + [];
    assert Payloads([]) + [] + src == src;
  }

  lemma ProgressEnds(k: Keys, c: Core, sent: seq<Rec>, now: Core, before: Bytes, out: Bytes, src: Bytes)
    requires Progress(k, c, sent, now, before, out, [], src)
    ensures Payloads(sent) == src && out == before + Wires(k, c, sent) && now == CoreAfter(c, sent)
  {
    assert Payloads(sent) + [] + [] == Payloads(sent);
    assert out + [] == out;
  }
}
