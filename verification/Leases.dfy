/** A leased buffer as its user sees it: it grows on demand and gives its storage back when empty. */
module Leases {
  import opened Buffers
  import opened Hosts
  import opened Protocol

  const LARGEST_CLASS := 73728

  /** What a lease's user is promised of a request for `needed` bytes: live bytes, answer and capacity. */
  ghost predicate Ensured(max: nat, needed: nat, r: Result<()>, before: Bytes, after: Bytes, had: nat, has: nat)
  {
    && after == before && has >= had
    && (r == Err(PayloadTooLarge) <==> needed > max || (needed > LARGEST_CLASS && needed > had))
    && (r.Ok? ==> has >= needed)
    && (r.Err? ==> (r.error == PayloadTooLarge || r.error == Io) && has == had)
  }

  /**
    * Room for `needed` bytes, keeping exactly the live ones; a larger block may
    * bring any bytes with it. It fails for size exactly past the buffer's
    * maximum or the largest size class, and otherwise only when the host does.
    */
  method Ensure(buf: Buffer, needed: nat, host: Host) returns (r: Result<()>)
    requires buf.Valid()
    modifies buf, host
    ensures buf.Valid()
    ensures Ensured(buf.max, needed, r, old(buf.Filled()), buf.Filled(), old(buf.Capacity()), buf.Capacity())
    ensures r.Err? ==> unchanged(buf)
    ensures host.faults == if r == Err(Io) then old(host.faults) + 1 else old(host.faults)
    ensures old(buf.Capacity()) >= needed && needed <= buf.max ==> r.Ok? && unchanged(buf)
  {
    if needed > buf.max {
      return Err(PayloadTooLarge);
    }
    if buf.Capacity() >= needed {
      return Ok(());
    }
    if needed > LARGEST_CLASS {
      return Err(PayloadTooLarge);
    }
    var granted, block := host.Allocate(needed);
    if !granted {
      return Err(Io);
    }
    var previous := buf.ReplaceStorage(block);
    r := Ok(());
  }

  method ReleaseEmpty(buf: Buffer)
    requires buf.Valid()
    modifies buf
    ensures buf.Valid() && buf.Filled() == old(buf.Filled())
    ensures buf.Filled() != [] ==> unchanged(buf)
  {
    var taken := buf.TakeEmptyStorage();
  }
}
