/**
  * The byte buffer every record is sealed and opened in: a fixed allocation
  * with a live range. `storage` holds the committed bytes, `spare` the rest of
  * the allocation with whatever bytes it was left with.
  */
module Buffers {
  import opened Protocol

  class Buffer {
    var storage: Bytes
    var spare: Bytes
    var start: nat
    const max: nat

    ghost predicate Valid()
      reads this
    {
      start <= |storage| <= max
    }

    /** The live bytes. */
    function Filled(): Bytes
      requires Valid()
      reads this
    {
      storage[start..]
    }

    function Capacity(): nat
      reads this
    {
      |storage| + |spare|
    }

    function Limit(): nat
      reads this
    {
      if Capacity() < max then Capacity() else max
    }

    /** Bytes that can be committed without moving anything. */
    function Room(): nat
      requires Valid()
      reads this
    {
      Limit() - |storage|
    }

    constructor (max: nat)
      ensures Valid() && Filled() == [] && this.max == max && Capacity() == 0
    {
      this.max := max;
      storage, spare, start := [], [], 0;
    }

    method Compact()
      requires Valid()
      modifies this
      ensures Valid() && Filled() == old(Filled()) && start == 0
      ensures Capacity() == old(Capacity())
    {
      if start > 0 {
        var live := |storage| - start;
        spare := storage[live..] + spare;
        storage := storage[start..];
        start := 0;
      }
    }

    /**
      * At least `n` writable bytes. A failed request moves nothing; a request
      * that already fits moves nothing either.
      */
    method SpareCapacity(n: nat) returns (r: Result<nat>)
      requires Valid()
      modifies this
      ensures Valid() && Filled() == old(Filled()) && Capacity() == old(Capacity())
      ensures r.Err? ==> unchanged(this)
      ensures r == (if |Filled()| + n > max then Err(PayloadTooLarge)
                    else if |Filled()| + n > Limit() then Err(BufferTooSmall(|Filled()| + n, Capacity()))
                    else Ok(Room()))
      ensures r.Ok? ==> n <= Room() && (unchanged(this) || start == 0)
      ensures n <= old(Room()) ==> unchanged(this) && r.Ok?
    {
      var live := |storage| - start;
      if live + n > max {
        return Err(PayloadTooLarge);
      }
      if Limit() - live < n {
        return Err(BufferTooSmall(live + n, Capacity()));
      }
      if Limit() - |storage| < n {
        Compact();
      }
      r := Ok(Limit() - |storage|);
    }

    /** Zero-fill and commit `n` spare bytes. */
    method ExtendZeroed(n: nat)
      requires Valid()
      requires n <= Room()
      modifies this
      ensures Valid() && start == old(start)
      ensures storage == old(storage) + Zeros(n)
      ensures spare == old(spare)[n..]
    {
      storage, spare := storage + Zeros(n), spare[n..];
    }

    /**
      * Hold room for a whole record and commit its first `fixed` bytes as
      * zeros. Everything committed within `total` bytes of the returned index
      * then fits without moving.
      */
    method ReserveRecord(total: nat, fixed: nat) returns (r: Result<nat>)
      requires Valid()
      requires fixed <= total
      modifies this
      ensures Valid() && Capacity() == old(Capacity())
      ensures r.Err? ==> unchanged(this)
      ensures r.Err? <==> |old(Filled())| + total > Limit()
      ensures r.Err? ==> r.error == (if |Filled()| + total > max then PayloadTooLarge
                                     else BufferTooSmall(|Filled()| + total, Capacity()))
      ensures r.Ok? ==> Filled() == old(Filled()) + Zeros(fixed)
      ensures r.Ok? ==> r.value == |storage| - fixed >= start && r.value + total <= Limit()
    {
      var room := SpareCapacity(total);
      if room.Err? {
        return Err(room.error);
      }
      var at := |storage|;
      ExtendZeroed(fixed);
      r := Ok(at);
    }

    method ExtendFromSlice(bytes: Bytes) returns (r: Result<()>)
      requires Valid()
      modifies this
      ensures Valid() && Capacity() == old(Capacity())
      ensures r.Err? ==> unchanged(this)
      ensures r.Err? <==> bytes != [] && |old(Filled())| + |bytes| > Limit()
      ensures r.Ok? ==> Filled() == old(Filled()) + bytes
      ensures |bytes| <= old(Room()) ==>
        r.Ok? && start == old(start) && storage == old(storage) + bytes && spare == old(spare)[|bytes|..]
    {
      if bytes == [] {
        return Ok(());
      }
      var room := SpareCapacity(|bytes|);
      if room.Err? {
        return Err(room.error);
      }
      storage, spare := storage + bytes, spare[|bytes|..];
      r := Ok(());
    }

    /** Zero-commit up to absolute index `end`; committed bytes are never touched. */
    method ZeroExtendTo(end: nat)
      requires Valid()
      requires end <= Limit() || end <= |storage|
      modifies this
      ensures Valid() && start == old(start) && Capacity() == old(Capacity())
      ensures storage == if end <= |old(storage)| then old(storage) else old(storage) + Zeros(end - |old(storage)|)
    {
      if end >= |storage| {
        ExtendZeroed(end - |storage|);
        assert Zeros(0) == [];
      }
    }

    /** Move the committed end of the last record to absolute index `end`. */
    method SetRecordEnd(end: nat)
      requires Valid()
      requires start <= end <= Limit()
      modifies this
      ensures Valid() && start == old(start) && Capacity() == old(Capacity())
      ensures storage == if end <= |old(storage)| then old(storage)[..end]
                         else old(storage) + Zeros(end - |old(storage)|)
    {
      if end > |storage| {
        ZeroExtendTo(end);
      } else {
        spare := storage[end..] + spare;
        storage := storage[..end];
      }
    }

    /** Commit `n` spare bytes as they are. */
    method Commit(n: nat) returns (r: Result<()>)
      requires Valid()
      modifies this
      ensures Valid() && start == old(start) && Capacity() == old(Capacity())
      ensures r.Err? ==> unchanged(this)
      ensures r.Err? <==> n > old(Room())
      ensures r.Ok? ==> n <= |old(spare)| && storage == old(storage) + old(spare)[..n] && spare == old(spare)[n..]
    {
      var writable := Limit() - |storage|;
      if n > writable {
        return Err(BufferTooSmall(|storage| + n, |storage| + writable));
      }
      storage, spare := storage + spare[..n], spare[n..];
      r := Ok(());
    }

    /** Overwrite committed bytes from absolute index `at`. */
    method Write(at: nat, bytes: Bytes)
      requires Valid()
      requires at + |bytes| <= |storage|
      modifies this`storage
      ensures Valid()
      ensures storage == Splice(old(storage), at, bytes)
    {
      storage := Splice(storage, at, bytes);
    }

    /** Let a reader put `bytes` into the uncommitted tail. */
    method Scribble(bytes: Bytes)
      requires Valid()
      requires |bytes| <= |spare|
      modifies this`spare
      ensures Valid()
      ensures spare == bytes + old(spare)[|bytes|..]
    {
      spare := bytes + spare[|bytes|..];
    }

    method Truncate(len: nat) returns (r: Result<()>)
      requires Valid()
      modifies this
      ensures Valid() && start == old(start) && Capacity() == old(Capacity())
      ensures r.Err? ==> unchanged(this)
      ensures r.Ok? <==> old(start) <= len <= |old(storage)|
      ensures r.Ok? ==> storage == old(storage)[..len]
    {
      if len < start || len > |storage| {
        return Err(BufferTooSmall(len, |storage|));
      }
      spare := storage[len..] + spare;
      storage := storage[..len];
      r := Ok(());
    }

    method Consume(n: nat) returns (r: Result<()>)
      requires Valid()
      modifies this
      ensures Valid() && Capacity() == old(Capacity())
      ensures r.Err? ==> unchanged(this)
      ensures r.Ok? <==> n <= |old(Filled())|
      ensures r.Ok? ==> Filled() == old(Filled())[n..]
    {
      if n > |storage| - start {
        return Err(BufferTooSmall(n, |storage| - start));
      }
      start := start + n;
      if start == |storage| {
        spare := storage + spare;
        storage, start := [], 0;
      }
      r := Ok(());
    }

    /** Exchange the allocation, keeping exactly the live bytes. */
    method ReplaceStorage(block: Bytes) returns (r: Result<nat>)
      requires Valid()
      modifies this
      ensures Valid() && Filled() == old(Filled())
      ensures r.Ok? <==> |old(Filled())| <= |block|
      ensures r.Err? ==> unchanged(this)
      ensures r.Ok? ==> r.value == old(Capacity()) && Capacity() == |block| && start == 0
    {
      var live := |storage| - start;
      if |block| < live {
        return Err(BufferTooSmall(live, |block|));
      }
      r := Ok(Capacity());
      spare := block[live..];
      storage := storage[start..];
      start := 0;
    }

    /** Give up the allocation when nothing in it is live. */
    method TakeEmptyStorage() returns (r: Option<nat>)
      requires Valid()
      modifies this
      ensures Valid() && Filled() == old(Filled())
      ensures r.Some? <==> old(Filled()) == []
      ensures r.None? ==> unchanged(this)
      ensures r.Some? ==> r.value == old(Capacity()) && Capacity() == 0
    {
      if start != |storage| {
        return None;
      }
      r := Some(Capacity());
      storage, spare, start := [], [], 0;
    }
  }
}
