/**
  * The shared buffer pool: a bounded cache of blocks in four queues, and one
  * counter of leased bytes that every lease updates on its own. A lease moves
  * storage in small atomic steps; between them other leases may do theirs.
  */
module Pools {
  import opened Leases
  import opened Protocol

  const SHARDS := 4
  const SHARD_BLOCKS := 16
  const MAX_CACHED_CAPACITY := LARGEST_CLASS

  const CLASSES: seq<nat> := [64, 128, 256, 512, 1024, 2048, 4096, 8192, 16384, 32768, 65536, 73728]

  /** An allocation, named by `id`, and the bytes in it; one without capacity is no allocation. */
  datatype Block = Block(id: nat, capacity: nat, bytes: Bytes)

  const NO_BLOCK := Block(0, 0, [])

  /** Where a lease is between two of its steps; a block in a stage is in the lease's hands. */
  datatype Stage =
    | Idle
    | Drawing
    | Scanning(needed: nat, offset: nat)
    | Popping(needed: nat, offset: nat, left: nat)
    | PuttingBack(needed: nat, offset: nat, left: nat, block: Block)
    | Granted(block: Block)
    | Counted(block: Block)
    | Replaced(block: Block)
    | Returning(block: Block, shard: nat, final: bool)
    | Returned(capacity: nat, final: bool)
    | Gone

  /** A buffer on lease: the bytes of `storage` from `start` on are live. `answer` is that of the last request. */
  datatype Lease = Lease(storage: Block, start: nat, max: nat, shard: Option<nat>, wanted: nat, answer: Result<()>,
                         stage: Stage)

  datatype PoolStep =
    | Open(max: nat)
    | OpenEmpty(max: nat)
    | Ask(lease: nat, needed: nat)
    | Use(lease: nat, bytes: Bytes, start: nat)
    | Release(lease: nat)
    | Close(lease: nat)
    | Go(lease: nat, grants: bool)

  function Live(l: Lease): Bytes
  {
    if l.start <= |l.storage.bytes| then l.storage.bytes[l.start..] else []
  }

  // ---- Sums over leases ----

  function Sum(f: Lease -> nat, leases: seq<Lease>): nat
  {
    if leases == [] then 0 else f(leases[0]) + Sum(f, leases[1..])
  }

  lemma {:induction false} SumUpdates(f: Lease -> nat, leases: seq<Lease>, i: nat, l: Lease)
    requires i < |leases|
    ensures Sum(f, leases[i := l]) + f(leases[i]) == Sum(f, leases) + f(l)
    ensures f(leases[i]) <= Sum(f, leases)
  {
    if i == 0 {
      assert leases[0 := l][1..] == leases[1..];
    } else {
      assert leases[i := l][1..] == leases[1..][i - 1 := l];
      SumUpdates(f, leases[1..], i - 1, l);
    }
  }

  lemma {:induction false} SumAppends(f: Lease -> nat, leases: seq<Lease>, l: Lease)
    ensures Sum(f, leases + [l]) == Sum(f, leases) + f(l)
  {
    if leases == [] {
      assert [l][1..] == [];
    } else {
      assert (leases + [l])[1..] == leases[1..] + [l];
      SumAppends(f, leases[1..], l);
    }
  }

  /** Bytes the counter owes to a lease: what it holds, and what it has added or not yet taken off. */
  function Debt(l: Lease): nat
  {
    l.storage.capacity +
    match l.stage
    case Counted(b) => b.capacity
    case Replaced(b) => b.capacity
    case Returning(b, _, _) => b.capacity
    case Returned(n, _) => n
    case _ => 0
  }

  function Capacity(l: Lease): nat { l.storage.capacity }

  /** The most steps one look at a queue takes. */
  const QUEUE_WORK := 2 * SHARD_BLOCKS + 1

  /** The most steps a lease has left in what it is doing. */
  function Work(l: Lease): nat
  {
    match l.stage
    case Idle => 0
    case Gone => 0
    case Drawing => 4
    case Scanning(_, offset) => 5 + Max(SHARDS - offset, 0) * QUEUE_WORK
    case Popping(_, offset, left) => 5 + Max(SHARDS - offset - 1, 0) * QUEUE_WORK + 2 * left
    case PuttingBack(_, offset, left, _) => 5 + Max(SHARDS - offset - 1, 0) * QUEUE_WORK + 2 * left + 1
    case Granted(_) => 3
    case Counted(_) => 2
    case Replaced(_) => 1
    case Returning(_, _, _) => 2
    case Returned(_, _) => 1
  }

  /** The lease was dropped, if not yet all the way. */
  predicate Closing(l: Lease)
  {
    match l.stage
    case Returning(_, _, final) => final
    case Returned(_, final) => final
    case Gone => true
    case _ => false
  }

  /** A step closer to the end, with the same live bytes. */
  predicate Nearer(l: Lease, m: Lease) { Live(m) == Live(l) && Work(m) < Work(l) && (Closing(l) ==> Closing(m)) }

  /** What a lease's own steps leave of it: its live bytes, and that it was dropped. */
  predicate Settled(l: Lease, m: Lease) { Live(m) == Live(l) && (Closing(l) ==> Closing(m)) }

  ghost predicate AllSettled(was: seq<Lease>, leases: seq<Lease>)
  {
    |leases| == |was| && forall j :: 0 <= j < |leases| ==> Settled(was[j], leases[j])
  }

  lemma SettledOn(was: seq<Lease>, before: seq<Lease>, i: nat, l: Lease)
    requires AllSettled(was, before) && i < |before| && Settled(before[i], l)
    ensures AllSettled(was, before[i := l])
  {
  }

  predicate Quiet(leases: seq<Lease>)
  {
    forall i :: 0 <= i < |leases| ==> Work(leases[i]) == 0
  }

  /** With no step in flight, the counter is the sum of the capacities on lease. */
  lemma {:induction false} QuietTotal(leases: seq<Lease>)
    requires Quiet(leases)
    ensures Sum(Debt, leases) == Sum(Capacity, leases)
  {
    if leases != [] {
      assert Work(leases[0]) == 0;
      QuietTotal(leases[1..]);
    }
  }

  lemma {:induction false} NothingHeld(leases: seq<Lease>)
    requires forall i :: 0 <= i < |leases| ==> leases[i].storage.capacity == 0
    ensures Sum(Capacity, leases) == 0
  {
    if leases != [] {
      NothingHeld(leases[1..]);
    }
  }

  // ---- Who holds which allocation ----

  /** Whether the block is allocation `id`. */
  function Own(id: nat, b: Block): nat { if b.capacity > 0 && b.id == id then 1 else 0 }

  function Queued(id: nat, queue: seq<Block>): nat
  {
    if queue == [] then 0 else Own(id, queue[0]) + Queued(id, queue[1..])
  }

  lemma {:induction false} QueuedAppends(id: nat, queue: seq<Block>, b: Block)
    ensures Queued(id, queue + [b]) == Queued(id, queue) + Own(id, b)
  {
    if queue == [] {
      assert [b][1..] == [];
    } else {
      assert (queue + [b])[1..] == queue[1..] + [b];
      QueuedAppends(id, queue[1..], b);
    }
  }

  /** How often the cache holds allocation `id`. */
  function Shelved(id: nat, shards: seq<seq<Block>>): nat
  {
    if shards == [] then 0 else Queued(id, shards[0]) + Shelved(id, shards[1..])
  }

  lemma {:induction false} ShelvedUpdates(id: nat, shards: seq<seq<Block>>, s: nat, queue: seq<Block>)
    requires s < |shards|
    ensures Shelved(id, shards[s := queue]) + Queued(id, shards[s]) == Shelved(id, shards) + Queued(id, queue)
  {
    if s == 0 {
      assert shards[0 := queue][1..] == shards[1..];
    } else {
      assert shards[s := queue][1..] == shards[1..][s - 1 := queue];
      ShelvedUpdates(id, shards[1..], s - 1, queue);
    }
  }

  /** How often a lease has allocation `id`, in its buffer or in its hands. */
  function Hands(id: nat, l: Lease): nat
  {
    Own(id, l.storage) +
    match l.stage
    case PuttingBack(_, _, _, b) => Own(id, b)
    case Granted(b) => Own(id, b)
    case Counted(b) => Own(id, b)
    case Replaced(b) => Own(id, b)
    case Returning(b, _, _) => Own(id, b)
    case _ => 0
  }

  function HandsOf(id: nat): Lease -> nat { (l: Lease) => Hands(id, l) }

  /** Allocation `id`, once made, is in at most one place. */
  predicate InOnePlace(id: nat, shards: seq<seq<Block>>, leases: seq<Lease>, made: nat)
  {
    Shelved(id, shards) + Sum(HandsOf(id), leases) <= if id < made then 1 else 0
  }

  ghost predicate Exclusive(shards: seq<seq<Block>>, leases: seq<Lease>, made: nat)
  {
    forall id :: InOnePlace(id, shards, leases, made)
  }

  lemma {:induction false} EmptyShelves(id: nat, shards: seq<seq<Block>>)
    requires forall s :: 0 <= s < |shards| ==> shards[s] == []
    ensures Shelved(id, shards) == 0
  {
    if shards != [] {
      EmptyShelves(id, shards[1..]);
    }
  }

  lemma NothingShelved(shards: seq<seq<Block>>)
    requires forall s :: 0 <= s < |shards| ==> shards[s] == []
    ensures Exclusive(shards, [], 0)
  {
    forall id
      ensures InOnePlace(id, shards, [], 0)
    {
      EmptyShelves(id, shards);
    }
  }

  /** Queues and lease together hold allocation `id` no more often than before. */
  predicate NoMore(id: nat, shards: seq<seq<Block>>, l: Lease, queues: seq<seq<Block>>, m: Lease)
  {
    Shelved(id, queues) + Hands(id, m) <= Shelved(id, shards) + Hands(id, l)
  }

  lemma ExclusiveUpdates(shards: seq<seq<Block>>, leases: seq<Lease>, made: nat, i: nat, queues: seq<seq<Block>>, m: Lease)
    requires Exclusive(shards, leases, made) && i < |leases|
    requires forall id :: NoMore(id, shards, leases[i], queues, m)
    ensures Exclusive(queues, leases[i := m], made)
  {
    var after := leases[i := m];
    forall id
      ensures InOnePlace(id, queues, after, made)
    {
      SumUpdates(HandsOf(id), leases, i, m);
      assert InOnePlace(id, shards, leases, made) && NoMore(id, shards, leases[i], queues, m);
    }
  }

  lemma ExclusiveAppends(shards: seq<seq<Block>>, leases: seq<Lease>, made: nat, l: Lease)
    requires Exclusive(shards, leases, made) && forall id :: Hands(id, l) == 0
    ensures Exclusive(shards, leases + [l], made)
  {
    forall id
      ensures InOnePlace(id, shards, leases + [l], made)
    {
      SumAppends(HandsOf(id), leases, l);
      assert InOnePlace(id, shards, leases, made) && Hands(id, l) == 0;
    }
  }

  /** A new allocation is in one place. */
  lemma ExclusiveMade(shards: seq<seq<Block>>, leases: seq<Lease>, made: nat, i: nat, m: Lease)
    requires Exclusive(shards, leases, made) && i < |leases|
    requires forall id :: Hands(id, m) <= Hands(id, leases[i]) + if id == made then 1 else 0
    ensures Exclusive(shards, leases[i := m], made + 1)
  {
    var after, now := leases[i := m], made + 1;
    forall id
      ensures InOnePlace(id, shards, after, now)
    {
      SumUpdates(HandsOf(id), leases, i, m);
      assert InOnePlace(id, shards, leases, made);
      assert Hands(id, m) <= Hands(id, leases[i]) + if id == made then 1 else 0;
    }
  }

  // ---- Sizes and queues ----

  /** A cached block holds nothing and is of bounded size. */
  predicate Cacheable(b: Block) { 0 < b.capacity <= MAX_CACHED_CAPACITY && b.bytes == [] }

  ghost predicate QueueOk(q: seq<Block>)
  {
    |q| <= SHARD_BLOCKS && forall j :: 0 <= j < |q| ==> Cacheable(q[j])
  }

  ghost predicate CacheOk(shards: seq<seq<Block>>)
  {
    |shards| == SHARDS && forall i :: 0 <= i < SHARDS ==> QueueOk(shards[i])
  }

  /** The smallest size class that holds `needed` bytes. */
  method ClassFor(needed: nat) returns (r: Option<nat>)
    ensures needed <= MAX_CACHED_CAPACITY <==> r.Some?
    ensures r.Some? ==> r.value in CLASSES && needed <= r.value <= MAX_CACHED_CAPACITY
    ensures r.Some? ==> forall c :: c in CLASSES && needed <= c ==> r.value <= c
  {
    var i := 0;
    while i < |CLASSES|
      invariant i <= |CLASSES|
      invariant forall j :: 0 <= j < i ==> CLASSES[j] < needed
    {
      if needed <= CLASSES[i] {
        return Some(CLASSES[i]);
      }
      i := i + 1;
    }
    assert CLASSES[11] < needed;
    r := None;
  }

  /** The queue the scan of a lease looks at after `offset` others. */
  function Slot(l: Lease, offset: nat): (s: nat)
    ensures s < SHARDS
  {
    ((if l.shard.Some? then l.shard.value else 0) + offset) % SHARDS
  }

  /** What a lease in that stage has to be like. */
  predicate Sane(l: Lease)
  {
    && l.start <= |l.storage.bytes| <= l.storage.capacity
    && (match l.shard
        case None => l.storage.capacity == 0
        case Some(s) => s < SHARDS)
    && match l.stage
       case Idle => l.answer.Ok? ==> l.wanted <= l.storage.capacity
       case Drawing => l.shard.Some? && l.wanted == 0 && l.storage == NO_BLOCK
       case Scanning(needed, offset) => Seeking(l, needed) && offset <= SHARDS
       case Popping(needed, offset, left) => Seeking(l, needed) && offset < SHARDS && 0 < left <= SHARD_BLOCKS
       case PuttingBack(needed, offset, left, b) =>
         Seeking(l, needed) && offset < SHARDS && left < SHARD_BLOCKS && Cacheable(b) && b.capacity < needed
       case Granted(b) => Suits(l, b)
       case Counted(b) => Suits(l, b)
       case Replaced(_) => l.shard.Some? && l.wanted <= l.storage.capacity
       case Returning(b, shard, _) => shard < SHARDS && b.capacity > 0 && l.storage == NO_BLOCK && l.wanted == 0
       case Returned(_, _) => l.storage == NO_BLOCK && l.wanted == 0
       case Gone => l.storage == NO_BLOCK
  }

  predicate Seeking(l: Lease, needed: nat) { l.shard.Some? && l.storage.capacity < needed == l.wanted }

  predicate Suits(l: Lease, b: Block)
  {
    l.shard.Some? && |Live(l)| <= b.capacity && l.wanted <= b.capacity <= MAX_CACHED_CAPACITY
  }

  /** The oldest block of a queue moves to a lease. */
  lemma BlockLeaves(shards: seq<seq<Block>>, s: nat, l: Lease, m: Lease, queues: seq<seq<Block>>)
    requires CacheOk(shards) && s < SHARDS && shards[s] != [] && queues == shards[s := shards[s][1..]]
    requires forall id :: Hands(id, m) == Hands(id, l) + Own(id, shards[s][0])
    ensures Cacheable(shards[s][0]) && CacheOk(queues)
    ensures forall id :: NoMore(id, shards, l, queues, m)
  {
    assert QueueOk(shards[s]);
    forall id
      ensures NoMore(id, shards, l, queues, m)
    {
      ShelvedUpdates(id, shards, s, shards[s][1..]);
      assert Hands(id, m) == Hands(id, l) + Own(id, shards[s][0]);
    }
  }

  /** A block moves from a lease to the end of a queue with room for it. */
  lemma BlockJoins(shards: seq<seq<Block>>, s: nat, b: Block, l: Lease, m: Lease, queues: seq<seq<Block>>)
    requires CacheOk(shards) && s < SHARDS && Cacheable(b) && |shards[s]| < SHARD_BLOCKS
    requires queues == shards[s := shards[s] + [b]]
    requires forall id :: Hands(id, l) == Hands(id, m) + Own(id, b)
    ensures CacheOk(queues)
    ensures forall id :: NoMore(id, shards, l, queues, m)
  {
    assert QueueOk(shards[s]);
    forall id
      ensures NoMore(id, shards, l, queues, m)
    {
      QueuedAppends(id, shards[s], b);
      ShelvedUpdates(id, shards, s, shards[s] + [b]);
      assert Hands(id, l) == Hands(id, m) + Own(id, b);
    }
  }

  class Pool {
    var shards: seq<seq<Block>>
    var next: nat
    var leased: nat
    var leases: seq<Lease>
    /** Allocations made so far. */
    var made: nat

    ghost predicate Valid()
      reads this
    {
      && CacheOk(shards)
      && leased == Sum(Debt, leases)
      && (forall i :: 0 <= i < |leases| ==> Sane(leases[i]))
      && Exclusive(shards, leases, made)
    }

    predicate Has(i: nat)
      reads this
    {
      i < |leases|
    }

    constructor ()
      ensures Valid() && leases == [] && leased == 0
    {
      shards := [[], [], [], []];
      next, leased, leases, made := 0, 0, [], 0;
      NothingShelved([[], [], [], []]);
    }

    /** Replace one lease and the queues, moving the counter by `added` up and `taken` down; no block appears. */
    method Put(i: nat, l: Lease, queues: seq<seq<Block>>, added: nat, taken: nat)
      requires Valid() && Has(i) && Sane(l) && CacheOk(queues)
      requires Debt(l) == Debt(leases[i]) + added - taken
      requires forall id :: NoMore(id, shards, leases[i], queues, l)
      modifies this`leases, this`leased, this`shards
      ensures Valid()
      ensures (shards, leased, leases) == (queues, old(leased) + added - taken, old(leases)[i := l])
    {
      SumUpdates(Debt, leases, i, l);
      ExclusiveUpdates(shards, leases, made, i, queues, l);
      leased := leased + added - taken;
      leases, shards := leases[i := l], queues;
    }

    /** Add a lease that holds nothing. */
    method Add(l: Lease)
      requires Valid() && Sane(l) && Debt(l) == 0 && forall id :: Hands(id, l) == 0
      modifies this`leases
      ensures Valid() && leases == old(leases) + [l]
    {
      SumAppends(Debt, leases, l);
      ExclusiveAppends(shards, leases, made, l);
      leases := leases + [l];
    }

    /** A new lease, about to draw a block from its shard. */
    method Get(max: nat) returns (id: nat)
      requires Valid()
      modifies this`next, this`leases
      ensures Valid() && id == |old(leases)| && next == old(next) + 1
      ensures leases == old(leases) + [Lease(NO_BLOCK, 0, max, Some(old(next) % SHARDS), 0, Ok(()), Drawing)]
    {
      var l := Lease(NO_BLOCK, 0, max, Some(next % SHARDS), 0, Ok(()), Drawing);
      next, id := next + 1, |leases|;
      Add(l);
    }

    method GetEmpty(max: nat) returns (id: nat)
      requires Valid()
      modifies this`leases
      ensures Valid() && id == |old(leases)|
      ensures leases == old(leases) + [Lease(NO_BLOCK, 0, max, None, 0, Ok(()), Idle)]
    {
      id := |leases|;
      Add(Lease(NO_BLOCK, 0, max, None, 0, Ok(()), Idle));
    }

    /** Take the oldest block of the lease's shard, if there is one. */
    method Draw(i: nat)
      requires Valid() && Has(i) && leases[i].stage.Drawing?
      modifies this`leases, this`leased, this`shards
      ensures Valid()
      ensures
        var l, s := old(leases[i]), Slot(old(leases[i]), 0);
        var q := old(shards)[s];
        (shards, leased, leases) ==
        if q == [] then (old(shards), old(leased), old(leases)[i := l.(stage := Granted(NO_BLOCK))])
        else (old(shards)[s := q[1..]], old(leased), old(leases)[i := l.(stage := Granted(q[0]))])
      ensures Has(i) && Nearer(old(leases[i]), leases[i])
    {
      var l, s := leases[i], Slot(leases[i], 0);
      if shards[s] == [] {
        Put(i, l.(stage := Granted(NO_BLOCK)), shards, 0, 0);
      } else {
        var m, queues := l.(stage := Granted(shards[s][0])), shards[s := shards[s][1..]];
        BlockLeaves(shards, s, l, m, queues);
        Put(i, m, queues, 0, 0);
      }
    }

    /** See how many blocks the next queue has, and look at no more than that. */
    method Look(i: nat)
      requires Valid() && Has(i) && leases[i].stage.Scanning? && leases[i].stage.offset < SHARDS
      modifies this`leases, this`leased, this`shards
      ensures Valid()
      ensures
        var l := old(leases[i]);
        var offset := l.stage.offset;
        var n := |old(shards)[Slot(l, offset)]|;
        var stage := if n == 0 then Scanning(l.wanted, offset + 1) else Popping(l.wanted, offset, n);
        (shards, leased, leases) == (old(shards), old(leased), old(leases)[i := l.(stage := stage)])
      ensures Has(i) && Nearer(old(leases[i]), leases[i])
    {
      var l := leases[i];
      var n := |shards[Slot(l, l.stage.offset)]|;
      assert QueueOk(shards[Slot(l, l.stage.offset)]);
      var stage := if n == 0 then Scanning(l.wanted, l.stage.offset + 1) else Popping(l.wanted, l.stage.offset, n);
      Put(i, l.(stage := stage), shards, 0, 0);
    }

    /** Take the oldest block of the queue: it fits, or has to go back; others may have emptied the queue. */
    method Pop(i: nat)
      requires Valid() && Has(i) && leases[i].stage.Popping?
      modifies this`leases, this`leased, this`shards
      ensures Valid()
      ensures
        var l := old(leases[i]);
        var offset, s := l.stage.offset, Slot(l, l.stage.offset);
        var q := old(shards)[s];
        if q == [] then
          (shards, leased, leases) ==
          (old(shards), old(leased), old(leases)[i := l.(stage := Scanning(l.wanted, offset + 1))])
        else
          var stage := if q[0].capacity >= l.wanted then Granted(q[0])
                       else PuttingBack(l.wanted, offset, l.stage.left - 1, q[0]);
          (shards, leased, leases) == (old(shards)[s := q[1..]], old(leased), old(leases)[i := l.(stage := stage)])
      ensures Has(i) && Nearer(old(leases[i]), leases[i])
    {
      var l := leases[i];
      var offset, s := l.stage.offset, Slot(l, l.stage.offset);
      if shards[s] == [] {
        Put(i, l.(stage := Scanning(l.wanted, offset + 1)), shards, 0, 0);
      } else {
        var b := shards[s][0];
        var stage := if b.capacity >= l.wanted then Granted(b) else PuttingBack(l.wanted, offset, l.stage.left - 1, b);
        var queues := shards[s := shards[s][1..]];
        BlockLeaves(shards, s, l, l.(stage := stage), queues);
        Put(i, l.(stage := stage), queues, 0, 0);
      }
    }

    /** Put an undersized block back at the end of its queue, unless a return filled its place meanwhile. */
    method PushBack(i: nat)
      requires Valid() && Has(i) && leases[i].stage.PuttingBack?
      modifies this`leases, this`leased, this`shards
      ensures Valid()
      ensures
        var l := old(leases[i]);
        var offset, left, s := l.stage.offset, l.stage.left, Slot(l, l.stage.offset);
        var q := old(shards)[s];
        var stage := if left == 0 then Scanning(l.wanted, offset + 1) else Popping(l.wanted, offset, left);
        (shards, leased, leases) ==
        (if |q| < SHARD_BLOCKS then old(shards)[s := q + [l.stage.block]] else old(shards),
         old(leased), old(leases)[i := l.(stage := stage)])
      ensures Has(i) && Nearer(old(leases[i]), leases[i])
    {
      var l := leases[i];
      var offset, left, s := l.stage.offset, l.stage.left, Slot(l, l.stage.offset);
      var stage := if left == 0 then Scanning(l.wanted, offset + 1) else Popping(l.wanted, offset, left);
      if |shards[s]| < SHARD_BLOCKS {
        var queues := shards[s := shards[s] + [l.stage.block]];
        BlockJoins(shards, s, l.stage.block, l, l.(stage := stage), queues);
        Put(i, l.(stage := stage), queues, 0, 0);
      } else {
        Put(i, l.(stage := stage), shards, 0, 0);
      }
    }

    /** No cached block was found: make one of the smallest class that will do. */
    method Allocate(i: nat, grants: bool)
      requires Valid() && Has(i) && leases[i].stage.Scanning? && leases[i].stage.offset == SHARDS
      modifies this`leases, this`leased, this`shards, this`made
      ensures Valid() && Has(i) && (shards, leased) == (old(shards), old(leased))
      ensures
        var l := old(leases[i]);
        if l.wanted > MAX_CACHED_CAPACITY || !grants then
          var error := if l.wanted > MAX_CACHED_CAPACITY then PayloadTooLarge else Io;
          (made, leases) == (old(made), old(leases)[i := l.(answer := Err(error), stage := Idle)])
        else
          && made == old(made) + 1 && leases[i].stage.Granted?
          && var b := leases[i].stage.block;
          && leases == old(leases)[i := l.(stage := Granted(b))]
          && b == Block(old(made), b.capacity, []) && b.capacity in CLASSES && l.wanted <= b.capacity
          && forall c :: c in CLASSES && l.wanted <= c ==> b.capacity <= c
      ensures Has(i) && Nearer(old(leases[i]), leases[i])
    {
      var l := leases[i];
      var size := ClassFor(l.wanted);
      if size.None? || !grants {
        Put(i, l.(answer := Err(if size.None? then PayloadTooLarge else Io), stage := Idle), shards, 0, 0);
      } else {
        PutMade(i, size.value);
      }
    }

    /** Hand a new allocation to a lease. */
    method PutMade(i: nat, size: nat)
      requires Valid() && Has(i) && leases[i].stage.Scanning? && leases[i].wanted <= size <= MAX_CACHED_CAPACITY
      modifies this`leases, this`made
      ensures Valid() && made == old(made) + 1
      ensures leases == old(leases)[i := old(leases[i]).(stage := Granted(Block(old(made), size, [])))]
    {
      var l := leases[i].(stage := Granted(Block(made, size, [])));
      SumUpdates(Debt, leases, i, l);
      ExclusiveMade(shards, leases, made, i, l);
      leases, made := leases[i := l], made + 1;
    }

    /** Add the block in hand to the counter. */
    method Count(i: nat)
      requires Valid() && Has(i) && leases[i].stage.Granted?
      modifies this`leases, this`leased, this`shards
      ensures Valid()
      ensures
        var l, b := old(leases[i]), old(leases[i]).stage.block;
        (shards, leased, leases) == (old(shards), old(leased) + b.capacity, old(leases)[i := l.(stage := Counted(b))])
      ensures Has(i) && Nearer(old(leases[i]), leases[i])
    {
      var l, b := leases[i], leases[i].stage.block;
      Put(i, l.(stage := Counted(b)), shards, b.capacity, 0);
    }

    /** Copy the live bytes, and only those, into the counted block, and use it from now on. */
    method Swap(i: nat)
      requires Valid() && Has(i) && leases[i].stage.Counted?
      modifies this`leases, this`leased, this`shards
      ensures Valid() && (shards, leased) == (old(shards), old(leased))
      ensures
        var l, b := old(leases[i]), old(leases[i]).stage.block;
        leases == old(leases)[i := l.(storage := b.(bytes := Live(l)), start := 0, stage := Replaced(l.storage.(bytes := [])))]
      ensures Has(i) && Nearer(old(leases[i]), leases[i])
    {
      var l, b := leases[i], leases[i].stage.block;
      var cleared := b.(bytes := []);
      var copied := cleared.(bytes := cleared.bytes + Live(l));
      assert copied == b.(bytes := Live(l));
      Put(i, l.(storage := copied, start := 0, stage := Replaced(l.storage.(bytes := []))), shards, 0, 0);
    }

    /** Take the replaced block off the counter; it is not cached. */
    method Discard(i: nat)
      requires Valid() && Has(i) && leases[i].stage.Replaced?
      modifies this`leases, this`leased, this`shards
      ensures Valid()
      ensures
        var l, b := old(leases[i]), old(leases[i]).stage.block;
        && b.capacity <= old(leased)
        && (shards, leased, leases) ==
           (old(shards), old(leased) - b.capacity, old(leases)[i := l.(answer := Ok(()), stage := Idle)])
      ensures Has(i) && Nearer(old(leases[i]), leases[i])
    {
      var l := leases[i];
      SumUpdates(Debt, leases, i, l);
      Put(i, l.(answer := Ok(()), stage := Idle), shards, 0, l.stage.block.capacity);
    }

    /** Ask for room for `needed` bytes: refused, already there, or to be looked for. */
    method Request(i: nat, needed: nat)
      requires Valid() && Has(i) && leases[i].stage.Idle?
      modifies this`leases, this`leased, this`shards, this`next
      ensures Valid() && (shards, leased) == (old(shards), old(leased))
      ensures
        var l := old(leases[i]);
        var settled := needed > l.max || needed <= l.storage.capacity;
        var s := if l.shard.Some? then l.shard else Some(old(next) % SHARDS);
        && next == (if settled || l.shard.Some? then old(next) else old(next) + 1)
        && leases == old(leases)[i :=
             if settled then l.(wanted := needed, answer := if needed > l.max then Err(PayloadTooLarge) else Ok(()))
             else l.(wanted := needed, shard := s, stage := Scanning(needed, 0))]
    {
      var l := leases[i];
      if needed > l.max {
        Put(i, l.(wanted := needed, answer := Err(PayloadTooLarge)), shards, 0, 0);
      } else if needed <= l.storage.capacity {
        Put(i, l.(wanted := needed, answer := Ok(())), shards, 0, 0);
      } else {
        var s := if l.shard.Some? then l.shard else Some(next % SHARDS);
        next := if l.shard.Some? then next else next + 1;
        Put(i, l.(wanted := needed, shard := s, stage := Scanning(needed, 0)), shards, 0, 0);
      }
    }

    /** Use the room a lease has: what it holds, and which of that is still live. */
    method Fill(i: nat, bytes: Bytes, start: nat)
      requires Valid() && Has(i) && leases[i].stage.Idle? && start <= |bytes| <= leases[i].storage.capacity
      modifies this`leases, this`leased, this`shards
      ensures Valid() && (shards, leased) == (old(shards), old(leased))
      ensures
        var l := old(leases[i]);
        leases == old(leases)[i := l.(storage := l.storage.(bytes := bytes), start := start)]
    {
      var l := leases[i];
      Put(i, l.(storage := l.storage.(bytes := bytes), start := start), shards, 0, 0);
    }

    /** What is left of a lease that gives its storage up. */
    function Emptied(l: Lease, final: bool): Lease
    {
      var stage := if l.shard.Some? && l.storage.capacity > 0 then Returning(l.storage, l.shard.value, final)
                   else if final then Gone else Idle;
      Lease(NO_BLOCK, 0, l.max, None, 0, Ok(()), stage)
    }

    /** Give up the storage of a lease with nothing live in it. */
    method ReleaseEmpty(i: nat)
      requires Valid() && Has(i) && leases[i].stage.Idle?
      modifies this`leases, this`leased, this`shards
      ensures Valid() && (shards, leased) == (old(shards), old(leased))
      ensures
        var l := old(leases[i]);
        leases == if Live(l) == [] then old(leases)[i := Emptied(l, false)] else old(leases)
    {
      var l := leases[i];
      if Live(l) == [] {
        Put(i, Emptied(l, false), shards, 0, 0);
      }
    }

    /** Drop a lease, with whatever is still in it. */
    method Drop(i: nat)
      requires Valid() && Has(i) && leases[i].stage.Idle?
      modifies this`leases, this`leased, this`shards
      ensures Valid() && (shards, leased) == (old(shards), old(leased))
      ensures leases == old(leases)[i := Emptied(old(leases[i]), true)]
    {
      Put(i, Emptied(leases[i], true), shards, 0, 0);
    }

    /** Clear a returned block and cache it, if it is not too large and its queue has room. */
    method Cache(i: nat)
      requires Valid() && Has(i) && leases[i].stage.Returning?
      modifies this`leases, this`leased, this`shards
      ensures Valid() && leased == old(leased)
      ensures
        var l := old(leases[i]);
        var b, s := l.stage.block, l.stage.shard;
        var q := old(shards)[s];
        && shards == (if b.capacity <= MAX_CACHED_CAPACITY && |q| < SHARD_BLOCKS
                      then old(shards)[s := q + [b.(bytes := [])]] else old(shards))
        && leases == old(leases)[i := l.(stage := Returned(b.capacity, l.stage.final))]
      ensures Has(i) && Nearer(old(leases[i]), leases[i])
    {
      var l := leases[i];
      var s, b := l.stage.shard, l.stage.block.(bytes := []);
      var m := l.(stage := Returned(b.capacity, l.stage.final));
      if b.capacity <= MAX_CACHED_CAPACITY && |shards[s]| < SHARD_BLOCKS {
        var queues := shards[s := shards[s] + [b]];
        BlockJoins(shards, s, b, l, m, queues);
        Put(i, m, queues, 0, 0);
      } else {
        Put(i, m, shards, 0, 0);
      }
    }

    /** Take the returned block off the counter. */
    method Uncount(i: nat)
      requires Valid() && Has(i) && leases[i].stage.Returned?
      modifies this`leases, this`leased, this`shards
      ensures Valid()
      ensures
        var l := old(leases[i]);
        && l.stage.capacity <= old(leased)
        && (shards, leased, leases) ==
           (old(shards), old(leased) - l.stage.capacity,
            old(leases)[i := l.(stage := if l.stage.final then Gone else Idle)])
      ensures Has(i) && Nearer(old(leases[i]), leases[i])
    {
      var l := leases[i];
      SumUpdates(Debt, leases, i, l);
      Put(i, l.(stage := if l.stage.final then Gone else Idle), shards, 0, l.stage.capacity);
    }

    /** The next step of a lease that is in the middle of something: it alone changes, and it comes closer to the end. */
    method Advance(i: nat, grants: bool)
      requires Valid() && Has(i)
      modifies this
      ensures Valid() && Has(i) && leases == old(leases)[i := leases[i]]
      ensures if Work(old(leases[i])) == 0 then unchanged(this) else Nearer(old(leases[i]), leases[i])
      ensures Moves(old(leases[i]), leases[i], grants)
    {
      match leases[i].stage {
        case Idle =>
        case Gone =>
        case Drawing => Draw(i);
        case Scanning(_, offset) =>
          if offset < SHARDS {
            Look(i);
          } else {
            Allocate(i, grants);
          }
        case Popping(_, _, _) => Pop(i);
        case PuttingBack(_, _, _, _) => PushBack(i);
        case Granted(_) => Count(i);
        case Counted(_) => Swap(i);
        case Replaced(_) => Discard(i);
        case Returning(_, _, _) => Cache(i);
        case Returned(_, _) => Uncount(i);
      }
    }

    /** One atomic step of some lease, if the lease is where the step starts. */
    method Step(step: PoolStep)
      requires Valid()
      modifies this
      ensures Valid() && Did(step, old(leases), leases)
    {
      match step {
        case Open(max) =>
          var id := Get(max);
        case OpenEmpty(max) =>
          var id := GetEmpty(max);
        case Ask(i, needed) =>
          if Ready(i, leases) {
            Request(i, needed);
          }
        case Use(i, bytes, start) =>
          if Ready(i, leases) && start <= |bytes| <= leases[i].storage.capacity {
            Fill(i, bytes, start);
          }
        case Release(i) =>
          if Ready(i, leases) {
            ReleaseEmpty(i);
          }
        case Close(i) =>
          if Ready(i, leases) {
            Drop(i);
          }
        case Go(i, grants) =>
          if Has(i) {
            Advance(i, grants);
          }
      }
    }

    /**
      * Over any interleaving of steps the cache stays bounded and clean, no
      * allocation is in two places, every granted request has its room, and the
      * counter is right; a lease's live bytes change only as its holder uses or
      * closes it.
      */
    method Interleave(steps: seq<PoolStep>)
      requires Valid()
      modifies this
      ensures Valid() && |old(leases)| <= |leases|
      ensures forall j :: 0 <= j < |old(leases)| && Untouched(steps, j) ==> Live(leases[j]) == Live(old(leases)[j])
      ensures Quiet(leases) ==> leased == Sum(Capacity, leases)
    {
      for k := 0 to |steps|
        invariant Valid() && |old(leases)| <= |leases|
        invariant forall j :: 0 <= j < |old(leases)| && Untouched(steps, j) ==> Live(leases[j]) == Live(old(leases)[j])
      {
        ghost var before := leases;
        Step(steps[k]);
        DidKeeps(steps[k], before, leases);
      }
      if Quiet(leases) {
        QuietTotal(leases);
      }
    }

    /** Left to themselves, leases finish what they are doing, in whatever order they go. */
    method Settle() returns (taken: nat)
      requires Valid()
      modifies this
      ensures Valid() && Quiet(leases) && leased == Sum(Capacity, leases)
      ensures taken <= Sum(Work, old(leases))
      ensures AllSettled(old(leases), leases)
    {
      taken := 0;
      while !Quiet(leases)
        invariant Valid() && taken + Sum(Work, leases) <= Sum(Work, old(leases))
        invariant AllSettled(old(leases), leases)
        decreases Sum(Work, leases)
      {
        var i := BusyOne();
        var grants: bool := *;
        ghost var before := leases;
        Advance(i, grants);
        SumUpdates(Work, before, i, leases[i]);
        SettledOn(old(leases), before, i, leases[i]);
        taken := taken + 1;
      }
      QuietTotal(leases);
    }

    /** Any steps of leases other than `i`. */
    method Meddle(i: nat, steps: seq<PoolStep>)
      requires Valid() && Has(i)
      modifies this
      ensures Valid() && Has(i) && leases[i] == old(leases[i])
    {
      for k := 0 to |steps|
        invariant Valid() && Has(i) && leases[i] == old(leases[i])
      {
        if Elsewhere(steps[k], i) {
          Step(steps[k]);
        }
      }
    }

    /**
      * A request and the lease's own steps, with any steps of others in between:
      * the user gets what `Leases.Ensure` promises, a refused allocation being
      * the only reason for an I/O error.
      */
    method Ensure(i: nat, needed: nat) returns (r: Result<()>, refused: bool)
      requires Valid() && Has(i) && leases[i].stage.Idle?
      modifies this
      ensures Valid() && Has(i) && leases[i].stage.Idle? && leases[i].answer == r
      ensures Ensured(leases[i].max, needed, r, Live(old(leases[i])), Live(leases[i]),
                      Capacity(old(leases[i])), Capacity(leases[i]))
      ensures r == Err(Io) ==> refused
      ensures r.Err? || needed <= Capacity(old(leases[i])) ==>
        leases[i].storage == old(leases[i]).storage && leases[i].start == old(leases[i]).start
    {
      ghost var was := leases[i];
      refused := false;
      Request(i, needed);
      while Work(leases[i]) > 0
        invariant Valid() && Has(i) && Pursues(was, needed, leases[i], refused)
        decreases Work(leases[i])
      {
        var steps: seq<PoolStep>, grants: bool := *, *;
        Meddle(i, steps);
        ghost var before := leases[i];
        Advance(i, grants);
        PursuesOn(was, needed, before, leases[i], grants, refused);
        refused := refused || !grants;
      }
      r := leases[i].answer;
    }

    /** Drop every lease. */
    method DropAll()
      requires Valid() && Quiet(leases)
      modifies this`leases, this`leased, this`shards
      ensures Valid() && |leases| == |old(leases)| && AllClosing(leases, |leases|)
    {
      for i := 0 to |leases|
        invariant Valid() && |leases| == |old(leases)| && AllClosing(leases, i)
        invariant forall j :: i <= j < |leases| ==> Work(leases[j]) == 0
      {
        assert Work(leases[i]) == 0;
        if leases[i].stage.Idle? {
          Drop(i);
        }
      }
    }

    /** Once every lease has been dropped and is done, nothing is leased. */
    method Shutdown()
      requires Valid() && Quiet(leases)
      modifies this
      ensures Valid() && leased == 0
      ensures |leases| == |old(leases)| && forall j :: 0 <= j < |leases| ==> leases[j].stage.Gone?
    {
      DropAll();
      ghost var dropped := leases;
      var taken := Settle();
      forall j | 0 <= j < |leases|
        ensures leases[j].stage.Gone?
      {
        assert Settled(dropped[j], leases[j]) && Closing(dropped[j]) && Work(leases[j]) == 0;
      }
      NothingHeld(leases);
    }

    /** Any lease that is not done. */
    method BusyOne() returns (i: nat)
      requires !Quiet(leases)
      ensures Has(i) && Work(leases[i]) > 0
    {
      i :| i < |leases| && Work(leases[i]) != 0;
    }

    /** One pop of an undisturbed scan, after `k` blocks have been put back. */
    method TryPop(i: nat, ghost l: Lease, ghost k: nat, ghost was: seq<seq<Block>>, ghost before: seq<Lease>)
      requires Valid() && Scannable(l, was, before, i) && MidScan(l, was, shards, before, leases, i, k)
      modifies this`leases, this`leased, this`shards
      ensures Valid() && leased == old(leased)
      ensures Scanned(l, was, shards, before, leases, i) || InHand(l, was, shards, before, leases, i, k)
    {
      ghost var queue := Rotated(was[Slot(l, l.stage.offset)], k);
      RotatedParts(was[Slot(l, l.stage.offset)], k);
      Pop(i);
      PopEnds(l, was, shards, before, leases, i, k, queue);
    }

    /** The push of an undisturbed scan that follows. */
    method TryPush(i: nat, ghost l: Lease, ghost k: nat, ghost was: seq<seq<Block>>, ghost before: seq<Lease>)
      requires Valid() && Scannable(l, was, before, i) && InHand(l, was, shards, before, leases, i, k)
      modifies this`leases, this`leased, this`shards
      ensures Valid() && leased == old(leased)
      ensures Scanned(l, was, shards, before, leases, i) || MidScan(l, was, shards, before, leases, i, k + 1)
    {
      ghost var s := Slot(l, l.stage.offset);
      ghost var q, holding, queues := was[s], leases[i], shards;
      ghost var tail := q[k + 1..] + q[..k];
      assert holding == l.(stage := PuttingBack(l.wanted, l.stage.offset, |q| - k - 1, q[k]));
      assert queues[s] == tail && |tail| == |q| - 1 && Slot(holding, l.stage.offset) == s;
      PushBack(i);
      assert shards == queues[s := tail + [q[k]]];
      PushEnds(l, was, shards, before, leases, i, k, tail);
    }

    /** The scan of one queue, undisturbed: it takes the first block that fits, or leaves the queue as it was. */
    method ScanQueue(i: nat)
      requires Valid() && Has(i) && leases[i].stage.Popping?
      requires leases[i].stage.left == |shards[Slot(leases[i], leases[i].stage.offset)]|
      modifies this`leases, this`leased, this`shards
      ensures Valid() && leased == old(leased)
      ensures Scanned(old(leases[i]), old(shards), shards, old(leases), leases, i)
    {
      ghost var l, was, before, k := leases[i], shards, leases, 0;
      ghost var q := was[Slot(l, l.stage.offset)];
      assert QueueOk(q) && Rotated(q, 0) == q;
      while leases[i].stage.Popping?
        invariant Valid() && leased == old(leased) && Has(i)
        invariant if leases[i].stage.Popping? then MidScan(l, was, shards, before, leases, i, k)
                  else Scanned(l, was, shards, before, leases, i)
        decreases |q| - k
      {
        TryPop(i, l, k, was, before);
        if leases[i].stage.PuttingBack? {
          TryPush(i, l, k, was, before);
        }
        k := k + 1;
      }
    }

    /** Look at one more queue. */
    method TryShard(i: nat, offset: nat, ghost l: Lease, ghost was: seq<seq<Block>>, ghost before: seq<Lease>)
      requires Valid() && i < |before| && |was| == SHARDS && offset < SHARDS
      requires Searching(l, was, shards, before, leases, i, offset)
      modifies this`leases, this`leased, this`shards
      ensures Valid() && leased == old(leased)
      ensures Found(l, was, shards, before, leases, i) || Searching(l, was, shards, before, leases, i, offset + 1)
    {
      ghost var scanning := leases[i];
      assert scanning == l.(stage := Scanning(l.wanted, offset)) && Slot(scanning, offset) == Slot(l, offset);
      Look(i);
      UpdateTwice(before, i, scanning, leases[i]);
      if leases[i].stage.Popping? {
        ghost var popping, looked := leases[i], leases;
        ScanQueue(i);
        ShardEnds(l, was, shards, before, looked, leases, i, offset);
      }
    }

    /**
      * The whole scan, undisturbed: a block of at least the size asked for is
      * taken and no other lost, or there is none in the cache and the cache is
      * as it was.
      */
    method TakeSuitable(i: nat)
      requires Valid() && Has(i) && leases[i].stage == Scanning(leases[i].wanted, 0)
      modifies this`leases, this`leased, this`shards
      ensures Valid() && leased == old(leased) && Has(i)
      ensures
        || Found(old(leases[i]), old(shards), shards, old(leases), leases, i)
        || (&& shards == old(shards)
            && leases == old(leases)[i := old(leases[i]).(stage := Scanning(old(leases[i]).wanted, SHARDS))]
            && forall s :: 0 <= s < SHARDS ==> Short(shards[s], old(leases[i]).wanted))
    {
      ghost var l, was, before := leases[i], shards, leases;
      var offset := 0;
      while leases[i].stage.Scanning? && offset < SHARDS
        invariant Valid() && leased == old(leased) && Has(i) && offset <= SHARDS
        invariant if leases[i].stage.Scanning? then Searching(l, was, shards, before, leases, i, offset)
                  else Found(l, was, shards, before, leases, i)
        decreases SHARDS - offset
      {
        TryShard(i, offset, l, was, before);
        offset := offset + 1;
      }
      if leases[i].stage.Scanning? {
        AllShort(l, was);
      }
    }
  }

  /** A step that is not one of lease `i`. */
  predicate Elsewhere(step: PoolStep, i: nat) { step.Open? || step.OpenEmpty? || step.lease != i }

  /** Where lease `l` can be on its way from `was` to room for `needed` bytes. */
  ghost predicate Pursues(was: Lease, needed: nat, l: Lease, refused: bool)
  {
    var untouched := l.storage == was.storage && l.start == was.start;
    var asked := untouched && Capacity(was) < needed <= was.max;
    var grown :=
      && Live(l) == Live(was) && Capacity(was) < needed <= Capacity(l)
      && needed <= was.max && needed <= MAX_CACHED_CAPACITY;
    && l.max == was.max && l.wanted == needed && Sane(l)
    && match l.stage
       case Scanning(_, _) => asked
       case Popping(_, _, _) => asked
       case PuttingBack(_, _, _, _) => asked
       case Granted(_) => asked
       case Counted(_) => asked
       case Replaced(_) => grown
       case Idle =>
         (match l.answer
          case Ok(_) => grown || (untouched && needed <= Capacity(was) && needed <= was.max)
          case Err(e) =>
            && untouched
            && if needed > was.max || needed > MAX_CACHED_CAPACITY
               then e == PayloadTooLarge && (needed > was.max || needed > Capacity(was))
               else e == Io && refused && Capacity(was) < needed)
       case _ => false
  }

  lemma PursuesOn(was: Lease, needed: nat, l: Lease, m: Lease, grants: bool, refused: bool)
    requires Pursues(was, needed, l, refused) && Moves(l, m, grants) && Sane(m) && Work(l) > 0
    ensures Pursues(was, needed, m, refused || !grants)
  {
  }

  /** What its next step makes of a lease. */
  ghost predicate Moves(l: Lease, m: Lease, grants: bool)
  {
    match l.stage
    case Idle => m == l
    case Gone => m == l
    case Scanning(_, offset) =>
      if offset < SHARDS then m == l.(stage := m.stage) && (m.stage.Scanning? || m.stage.Popping?)
      else if l.wanted > MAX_CACHED_CAPACITY || !grants then
        m == l.(answer := Err(if l.wanted > MAX_CACHED_CAPACITY then PayloadTooLarge else Io), stage := Idle)
      else m == l.(stage := m.stage) && m.stage.Granted?
    case Popping(_, _, _) => m == l.(stage := m.stage) && (m.stage.Scanning? || m.stage.PuttingBack? || m.stage.Granted?)
    case PuttingBack(_, _, _, _) => m == l.(stage := m.stage) && (m.stage.Scanning? || m.stage.Popping?)
    case Granted(b) => m == l.(stage := Counted(b))
    case Counted(b) => m == l.(storage := b.(bytes := Live(l)), start := 0, stage := m.stage) && m.stage.Replaced?
    case Replaced(_) => m == l.(answer := Ok(()), stage := Idle)
    case _ => true
  }

  predicate AllClosing(leases: seq<Lease>, n: nat)
    requires n <= |leases|
  {
    forall j :: 0 <= j < n ==> Closing(leases[j])
  }

  /** The lease can be used by its holder. */
  predicate Ready(i: nat, leases: seq<Lease>) { i < |leases| && leases[i].stage.Idle? }

  /** What one step does to the leases. */
  ghost predicate Did(step: PoolStep, before: seq<Lease>, after: seq<Lease>)
  {
    match step
    case Open(max) =>
      |after| == |before| + 1 && before <= after && Live(after[|before|]) == []
      && after[|before|].max == max && after[|before|].stage.Drawing?
    case OpenEmpty(max) => after == before + [Lease(NO_BLOCK, 0, max, None, 0, Ok(()), Idle)]
    case Ask(i, needed) =>
      if !Ready(i, before) then after == before
      else
        && |after| == |before| && after == before[i := after[i]]
        && after[i].storage == before[i].storage && after[i].start == before[i].start && after[i].wanted == needed
        && (before[i].storage.capacity < needed <= before[i].max <==> after[i].stage == Scanning(needed, 0))
        && (after[i].stage.Idle? ==> (after[i].answer.Ok? <==> needed <= before[i].max))
    case Use(i, bytes, start) =>
      if !Ready(i, before) || !(start <= |bytes| <= before[i].storage.capacity) then after == before
      else after == before[i := before[i].(storage := before[i].storage.(bytes := bytes), start := start)]
    case Release(i) =>
      if !Ready(i, before) || Live(before[i]) != [] then after == before
      else |after| == |before| && after == before[i := after[i]] && after[i].storage == NO_BLOCK && after[i].shard == None
    case Close(i) =>
      if !Ready(i, before) then after == before
      else
        && |after| == |before| && after == before[i := after[i]] && after[i].storage == NO_BLOCK
        && (match after[i].stage
            case Gone => true
            case Returning(b, _, final) => final && b == before[i].storage
            case _ => false)
    case Go(i, _) =>
      if i >= |before| || Work(before[i]) == 0 then after == before
      else |after| == |before| && after == before[i := after[i]] && Nearer(before[i], after[i])
  }

  /** The holder of lease `j` changes what is live in it. */
  predicate Touches(step: PoolStep, j: nat) { (step.Use? || step.Close?) && step.lease == j }

  predicate Untouched(steps: seq<PoolStep>, j: nat) { forall k :: 0 <= k < |steps| ==> !Touches(steps[k], j) }

  lemma DidKeeps(step: PoolStep, before: seq<Lease>, after: seq<Lease>)
    requires Did(step, before, after)
    ensures |before| <= |after|
    ensures forall j :: 0 <= j < |before| && !Touches(step, j) ==> Live(after[j]) == Live(before[j])
  {
  }

  /** The first block of at least `needed` bytes, or the queue's length. */
  function FirstFit(queue: seq<Block>, needed: nat): (k: nat)
    ensures k <= |queue|
    ensures k < |queue| ==> queue[k].capacity >= needed
    ensures forall j :: 0 <= j < k ==> queue[j].capacity < needed
  {
    if queue == [] || queue[0].capacity >= needed then 0 else 1 + FirstFit(queue[1..], needed)
  }

  lemma {:induction false} FitsAt(queue: seq<Block>, needed: nat, k: nat)
    requires k < |queue| && k <= FirstFit(queue, needed)
    ensures FirstFit(queue, needed) == k <==> queue[k].capacity >= needed
  {
  }

  /** A queue whose first `k` blocks have been put back at its end. */
  function Rotated(queue: seq<Block>, k: nat): seq<Block>
    requires k <= |queue|
  {
    queue[k..] + queue[..k]
  }

  lemma UpdateTwice<T>(a: seq<T>, i: nat, x: T, y: T)
    requires i < |a|
    ensures a[i := x][i] == x && a[i := x][i := y] == a[i := y]
  {
    assert a[i := x][i := y] == a[i := y];
  }

  lemma RotatedParts(queue: seq<Block>, k: nat)
    requires k < |queue|
    ensures |Rotated(queue, k)| == |queue| && Rotated(queue, k)[0] == queue[k]
    ensures Rotated(queue, k)[1..] == queue[k + 1..] + queue[..k]
    ensures (queue[k + 1..] + queue[..k]) + [queue[k]] == Rotated(queue, k + 1)
  {
  }

  /** No block of the queue holds `needed` bytes. */
  ghost predicate Short(queue: seq<Block>, needed: nat) { forall j :: 0 <= j < |queue| ==> queue[j].capacity < needed }

  /** Block `b` was taken from queue `s`, and no other lost. */
  ghost predicate Took(was: seq<seq<Block>>, shards: seq<seq<Block>>, s: nat, b: Block)
    requires s < |was|
  {
    exists k :: 0 <= k < |was[s]| && was[s][k] == b && shards == was[s := was[s][k + 1..] + was[s][..k]]
  }

  ghost predicate Scannable(l: Lease, was: seq<seq<Block>>, before: seq<Lease>, i: nat)
  {
    && l.stage.Popping? && |was| == SHARDS && i < |before|
    && |was[Slot(l, l.stage.offset)]| <= SHARD_BLOCKS
  }

  /** An undisturbed scan of one queue has put its first `k` blocks back, none of which fits. */
  ghost predicate MidScan(l: Lease, was: seq<seq<Block>>, shards: seq<seq<Block>>, before: seq<Lease>, after: seq<Lease>,
                          i: nat, k: nat)
    requires Scannable(l, was, before, i)
  {
    var s := Slot(l, l.stage.offset);
    && k < |was[s]| && k <= FirstFit(was[s], l.wanted) && shards == was[s := Rotated(was[s], k)]
    && after == before[i := l.(stage := Popping(l.wanted, l.stage.offset, |was[s]| - k))]
  }

  /** The next block, which does not fit either, is in the scan's hands. */
  ghost predicate InHand(l: Lease, was: seq<seq<Block>>, shards: seq<seq<Block>>, before: seq<Lease>, after: seq<Lease>,
                         i: nat, k: nat)
    requires Scannable(l, was, before, i)
  {
    var s := Slot(l, l.stage.offset);
    var q := was[s];
    && k < |q| && k < FirstFit(q, l.wanted) && shards == was[s := q[k + 1..] + q[..k]]
    && after == before[i := l.(stage := PuttingBack(l.wanted, l.stage.offset, |q| - k - 1, q[k]))]
  }

  /** A pop of a queue that is not empty: the block fits, or is in hand. */
  lemma PopEnds(l: Lease, was: seq<seq<Block>>, shards: seq<seq<Block>>, before: seq<Lease>, after: seq<Lease>, i: nat, k: nat,
                queue: seq<Block>)
    requires Scannable(l, was, before, i)
    requires
      var s := Slot(l, l.stage.offset);
      && k < |was[s]| && k <= FirstFit(was[s], l.wanted) && queue == Rotated(was[s], k)
      && |queue| > 0 && shards == was[s := queue][s := queue[1..]]
      && after == before[i := l.(stage := Popping(l.wanted, l.stage.offset, |was[s]| - k))][i := l.(stage :=
           if queue[0].capacity >= l.wanted then Granted(queue[0])
           else PuttingBack(l.wanted, l.stage.offset, |was[s]| - k - 1, queue[0]))]
    ensures Scanned(l, was, shards, before, after, i) || InHand(l, was, shards, before, after, i, k)
  {
    var s := Slot(l, l.stage.offset);
    RotatedParts(was[s], k);
    FitsAt(was[s], l.wanted, k);
    UpdateTwice(was, s, queue, queue[1..]);
    UpdateTwice(before, i, l.(stage := Popping(l.wanted, l.stage.offset, |was[s]| - k)), after[i]);
  }

  lemma TurnEnds(l: Lease, was: seq<seq<Block>>, shards: seq<seq<Block>>, before: seq<Lease>, after: seq<Lease>, i: nat, k: nat)
    requires Scannable(l, was, before, i)
    requires
      var s := Slot(l, l.stage.offset);
      && k < |was[s]| && k < FirstFit(was[s], l.wanted) && shards == was[s := Rotated(was[s], k + 1)]
      && after == before[i := l.(stage :=
           if k + 1 == |was[s]| then Scanning(l.wanted, l.stage.offset + 1)
           else Popping(l.wanted, l.stage.offset, |was[s]| - k - 1))]
    ensures Scanned(l, was, shards, before, after, i) || MidScan(l, was, shards, before, after, i, k + 1)
  {
    var s := Slot(l, l.stage.offset);
    if k + 1 == |was[s]| {
      assert Rotated(was[s], k + 1) == was[s] && was[s := was[s]] == was;
    }
  }

  /** The push that follows. */
  lemma PushEnds(l: Lease, was: seq<seq<Block>>, shards: seq<seq<Block>>, before: seq<Lease>, after: seq<Lease>, i: nat, k: nat,
                 tail: seq<Block>)
    requires Scannable(l, was, before, i)
    requires
      var s := Slot(l, l.stage.offset);
      var q, left := was[s], |was[s]| - k - 1;
      && k < |q| && k < FirstFit(q, l.wanted) && tail == q[k + 1..] + q[..k]
      && shards == was[s := tail][s := tail + [q[k]]]
      && after == before[i := l.(stage := PuttingBack(l.wanted, l.stage.offset, left, q[k]))][i := l.(stage :=
           if left == 0 then Scanning(l.wanted, l.stage.offset + 1) else Popping(l.wanted, l.stage.offset, left))]
    ensures Scanned(l, was, shards, before, after, i) || MidScan(l, was, shards, before, after, i, k + 1)
  {
    var s := Slot(l, l.stage.offset);
    var q := was[s];
    RotatedParts(q, k);
    UpdateTwice(was, s, tail, tail + [q[k]]);
    UpdateTwice(before, i, l.(stage := PuttingBack(l.wanted, l.stage.offset, |q| - k - 1, q[k])), after[i]);
    TurnEnds(l, was, shards, before, after, i, k);
  }

  /** A lease's scan of one queue took the first block that fits, or found none. */
  ghost predicate Scanned(l: Lease, was: seq<seq<Block>>, shards: seq<seq<Block>>, before: seq<Lease>, after: seq<Lease>, i: nat)
    requires l.stage.Popping? && |was| == SHARDS && i < |before|
  {
    var s := Slot(l, l.stage.offset);
    var q, k := was[s], FirstFit(was[s], l.wanted);
    if k < |q| then
      shards == was[s := q[k + 1..] + q[..k]] && after == before[i := l.(stage := Granted(q[k]))]
    else
      shards == was && after == before[i := l.(stage := Scanning(l.wanted, l.stage.offset + 1))]
  }

  /** The first `offset` queues have nothing that fits. */
  ghost predicate Searching(l: Lease, was: seq<seq<Block>>, shards: seq<seq<Block>>, before: seq<Lease>, after: seq<Lease>,
                            i: nat, offset: nat)
    requires |was| == SHARDS && i < |before|
  {
    && shards == was && after == before[i := l.(stage := Scanning(l.wanted, offset))]
    && forall o :: 0 <= o < offset ==> Short(was[Slot(l, o)], l.wanted)
  }

  ghost predicate Found(l: Lease, was: seq<seq<Block>>, shards: seq<seq<Block>>, before: seq<Lease>, after: seq<Lease>, i: nat)
    requires |was| == SHARDS && i < |before|
  {
    exists s, b :: 0 <= s < SHARDS && Took(was, shards, s, b) && b.capacity >= l.wanted
                   && after == before[i := l.(stage := Granted(b))]
  }

  /** The scan of one more queue. */
  lemma ShardEnds(l: Lease, was: seq<seq<Block>>, shards: seq<seq<Block>>, before: seq<Lease>, looked: seq<Lease>,
                  after: seq<Lease>, i: nat, offset: nat)
    requires |was| == SHARDS && i < |before| && offset < SHARDS
    requires forall o :: 0 <= o < offset ==> Short(was[Slot(l, o)], l.wanted)
    requires
      var popping := l.(stage := Popping(l.wanted, offset, |was[Slot(l, offset)]|));
      looked == before[i := popping] && Scanned(popping, was, shards, looked, after, i)
    ensures Found(l, was, shards, before, after, i) || Searching(l, was, shards, before, after, i, offset + 1)
  {
    var s, popping := Slot(l, offset), l.(stage := Popping(l.wanted, offset, |was[Slot(l, offset)]|));
    var q, k := was[s], FirstFit(was[s], l.wanted);
    assert Slot(popping, offset) == s;
    UpdateTwice(before, i, popping, after[i]);
    if k < |q| {
      assert Took(was, shards, s, q[k]);
    }
  }

  /** The queues a scan looks at are all of them. */
  lemma AllShort(l: Lease, was: seq<seq<Block>>)
    requires |was| == SHARDS && (l.shard.Some? ==> l.shard.value < SHARDS)
    requires forall o :: 0 <= o < SHARDS ==> Short(was[Slot(l, o)], l.wanted)
    ensures forall s :: 0 <= s < SHARDS ==> Short(was[s], l.wanted)
  {
    forall s | 0 <= s < SHARDS
      ensures Short(was[s], l.wanted)
    {
      var start := if l.shard.Some? then l.shard.value else 0;
      var o := (s + SHARDS - start) % SHARDS;
      assert Slot(l, o) == s;
    }
  }
}
