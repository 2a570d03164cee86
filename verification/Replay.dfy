/** The salt replay cache: a bounded queue of accepted salts with their times, and a set that indexes it. */
module Replay {
  import opened Protocol

  /** An accepted salt and when. */
  type Entry = (Bytes, nat)

  /** `salt` is among the last `cap` accepted, and accepted less than `ttl` ago. */
  ghost predicate Recent(accepted: seq<Entry>, cap: nat, ttl: nat, salt: Bytes, now: nat)
  {
    exists i :: 0 <= i < |accepted| && |accepted| - cap <= i && accepted[i].0 == salt && now - accepted[i].1 < ttl
  }

  ghost predicate InTimeOrder(accepted: seq<Entry>, last: nat)
  {
    && (forall i, j :: 0 <= i < j < |accepted| ==> accepted[i].1 <= accepted[j].1)
    && (forall i :: 0 <= i < |accepted| ==> accepted[i].1 <= last)
  }

  ghost predicate Distinct(order: seq<Entry>) { forall i, j :: 0 <= i < j < |order| ==> order[i].0 != order[j].0 }

  /** The salts of a queue. */
  ghost function Salts(order: seq<Entry>): set<Bytes> { set i | 0 <= i < |order| :: order[i].0 }

  lemma SaltsAppend(order: seq<Entry>, e: Entry)
    requires Distinct(order) && e.0 !in Salts(order)
    ensures Salts(order + [e]) == Salts(order) + {e.0} && Distinct(order + [e])
  {
    var more := order + [e];
    forall s
      ensures s in Salts(more) <==> s in Salts(order) + {e.0}
    {
      if s in Salts(order) {
        var i :| 0 <= i < |order| && order[i].0 == s;
        assert more[i].0 == s;
      }
      assert more[|order|].0 == e.0;
    }
  }

  lemma SaltsDrop(order: seq<Entry>)
    requires Distinct(order) && order != []
    ensures Salts(order[1..]) == Salts(order) - {order[0].0} && Distinct(order[1..])
  {
    var rest := order[1..];
    forall s
      ensures s in Salts(rest) <==> s in Salts(order) - {order[0].0}
    {
      if s in Salts(order) - {order[0].0} {
        var i :| 0 <= i < |order| && order[i].0 == s;
        assert rest[i - 1].0 == s;
      }
      if s in Salts(rest) {
        var i :| 0 <= i < |rest| && rest[i].0 == s;
        assert order[i + 1].0 == s && order[0].0 != order[i + 1].0;
      }
    }
  }

  /** What has left the queue is not recent: too many have come after it, or it is too old. */
  ghost predicate Aged(accepted: seq<Entry>, gone: nat, cap: nat, ttl: nat, last: nat)
    requires gone <= |accepted|
  {
    forall i :: 0 <= i < gone ==> i < |accepted| - cap || last - accepted[i].1 >= ttl
  }

  /** One more accepted salt: what was aged stays so, and room made for it counts as aged too. */
  lemma AgedAppend(accepted: seq<Entry>, aged: nat, gone: nat, cap: nat, ttl: nat, last: nat, e: Entry)
    requires aged <= |accepted| && Aged(accepted, aged, cap, ttl, last)
    requires gone == aged || (gone == aged + 1 && aged + cap == |accepted|)
    requires gone <= |accepted|
    ensures Aged(accepted + [e], gone, cap, ttl, last)
  {
    forall i | 0 <= i < gone
      ensures i < |accepted| + 1 - cap || last - (accepted + [e])[i].1 >= ttl
    {
      assert (accepted + [e])[i] == accepted[i];
    }
  }

  /** If the oldest of a queue is young, all are. */
  lemma YoungBehind(accepted: seq<Entry>, last: nat, gone: nat, now: nat, ttl: nat)
    requires InTimeOrder(accepted, last) && gone <= |accepted|
    requires gone < |accepted| ==> now - accepted[gone].1 < ttl
    ensures forall i :: 0 <= i < |accepted[gone..]| ==> now - accepted[gone..][i].1 < ttl
  {
    var order := accepted[gone..];
    forall i | 0 <= i < |order|
      ensures now - order[i].1 < ttl
    {
      assert order[0] == accepted[gone] && order[i] == accepted[gone + i];
    }
  }

  lemma OrderAppend(accepted: seq<Entry>, last: nat, salt: Bytes)
    requires InTimeOrder(accepted, last)
    ensures InTimeOrder(accepted + [(salt, last)], last)
  {
  }

  class ReplayCache {
    const cap: nat
    const ttl: nat
    var seen: set<Bytes>
    var order: seq<Entry>
    /** Every accepted salt, oldest first; how many of them the queue no longer holds; the time of the last call. */
    ghost var accepted: seq<Entry>
    ghost var gone: nat
    ghost var last: nat

    ghost predicate Valid()
      reads this
    {
      && InTimeOrder(accepted, last)
      && gone <= |accepted| && order == accepted[gone..]
      && |order| <= cap
      && Distinct(order) && seen == Salts(order)
      && Aged(accepted, gone, cap, ttl, last)
    }

    constructor (cap: nat, ttl: nat)
      ensures Valid() && this.cap == cap && this.ttl == ttl && accepted == [] && last == 0
    {
      this.cap, this.ttl := cap, ttl;
      seen, order := {}, [];
      accepted, gone, last := [], 0, 0;
    }

    /** Forget the oldest salt, in the queue and in the index. */
    method PopFront()
      requires Valid() && order != []
      modifies this`seen, this`order, this`gone
      ensures order == old(order)[1..] && gone == old(gone) + 1 <= |accepted| && order == accepted[gone..]
      ensures Distinct(order) && seen == Salts(order)
      ensures Aged(accepted, gone - 1, cap, ttl, last)
    {
      SaltsDrop(order);
      assert accepted[gone..][1..] == accepted[gone + 1..];
      seen := seen - {order[0].0};
      order := order[1..];
      gone := gone + 1;
    }

    /** Forget the oldest salt, which has outlived its time. */
    method PopExpired()
      requires Valid() && order != [] && last - order[0].1 >= ttl
      modifies this`seen, this`order, this`gone
      ensures Valid() && |order| == |old(order)| - 1 && gone == old(gone) + 1
    {
      assert order[0] == accepted[gone];
      PopFront();
    }

    /** Drop every salt that has outlived its time. */
    method Expire(now: nat)
      requires Valid() && last <= now
      modifies this`seen, this`order, this`gone, this`last
      ensures Valid() && last == now && gone >= old(gone)
      ensures forall i :: 0 <= i < |order| ==> now - order[i].1 < ttl
    {
      last := now;
      while order != [] && now - order[0].1 >= ttl
        invariant Valid() && last == now && gone >= old(gone)
        decreases |order|
      {
        PopExpired();
      }
      YoungBehind(accepted, last, gone, now, ttl);
    }

    /** Append a salt that is not in the queue, making room for it first. */
    method Accept(salt: Bytes, now: nat)
      requires Valid() && last == now && cap > 0 && salt !in seen
      modifies this`seen, this`order, this`gone, this`accepted
      ensures Valid() && accepted == old(accepted) + [(salt, now)]
    {
      ghost var aged, e := gone, (salt, now);
      if |order| == cap {
        PopFront();
      }
      SaltsAppend(order, e);
      AgedAppend(accepted, aged, gone, cap, ttl, last, e);
      OrderAppend(accepted, last, salt);
      assert (accepted + [e])[gone..] == accepted[gone..] + [e];
      seen := seen + {salt};
      order := order + [(salt, now)];
      accepted := accepted + [e];
    }

    /** Accept a salt unless it is a recent one; times never go back. */
    method Insert(salt: Bytes, now: nat) returns (ok: bool)
      requires Valid() && last <= now
      modifies this
      ensures Valid()
      ensures ok <==> !Recent(old(accepted), cap, ttl, salt, now)
      ensures accepted == if ok && cap > 0 then old(accepted) + [(salt, now)] else old(accepted)
    {
      if cap == 0 {
        return true;
      }
      Expire(now);
      if salt in seen {
        ghost var i :| 0 <= i < |order| && order[i].0 == salt;
        assert accepted[gone + i] == order[i];
        return false;
      }
      Accept(salt, now);
      ok := true;
    }
  }
}
