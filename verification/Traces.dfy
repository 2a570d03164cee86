/**
  * What a reservation that comes to nothing leaves behind: nothing that later
  * records show, except through one kind of datagram.
  */
module Traces {
  import opened Buffers
  import opened Encoders
  import opened Hosts
  import opened Lifecycles
  import opened Policies
  import opened Profile
  import opened Protocol
  import opened Records
  import opened Windows

  // ---- Windows that are refreshed when they are asked ----

  /** The windows give a stream record reserved then the same budget, and move on the same. */
  predicate SameAt(p: Plan, w: Window, v: Window, q: nat, t: nat)
  {
    p.refreshed(w, t) == p.refreshed(v, t) && p.budget(w, q, t) == p.budget(v, q, t)
  }

  /** Asking twice is asking once: a window refreshed at one time and then at a later one is only refreshed then. */
  predicate AskedTwiceLaw(p: Plan, w: Window, q: nat, t: nat, u: nat)
  {
    t <= u ==> SameAt(p, p.refreshed(w, t), w, q, u)
  }

  /** A window that asking has changed is not changed again before a record is sealed. */
  predicate ResetLaw(p: Plan, w: Window, t: nat, u: nat)
  {
    p.refreshed(w, t) != w ==> p.refreshed(p.refreshed(w, t), u) == p.refreshed(w, t)
  }

  /** Sealing moves a changed window and the window it was to different ones, and the difference shows at once. */
  predicate TraceLaw(p: Plan, w: Window, q: nat, t: nat, at: nat, now: nat)
  {
    var changed, same := p.committed(p.refreshed(w, t), q, at, now), p.committed(w, q, at, now);
    p.refreshed(w, t) != w ==>
      changed != same && p.refreshed(changed, now) == changed && p.refreshed(same, now) == same
  }

  ghost predicate Resettable(p: Plan)
  {
    && (forall w, q, t, u :: AskedTwiceLaw(p, w, q, t, u))
    && (forall w, t, u :: ResetLaw(p, w, t, u))
    && (forall w, q, t, at, now :: TraceLaw(p, w, q, t, at, now))
  }

  /** The plan's windows change with sealed records only. */
  ghost predicate Still(p: Plan) { forall w, t :: p.refreshed(w, t) == w }

  /** Every codec's windows are of that kind, and only a shaped one's ever change when asked. */
  lemma EveryPolicyResettable(p: Policy)
    ensures Resettable(PlanOf(p))
    ensures Still(PlanOf(p)) <==> !p.ShapedPolicy?
  {
    var plan := PlanOf(p);
    forall w, q, t, u ensures AskedTwiceLaw(plan, w, q, t, u) { }
    forall w, t, u ensures ResetLaw(plan, w, t, u) { }
    forall w, q, t, at, now ensures TraceLaw(plan, w, q, t, at, now) { }
    if p.ShapedPolicy? {
      assert plan.refreshed(Fresh(p), 0) != Fresh(p);
    }
  }

  /**
    * One datagram: it leaves a shaped window that depends on a request dropped
    * before it exactly when that request changed the window, as it does on a
    * new encoder and after an idle gap.
    */
  lemma DatagramTrace(profile: Shape, w: Window, q: nat, t: nat, at: nat, now: nat)
    requires w.ShapedWindow?
    ensures
      var p := PlanOf(ShapedPolicy(profile));
      && (p.committed(p.refreshed(w, t), q, at, now) == p.committed(w, q, at, now) <==> p.refreshed(w, t) == w)
      && (p.refreshed(w, t) == w <==>
            || w.chunkSize == profile.chunkInitial
            || (w.chunkSize > 0 && (w.lastWrite.None? || t - w.lastWrite.value <= profile.idleResetSecs)))
  {
    EveryPolicyResettable(ShapedPolicy(profile));
    assert TraceLaw(PlanOf(ShapedPolicy(profile)), w, q, t, at, now);
  }

  // ---- Scripts ----

  predicate CameToNothing(after: (Stage, Option<Rec>)) { after.1.None? && after.0.state == Ready }

  /** The script without the operations that sealed nothing and left the encoder in use. */
  function Trimmed(m: Setting, s: Stage, script: seq<Op>): seq<Op>
  {
    if script == [] then []
    else
      var n := |script| - 1;
      var before := Trimmed(m, s, script[..n]);
      if CameToNothing(Taken(m, StageAfter(m, s, script[..n]), script[n])) then before else before + [script[n]]
  }

  /** When an operation is over. */
  function End(op: Op): nat { if op.Send? then op.now else op.at }

  /** The clock does not go back. */
  predicate InOrder(script: seq<Op>)
  {
    && (forall i :: 0 <= i < |script| ==> script[i].at <= End(script[i]))
    && (forall i, j :: 0 <= i < j < |script| ==> End(script[i]) <= script[j].at)
  }

  function LatestAsked(script: seq<Op>): nat
  {
    if script == [] then 0 else Max(LatestAsked(script[..|script| - 1]), script[|script| - 1].at)
  }

  /**
    * Since when the window is one that a stream request which came to nothing
    * has changed; the next stream request that is kept changes it anyway.
    */
  function Reset(m: Setting, s: Stage, script: seq<Op>): Option<nat>
  {
    if script == [] then None
    else
      var n := |script| - 1;
      ResetBy(m, StageAfter(m, s, script[..n]), script[n], Reset(m, s, script[..n]))
  }

  function ResetBy(m: Setting, stage: Stage, op: Op, before: Option<nat>): Option<nat>
  {
    if stage.state != Ready || op.size.Datagram? then before
    else if !CameToNothing(Taken(m, stage, op)) then None
    else if before.None? && m.plan.refreshed(stage.window, op.at) != stage.window then Some(op.at)
    else before
  }

  /** The last operation seals a datagram from a window changed by a request that came to nothing. */
  predicate Marks(m: Setting, s: Stage, script: seq<Op>)
    requires script != []
  {
    var n := |script| - 1;
    && script[n].size.Datagram? && Reset(m, s, script[..n]).Some?
    && Taken(m, StageAfter(m, s, script[..n]), script[n]).1.Some?
  }

  predicate Unmarked(m: Setting, s: Stage, script: seq<Op>)
  {
    script == [] || (Unmarked(m, s, script[..|script| - 1]) && !Marks(m, s, script))
  }

  // ---- With and without ----

  ghost predicate SameFrom(p: Plan, w: Window, v: Window, t: nat) { forall q, u :: t <= u ==> SameAt(p, w, v, q, u) }

  /** Stages no later stream record can tell apart. */
  ghost predicate Alike(p: Plan, s: Stage, r: Stage, t: nat)
  {
    s == r.(window := s.window) && SameFrom(p, s.window, r.window, t)
  }

  /** The same stage, or one whose window was changed then. */
  ghost predicate Agree(p: Plan, s: Stage, r: Stage, t: nat, reset: Option<nat>)
  {
    && s == r.(window := s.window)
    && match reset
       case None => s.window == r.window
       case Some(t0) => t0 <= t && s.window == p.refreshed(r.window, t0) && s.window != r.window
  }

  lemma AgreeAlike(p: Plan, s: Stage, r: Stage, t: nat, reset: Option<nat>)
    requires Resettable(p) && Agree(p, s, r, t, reset)
    ensures Alike(p, s, r, t)
  {
    forall q, u | t <= u
      ensures SameAt(p, s.window, r.window, q, u)
    {
      if reset.Some? {
        assert AskedTwiceLaw(p, r.window, q, reset.value, u);
      }
    }
  }

  lemma {:induction false} OrderedBefore(script: seq<Op>, i: nat)
    requires i < |script| && InOrder(script)
    ensures InOrder(script[..i]) && LatestAsked(script[..i]) <= script[i].at <= End(script[i])
  {
    if i > 0 {
      OrderedBefore(script, i - 1);
      assert script[..i][..i - 1] == script[..i - 1];
      assert End(script[i - 1]) <= script[i].at;
    }
  }

  /** An operation that is kept goes the same with and without those before it that came to nothing. */
  lemma KeptAgrees(m: Setting, s: Stage, r: Stage, op: Op, t: nat, reset: Option<nat>)
    requires Resettable(m.plan) && Agree(m.plan, s, r, t, reset) && (t <= op.at || Still(m.plan))
    requires reset.None? || op.size.Stream? || Taken(m, s, op).1.None?
    requires !CameToNothing(Taken(m, s, op))
    ensures Taken(m, s, op).1 == Taken(m, r, op).1
    ensures Agree(m.plan, Taken(m, s, op).0, Taken(m, r, op).0, Max(t, op.at), ResetBy(m, s, op, reset))
  {
    AgreeAlike(m.plan, s, r, t, reset);
    if op.size.Stream? && t <= op.at {
      assert SameAt(m.plan, s.window, r.window, s.core.sequence, op.at);
    }
  }

  lemma NothingAgrees(m: Setting, s: Stage, r: Stage, op: Op, t: nat, reset: Option<nat>)
    requires Resettable(m.plan) && Agree(m.plan, s, r, t, reset) && CameToNothing(Taken(m, s, op))
    ensures Agree(m.plan, Taken(m, s, op).0, r, Max(t, op.at), ResetBy(m, s, op, reset))
  {
    assert Taken(m, s, op).0 == s.(window := Asked(m.plan, s.window, op.at, op.size));
    if reset.Some? {
      assert ResetLaw(m.plan, r.window, reset.value, op.at);
    }
  }

  /** The clock has not gone back, or does not matter. */
  ghost predicate Timely(p: Plan, script: seq<Op>) { Still(p) || InOrder(script) }

  lemma TimelyBefore(p: Plan, script: seq<Op>)
    requires script != [] && Timely(p, script)
    ensures
      var n := |script| - 1;
      Timely(p, script[..n]) && (Still(p) || LatestAsked(script[..n]) <= script[n].at <= End(script[n]))
  {
    if !Still(p) {
      OrderedBefore(script, |script| - 1);
    }
  }

  /** With and without the operations that came to nothing. */
  ghost predicate Agreeing(m: Setting, s: Stage, script: seq<Op>)
  {
    var kept := Trimmed(m, s, script);
    && Successes(Outcomes(m, s, kept)) == Successes(Outcomes(m, s, script))
    && Agree(m.plan, StageAfter(m, s, script), StageAfter(m, s, kept), LatestAsked(script), Reset(m, s, script))
  }

  /** How one more operation adds to a script. */
  lemma AndThen(m: Setting, s: Stage, script: seq<Op>, op: Op, next: (Stage, Option<Rec>))
    requires next == Taken(m, StageAfter(m, s, script), op)
    ensures StageAfter(m, s, script + [op]) == next.0
    ensures Successes(Outcomes(m, s, script + [op]))
            == Successes(Outcomes(m, s, script)) + if next.1.Some? then [next.1.value] else []
    ensures Trimmed(m, s, script + [op]) == Trimmed(m, s, script) + if CameToNothing(next) then [] else [op]
    ensures LatestAsked(script + [op]) == Max(LatestAsked(script), op.at)
    ensures Reset(m, s, script + [op]) == ResetBy(m, StageAfter(m, s, script), op, Reset(m, s, script))
    ensures Unmarked(m, s, script + [op]) <==>
      Unmarked(m, s, script) && !(op.size.Datagram? && Reset(m, s, script).Some? && next.1.Some?)
  {
    assert (script + [op])[..|script|] == script;
    SuccessesAppend(Outcomes(m, s, script), next.1);
  }

  /** One more operation that comes to nothing. */
  lemma AgreesWithout(m: Setting, s: Stage, script: seq<Op>, op: Op)
    requires Resettable(m.plan) && Agreeing(m, s, script) && CameToNothing(Taken(m, StageAfter(m, s, script), op))
    ensures Agreeing(m, s, script + [op])
  {
    var kept, whole := Trimmed(m, s, script), StageAfter(m, s, script);
    NothingAgrees(m, whole, StageAfter(m, s, kept), op, LatestAsked(script), Reset(m, s, script));
    AndThen(m, s, script, op, Taken(m, whole, op));
  }

  /** One more that is kept. */
  lemma AgreesWith(m: Setting, s: Stage, script: seq<Op>, op: Op)
    requires Resettable(m.plan) && Agreeing(m, s, script) && (LatestAsked(script) <= op.at || Still(m.plan))
    requires var next := Taken(m, StageAfter(m, s, script), op);
      !CameToNothing(next) && !(op.size.Datagram? && Reset(m, s, script).Some? && next.1.Some?)
    ensures Agreeing(m, s, script + [op])
  {
    var kept, whole := Trimmed(m, s, script), StageAfter(m, s, script);
    var part := StageAfter(m, s, kept);
    KeptAgrees(m, whole, part, op, LatestAsked(script), Reset(m, s, script));
    AndThen(m, s, script, op, Taken(m, whole, op));
    AndThen(m, s, kept, op, Taken(m, part, op));
  }

  lemma StepAgrees(m: Setting, s: Stage, script: seq<Op>)
    requires Resettable(m.plan) && Timely(m.plan, script) && script != []
    requires Agreeing(m, s, script[..|script| - 1]) && !Marks(m, s, script)
    ensures Agreeing(m, s, script)
  {
    TimelyBefore(m.plan, script);
    var n := |script| - 1;
    assert script == script[..n] + [script[n]];
    if CameToNothing(Taken(m, StageAfter(m, s, script[..n]), script[n])) {
      AgreesWithout(m, s, script[..n], script[n]);
    } else {
      AgreesWith(m, s, script[..n], script[n]);
    }
  }

  /**
    * A record that was dropped, refused or failed is as if it had never been
    * asked for: without those operations the script seals the very same
    * records, salt, nonces and padding included, and leaves the encoder ready
    * for the same, unless a datagram is sealed while such a request has the
    * window changed; and leaves the very same encoder unless it still has.
    */
  lemma {:induction false} NoTrace(m: Setting, s: Stage, script: seq<Op>)
    requires Resettable(m.plan) && Timely(m.plan, script) && Unmarked(m, s, script)
    ensures Agreeing(m, s, script)
  {
    if script != [] {
      TimelyBefore(m.plan, script);
      NoTrace(m, s, script[..|script| - 1]);
      StepAgrees(m, s, script);
    }
  }

  /** After every operation of the script, no later stream record can tell whether those before were trimmed. */
  ghost predicate AlikeThroughout(m: Setting, s: Stage, script: seq<Op>)
  {
    && Alike(m.plan, StageAfter(m, s, script), StageAfter(m, s, Trimmed(m, s, script)), LatestAsked(script))
    && (script == [] || AlikeThroughout(m, s, script[..|script| - 1]))
  }

  /** A datagram sealed from a changed window and from the window it was leaves two windows that show. */
  lemma DatagramShows(m: Setting, s: Stage, r: Stage, op: Op, t: nat, reset: nat)
    requires Resettable(m.plan) && Agree(m.plan, s, r, t, Some(reset))
    requires op.size.Datagram? && Taken(m, s, op).1.Some?
    ensures !SameAt(m.plan, Taken(m, s, op).0.window, Taken(m, r, op).0.window, 0, op.now)
  {
    assert TraceLaw(m.plan, r.window, r.core.sequence, reset, op.at, op.now);
  }

  lemma StagesDiffer(m: Setting, s: Stage, r: Stage, op: Op, t: nat, reset: nat, u: nat)
    requires Resettable(m.plan) && Agree(m.plan, s, r, t, Some(reset))
    requires op.size.Datagram? && Taken(m, s, op).1.Some? && u <= End(op)
    ensures !Alike(m.plan, Taken(m, s, op).0, Taken(m, r, op).0, u)
  {
    DatagramShows(m, s, r, op, t, reset);
  }

  /** So a datagram that marks the window leaves stages that are not alike. */
  lemma MarkShows(m: Setting, s: Stage, script: seq<Op>)
    requires Resettable(m.plan) && Timely(m.plan, script) && script != []
    requires Agreeing(m, s, script[..|script| - 1]) && Marks(m, s, script)
    ensures !Alike(m.plan, StageAfter(m, s, script), StageAfter(m, s, Trimmed(m, s, script)), LatestAsked(script))
  {
    TimelyBefore(m.plan, script);
    var n := |script| - 1;
    var before, op, kept := script[..n], script[n], Trimmed(m, s, script[..n]);
    var whole, part, reset := StageAfter(m, s, before), StageAfter(m, s, kept), Reset(m, s, before);
    assert (kept + [op])[..|kept|] == kept;
    assert !Still(m.plan) by {
      assert m.plan.refreshed(part.window, reset.value) != part.window;
    }
    StagesDiffer(m, whole, part, op, LatestAsked(before), reset.value, LatestAsked(script));
  }

  /** That condition is exact: the script leaves no trace at any point if and only if no datagram marks the window. */
  lemma {:induction false} TracelessExactly(m: Setting, s: Stage, script: seq<Op>)
    requires Resettable(m.plan) && Timely(m.plan, script)
    ensures AlikeThroughout(m, s, script) <==> Unmarked(m, s, script)
  {
    if script != [] {
      TimelyBefore(m.plan, script);
      TracelessExactly(m, s, script[..|script| - 1]);
    }
    if script == [] || Unmarked(m, s, script[..|script| - 1]) {
      if script != [] {
        NoTrace(m, s, script[..|script| - 1]);
      }
      if Unmarked(m, s, script) {
        NoTrace(m, s, script);
        AgreeAlike(m.plan, StageAfter(m, s, script), StageAfter(m, s, Trimmed(m, s, script)), LatestAsked(script),
                   Reset(m, s, script));
      } else {
        MarkShows(m, s, script);
      }
    }
  }

  /** For each codec: always on v4 and unshaped encoders, and on shaped ones with no marking datagram. */
  lemma EveryCodecTraceless(p: Policy, m: Setting, s: Stage, script: seq<Op>)
    requires m.plan == PlanOf(p)
    ensures !p.ShapedPolicy? ==> Agreeing(m, s, script) && Reset(m, s, script) == None
    ensures InOrder(script) && Unmarked(m, s, script) ==> Agreeing(m, s, script)
    ensures InOrder(script) ==> (AlikeThroughout(m, s, script) <==> Unmarked(m, s, script))
  {
    EveryPolicyResettable(p);
    if !p.ShapedPolicy? {
      StillNeverResets(m, s, script);
      NoTrace(m, s, script);
    }
    if InOrder(script) {
      TracelessExactly(m, s, script);
      if Unmarked(m, s, script) {
        NoTrace(m, s, script);
      }
    }
  }

  lemma {:induction false} StillNeverResets(m: Setting, s: Stage, script: seq<Op>)
    requires Still(m.plan)
    ensures Reset(m, s, script) == None && Unmarked(m, s, script)
  {
    if script != [] {
      StillNeverResets(m, s, script[..|script| - 1]);
    }
  }

  /** Encoders that have sealed the same records behind the same bytes, and stand at agreeing stages. */
  lemma SameEnd(e: Encoder, buf: Buffer, other: Encoder, otherBuf: Buffer, filled: Bytes, c: Core, sent: seq<Rec>,
                s: Stage, r: Stage, t: nat, reset: Option<nat>)
    requires Kept(e, buf, filled, c, sent) && Kept(other, otherBuf, filled, c, sent)
    requires StandsAt(e, buf, s) && StandsAt(other, otherBuf, r) && Agree(e.plan, s, r, t, reset)
    requires e.keys == other.keys && e.plan == other.plan
    ensures SameShow(e, buf, other, otherBuf)
    ensures e.state == Ready && reset == None ==> e.window == other.window
  {
  }

  /** In the same state, at the same core, over the same bytes. */
  ghost predicate SameShow(e: Encoder, buf: Buffer, other: Encoder, otherBuf: Buffer)
    requires buf.Valid() && otherBuf.Valid()
    reads e, buf, other, otherBuf
  {
    && e.state == other.state && (e.state == Ready ==> e.Now() == other.Now())
    && (e.state != Reserving ==> buf.Filled() == otherBuf.Filled())
  }

  /**
    * Two encoders of any codec that stand at the same stage over equal buffers:
    * one runs a script and the other the script without what comes to nothing.
    * They end in the same state over the very same bytes.
    */
  method RunBoth(p: Policy, e: Encoder, buf: Buffer, other: Encoder, otherBuf: Buffer, script: seq<Op>)
    requires e != other && buf != otherBuf && e.Valid() && other.Valid() && buf.Valid() && otherBuf.Valid()
    requires e.plan == PlanOf(p) && SettingOf(e, buf) == SettingOf(other, otherBuf)
    requires StageOf(e, buf) == StageOf(other, otherBuf) && buf.Filled() == otherBuf.Filled()
    requires p.ShapedPolicy? ==> InOrder(script) && Unmarked(SettingOf(e, buf), StageOf(e, buf), script)
    modifies e, buf, other, otherBuf
    ensures e.Valid() && other.Valid() && buf.Valid() && otherBuf.Valid()
    ensures SameShow(e, buf, other, otherBuf)
    ensures e.state == Ready && Reset(old(SettingOf(e, buf)), old(StageOf(e, buf)), script) == None ==>
      e.window == other.window
  {
    ghost var s, filled := StageOf(e, buf), buf.Filled();
    EveryCodecTraceless(p, SettingOf(e, buf), s, script);
    RunPair(e, buf, other, otherBuf, Trimmed(SettingOf(e, buf), StageOf(e, buf), script), script);
  }

  /** The same, given that the two scripts agree. */
  method RunPair(e: Encoder, buf: Buffer, other: Encoder, otherBuf: Buffer, kept: seq<Op>, script: seq<Op>)
    requires e != other && buf != otherBuf && e.Valid() && other.Valid() && buf.Valid() && otherBuf.Valid()
    requires SettingOf(e, buf) == SettingOf(other, otherBuf)
    requires StageOf(e, buf) == StageOf(other, otherBuf) && buf.Filled() == otherBuf.Filled()
    requires Agreeing(SettingOf(e, buf), StageOf(e, buf), script)
    requires kept == Trimmed(SettingOf(e, buf), StageOf(e, buf), script)
    modifies e, buf, other, otherBuf
    ensures e.Valid() && other.Valid() && buf.Valid() && otherBuf.Valid()
    ensures SameShow(e, buf, other, otherBuf)
    ensures e.state == Ready && Reset(old(SettingOf(e, buf)), old(StageOf(e, buf)), script) == None ==>
      e.window == other.window
  {
    ghost var m, s, filled := SettingOf(e, buf), StageOf(e, buf), buf.Filled();
    ghost var outcomes := Run(e, buf, script);
    ghost var others := Run(other, otherBuf, kept);
    SameEnd(e, buf, other, otherBuf, filled, s.core, Successes(outcomes), StageAfter(m, s, script),
            StageAfter(m, s, kept), LatestAsked(script), Reset(m, s, script));
  }

  // ---- A script that shows it ----

  /** Two more that both seal a record. */
  lemma AndTwoMore(m: Setting, s: Stage, script: seq<Op>, from: Stage, a: Op, b: Op,
                   first: (Stage, Option<Rec>), second: (Stage, Option<Rec>))
    requires StageAfter(m, s, script) == from && first == Taken(m, from, a) && second == Taken(m, first.0, b)
    requires first.1.Some? && second.1.Some?
    ensures Successes(Outcomes(m, s, script + [a] + [b]))
            == Successes(Outcomes(m, s, script)) + [first.1.value] + [second.1.value]
    ensures Trimmed(m, s, script + [a] + [b]) == Trimmed(m, s, script) + [a] + [b]
    ensures a.size.Datagram? && Reset(m, s, script).Some? ==> !Unmarked(m, s, script + [a] + [b])
  {
    AndThen(m, s, script, a, first);
    AndThen(m, s, script + [a], b, second);
  }

  /** A plain send of a whole payload: nothing in front, copied in, no fault, all at time 0. */
  function SendNow(size: RecordSize, bytes: Bytes): Op { Send([], size, 0, bytes, Copied, NoFault, 0) }

  /** With room for any record, such a send seals as many of its bytes as its size and the budget allow. */
  lemma SendNowSeals(m: Setting, s: Stage, size: RecordSize, bytes: Bytes, cap: nat)
    requires ValidKeys(m.keys) && Sound(m.plan, m.keys.format) && Fills(m.fill)
    requires s.state == Ready && s.len + V6_WIRE_CAP <= m.limit
    requires PayloadCapacity(size, 0, LimitFor(m.plan, s.window, s.core.sequence, 0, size)) == Ok(cap)
    requires cap <= m.plan.datagramLimit && |bytes| >= cap
    ensures
      var rec := RecordOf(m.plan, m.keys.format, m.fill, s.core, cap, bytes[..cap]);
      var after := Taken(m, s, SendNow(size, bytes));
      && after.1 == Some(rec)
      && after.0 == Stage(NextCore(s.core, cap),
                          m.plan.committed(Asked(m.plan, s.window, 0, size), s.core.sequence, 0, 0), Ready, after.0.len)
      && after.0.len <= s.len + V6_WIRE_CAP
  {
    RecordFits(m.plan, m.keys, m.fill, s.core, cap, bytes[..cap]);
    assert [] + bytes[..cap] == bytes[..cap];
  }

  /** A shaped encoder that has sealed nothing, with room for two records. */
  ghost predicate New(profile: Shape, m: Setting, s: Stage)
  {
    && ValidKeys(m.keys) && m.keys.format == FormatOf(ShapedPolicy(profile)) && Fills(m.fill)
    && m.plan == PlanOf(ShapedPolicy(profile)) && 2 * V6_WIRE_CAP <= m.limit
    && s.core.sequence == 0 && s.window.ShapedWindow? && s.window.lastWrite == None && s.state == Ready && s.len == 0
  }

  /** The record sealed from a core with that capacity, all of it used. */
  function Full(m: Setting, c: Core, bytes: Bytes): Rec
  {
    RecordOf(m.plan, m.keys.format, m.fill, c, |bytes|, bytes)
  }

  /** A datagram, and then as much of a stream as its budget allows. */
  lemma DatagramThenStream(profile: Shape, m: Setting, s: Stage, datagram: Bytes, stream: Bytes, budget: nat)
    requires New(profile, m, s) && |datagram| <= MAX_PACKET_SIZE_V6 == |stream|
    requires budget == ChunkLimit(profile, 1, AdvanceChunkSize(profile, s.window.chunkSize))
    ensures budget <= |stream|
    ensures
      var first := Taken(m, s, SendNow(Datagram(|datagram|), datagram));
      var second := Taken(m, first.0, SendNow(Stream(MAX_PACKET_SIZE_V6), stream));
      && first.1 == Some(Full(m, s.core, datagram))
      && second.1 == Some(Full(m, NextCore(s.core, |datagram|), stream[..budget]))
  {
    EveryPolicySound(ShapedPolicy(profile));
    assert datagram[..|datagram|] == datagram;
    SendNowSeals(m, s, Datagram(|datagram|), datagram, |datagram|);
    var mid := Taken(m, s, SendNow(Datagram(|datagram|), datagram)).0;
    assert mid.window == ShapedWindow(AdvanceChunkSize(profile, s.window.chunkSize), Some(0));
    SendNowSeals(m, mid, Stream(MAX_PACKET_SIZE_V6), stream, budget);
  }

  /** The request that is dropped starts a new window. */
  lemma CancelAsks(profile: Shape, m: Setting, s: Stage)
    requires New(profile, m, s) && s.window == Fresh(ShapedPolicy(profile))
    ensures Taken(m, s, Cancel([], Stream(1), 0)) == (s.(window := ShapedWindow(profile.chunkInitial, None)), None)
    ensures Reset(m, s, [Cancel([], Stream(1), 0)]) == Some(0)
  {
    assert [Cancel([], Stream(1), 0)][..0] == [];
  }

  /**
    * The failing script, on a new shaped encoder and without any gap: a stream
    * request dropped, a datagram and a stream record. The datagram is the same
    * with and without the dropped request, and the record after it is exactly
    * if the profile gives the two windows the same budget.
    */
  lemma TraceShows(profile: Shape, m: Setting, s: Stage, datagram: Bytes, stream: Bytes)
    requires New(profile, m, s) && s.window == Fresh(ShapedPolicy(profile))
    requires |datagram| <= MAX_PACKET_SIZE_V6 == |stream|
    ensures
      var cancel, first := Cancel([], Stream(1), 0), SendNow(Datagram(|datagram|), datagram);
      var second := SendNow(Stream(MAX_PACKET_SIZE_V6), stream);
      var script, kept := [] + [cancel] + [first] + [second], [] + [first] + [second];
      && Trimmed(m, s, script) == kept && !Unmarked(m, s, script)
      && (Successes(Outcomes(m, s, script)) == Successes(Outcomes(m, s, kept)) <==>
            ChunkLimit(profile, 1, profile.chunkInitial + profile.chunkStep) == ChunkLimit(profile, 1, profile.chunkInitial))
  {
    var cancel, first := Cancel([], Stream(1), 0), SendNow(Datagram(|datagram|), datagram);
    var second, asked := SendNow(Stream(MAX_PACKET_SIZE_V6), stream), s.(window := ShapedWindow(profile.chunkInitial, None));
    var a, b := ChunkLimit(profile, 1, profile.chunkInitial + profile.chunkStep), ChunkLimit(profile, 1, profile.chunkInitial);
    CancelAsks(profile, m, s);
    DatagramThenStream(profile, m, asked, datagram, stream, a);
    DatagramThenStream(profile, m, s, datagram, stream, b);
    AndThen(m, s, [], cancel, Taken(m, s, cancel));
    assert [] + [cancel] == [cancel];
    var one, other := Taken(m, asked, first), Taken(m, s, first);
    AndTwoMore(m, s, [] + [cancel], asked, first, second, one, Taken(m, one.0, second));
    AndTwoMore(m, s, [], s, first, second, other, Taken(m, other.0, second));
    SameRecords(m, s.core, NextCore(s.core, |datagram|), datagram, stream, a, b);
  }

  /** Two full records from the same core are the same exactly if their payloads are as long. */
  lemma SameRecords(m: Setting, c: Core, next: Core, datagram: Bytes, stream: Bytes, a: nat, b: nat)
    requires a <= |stream| && b <= |stream|
    ensures
      var none: seq<Rec> := [];
      var one, other := none + [Full(m, c, datagram)] + [Full(m, next, stream[..a])],
                        none + [Full(m, c, datagram)] + [Full(m, next, stream[..b])];
      one == other <==> a == b
  {
    var none: seq<Rec> := [];
    var one, other := none + [Full(m, c, datagram)] + [Full(m, next, stream[..a])],
                      none + [Full(m, c, datagram)] + [Full(m, next, stream[..b])];
    if one == other {
      assert one[1].payload == stream[..a] && other[1].payload == stream[..b];
    }
  }

  /** Profiles whose budget is the window are such a case. */
  lemma PlainProfileShows(profile: Shape)
    requires profile.chunkPolicy == 0
    ensures ChunkLimit(profile, 1, profile.chunkInitial + profile.chunkStep) != ChunkLimit(profile, 1, profile.chunkInitial)
  {
  }

  /** And some key derives one. */
  lemma SomeProfileShows() returns (profile: Shape)
    ensures ChunkLimit(profile, 1, profile.chunkInitial + profile.chunkStep) != ChunkLimit(profile, 1, profile.chunkInitial)
  {
    var prf := Prf((_, _, _) => 0, (_, _, _, _) => 0, (_, _) => 0, _ => 0);
    assert prf.word(ChunkPolicy, 0, 0) == 0;
    profile := Derive(prf);
    PlainProfileShows(profile);
  }
}
