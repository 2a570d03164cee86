/** How much payload a record may carry: the v4 and shaped chunk windows, and the sizes callers ask for. */
module Windows {
  import opened Protocol
  import opened Profile

  /** What each encoder's sizing depends on. */
  datatype Policy =
    | V4Policy(initialPadding: nat)
    | UnshapedPolicy
    | ShapedPolicy(profile: Shape)

  datatype Limit = Limit(sealedAt: nat, limit: nat)

  /** What each encoder remembers of the records it has sealed. */
  datatype Window =
    | V4Window(last: Option<Limit>)
    | UnshapedWindow(saltSent: bool)
    | ShapedWindow(chunkSize: nat, lastWrite: Option<nat>)

  datatype RecordSize = Stream(hint: nat) | Datagram(len: nat)

  predicate Matches(p: Policy, w: Window)
  {
    match p
    case V4Policy(_) => w.V4Window?
    case UnshapedPolicy => w.UnshapedWindow?
    case ShapedPolicy(_) => w.ShapedWindow?
  }

  function Fresh(p: Policy): (w: Window)
    ensures Matches(p, w)
    ensures !SaltSent(w)
  {
    match p
    case V4Policy(_) => V4Window(None)
    case UnshapedPolicy => UnshapedWindow(false)
    case ShapedPolicy(_) => ShapedWindow(0, None)
  }

  /** The salt goes out with the first sealed record. */
  predicate SaltSent(w: Window)
  {
    match w
    case V4Window(last) => last.Some?
    case UnshapedWindow(sent) => sent
    case ShapedWindow(_, last) => last.Some?
  }

  function NextV4Limit(current: nat): nat
  {
    Min(current + V4_MSS_BASE - V4_RESET_OVERHEAD, MAX_PACKET_SIZE)
  }

  /** The shaped window is reset on first use and after an idle gap, when a record is reserved. */
  function Refreshed(p: Policy, w: Window, now: nat): (r: Window)
    requires Matches(p, w)
    ensures Matches(p, r)
    ensures SaltSent(r) == SaltSent(w)
  {
    if p.ShapedPolicy? && (w.chunkSize == 0 || (w.lastWrite.Some? && now - w.lastWrite.value > p.profile.idleResetSecs))
    then w.(chunkSize := p.profile.chunkInitial)
    else w
  }

  /** Stream payload allowed for the next record. */
  function Budget(p: Policy, w: Window, sequence: nat, now: nat): (n: nat)
    requires Matches(p, w)
  {
    match p
    case V4Policy(padding) =>
      (match w.last
       case None => Max(V4_MSS_BASE - (V4_FIRST_RECORD_OVERHEAD + padding), 0)
       case Some(last) =>
         if now - last.sealedAt > V4_IDLE_RESET_SECS then V4_MSS_BASE - V4_RESET_OVERHEAD else last.limit)
    case UnshapedPolicy => MAX_PACKET_SIZE
    case ShapedPolicy(profile) =>
      var n := Min(ChunkLimit(profile, sequence, Refreshed(p, w, now).chunkSize), MAX_PACKET_SIZE_V6);
      if sequence == 0 then Min(n, profile.firstRecordCap) else n
  }

  /** A datagram may fill the largest record the format has. */
  function DatagramLimit(p: Policy): nat
  {
    if p.V4Policy? then MAX_PACKET_SIZE else MAX_PACKET_SIZE_V6
  }

  /** Payload capacity, prefix included: streams are cut to the limit, datagrams must fit it. */
  function PayloadCapacity(size: RecordSize, prefixLen: nat, limit: nat): (r: Result<nat>)
    ensures r.Ok? ==> prefixLen <= r.value <= limit
    ensures r.Err? ==> r.error == PayloadTooLarge
  {
    match size
    case Stream(hint) => if prefixLen <= limit then Ok(Min(prefixLen + hint, limit)) else Err(PayloadTooLarge)
    case Datagram(len) => if prefixLen + len <= limit then Ok(prefixLen + len) else Err(PayloadTooLarge)
  }

  /** The window once a record reserved at `reservedAt` is sealed at `now`. */
  function Committed(p: Policy, w: Window, sequence: nat, reservedAt: nat, now: nat): (r: Window)
    requires Matches(p, w)
    ensures Matches(p, r)
    ensures SaltSent(r)
  {
    match p
    case V4Policy(_) => V4Window(Some(Limit(reservedAt, NextV4Limit(Budget(p, w, sequence, reservedAt)))))
    case UnshapedPolicy => UnshapedWindow(true)
    case ShapedPolicy(profile) => ShapedWindow(AdvanceChunkSize(profile, w.chunkSize), Some(now))
  }

  // ---- What the windows guarantee ----

  /** Windows an encoder can reach: a v4 limit always has at least one full growth step in it. */
  predicate Reachable(p: Policy, w: Window)
  {
    Matches(p, w) &&
    (w.V4Window? && w.last.Some? ==> V4_MSS_BASE - V4_RESET_OVERHEAD <= w.last.value.limit <= MAX_PACKET_SIZE)
  }

  lemma ReachableSteps(p: Policy, w: Window, sequence: nat, reservedAt: nat, now: nat)
    ensures Reachable(p, Fresh(p))
    ensures Reachable(p, w) ==> Reachable(p, Refreshed(p, w, now))
    ensures Reachable(p, w) ==> Reachable(p, Committed(p, w, sequence, reservedAt, now))
  {
  }

  /**
    * A stream record always makes progress, with one exception: the first v4
    * record has no room exactly when its initial padding takes the whole MSS.
    * Encoders with a padding below 0x200 are clear of it.
    */
  lemma BudgetPositive(p: Policy, w: Window, sequence: nat, now: nat)
    requires Reachable(p, w)
    ensures Budget(p, w, sequence, now) == 0 <==>
            p.V4Policy? && !SaltSent(w) && p.initialPadding >= V4_MSS_BASE - V4_FIRST_RECORD_OVERHEAD
    ensures Budget(p, w, sequence, now) <= DatagramLimit(p)
    ensures p.ShapedPolicy? ==> 0x40 <= Budget(p, w, sequence, now) <= p.profile.chunkMax
    ensures p.ShapedPolicy? && sequence == 0 ==> Budget(p, w, sequence, now) <= p.profile.firstRecordCap
  {
  }

  /** A record's reserve and seal time. */
  datatype Times = Times(at: nat, now: nat)

  function ReserveTime(t: Times): nat { t.at }

  function SealTime(t: Times): nat { t.now }

  /** Records of the unbroken streak a record reserved at `now` continues; gaps are measured from `mark`. */
  function Streak(idle: nat, mark: Times -> nat, times: seq<Times>, now: nat): (n: nat)
    ensures n <= |times|
  {
    if times == [] then 0
    else
      var before, last := times[..|times| - 1], times[|times| - 1];
      if now - mark(last) > idle then 0 else Streak(idle, mark, before, last.at) + 1
  }

  /** The window after stream records reserved and sealed at these times. */
  function After(p: Policy, times: seq<Times>): (w: Window)
    ensures Matches(p, w)
  {
    if times == [] then Fresh(p)
    else
      var n := |times| - 1;
      Committed(p, Refreshed(p, After(p, times[..n]), times[n].at), n, times[n].at, times[n].now)
  }

  /**
    * The v4 budget grows by one MSS less overhead a record, up to the maximum,
    * and starts over after an idle gap between reservations; the first record
    * of all also pays for the salt and its padding.
    */
  lemma {:induction false} V4Growth(padding: nat, times: seq<Times>, now: nat)
    ensures
      var k := Streak(V4_IDLE_RESET_SECS, ReserveTime, times, now);
      var base := if k == |times| then Max(V4_MSS_BASE - V4_FIRST_RECORD_OVERHEAD - padding, 0)
                  else V4_MSS_BASE - V4_RESET_OVERHEAD;
      Budget(V4Policy(padding), After(V4Policy(padding), times), |times|, now)
      == Min(base + k * (V4_MSS_BASE - V4_RESET_OVERHEAD), MAX_PACKET_SIZE)
  {
    if times != [] {
      var n := |times| - 1;
      V4Growth(padding, times[..n], times[n].at);
    }
  }

  /**
    * The shaped window grows by the profile's step a record, up to its maximum,
    * and starts over when a record is reserved after an idle gap since the last
    * seal.
    */
  lemma {:induction false} ShapedGrowth(profile: Shape, times: seq<Times>, now: nat)
    ensures
      var p, k := ShapedPolicy(profile), Streak(profile.idleResetSecs, SealTime, times, now);
      Refreshed(p, After(p, times), now).chunkSize == Min(profile.chunkInitial + k * profile.chunkStep, profile.chunkMax)
  {
    if times != [] {
      var n := |times| - 1;
      var p, k := ShapedPolicy(profile), Streak(profile.idleResetSecs, SealTime, times[..n], times[n].at);
      ShapedGrowth(profile, times[..n], times[n].at);
      GrowsOnce(profile, k);
      var size := Refreshed(p, After(p, times[..n]), times[n].at).chunkSize;
      assert After(p, times) == ShapedWindow(AdvanceChunkSize(profile, size), Some(times[n].now));
    }
  }

  /** One step from the window after `k` of them. */
  lemma GrowsOnce(profile: Shape, k: nat)
    ensures
      var size := Min(profile.chunkInitial + k * profile.chunkStep, profile.chunkMax);
      size > 0 && AdvanceChunkSize(profile, size) == Min(profile.chunkInitial + (k + 1) * profile.chunkStep, profile.chunkMax)
  {
    assert (k + 1) * profile.chunkStep == k * profile.chunkStep + profile.chunkStep;
    assert k * profile.chunkStep >= 0;
  }
}
