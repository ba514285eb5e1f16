/** Who is notified, when, and how each recipient of the boot ends, in terms of the calls made. */
module RestartCampaign {

  import opened Common
  import opened RestartRecipients
  import opened RestartScheduler
  import opened RestartSafety
  import opened Tally

  // ----- one attempt ------------------------------------------------------------------------------

  /** What a callback pair `o` makes of an attempt: nothing is sent without a directed address,
      and what is sent goes there. */
  ghost predicate Attempted(k: Stack, r: Recipient, now: nat, stamp: Timestamp, o: Outcome, y: Try) {
    y.at == now && y.stamp == stamp &&
    (forall a :: y.sentTo == Some(a) <==> o.resolved == Some(a) && Directed(k, r, a)) &&
    (y.sentTo.Some? ==> y.result == o.result) && (y.sentTo.None? ==> y.result == 0)
  }

  /** A destination before and after a tick past the guard. */
  ghost predicate Served(k: Stack, t: Target, u: Target, now: nat, stamp: Timestamp, o: Outcome) {
    if t.d.pending && now >= t.d.next then
      |u.tries| == |t.tries| + 1 && u.tries[..|t.tries|] == t.tries &&
      Attempted(k, t.d.recipient, now, stamp, o, u.tries[|t.tries|]) && u.d.recipient == t.d.recipient &&
      u.d.canceled == t.d.canceled &&
      (u.d.pending <==> u.tries[|t.tries|].result <= 0 && t.d.attempts != 4) &&
      (u.d.pending ==> u.d.next == now + 1000)
    else u == t
  }

  lemma TriedIsServed(k: Stack, t: Target, now: nat, stamp: Timestamp, o: Outcome)
    requires Due(t.d, now)
    ensures Served(k, t, Tried(k, t, now, stamp, o), now, stamp, o)
  {
  }

  // ----- one tick ---------------------------------------------------------------------------------

  predicate Guard(k: Stack, s: Sched, ready: bool, instance: nat) {
    ready && s.stamp.Some? && instance < k.maxInstance
  }

  lemma BlockedTick(k: Stack, s: Sched, now: nat, ready: bool, instance: nat, env: nat -> Outcome)
    requires !(ready && s.stamp.Some? && instance < k.maxInstance)
    ensures Tick(k, s, now, ready, instance, env) == s
  {
  }

  /** The first ready tick makes every live recipient a destination, in order, and tries each. */
  lemma FirstTickTriesAll(k: Stack, s: Sched, now: nat, ready: bool, instance: nat, env: nat -> Outcome)
    requires ready && s.stamp.Some? && instance < k.maxInstance && !s.stats.bootReady
    ensures var r := Tick(k, s, now, ready, instance, env);
      r.stats.bootReady && r.live == s.live && r.key == s.key && r.stamp == s.stamp &&
      |r.targets| == |s.live.recipients| &&
      forall i :: 0 <= i < |r.targets| ==>
        r.targets[i].d.recipient == s.live.recipients[i] && |r.targets[i].tries| == 1 &&
        Attempted(k, s.live.recipients[i], now, s.stamp.value, env(i), r.targets[i].tries[0]) &&
        !r.targets[i].d.canceled && r.targets[i].d.attempts == 1 &&
        (r.targets[i].d.pending <==> r.targets[i].tries[0].result <= 0)
  {
    var b := Snapshot(s, now);
    TickFromIs(k, b.targets, b.stats, 0, now, b.stamp.value, env);
    TickKeepsReady(k, b.targets, b.stats, 0, now, b.stamp.value, env);
    var r := Tick(k, s, now, ready, instance, env);
    forall i | 0 <= i < |s.live.recipients|
      ensures Served(k, b.targets[i], r.targets[i], now, s.stamp.value, env(i))
    {
      TriedIsServed(k, b.targets[i], now, s.stamp.value, env(i));
    }
  }

  /** Any later tick tries exactly the pending destinations whose second is over. */
  lemma LaterTickTriesTheDue(k: Stack, s: Sched, now: nat, ready: bool, instance: nat, env: nat -> Outcome)
    requires ready && s.stamp.Some? && instance < k.maxInstance && s.stats.bootReady
    ensures var r := Tick(k, s, now, ready, instance, env);
      r.stats.bootReady && r.live == s.live && r.key == s.key && r.stamp == s.stamp &&
      |r.targets| == |s.targets| &&
      forall i :: 0 <= i < |s.targets| ==>
        Served(k, s.targets[i], r.targets[i], now, s.stamp.value, env(i))
  {
    TickFromIs(k, s.targets, s.stats, 0, now, s.stamp.value, env);
    TickKeepsReady(k, s.targets, s.stats, 0, now, s.stamp.value, env);
    forall i | 0 <= i < |s.targets| && Due(s.targets[i].d, now)
      ensures Served(k, s.targets[i], Tried(k, s.targets[i], now, s.stamp.value, env(i)), now, s.stamp.value, env(i))
    {
      TriedIsServed(k, s.targets[i], now, s.stamp.value, env(i));
    }
  }

  // ----- the timestamp and the boot ---------------------------------------------------------------

  /** The last date and time without wildcards among the timestamps offered, the first being `t`. */
  function LatestGood(es: seq<Event>, t: Option<Timestamp>): Option<Timestamp> {
    if es == [] then t
    else LatestGood(es[1..], if es[0].Stamp? && es[0].t.DateTime? && es[0].t.wellFormed then Some(es[0].t) else t)
  }

  lemma {:induction false} LatestIsTaken(k: Stack, s: Sched, es: seq<Event>, clock: nat)
    requires Lawful(k) && Inv(k, s, clock) && InOrder(es, clock) && !Run(k, s, es).stats.bootReady
    ensures Run(k, s, es).stamp == LatestGood(es, s.stamp)
    decreases |es|
  {
    if es == [] {
    } else {
      var s', later := Step(k, s, es[0]), Clock(es[0], clock);
      StepKeepsInv(k, s, es[0], clock);
      LatestIsTaken(k, s', es[1..], later);
      if s.stats.bootReady {
        SnapshotIsFinal(k, s, es, clock);
      } else if s'.stats.bootReady {
        SnapshotIsFinal(k, s', es[1..], later);
      } else {
        StampOrNot(k, s, es[0]);
      }
    }
  }

  lemma StampOrNot(k: Stack, s: Sched, e: Event)
    requires !s.stats.bootReady && !Step(k, s, e).stats.bootReady
    ensures Step(k, s, e).stamp == LatestGood([e], s.stamp)
  {
    assert LatestGood([], LatestGood([e], s.stamp)) == LatestGood([e], s.stamp);
    if e.Ticked? && Guard(k, s, e.ready, e.instance) {
      FirstTickTriesAll(k, s, e.now, e.ready, e.instance, e.env);
    }
  }

  /** The counter tells the faults of a boot, which takes no timestamp but a good one. */
  lemma BootCountsFaults(k: Stack, nvs: Nvs, t: Option<Timestamp>)
    ensures var s := Boot(k, nvs, t);
      var good := t.Some? && t.value.DateTime? && t.value.wellFormed;
      s.stamp == (if good then t else None) && s.stats.configurationErrors <= 2 &&
      (s.stats.configurationErrors == 0 <==> !BootList(k, nvs).1 && (good || t.None?)) &&
      (s.stats.configurationErrors == 2 <==> BootList(k, nvs).1 && !good && t.Some?)
  {
  }

  /** Until the first ready tick the timestamp is the latest good one offered. */
  lemma LatestBeforeReady(k: Stack, nvs: Nvs, t: Option<Timestamp>, es: seq<Event>, clock: nat)
    requires Lawful(k) && InOrder(es, clock) && !Reached(k, nvs, t, es).stats.bootReady
    ensures Reached(k, nvs, t, es).stamp == LatestGood(es, Boot(k, nvs, t).stamp)
  {
    BootInv(k, nvs, t, clock);
    LatestIsTaken(k, Boot(k, nvs, t), es, clock);
  }

  // ----- one edit ---------------------------------------------------------------------------------

  /** The error a write gets, the first that applies. */
  lemma WriteAnswers(k: Stack, s: Sched, w: WriteRequest, flash: Flash)
    ensures var result := Write(k, s, w, flash).1;
      var parsed := w.bytes.Some? && DecodeList(k, w.bytes.value).Some?;
      (result == AccessDenied <==> !w.ownProperty) &&
      (result == NotAnArray <==> w.ownProperty && !w.wholeArray) &&
      (result == OutOfRange <==> w.ownProperty && w.wholeArray && !parsed) &&
      (result == NotPersisted <==>
        (w.ownProperty && w.wholeArray && parsed &&
         !StoreRecipients(s.key, DecodeList(k, w.bytes.value).value.canonical, flash).1))
  {
  }

  /** An accepted write makes its list live and drops exactly the pending destinations that
      list leaves out; no other destination notices it. */
  lemma AcceptedEdit(k: Stack, s: Sched, w: WriteRequest, flash: Flash)
    requires Write(k, s, w, flash).1 == Accepted
    ensures var r := Write(k, s, w, flash).0;
      Some(r.live) == DecodeList(k, w.bytes.value) &&
      r.key == StoreRecipients(s.key, r.live.canonical, flash).0 && r.stamp == s.stamp &&
      |r.targets| == |s.targets| &&
      forall i :: 0 <= i < |s.targets| ==> EditOf(k, s.targets[i], r.targets[i], r.live)
  {
    CancelFromIs(k, s.targets, s.stats, DecodeList(k, w.bytes.value).value, 0);
  }

  ghost predicate EditOf(k: Stack, t: Target, u: Target, live: List) {
    if t.d.pending && forall x | x in live.recipients :: !k.same(t.d.recipient, x) then
      u == Target(t.d.(pending := false, canceled := true), t.tries)
    else u == t
  }

  // ----- the whole campaign -----------------------------------------------------------------------

  /** Event `e` is an accepted write whose list leaves `r` out. */
  ghost predicate LeavesOut(k: Stack, s: Sched, e: Event, r: Recipient) {
    e.Edit? && Write(k, s, e.w, e.flash).1 == Accepted &&
    forall x | x in Step(k, s, e).live.recipients :: !k.same(r, x)
  }

  /** Some event of the run is. */
  ghost predicate LeftOut(k: Stack, s: Sched, es: seq<Event>, r: Recipient)
    decreases |es|
  {
    es != [] && (LeavesOut(k, s, es[0], r) || LeftOut(k, Step(k, s, es[0]), es[1..], r))
  }

  /** Tries are only added, and only an edit that leaves the recipient out cancels. */
  ghost predicate Later(t: Target, u: Target, leftOut: bool) {
    u.d.recipient == t.d.recipient && t.tries <= u.tries && (u.d.canceled ==> t.d.canceled || leftOut)
  }

  lemma StepIsLater(k: Stack, s: Sched, e: Event, i: nat)
    requires s.stats.bootReady && i < |s.targets|
    ensures |Step(k, s, e).targets| == |s.targets|
    ensures Later(s.targets[i], Step(k, s, e).targets[i], LeavesOut(k, s, e, s.targets[i].d.recipient))
  {
    match e
    case Stamp(t) =>
    case Edit(w, flash) =>
      if Write(k, s, w, flash).1 == Accepted {
        AcceptedEdit(k, s, w, flash);
        assert EditOf(k, s.targets[i], Step(k, s, e).targets[i], Step(k, s, e).live);
      }
    case Ticked(now, ready, instance, env) =>
      if Guard(k, s, ready, instance) {
        LaterTickTriesTheDue(k, s, now, ready, instance, env);
        assert Served(k, s.targets[i], Step(k, s, e).targets[i], now, s.stamp.value, env(i));
      }
  }

  lemma {:induction false} RunIsLater(k: Stack, s: Sched, es: seq<Event>, clock: nat, i: nat)
    requires Lawful(k) && Inv(k, s, clock) && InOrder(es, clock) && s.stats.bootReady && i < |s.targets|
    ensures |Run(k, s, es).targets| == |s.targets|
    ensures Later(s.targets[i], Run(k, s, es).targets[i], LeftOut(k, s, es, s.targets[i].d.recipient))
    decreases |es|
  {
    if es == [] {
    } else {
      StepKeepsInv(k, s, es[0], clock);
      OneStepIsFinal(k, s, es[0], clock);
      StepIsLater(k, s, es[0], i);
      RunIsLater(k, Step(k, s, es[0]), es[1..], Clock(es[0], clock), i);
    }
  }

  /** A recipient at the end of the campaign. */
  ghost predicate Ended(u: Target, r: Recipient, start: nat, leftOut: bool) {
    u.d.recipient == r && u.tries != [] && u.tries[0].at == start && !u.d.pending &&
    (Received(u.tries[|u.tries| - 1]) || |u.tries| == 5 || leftOut)
  }

  /** Every recipient that is live at the first ready tick is tried at once, and 4000 + 3 * gap
      ms later has an accepted try, or five tries, or was left out by an accepted write. */
  lemma EveryRecipientEnds(k: Stack, s: Sched, first: Event, es: seq<Event>, clock: nat, gap: nat)
    requires Lawful(k) && Inv(k, s, clock) && !s.stats.bootReady && first.Ticked? && clock <= first.now
    requires first.ready && s.stamp.Some? && first.instance < k.maxInstance && Steady(k, es, first.now, gap)
    requires LastClock(es, first.now) >= first.now + 4 * RETRY_MS + 3 * gap
    ensures var s' := Step(k, s, first);
      var r := Run(k, s', es);
      |r.targets| == |s.live.recipients| &&
      forall i :: 0 <= i < |r.targets| ==>
        Ended(r.targets[i], s.live.recipients[i], first.now, LeftOut(k, s', es, s.live.recipients[i]))
  {
    var s' := Step(k, s, first);
    FirstTickTriesAll(k, s, first.now, first.ready, first.instance, first.env);
    StepKeepsInv(k, s, first, clock);
    SteadyInOrder(k, es, first.now, gap);
    CampaignEnds(k, s, first, es, clock, gap);
    SnapshotIsFinal(k, s', es, first.now);
    RunKeepsInv(k, s', es, first.now);
    var r := Run(k, s', es);
    forall i | 0 <= i < |r.targets|
      ensures Ended(r.targets[i], s.live.recipients[i], first.now, LeftOut(k, s', es, s.live.recipients[i]))
    {
      RunIsLater(k, s', es, first.now, i);
      NonePending(r.targets, i);
    }
  }

  lemma {:induction false} PendingNonnegative(ts: seq<Target>)
    ensures Sum(IsPending, ts) >= 0
    decreases |ts|
  {
    if ts == [] {
    } else {
      PendingNonnegative(ts[1..]);
    }
  }

  lemma {:induction false} NonePending(ts: seq<Target>, i: nat)
    requires Sum(IsPending, ts) == 0 && i < |ts|
    ensures !ts[i].d.pending
    decreases |ts|
  {
    PendingNonnegative(ts[1..]);
    if i == 0 {
    } else {
      NonePending(ts[1..], i - 1);
    }
  }
}
