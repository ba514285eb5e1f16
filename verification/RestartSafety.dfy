/** What the restart scheduler keeps over every run of ticks, timestamps and list edits. */
module RestartSafety {

  import opened Common
  import opened RestartRecipients
  import opened RestartScheduler
  import opened Runs
  import opened Tally

  datatype Event =
    | Stamp(t: Timestamp)
    | Edit(w: WriteRequest, flash: Flash)
    | Ticked(now: nat, ready: bool, instance: nat, env: nat -> Outcome)

  function Step(k: Stack, s: Sched, e: Event): Sched {
    match e
    case Stamp(t) => SetStamp(s, t).0
    case Edit(w, flash) => Write(k, s, w, flash).0
    case Ticked(now, ready, instance, env) => Tick(k, s, now, ready, instance, env)
  }

  function Run(k: Stack, s: Sched, es: seq<Event>): Sched {
    RunAll((x: Sched, e: Event) => Step(k, x, e), s, es)
  }

  /** The clock after an event, and that it never runs backwards. */
  function Clock(e: Event, before: nat): nat {
    if e.Ticked? then e.now else before
  }

  function LastClock(es: seq<Event>, clock: nat): nat {
    if es == [] then clock else LastClock(es[1..], Clock(es[0], clock))
  }

  predicate InOrder(es: seq<Event>, clock: nat) {
    es == [] || (Clock(es[0], clock) >= clock && InOrder(es[1..], Clock(es[0], clock)))
  }

  // ----- one destination -------------------------------------------------------------------------

  /** The address may stand for the recipient: a device by a station address that is neither
      broadcast nor on a remote network without an address there; an address by itself. */
  predicate Directed(k: Stack, r: Recipient, a: Address) {
    |a.mac| <= k.maxMac && |a.adr| <= k.maxMac &&
    (r.Device? ==> |a.mac| == 6 && a.net != k.broadcastNetwork && (a.net != 0 ==> a.adr != [])) &&
    (r.Direct? ==> r.address.net == 0 && k.netSame(r.address, a)) && !r.OtherTag?
  }

  /** `resolved_destination_valid` accepts exactly these. */
  lemma ValidIsDirected(k: Stack, r: Recipient, a: Address)
    ensures ResolvedValid(k, r, a) <==> Directed(k, r, a)
  {
  }

  ghost predicate TriesInv(k: Stack, t: Target, stamp: Option<Timestamp>, clock: nat) {
    (forall j :: 0 <= j < |t.tries| ==> GoodTry(k, t.d.recipient, t.tries[j], stamp, clock)) &&
    forall i, j :: 0 <= i < j < |t.tries| ==> Before(t.tries[i], t.tries[j])
  }

  /** A try is in the past, carries the frozen timestamp and never misdirects a recipient. */
  ghost predicate GoodTry(k: Stack, r: Recipient, y: Try, stamp: Option<Timestamp>, clock: nat) {
    y.at <= clock && stamp == Some(y.stamp) && (y.sentTo.Some? ==> Directed(k, r, y.sentTo.value))
  }

  /** A try followed by another was not accepted, and is at least a retry interval older. */
  ghost predicate Before(y: Try, z: Try) {
    !Received(y) && y.at + RETRY_MS <= z.at
  }

  ghost predicate TargetInv(k: Stack, t: Target, live: List, stamp: Option<Timestamp>, clock: nat) {
    TriesInv(k, t, stamp, clock) && t.d.attempts == |t.tries| <= ATTEMPTS_MAX &&
    (t.d.pending ==> !t.d.canceled && t.d.attempts < ATTEMPTS_MAX && StillListed(k, live, t.d.recipient)) &&
    (t.d.pending || t.d.canceled ==>
       forall y | y in t.tries :: !Received(y) && y.at + RETRY_MS <= t.d.next) &&
    (Exhausted(t) ==> t.d.attempts == ATTEMPTS_MAX)
  }

  predicate Sent(t: Target) {
    !t.d.pending && !t.d.canceled && t.tries != [] && Received(t.tries[|t.tries| - 1])
  }

  predicate Exhausted(t: Target) {
    !t.d.pending && !t.d.canceled && !Sent(t)
  }

  // ----- the record of the tries ------------------------------------------------------------------

  function NoAddress(y: Try): int {
    if y.sentTo.None? then 1 else 0
  }

  function NotAccepted(y: Try): int {
    if y.sentTo.Some? && y.result <= 0 then 1 else 0
  }

  function Unresolved(t: Target): int {
    Sum(NoAddress, t.tries)
  }

  function Refused(t: Target): int {
    Sum(NotAccepted, t.tries)
  }

  /** What a destination reports about its tries. */
  ghost predicate Recorded(t: Target) {
    t.d.sendAttempts == |t.tries| - Unresolved(t) &&
    (t.tries != [] ==>
      var last := t.tries[|t.tries| - 1];
      t.d.firstAttempt == t.tries[0].at && t.d.lastAttempt == last.at && t.d.lastResult == last.result &&
      t.d.address == last.sentTo && t.d.lastAccepted == (if Received(last) then last.at else 0)) &&
    (t.tries == [] ==> t.d.lastAccepted == 0)
  }

  lemma TriedRecorded(k: Stack, t: Target, now: nat, stamp: Timestamp, o: Outcome)
    requires Recorded(t) && t.d.attempts == |t.tries|
    requires t.tries != [] ==> !Received(t.tries[|t.tries| - 1])
    ensures Recorded(Tried(k, t, now, stamp, o))
  {
    SumAppend(NoAddress, t.tries, MadeTry(k, t.d.recipient, now, stamp, o));
  }

  lemma TriedInv(k: Stack, t: Target, live: List, now: nat, stamp: Timestamp, o: Outcome)
    requires TargetInv(k, t, live, Some(stamp), now) && Due(t.d, now)
    ensures TargetInv(k, Tried(k, t, now, stamp, o), live, Some(stamp), now)
  {
  }

  // ----- counting --------------------------------------------------------------------------------

  function IsPending(t: Target): int {
    if t.d.pending then 1 else 0
  }

  function IsCanceled(t: Target): int {
    if !t.d.pending && t.d.canceled then 1 else 0
  }

  function IsSent(t: Target): int {
    if Sent(t) then 1 else 0
  }

  function IsExhausted(t: Target): int {
    if Exhausted(t) then 1 else 0
  }

  function Attempts(t: Target): int {
    t.d.attempts
  }

  /** The statistics are those of the destinations and of the tries. */
  ghost predicate StatsInv(ts: seq<Target>, stats: Stats) {
    (stats.pending, stats.sent, stats.exhausted) == (Sum(IsPending, ts), Sum(IsSent, ts), Sum(IsExhausted, ts)) &&
    (stats.resolutionFailures, stats.sendFailures, stats.resolutionFailures + stats.sendFailures + stats.sent) ==
      (Sum(Unresolved, ts), Sum(Refused, ts), Sum(Attempts, ts))
  }

  lemma TriedCounts(k: Stack, ts: seq<Target>, stats: Stats, i: nat, now: nat, stamp: Timestamp, o: Outcome)
    requires i < |ts| && StatsInv(ts, stats) && Due(ts[i].d, now) && !ts[i].d.canceled
    ensures StatsInv(ts[i := Tried(k, ts[i], now, stamp, o)], Counted(k, ts[i].d, stats, o))
  {
    var u := Tried(k, ts[i], now, stamp, o);
    assert u.tries[|u.tries| - 1] == MadeTry(k, ts[i].d.recipient, now, stamp, o);
    SumAppend(NoAddress, ts[i].tries, u.tries[|u.tries| - 1]);
    SumAppend(NotAccepted, ts[i].tries, u.tries[|u.tries| - 1]);
    UpdateCounts(ts, i, u);
    UpdateTries(ts, i, u);
  }

  lemma UpdateCounts(ts: seq<Target>, i: nat, u: Target)
    requires i < |ts|
    ensures Sum(IsPending, ts[i := u]) == Sum(IsPending, ts) - IsPending(ts[i]) + IsPending(u)
    ensures Sum(IsSent, ts[i := u]) == Sum(IsSent, ts) - IsSent(ts[i]) + IsSent(u)
    ensures Sum(IsExhausted, ts[i := u]) == Sum(IsExhausted, ts) - IsExhausted(ts[i]) + IsExhausted(u)
  {
    SumUpdate(IsPending, ts, i, u);
    SumUpdate(IsSent, ts, i, u);
    SumUpdate(IsExhausted, ts, i, u);
  }

  lemma UpdateTries(ts: seq<Target>, i: nat, u: Target)
    requires i < |ts|
    ensures Sum(Attempts, ts[i := u]) == Sum(Attempts, ts) - Attempts(ts[i]) + Attempts(u)
    ensures Sum(Unresolved, ts[i := u]) == Sum(Unresolved, ts) - Unresolved(ts[i]) + Unresolved(u)
    ensures Sum(Refused, ts[i := u]) == Sum(Refused, ts) - Refused(ts[i]) + Refused(u)
  {
    SumUpdate(Attempts, ts, i, u);
    SumUpdate(Unresolved, ts, i, u);
    SumUpdate(Refused, ts, i, u);
  }

  /** Every destination is pending, canceled, sent or exhausted, and only one of these. */
  lemma {:induction false} FourWays(ts: seq<Target>)
    ensures Sum(IsPending, ts) + Sum(IsCanceled, ts) + Sum(IsSent, ts) + Sum(IsExhausted, ts) == |ts|
    decreases |ts|
  {
    if ts == [] {
    } else {
      FourWays(ts[1..]);
    }
  }

  // ----- the invariant ----------------------------------------------------------------------------

  ghost predicate AllTargets(k: Stack, ts: seq<Target>, live: List, stamp: Option<Timestamp>, clock: nat) {
    forall i :: 0 <= i < |ts| ==> TargetInv(k, ts[i], live, stamp, clock) && Recorded(ts[i])
  }

  predicate AllValid(k: Stack, l: List) {
    forall r | r in l.recipients :: RecipientValid(k, r)
  }

  ghost predicate Inv(k: Stack, s: Sched, clock: nat) {
    AllTargets(k, s.targets, s.live, s.stamp, clock) && StatsInv(s.targets, s.stats) &&
    (s.stats.bootReady ==> s.stamp.Some?) && (!s.stats.bootReady ==> s.targets == []) &&
    (s.stamp.Some? ==> Acceptable(s.stamp.value)) && AllValid(k, s.live)
  }

  function Passed(k: Stack, u: Target, now: nat, stamp: Timestamp, o: Outcome): Target {
    if Due(u.d, now) then Tried(k, u, now, stamp, o) else u
  }

  lemma {:induction false} TickFromIs(k: Stack, ts: seq<Target>, stats: Stats, i: nat, now: nat, stamp: Timestamp,
                                      env: nat -> Outcome)
    requires i <= |ts|
    ensures var us := TickFrom(k, ts, stats, i, now, stamp, env).0;
      |us| == |ts| && us[..i] == ts[..i] &&
      forall j :: i <= j < |ts| ==> us[j] == Passed(k, ts[j], now, stamp, env(j))
    decreases |ts| - i
  {
    if i >= |ts| {
    } else {
      var vs := ts[i := Passed(k, ts[i], now, stamp, env(i))];
      assert vs == ts || Due(ts[i].d, now);
      var next := if Due(ts[i].d, now) then Counted(k, ts[i].d, stats, env(i)) else stats;
      TickFromIs(k, vs, next, i + 1, now, stamp, env);
      var us := TickFrom(k, ts, stats, i, now, stamp, env).0;
      assert us == TickFrom(k, vs, next, i + 1, now, stamp, env).0;
      assert us[..i + 1][i] == vs[..i + 1][i] && us[..i] == us[..i + 1][..i] && ts[..i] == vs[..i + 1][..i];
    }
  }

  ghost predicate NoneBoth(ts: seq<Target>) {
    forall i :: 0 <= i < |ts| ==> !(ts[i].d.pending && ts[i].d.canceled)
  }

  lemma {:induction false} TickFromCounts(k: Stack, ts: seq<Target>, stats: Stats, i: nat, now: nat, stamp: Timestamp,
                                          env: nat -> Outcome)
    requires NoneBoth(ts) && StatsInv(ts, stats)
    ensures var (us, after) := TickFrom(k, ts, stats, i, now, stamp, env);
      StatsInv(us, after) && after.bootReady == stats.bootReady
    decreases |ts| - i
  {
    if i >= |ts| {
    } else {
      if Due(ts[i].d, now) {
        TriedCounts(k, ts, stats, i, now, stamp, env(i));
        TickFromCounts(k, ts[i := Tried(k, ts[i], now, stamp, env(i))], Counted(k, ts[i].d, stats, env(i)), i + 1,
                       now, stamp, env);
      } else {
        TickFromCounts(k, ts, stats, i + 1, now, stamp, env);
      }
    }
  }

  lemma TickFromInv(k: Stack, ts: seq<Target>, stats: Stats, now: nat, stamp: Timestamp, env: nat -> Outcome, live: List)
    requires AllTargets(k, ts, live, Some(stamp), now) && StatsInv(ts, stats)
    ensures var (us, after) := TickFrom(k, ts, stats, 0, now, stamp, env);
      AllTargets(k, us, live, Some(stamp), now) && StatsInv(us, after) &&
      after.bootReady == stats.bootReady && SameRecipients(ts, us)
  {
    TickFromCounts(k, ts, stats, 0, now, stamp, env);
    TickFromIs(k, ts, stats, 0, now, stamp, env);
    forall i | 0 <= i < |ts|
      ensures TargetInv(k, Passed(k, ts[i], now, stamp, env(i)), live, Some(stamp), now)
      ensures Recorded(Passed(k, ts[i], now, stamp, env(i)))
    {
      if Due(ts[i].d, now) {
        TriedInv(k, ts[i], live, now, stamp, env(i));
        TriedRecorded(k, ts[i], now, stamp, env(i));
      }
    }
  }

  ghost predicate SameRecipients(ts: seq<Target>, us: seq<Target>) {
    |us| == |ts| && forall i :: 0 <= i < |ts| ==> us[i].d.recipient == ts[i].d.recipient
  }

  /** What an edit does to one destination. */
  function Edited(k: Stack, t: Target, live: List): Target {
    if t.d.pending && !StillListed(k, live, t.d.recipient) then Canceled(t) else t
  }

  lemma EditedInv(k: Stack, t: Target, was: List, live: List, stamp: Option<Timestamp>, clock: nat)
    requires TargetInv(k, t, was, stamp, clock) && Recorded(t)
    ensures TargetInv(k, Edited(k, t, live), live, stamp, clock) && Recorded(Edited(k, t, live))
  {
  }

  lemma {:induction false} CancelFromIs(k: Stack, ts: seq<Target>, stats: Stats, live: List, i: nat)
    requires i <= |ts|
    ensures var us := CancelFrom(k, ts, stats, live, i).0;
      |us| == |ts| && us[..i] == ts[..i] && forall j :: i <= j < |ts| ==> us[j] == Edited(k, ts[j], live)
    decreases |ts| - i
  {
    if i >= |ts| {
    } else {
      var vs := ts[i := Edited(k, ts[i], live)];
      CancelFromIs(k, vs, if vs == ts then stats else stats.(pending := stats.pending - 1), live, i + 1);
      var us := CancelFrom(k, ts, stats, live, i).0;
      assert vs == ts || Edited(k, ts[i], live) == Canceled(ts[i]);
      assert us[..i + 1][i] == vs[..i + 1][i] && us[..i] == us[..i + 1][..i] && ts[..i] == vs[..i + 1][..i];
    }
  }

  lemma {:induction false} CancelFromCounts(k: Stack, ts: seq<Target>, stats: Stats, live: List, i: nat)
    requires StatsInv(ts, stats)
    ensures var (us, after) := CancelFrom(k, ts, stats, live, i);
      StatsInv(us, after) && after.bootReady == stats.bootReady
    decreases |ts| - i
  {
    if i >= |ts| {
    } else {
      if ts[i].d.pending && !StillListed(k, live, ts[i].d.recipient) {
        UpdateCounts(ts, i, Canceled(ts[i]));
        UpdateTries(ts, i, Canceled(ts[i]));
        CancelFromCounts(k, ts[i := Canceled(ts[i])], stats.(pending := stats.pending - 1), live, i + 1);
      } else {
        CancelFromCounts(k, ts, stats, live, i + 1);
      }
    }
  }

  lemma SnapshotInv(k: Stack, s: Sched, now: nat)
    requires Lawful(k) && Inv(k, s, now) && s.stamp.Some?
    ensures Inv(k, Snapshot(s, now), now) && Snapshot(s, now).stats.bootReady
  {
    if !s.stats.bootReady {
      var b := Snapshot(s, now);
      SumOnes(IsPending, b.targets);
      SumZero(IsSent, b.targets);
      SumZero(IsExhausted, b.targets);
      SumZero(Attempts, b.targets);
      SumZero(Unresolved, b.targets);
      SumZero(Refused, b.targets);
      forall i | 0 <= i < |b.targets| ensures TargetInv(k, b.targets[i], s.live, s.stamp, now) {
        assert k.same(s.live.recipients[i], s.live.recipients[i]);
      }
    }
  }

  lemma AllTargetsLater(k: Stack, s: Sched, clock: nat, now: nat)
    requires Inv(k, s, clock) && clock <= now
    ensures Inv(k, s, now)
  {
  }

  lemma StepKeepsInv(k: Stack, s: Sched, e: Event, clock: nat)
    requires Lawful(k) && Inv(k, s, clock) && Clock(e, clock) >= clock
    ensures Inv(k, Step(k, s, e), Clock(e, clock))
  {
    match e
    case Stamp(t) =>
    case Edit(w, flash) =>
      EditKeepsInv(k, s, w, flash, clock);
    case Ticked(now, ready, instance, env) =>
      AllTargetsLater(k, s, clock, now);
      if Effective(k, s, ready, instance) {
        SnapshotInv(k, s, now);
        var b := Snapshot(s, now);
        TickFromInv(k, b.targets, b.stats, now, b.stamp.value, env, b.live);
      }
  }

  lemma EditKeepsInv(k: Stack, s: Sched, w: WriteRequest, flash: Flash, clock: nat)
    requires Lawful(k) && Inv(k, s, clock)
    ensures Inv(k, Write(k, s, w, flash).0, clock)
  {
    if Write(k, s, w, flash).1.Accepted? {
      var list := DecodeList(k, w.bytes.value).value;
      DecodeRestIsCanonical(k, w.bytes.value, NO_RECIPIENTS);
      CancelFromIs(k, s.targets, s.stats, list, 0);
      CancelFromCounts(k, s.targets, s.stats, list, 0);
      forall i | 0 <= i < |s.targets| {
        EditedInv(k, s.targets[i], s.live, list, s.stamp, clock);
      }
    }
  }

  lemma {:induction false} RunKeepsInv(k: Stack, s: Sched, es: seq<Event>, clock: nat)
    requires Lawful(k) && Inv(k, s, clock) && InOrder(es, clock)
    ensures Inv(k, Run(k, s, es), LastClock(es, clock))
    decreases |es|
  {
    if es == [] {
    } else {
      StepKeepsInv(k, s, es[0], clock);
      RunKeepsInv(k, Step(k, s, es[0]), es[1..], Clock(es[0], clock));
    }
  }

  lemma BootInv(k: Stack, nvs: Nvs, t: Option<Timestamp>, clock: nat)
    ensures Inv(k, Boot(k, nvs, t), clock)
  {
    BootListIsValid(k, nvs);
  }

  /** The state after a boot and any events. */
  function Reached(k: Stack, nvs: Nvs, t: Option<Timestamp>, es: seq<Event>): Sched {
    Run(k, Boot(k, nvs, t), es)
  }

  // ----- the main results ----------------------------------------------------------------------

  /** Every destination of the boot snapshot is accounted for, and so is every attempt. */
  lemma Conservation(k: Stack, nvs: Nvs, t: Option<Timestamp>, es: seq<Event>, clock: nat)
    requires Lawful(k) && InOrder(es, clock)
    ensures var s := Reached(k, nvs, t, es);
      s.stats.pending == Sum(IsPending, s.targets) && s.stats.sent == Sum(IsSent, s.targets) &&
      s.stats.exhausted == Sum(IsExhausted, s.targets) &&
      s.stats.sent + s.stats.exhausted + Sum(IsCanceled, s.targets) + s.stats.pending == |s.targets| &&
      s.stats.resolutionFailures == Sum(Unresolved, s.targets) && s.stats.sendFailures == Sum(Refused, s.targets) &&
      Sum(Attempts, s.targets) == s.stats.resolutionFailures + s.stats.sendFailures + s.stats.sent
  {
    BootInv(k, nvs, t, clock);
    RunKeepsInv(k, Boot(k, nvs, t), es, clock);
    FourWays(Reached(k, nvs, t, es).targets);
  }

  /** A recipient is tried at most five times, a second apart, is sent nothing after one
      accepted send, is addressed validly under the frozen timestamp, and is dropped from the
      retries as soon as it leaves the live list. */
  ghost predicate Bounded(k: Stack, u: Target, live: List, stamp: Option<Timestamp>) {
    u.d.attempts == |u.tries| <= ATTEMPTS_MAX && Recorded(u) &&
    (forall a, b :: 0 <= a < b < |u.tries| ==>
      u.tries[a].at + RETRY_MS <= u.tries[b].at && !Received(u.tries[a])) &&
    (forall y | y in u.tries :: stamp == Some(y.stamp) && Acceptable(y.stamp)) &&
    (forall y | y in u.tries :: y.sentTo.Some? ==> Directed(k, u.d.recipient, y.sentTo.value)) &&
    (u.d.pending ==> StillListed(k, live, u.d.recipient)) &&
    (Exhausted(u) ==> |u.tries| == ATTEMPTS_MAX)
  }

  lemma TargetBounded(k: Stack, u: Target, live: List, stamp: Option<Timestamp>, clock: nat)
    requires TargetInv(k, u, live, stamp, clock) && Recorded(u) && stamp.Some? && Acceptable(stamp.value)
    ensures Bounded(k, u, live, stamp)
  {
  }

  lemma TriesAreBounded(k: Stack, nvs: Nvs, t: Option<Timestamp>, es: seq<Event>, clock: nat, u: Target)
    requires Lawful(k) && InOrder(es, clock) && u in Reached(k, nvs, t, es).targets
    ensures Bounded(k, u, Reached(k, nvs, t, es).live, Reached(k, nvs, t, es).stamp)
  {
    BootInv(k, nvs, t, clock);
    RunKeepsInv(k, Boot(k, nvs, t), es, clock);
    var s := Reached(k, nvs, t, es);
    TargetBounded(k, u, s.live, s.stamp, LastClock(es, clock));
  }

  /** The stored key holds the live list, for any boot that can read it. */
  predicate Stored(k: Stack, s: Sched) {
    BootList(k, Nvs(s.key, true)).0 == s.live
  }

  predicate Accepts(k: Stack, s: Sched, e: Event) {
    e.Edit? && Write(k, s, e.w, e.flash).1.Accepted?
  }

  /** Some write of the run was accepted. */
  predicate AnyAccepted(k: Stack, s: Sched, es: seq<Event>)
    decreases |es|
  {
    es != [] && (Accepts(k, s, es[0]) || AnyAccepted(k, Step(k, s, es[0]), es[1..]))
  }

  lemma StepStores(k: Stack, s: Sched, e: Event)
    requires Lawful(k)
    ensures Accepts(k, s, e) ==> Stored(k, Step(k, s, e))
    ensures !Accepts(k, s, e) ==> Step(k, s, e).key == s.key && Step(k, s, e).live == s.live
  {
    if Accepts(k, s, e) {
      RebootRestores(k, s.key, e.w.bytes.value, e.flash);
    }
  }

  lemma {:induction false} RunStores(k: Stack, s: Sched, es: seq<Event>)
    requires Lawful(k)
    ensures Stored(k, s) || AnyAccepted(k, s, es) ==> Stored(k, Run(k, s, es))
    ensures !AnyAccepted(k, s, es) ==> Run(k, s, es).key == s.key && Run(k, s, es).live == s.live
    decreases |es|
  {
    if es == [] {
    } else {
      StepStores(k, s, es[0]);
      RunStores(k, Step(k, s, es[0]), es[1..]);
    }
  }

  /** At any moment, if this boot could read flash or a write was accepted since, the next boot
      that can read it loads the very list that is live.  Otherwise the live list is still the
      empty one, and flash still holds what this boot could not read. */
  lemma RebootAnyTime(k: Stack, nvs: Nvs, t: Option<Timestamp>, es: seq<Event>, t2: Option<Timestamp>)
    requires Lawful(k)
    ensures var s := Reached(k, nvs, t, es);
      if nvs.readable || AnyAccepted(k, Boot(k, nvs, t), es) then Boot(k, Nvs(s.key, true), t2).live == s.live
      else s.key == nvs.key && s.live == NO_RECIPIENTS
  {
    RunStores(k, Boot(k, nvs, t), es);
  }

  /** A rejected or unpersisted write changes nothing but the count of failed flash. */
  lemma RejectedEditChangesNothing(k: Stack, s: Sched, w: WriteRequest, flash: Flash)
    ensures var (after, result) := Write(k, s, w, flash);
      (result != Accepted ==>
         after == s.(stats := s.stats.(persistenceFailures := after.stats.persistenceFailures))) &&
      after.stats.persistenceFailures == s.stats.persistenceFailures + (if result == NotPersisted then 1 else 0) &&
      (result == Accepted <==>
         (w.ownProperty && w.wholeArray && w.bytes.Some? && DecodeList(k, w.bytes.value).Some? &&
         StoreRecipients(s.key, DecodeList(k, w.bytes.value).value.canonical, flash).1))
  {
    if Write(k, s, w, flash).1.Accepted? {
      CancelKeepsTheRest(k, s.targets, s.stats, DecodeList(k, w.bytes.value).value, 0);
    }
  }

  lemma {:induction false} CancelKeepsTheRest(k: Stack, ts: seq<Target>, stats: Stats, live: List, i: nat)
    requires i <= |ts|
    ensures var after := CancelFrom(k, ts, stats, live, i).1; after == stats.(pending := after.pending)
    decreases |ts| - i
  {
    if i >= |ts| {
    } else {
      var u := Edited(k, ts[i], live);
      CancelKeepsTheRest(k, ts[i := u], if u == ts[i] then stats else stats.(pending := stats.pending - 1), live, i + 1);
      assert u == ts[i] ==> ts[i := u] == ts;
    }
  }

  /** After the first ready tick neither the timestamp nor the set of recipients ever changes:
      later edits only cancel, and late timestamps are refused. */
  lemma {:induction false} SnapshotIsFinal(k: Stack, s: Sched, es: seq<Event>, clock: nat)
    requires Lawful(k) && Inv(k, s, clock) && InOrder(es, clock) && s.stats.bootReady
    ensures var r := Run(k, s, es);
      r.stats.bootReady && r.stamp == s.stamp && SameRecipients(s.targets, r.targets)
    decreases |es|
  {
    if es == [] {
    } else {
      var s' := Step(k, s, es[0]);
      StepKeepsInv(k, s, es[0], clock);
      OneStepIsFinal(k, s, es[0], clock);
      SnapshotIsFinal(k, s', es[1..], Clock(es[0], clock));
    }
  }

  lemma OneStepIsFinal(k: Stack, s: Sched, e: Event, clock: nat)
    requires Lawful(k) && Inv(k, s, clock) && Clock(e, clock) >= clock && s.stats.bootReady
    ensures var r := Step(k, s, e);
      r.stats.bootReady && r.stamp == s.stamp && SameRecipients(s.targets, r.targets)
  {
    match e
    case Stamp(t) =>
    case Edit(w, flash) => EditIsFinal(k, s, w, flash, clock);
    case Ticked(now, ready, instance, env) =>
      if Effective(k, s, ready, instance) {
        TickFromIs(k, s.targets, s.stats, 0, now, s.stamp.value, env);
        TickKeepsReady(k, s.targets, s.stats, 0, now, s.stamp.value, env);
      }
  }

  lemma EditIsFinal(k: Stack, s: Sched, w: WriteRequest, flash: Flash, clock: nat)
    requires Inv(k, s, clock) && s.stats.bootReady
    ensures var r := Write(k, s, w, flash).0;
      r.stats.bootReady && r.stamp == s.stamp && SameRecipients(s.targets, r.targets)
  {
    if Write(k, s, w, flash).1.Accepted? {
      CancelFromIs(k, s.targets, s.stats, DecodeList(k, w.bytes.value).value, 0);
      CancelFromCounts(k, s.targets, s.stats, DecodeList(k, w.bytes.value).value, 0);
    }
  }

  // ----- progress ---------------------------------------------------------------------------------

  /** Every tick is ready and at most `gap` after the one before. */
  predicate Steady(k: Stack, es: seq<Event>, clock: nat, gap: nat) {
    es == [] ||
    ((es[0].Ticked? ==> es[0].ready && es[0].instance < k.maxInstance && clock <= es[0].now <= clock + gap) &&
     Steady(k, es[1..], Clock(es[0], clock), gap))
  }

  /** The `n`-th attempt of a campaign begun at `start` is at most this late. */
  function Latest(start: nat, n: nat, gap: nat): nat {
    start + n * (RETRY_MS + gap)
  }

  ghost predicate OnPace(u: Target, start: nat, clock: nat, gap: nat) {
    u.d.pending ==>
      0 < u.d.attempts < ATTEMPTS_MAX && clock < u.d.next <= Latest(start, u.d.attempts - 1, gap) + RETRY_MS
  }

  ghost predicate AllOnPace(ts: seq<Target>, start: nat, clock: nat, gap: nat) {
    forall i :: 0 <= i < |ts| ==> OnPace(ts[i], start, clock, gap)
  }

  lemma PassedOnPace(k: Stack, u: Target, start: nat, clock: nat, now: nat, gap: nat, stamp: Timestamp, o: Outcome)
    requires OnPace(u, start, clock, gap) && now <= clock + gap
    ensures OnPace(Passed(k, u, now, stamp, o), start, now, gap)
  {
  }

  lemma SteadyStep(k: Stack, s: Sched, e: Event, start: nat, clock: nat, gap: nat)
    requires Lawful(k) && Inv(k, s, clock) && s.stats.bootReady
    requires Steady(k, [e], clock, gap) && AllOnPace(s.targets, start, clock, gap)
    ensures AllOnPace(Step(k, s, e).targets, start, Clock(e, clock), gap)
  {
    match e
    case Stamp(t) =>
    case Edit(w, flash) =>
      if Write(k, s, w, flash).1.Accepted? {
        CancelFromIs(k, s.targets, s.stats, DecodeList(k, w.bytes.value).value, 0);
      }
    case Ticked(now, ready, instance, env) =>
      TickFromIs(k, s.targets, s.stats, 0, now, s.stamp.value, env);
      forall i | 0 <= i < |s.targets| {
        PassedOnPace(k, s.targets[i], start, clock, now, gap, s.stamp.value, env(i));
      }
  }

  lemma {:induction false} SteadyRun(k: Stack, s: Sched, es: seq<Event>, start: nat, clock: nat, gap: nat)
    requires Lawful(k) && Inv(k, s, clock) && s.stats.bootReady
    requires Steady(k, es, clock, gap) && AllOnPace(s.targets, start, clock, gap)
    ensures AllOnPace(Run(k, s, es).targets, start, LastClock(es, clock), gap)
    decreases |es|
  {
    if es == [] {
    } else {
      StepKeepsInv(k, s, es[0], clock);
      OneStepIsFinal(k, s, es[0], clock);
      assert Steady(k, [es[0]], clock, gap);
      SteadyStep(k, s, es[0], start, clock, gap);
      SteadyRun(k, Step(k, s, es[0]), es[1..], start, Clock(es[0], clock), gap);
    }
  }

  /** Under ready ticks at most `gap` apart the whole campaign is over 4000 + 3 * gap ms after
      the first of them, whatever the network does. */
  lemma CampaignEnds(k: Stack, s: Sched, first: Event, es: seq<Event>, clock: nat, gap: nat)
    requires Lawful(k) && Inv(k, s, clock) && !s.stats.bootReady && first.Ticked? && clock <= first.now
    requires Effective(k, s, first.ready, first.instance) && Steady(k, es, first.now, gap)
    requires LastClock(es, first.now) >= first.now + 4 * RETRY_MS + 3 * gap
    ensures var r := Run(k, Step(k, s, first), es); r.stats.pending == 0 && r.stats.bootReady
  {
    var s' := Step(k, s, first);
    StepKeepsInv(k, s, first, clock);
    FirstTick(k, s, first, gap);
    SteadyRun(k, s', es, first.now, first.now, gap);
    SteadyInOrder(k, es, first.now, gap);
    RunKeepsInv(k, s', es, first.now);
    SnapshotIsFinal(k, s', es, first.now);
    PaceEnds(Run(k, s', es).targets, first.now, LastClock(es, first.now), gap);
  }

  lemma FirstTick(k: Stack, s: Sched, e: Event, gap: nat)
    requires e.Ticked? && Effective(k, s, e.ready, e.instance) && !s.stats.bootReady
    ensures Step(k, s, e).stats.bootReady && AllOnPace(Step(k, s, e).targets, e.now, e.now, gap)
  {
    var b := Snapshot(s, e.now);
    TickFromIs(k, b.targets, b.stats, 0, e.now, b.stamp.value, e.env);
    TickKeepsReady(k, b.targets, b.stats, 0, e.now, b.stamp.value, e.env);
  }

  lemma PaceEnds(ts: seq<Target>, start: nat, clock: nat, gap: nat)
    requires AllOnPace(ts, start, clock, gap) && clock >= start + 4 * RETRY_MS + 3 * gap
    ensures Sum(IsPending, ts) == 0
  {
  }

  lemma {:induction false} TickKeepsReady(k: Stack, ts: seq<Target>, stats: Stats, i: nat, now: nat, stamp: Timestamp,
                                          env: nat -> Outcome)
    ensures TickFrom(k, ts, stats, i, now, stamp, env).1.bootReady == stats.bootReady
    decreases |ts| - i
  {
    if i >= |ts| {
    } else {
      if Due(ts[i].d, now) {
        TickKeepsReady(k, ts[i := Tried(k, ts[i], now, stamp, env(i))], Counted(k, ts[i].d, stats, env(i)), i + 1,
                       now, stamp, env);
      } else {
        TickKeepsReady(k, ts, stats, i + 1, now, stamp, env);
      }
    }
  }

  lemma {:induction false} SteadyInOrder(k: Stack, es: seq<Event>, clock: nat, gap: nat)
    requires Steady(k, es, clock, gap)
    ensures InOrder(es, clock)
    decreases |es|
  {
    if es == [] {
    } else {
      SteadyInOrder(k, es[1..], Clock(es[0], clock), gap);
    }
  }
}
