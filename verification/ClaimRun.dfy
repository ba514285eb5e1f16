/** Whole runs of one controller: what the occupancy bitmap means, and how long a claim takes. */
module ClaimRun {
  import opened Instance

  datatype Event =
    | Heard(instance: u32, key: nat, now: nat)
    | Ticked(now: nat)
    | SaveDone(success: bool, now: nat)

  function Apply(n: Node, e: Event): Node {
    match e
    case Heard(instance, key, now) => Observe(n, instance, key, now)
    case Ticked(now) => Tick(n, now).0
    case SaveDone(success, now) => Saved(n, success, now)
  }

  function After(n: Node, events: seq<Event>): Node
    decreases |events|
  {
    if events == [] then n
    else Apply(After(n, events[..|events| - 1]), events[|events| - 1])
  }

  // ----- the bitmap --------------------------------------------------------------

  predicate Restarts(n: Node, e: Event) {
    n.phase != Discovering && Apply(n, e).phase == Discovering
  }

  /** The position of the event that last restarted discovery (0 if none did). */
  function DiscoveryStart(n: Node, events: seq<Event>): nat
    decreases |events|
  {
    if events == [] then 0
    else
      var before := events[..|events| - 1];
      if Restarts(After(n, before), events[|events| - 1]) then |events| - 1
      else DiscoveryStart(n, before)
  }

  /** A foreign device claimed `instance` in `e`. */
  predicate Claims(e: Event, own: nat, instance: u32) {
    e.Heard? && e.key != own && e.instance == instance
  }

  ghost predicate ClaimedSince(events: seq<Event>, start: nat, own: nat, instance: u32) {
    exists k :: start <= k < |events| && Claims(events[k], own, instance)
  }

  /** The bitmap holds exactly the in-range numbers claimed by foreign devices since
      discovery last started, counting the claim that restarted it. */
  lemma {:induction false} BitmapIsClaimsSinceDiscovery(n: Node, events: seq<Event>, instance: u32)
    requires InRange(instance) && n.taken == {}
    ensures After(n, events).key == n.key && DiscoveryStart(n, events) <= |events|
    ensures instance in After(n, events).taken <==>
      ClaimedSince(events, DiscoveryStart(n, events), n.key, instance)
    decreases |events|
  {
    if events == [] {
    } else {
      var last := |events| - 1;
      var before := events[..last];
      BitmapIsClaimsSinceDiscovery(n, before, instance);
      AppliedBitmap(After(n, before), events[last], instance);
      ClaimedStep(events, DiscoveryStart(n, before), n.key, instance);
      ClaimedStep(events, last, n.key, instance);
    }
  }

  lemma ClaimedStep(events: seq<Event>, start: nat, own: nat, instance: u32)
    requires events != [] && start < |events|
    ensures ClaimedSince(events, start, own, instance) <==>
      ClaimedSince(events[..|events| - 1], start, own, instance) || Claims(events[|events| - 1], own, instance)
  {
  }

  lemma HeardBitmap(n: Node, instance: u32, from: nat, now: nat, i: u32)
    requires InRange(i)
    ensures var m := Observe(n, instance, from, now);
      m.key == n.key && (i in m.taken <==>
        (!(n.phase != Discovering && m.phase == Discovering) && i in n.taken) || (from != n.key && instance == i))
  {
  }

  lemma TickedBitmap(n: Node, now: nat, i: u32)
    ensures var m := Tick(n, now).0;
      m.key == n.key && (i in m.taken <==> !(n.phase != Discovering && m.phase == Discovering) && i in n.taken)
  {
    if n.phase == RangeFull && now >= n.deadline {
      assert Discover(n, now).deadline > now;
    }
  }

  /** One event leaves, adds or, when it restarts discovery, clears. */
  lemma AppliedBitmap(n: Node, e: Event, instance: u32)
    requires InRange(instance)
    ensures Apply(n, e).key == n.key
    ensures instance in Apply(n, e).taken <==>
      (!Restarts(n, e) && instance in n.taken) || Claims(e, n.key, instance)
  {
    match e
    case Heard(i, from, now) => HeardBitmap(n, i, from, now, instance);
    case Ticked(now) => TickedBitmap(n, now, instance);
    case SaveDone(success, now) =>
  }

  // ----- bounded progress -----------------------------------------------------------

  /** A run watched from outside: ticks, range queries, the claim and the saves. */
  datatype Watch = Watch(node: Node, lastTick: nat, queries: nat, claimedAt: nat, saves: nat, savedAt: nat)

  function See(w: Watch, e: Event): Watch {
    var m := Apply(w.node, e);
    if !e.Ticked? then w.(node := m)
    else
      var actions := Tick(w.node, e.now).1;
      Watch(m, e.now,
            w.queries + (if actions.query && m.phase == Discovering then 1 else 0),
            if w.node.phase == Discovering && m.phase == Claiming then e.now else w.claimedAt,
            w.saves + (if actions.save then 1 else 0),
            if actions.save then e.now else w.savedAt)
  }

  function SeeAll(w: Watch, events: seq<Event>): Watch
    decreases |events|
  {
    if events == [] then w else See(SeeAll(w, events[..|events| - 1]), events[|events| - 1])
  }

  function Begin(preferred: u32, seed: bv32, key: nat, t0: nat): Watch {
    Watch(Start(true, preferred, seed, key, t0), t0, 0, 0, 0, 0)
  }

  /** The next event keeps tick gaps within `gap`, leaves `free` unclaimed, and is no
      foreign claim on a number this controller is claiming. */
  predicate Undisturbed(w: Watch, e: Event, gap: nat, free: u32) {
    (e.Ticked? ==> w.lastTick <= e.now <= w.lastTick + gap) &&
    !Claims(e, w.node.key, free) &&
    (w.node.phase == Claiming ==> !Claims(e, w.node.key, w.node.candidate))
  }

  predicate UndisturbedRun(w: Watch, events: seq<Event>, gap: nat, free: u32)
    decreases |events|
  {
    events == [] ||
    (UndisturbedRun(w, events[..|events| - 1], gap, free) &&
     Undisturbed(SeeAll(w, events[..|events| - 1]), events[|events| - 1], gap, free))
  }

  ghost predicate OnSchedule(w: Watch, t0: nat, gap: nat, free: u32) {
    var n := w.node;
    InRange(free) && t0 <= w.lastTick &&
    match n.phase
    case Discovering =>
      var q0 := n.deadline - 3000;
      n.automatic && w.saves == 0 && free !in n.taken &&
      t0 <= q0 <= t0 + 500 && w.lastTick < n.deadline && w.lastTick <= n.nextQuery &&
      w.queries <= 3 && q0 + 1000 * w.queries <= n.nextQuery <= q0 + (1000 + gap) * w.queries
    case Claiming =>
      n.automatic && w.saves == 0 && ClaimedInTime(w, t0, gap) &&
      n.deadline == w.claimedAt + 3000 && w.claimedAt <= w.lastTick < n.deadline
    case RangeFull => false
    case ConfigChanged => false
    case _ =>
      w.saves == 1 && ClaimedInTime(w, t0, gap) &&
      w.claimedAt + 3000 <= w.savedAt <= w.claimedAt + 3000 + gap &&
      (n.phase == Ready ==> !n.automatic)
  }

  ghost predicate ClaimedInTime(w: Watch, t0: nat, gap: nat) {
    t0 + 3000 <= w.claimedAt <= t0 + 3500 + gap && (gap <= 333 ==> w.queries == 3)
  }

  /** A watch on a controller whose automatic discovery began at `t0`. */
  predicate JustStarted(w: Watch, t0: nat) {
    w.node.phase == Discovering && w.node.automatic && w.node.taken == {} &&
    t0 <= w.node.nextQuery <= t0 + 500 && w.node.deadline == w.node.nextQuery + 3000 &&
    w.lastTick == t0 && w.queries == 0 && w.saves == 0
  }

  lemma BeginJustStarts(preferred: u32, seed: bv32, key: nat, t0: nat)
    ensures JustStarted(Begin(preferred, seed, key, t0), t0)
  {}

  lemma DiscoveryOnSchedule(w: Watch, e: Event, t0: nat, gap: nat, free: u32)
    requires OnSchedule(w, t0, gap, free) && Undisturbed(w, e, gap, free)
    requires w.node.phase == Discovering
    ensures OnSchedule(See(w, e), t0, gap, free)
  {
    if e.Ticked? && e.now >= w.node.deadline {
      EndOfDiscovery(w.node, e.now);
    } else if e.Ticked? && e.now >= w.node.nextQuery {
      assert (1000 + gap) * (w.queries + 1) == (1000 + gap) * w.queries + 1000 + gap;
    }
  }

  lemma ClaimOnSchedule(w: Watch, e: Event, t0: nat, gap: nat, free: u32)
    requires OnSchedule(w, t0, gap, free) && Undisturbed(w, e, gap, free)
    requires w.node.phase != Discovering
    ensures OnSchedule(See(w, e), t0, gap, free)
  {}

  lemma {:induction false} RunOnSchedule(w: Watch, events: seq<Event>, t0: nat, gap: nat, free: u32)
    requires OnSchedule(w, t0, gap, free) && UndisturbedRun(w, events, gap, free)
    ensures OnSchedule(SeeAll(w, events), t0, gap, free)
    decreases |events|
  {
    if events == [] {
    } else {
      var before, e := events[..|events| - 1], events[|events| - 1];
      RunOnSchedule(w, before, t0, gap, free);
      var v := SeeAll(w, before);
      if v.node.phase == Discovering {
        DiscoveryOnSchedule(v, e, t0, gap, free);
      } else {
        ClaimOnSchedule(v, e, t0, gap, free);
      }
    }
  }

  /** An undisturbed start asks for exactly one save: at least 3000 ms after its claim,
      at most 6500 + 2 gap ms after the start, after exactly three range queries when
      ticks come at least every 333 ms. */
  lemma ClaimIsTimely(start: Watch, t0: nat, gap: nat, free: u32, events: seq<Event>)
    requires JustStarted(start, t0) && InRange(free) && UndisturbedRun(start, events, gap, free)
    ensures var w := SeeAll(start, events);
      w.saves <= 1 &&
      (w.lastTick >= t0 + 6500 + 2 * gap ==> w.saves == 1) &&
      (w.saves == 1 ==>
        w.claimedAt + 3000 <= w.savedAt <= t0 + 6500 + 2 * gap &&
        (gap <= 333 ==> w.queries == 3))
  {
    assert OnSchedule(start, t0, gap, free);
    RunOnSchedule(start, events, t0, gap, free);
  }

  // ----- a full range ------------------------------------------------------------------------

  /** Ticks at most `gap` apart, all of them before the wait is over. */
  predicate Waits(w: Watch, events: seq<Event>, gap: nat)
    decreases |events|
  {
    events == [] ||
    var v := SeeAll(w, events[..|events| - 1]);
    Waits(w, events[..|events| - 1], gap) &&
    (events[|events| - 1].Ticked? ==>
       v.lastTick <= events[|events| - 1].now <= v.lastTick + gap && events[|events| - 1].now < w.node.deadline)
  }

  predicate Full(w: Watch, deadline: nat) {
    w.node.phase == RangeFull && w.node.automatic && w.node.deadline == deadline && w.lastTick < deadline &&
    w.queries == 0 && w.saves == 0
  }

  /** Until its deadline a full range stays full, whatever is heard. */
  lemma {:induction false} FullStays(w: Watch, events: seq<Event>, gap: nat)
    requires Full(w, w.node.deadline) && Waits(w, events, gap)
    ensures Full(SeeAll(w, events), w.node.deadline)
    decreases |events|
  {
    if events == [] {
    } else {
      FullStays(w, events[..|events| - 1], gap);
    }
  }

  /** The first tick after the wait is over discovers again, at most `gap` late. */
  lemma FullEnds(w: Watch, tick: Event, gap: nat, free: u32)
    requires Full(w, w.node.deadline) && InRange(free)
    requires tick.Ticked? && w.node.deadline <= tick.now <= w.lastTick + gap
    ensures tick.now < w.node.deadline + gap
    ensures See(w, tick).node.phase == Discovering && See(w, tick).node.taken == {}
    ensures OnSchedule(See(w, tick), tick.now, gap, free)
  {
    RangeFullTick(w.node, tick.now);
  }

  /** A range found full at `t` is discovered again by `t + 30000 + gap`; if a number is then
      free and nobody disturbs, its claim is saved in bounded time. */
  lemma FullRangeRecovers(start: Watch, t: nat, waiting: seq<Event>, tick: Event, rest: seq<Event>, gap: nat, free: u32)
    requires Full(start, t + 30000) && Waits(start, waiting, gap) && InRange(free)
    requires tick.Ticked? && t + 30000 <= tick.now <= SeeAll(start, waiting).lastTick + gap
    requires UndisturbedRun(See(SeeAll(start, waiting), tick), rest, gap, free)
    ensures tick.now < t + 30000 + gap
    ensures See(SeeAll(start, waiting), tick).node.phase == Discovering
    ensures var w := SeeAll(See(SeeAll(start, waiting), tick), rest);
      w.saves <= 1 && (w.lastTick >= tick.now + 6500 + 2 * gap ==> w.saves == 1) &&
      (w.saves == 1 ==> w.claimedAt + 3000 <= w.savedAt <= tick.now + 6500 + 2 * gap)
  {
    FullStays(start, waiting, gap);
    FullEnds(SeeAll(start, waiting), tick, gap, free);
    RunOnSchedule(See(SeeAll(start, waiting), tick), rest, tick.now, gap, free);
  }

  // ----- a locked number -----------------------------------------------------------------------

  /** The foreign claims on a number. */
  function ClaimsOn(events: seq<Event>, own: nat, instance: u32): nat
    decreases |events|
  {
    if events == [] then 0
    else
      ClaimsOn(events[..|events| - 1], own, instance) +
      if Claims(events[|events| - 1], own, instance) then 1 else 0
  }

  /** A locked or manual controller keeps its number for good, whoever else claims it, and counts
      every such claim. */
  lemma {:induction false} LockedStaysFixed(n: Node, events: seq<Event>)
    requires n.phase == Ready && !n.automatic
    ensures var m := After(n, events);
      m.phase == Ready && !m.automatic && m.candidate == n.candidate && m.key == n.key &&
      m.conflicts == n.conflicts + ClaimsOn(events, n.key, n.candidate)
    decreases |events|
  {
    if events == [] {
    } else {
      var before, e := events[..|events| - 1], events[|events| - 1];
      LockedStaysFixed(n, before);
      var m := After(n, before);
      match e
      case Heard(instance, key, now) =>
        if Claims(e, m.key, m.candidate) {
          ForeignClaim(m, key, now);
        }
      case Ticked(now) => ReadyTick(m, now);
      case SaveDone(success, now) => SaveOutcome(m, success, now);
    }
  }

  /** A manual controller is ready with its configured number at once. */
  lemma ManualIsFixed(preferred: u32, seed: bv32, key: nat, now: nat, events: seq<Event>)
    ensures var m := After(Start(false, preferred, seed, key, now), events);
      m.phase == Ready && m.candidate == preferred && m.conflicts == ClaimsOn(events, key, preferred)
  {
    LockedStaysFixed(Start(false, preferred, seed, key, now), events);
  }
}
