/** The COV recovery table (`bacnet_cov_recovery.c`): objects whose confirmed
    notification timed out wait one second before their refresh.

    The fixed slots refine a map from object to remaining time, and that map to
    the history: time elapsed since the first timeout not yet served. */
module CovRecovery {

  const OBJECTS: nat := 32
  const PAUSE_MS: nat := 1000

  datatype Obj = Obj(kind: nat, instance: nat)

  datatype Stats = Stats(confirmedTimeouts: nat, pendingObjects: nat, refreshRequests: nat, capacityErrors: nat)

  /** The table as a map. */
  datatype Table = Table(remaining: map<Obj, nat>, stats: Stats)

  const EMPTY := Table(map[], Stats(0, 0, 0, 0))

  function TimedOut(t: Table, o: Obj): Table {
    var s := t.stats.(confirmedTimeouts := t.stats.confirmedTimeouts + 1);
    if o in t.remaining then t.(stats := s)
    else if |t.remaining| < OBJECTS
      then Table(t.remaining[o := PAUSE_MS], s.(pendingObjects := s.pendingObjects + 1))
    else t.(stats := s.(capacityErrors := s.capacityErrors + 1))
  }

  function Less(remaining: nat, elapsed: nat): nat {
    if elapsed >= remaining then 0 else remaining - elapsed
  }

  function Elapsed(t: Table, ms: nat): Table {
    t.(remaining := map o | o in t.remaining :: Less(t.remaining[o], ms))
  }

  predicate Due(t: Table, o: Obj) {
    o in t.remaining && t.remaining[o] == 0
  }

  function Cleared(t: Table, o: Obj): Table {
    if o !in t.remaining then t
    else
      var s := if t.remaining[o] == 0 then t.stats.(refreshRequests := t.stats.refreshRequests + 1) else t.stats;
      Table(t.remaining - {o}, s.(pendingObjects := if s.pendingObjects > 0 then s.pendingObjects - 1 else 0))
  }

  // ----- the slots ---------------------------------------------------------------------

  datatype Slot = Slot(used: bool, obj: Obj, remaining: nat)

  function Used(slots: seq<Slot>): nat
    decreases |slots|
  {
    if slots == [] then 0
    else Used(slots[..|slots| - 1]) + if slots[|slots| - 1].used then 1 else 0
  }

  lemma {:induction false} UsedBounds(slots: seq<Slot>)
    ensures Used(slots) <= |slots|
    ensures Used(slots) == |slots| <==> forall i :: 0 <= i < |slots| ==> slots[i].used
    decreases |slots|
  {
    if slots == [] {
    } else {
      UsedBounds(slots[..|slots| - 1]);
    }
  }

  lemma {:induction false} UsedUpdate(slots: seq<Slot>, i: nat, slot: Slot)
    requires i < |slots|
    ensures Used(slots[i := slot]) ==
      Used(slots) - (if slots[i].used then 1 else 0) + (if slot.used then 1 else 0)
    decreases |slots|
  {
    var last := |slots| - 1;
    var before, after := slots[..last], slots[i := slot];
    if i == last {
      assert after[..last] == before;
    } else {
      UsedUpdate(before, i, slot);
      assert after[..last] == before[i := slot];
    }
  }

  lemma {:induction false} UsedSame(a: seq<Slot>, b: seq<Slot>)
    requires |a| == |b| && forall i :: 0 <= i < |a| ==> a[i].used == b[i].used
    ensures Used(a) == Used(b)
    decreases |a|
  {
    if a == [] {
    } else {
      UsedSame(a[..|a| - 1], b[..|b| - 1]);
    }
  }

  ghost predicate Holds(slots: seq<Slot>, i: int, o: Obj) {
    0 <= i < |slots| && slots[i].used && slots[i].obj == o
  }

  /** The used slots hold the map's entries, each object once. */
  ghost predicate Represents(slots: seq<Slot>, remaining: map<Obj, nat>) {
    (forall i :: 0 <= i < |slots| && slots[i].used ==>
      slots[i].obj in remaining && remaining[slots[i].obj] == slots[i].remaining) &&
    (forall i, j, o :: Holds(slots, i, o) && Holds(slots, j, o) ==> i == j) &&
    (forall o | o in remaining :: exists i :: Holds(slots, i, o)) &&
    |remaining| == Used(slots)
  }

  lemma InsertRepresents(slots: seq<Slot>, remaining: map<Obj, nat>, i: nat, o: Obj)
    requires Represents(slots, remaining) && i < |slots| && !slots[i].used && o !in remaining
    ensures |remaining| < |slots|
    ensures Represents(slots[i := Slot(true, o, PAUSE_MS)], remaining[o := PAUSE_MS])
  {
    var next, more := slots[i := Slot(true, o, PAUSE_MS)], remaining[o := PAUSE_MS];
    UsedBounds(slots);
    UsedUpdate(slots, i, next[i]);
    assert more.Keys == remaining.Keys + {o};
    forall p | p in more ensures exists k :: Holds(next, k, p) {
      if p == o {
        assert Holds(next, i, p);
      } else {
        var k :| Holds(slots, k, p);
        assert Holds(next, k, p);
      }
    }
    forall k, l, p | Holds(next, k, p) && Holds(next, l, p) ensures k == l {
      if k != i && l != i {
        assert Holds(slots, k, p) && Holds(slots, l, p);
      }
    }
  }

  lemma ClearRepresents(slots: seq<Slot>, remaining: map<Obj, nat>, i: nat)
    requires Represents(slots, remaining) && i < |slots| && slots[i].used
    ensures |remaining - {slots[i].obj}| == |remaining| - 1
    ensures Represents(slots[i := slots[i].(used := false)], remaining - {slots[i].obj})
  {
    var o := slots[i].obj;
    var next, less := slots[i := slots[i].(used := false)], remaining - {o};
    UsedUpdate(slots, i, next[i]);
    assert less.Keys == remaining.Keys - {o};
    assert |less.Keys| == |less| && |remaining.Keys| == |remaining|;
    forall k | 0 <= k < |next| && next[k].used ensures next[k].obj in less {
      assert Holds(slots, k, slots[k].obj) && Holds(slots, i, o);
    }
    forall p | p in less ensures exists k :: Holds(next, k, p) {
      var k :| Holds(slots, k, p);
      assert Holds(next, k, p);
    }
    forall k, l, p | Holds(next, k, p) && Holds(next, l, p) ensures k == l {
      assert Holds(slots, k, p) && Holds(slots, l, p);
    }
  }

  /** Every used slot counted down by `ms`. */
  function CountDown(slots: seq<Slot>, ms: nat): (next: seq<Slot>)
    ensures |next| == |slots|
  {
    seq(|slots|, i requires 0 <= i < |slots| =>
      if slots[i].used then slots[i].(remaining := Less(slots[i].remaining, ms)) else slots[i])
  }

  lemma CountDownRepresents(slots: seq<Slot>, t: Table, ms: nat)
    requires Represents(slots, t.remaining)
    ensures Represents(CountDown(slots, ms), Elapsed(t, ms).remaining)
    ensures |Elapsed(t, ms).remaining| == |t.remaining|
  {
    var next, later := CountDown(slots, ms), Elapsed(t, ms).remaining;
    UsedSame(slots, next);
    assert later.Keys == t.remaining.Keys;
    assert |later.Keys| == |later| && |t.remaining.Keys| == |t.remaining|;
    forall o | o in later ensures exists k :: Holds(next, k, o) {
      var k :| Holds(slots, k, o);
      assert Holds(next, k, o);
    }
    forall k, l, o | Holds(next, k, o) && Holds(next, l, o) ensures k == l {
      assert Holds(slots, k, o) && Holds(slots, l, o);
    }
  }

  class Recovery {
    const pending: array<Slot>
    var stats: Stats
    ghost var remaining: map<Obj, nat>

    constructor ()
      ensures Valid() && View() == EMPTY && fresh(pending)
    {
      pending := new Slot[OBJECTS](_ => Slot(false, Obj(0, 0), 0));
      stats := Stats(0, 0, 0, 0);
      remaining := map[];
      new;
      NoneUsed(pending[..]);
    }

    ghost predicate Valid()
      reads this, pending
    {
      pending.Length == OBJECTS && Represents(pending[..], remaining) && stats.pendingObjects == |remaining|
    }

    ghost function View(): Table
      reads this
    {
      Table(remaining, stats)
    }

    method Find(o: Obj) returns (found: bool, slot: nat)
      requires Valid()
      ensures found <==> o in remaining
      ensures found ==> slot < OBJECTS && Holds(pending[..], slot, o)
    {
      for i := 0 to OBJECTS
        invariant forall k :: 0 <= k < i ==> !Holds(pending[..], k, o)
      {
        if pending[i].used && pending[i].obj == o {
          assert Holds(pending[..], i, o);
          return true, i;
        }
      }
      found, slot := false, 0;
    }

    /** The table part of `confirmed_timeout`. */
    method ConfirmedTimeout(o: Obj)
      requires Valid()
      modifies this, pending
      ensures Valid() && View() == TimedOut(old(View()), o)
    {
      stats := stats.(confirmedTimeouts := stats.confirmedTimeouts + 1);
      var found, slot := Find(o);
      if found {
        return;
      }
      var free, i := FirstFree();
      if free {
        Insert(i, o);
        return;
      }
      stats := stats.(capacityErrors := stats.capacityErrors + 1);
    }

    method Insert(i: nat, o: Obj)
      requires Valid() && i < OBJECTS && !pending[i].used && o !in remaining
      modifies this, pending
      ensures Valid() && |old(remaining)| < OBJECTS && remaining == old(remaining)[o := PAUSE_MS]
      ensures stats == old(stats).(pendingObjects := old(stats).pendingObjects + 1)
    {
      ghost var before := pending[..];
      InsertRepresents(before, remaining, i, o);
      pending[i] := Slot(true, o, PAUSE_MS);
      stats := stats.(pendingObjects := stats.pendingObjects + 1);
      remaining := remaining[o := PAUSE_MS];
      assert pending[..] == before[i := Slot(true, o, PAUSE_MS)];
    }

    method FirstFree() returns (free: bool, slot: nat)
      requires Valid()
      ensures free ==> slot < OBJECTS && !pending[slot].used
      ensures !free ==> |remaining| == OBJECTS
    {
      for i := 0 to OBJECTS
        invariant forall k :: 0 <= k < i ==> pending[k].used
      {
        if !pending[i].used {
          return true, i;
        }
      }
      UsedBounds(pending[..]);
      free, slot := false, 0;
    }

    method TimerMilliseconds(elapsed: nat)
      requires Valid()
      modifies this`remaining, pending
      ensures Valid() && View() == Elapsed(old(View()), elapsed)
    {
      CountDownRepresents(pending[..], View(), elapsed);
      CountDownSlots(elapsed);
      remaining := Elapsed(View(), elapsed).remaining;
    }

    /** The loop of the timer. */
    method CountDownSlots(elapsed: nat)
      requires pending.Length == OBJECTS
      modifies pending
      ensures pending[..] == CountDown(old(pending[..]), elapsed)
    {
      ghost var before := pending[..];
      for i := 0 to OBJECTS
        invariant forall k :: i <= k < OBJECTS ==> pending[k] == before[k]
        invariant forall k :: 0 <= k < i ==> pending[k] == CountDown(before, elapsed)[k]
      {
        if pending[i].used {
          pending[i] := pending[i].(remaining :=
            if elapsed >= pending[i].remaining then 0 else pending[i].remaining - elapsed);
        }
      }
    }

    method IsDue(o: Obj) returns (due: bool)
      requires Valid()
      ensures due <==> Due(View(), o)
    {
      var found, slot := Find(o);
      due := found && pending[slot].remaining == 0;
    }

    method Clear(o: Obj)
      requires Valid()
      modifies this, pending
      ensures Valid() && View() == Cleared(old(View()), o)
    {
      var found, slot := Find(o);
      if found {
        ghost var before := pending[..];
        ClearRepresents(before, remaining, slot);
        if pending[slot].remaining == 0 {
          stats := stats.(refreshRequests := stats.refreshRequests + 1);
        }
        pending[slot] := pending[slot].(used := false);
        assert pending[..] == before[slot := before[slot].(used := false)];
        remaining := remaining - {o};
        stats := stats.(pendingObjects := stats.pendingObjects - 1);
      }
    }
  }

  lemma {:induction false} NoneUsed(slots: seq<Slot>)
    requires forall i :: 0 <= i < |slots| ==> !slots[i].used
    ensures Used(slots) == 0
    decreases |slots|
  {
    if slots == [] {
    } else {
      NoneUsed(slots[..|slots| - 1]);
    }
  }

  // ----- histories ----------------------------------------------------------------------------

  datatype Event = Timeout(obj: Obj) | Tick(ms: nat) | Clearing(obj: Obj)

  function Apply(t: Table, e: Event): Table {
    match e
    case Timeout(o) => TimedOut(t, o)
    case Tick(ms) => Elapsed(t, ms)
    case Clearing(o) => Cleared(t, o)
  }

  function After(events: seq<Event>): Table
    decreases |events|
  {
    if events == [] then EMPTY else Apply(After(events[..|events| - 1]), events[|events| - 1])
  }

  /** Milliseconds ticked from position `from` on. */
  function Ticked(events: seq<Event>, from: nat): nat
    requires from <= |events|
    decreases |events|
  {
    if from == |events| then 0
    else
      var last := events[|events| - 1];
      Ticked(events[..|events| - 1], from) + if last.Tick? then last.ms else 0
  }

  /** `f` is the first timeout of `o` that no clearing has served. */
  ghost predicate FirstUnserved(events: seq<Event>, o: Obj, f: nat) {
    f < |events| && events[f] == Timeout(o) &&
    (forall k :: f < k < |events| ==> events[k] != Clearing(o)) &&
    (forall k :: 0 <= k < f && events[k] == Timeout(o) ==> ClearedBetween(events, o, k, f))
  }

  ghost predicate ClearedBetween(events: seq<Event>, o: Obj, k: nat, f: nat) {
    exists c :: k < c < f && c < |events| && events[c] == Clearing(o)
  }

  /** All timeouts are of objects in `objects`. */
  predicate Only(events: seq<Event>, objects: set<Obj>) {
    forall e | e in events :: e.Timeout? ==> e.obj in objects
  }

  lemma SubsetSize(a: set<Obj>, b: set<Obj>)
    requires a <= b
    ensures |a| <= |b|
  {
    if a != {} {
      var x :| x in a;
      SubsetSize(a - {x}, b - {x});
    }
  }

  lemma SmallerSubset(a: set<Obj>, b: set<Obj>, x: Obj)
    requires a <= b && x in b && x !in a
    ensures |a| < |b|
  {
    SubsetSize(a + {x}, b);
  }

  /** Timeouts of at most 32 distinct objects never hit the capacity. */
  lemma {:induction false} NoCapacityErrors(events: seq<Event>, objects: set<Obj>)
    requires |objects| <= OBJECTS && Only(events, objects)
    ensures var t := After(events);
      t.remaining.Keys <= objects && t.stats.capacityErrors == 0 &&
      t.stats.pendingObjects == |t.remaining|
    decreases |events|
  {
    if events == [] {
    } else {
      var e, before := events[|events| - 1], events[..|events| - 1];
      assert Only(before, objects) by {
        forall x | x in before ensures x in events {}
      }
      NoCapacityErrors(before, objects);
      var t := After(before);
      StepCapacity(t, e, objects);
    }
  }

  lemma InsertGrows(m: map<Obj, nat>, o: Obj, v: nat)
    requires o !in m
    ensures |m[o := v]| == |m| + 1
  {
    assert m[o := v].Keys == m.Keys + {o};
    assert |m[o := v].Keys| == |m[o := v]| && |m.Keys| == |m|;
  }

  lemma RemoveShrinks(m: map<Obj, nat>, o: Obj)
    requires o in m
    ensures |m - {o}| == |m| - 1
  {
    assert (m - {o}).Keys == m.Keys - {o};
    assert |(m - {o}).Keys| == |m - {o}| && |m.Keys| == |m|;
  }

  lemma SameKeysSameSize(m: map<Obj, nat>, n: map<Obj, nat>)
    requires m.Keys == n.Keys
    ensures |m| == |n|
  {
    assert |m.Keys| == |m| && |n.Keys| == |n|;
  }

  /** The pending count is the number of objects held. */
  lemma KeepsSize(t: Table, e: Event)
    requires t.stats.pendingObjects == |t.remaining|
    ensures Apply(t, e).stats.pendingObjects == |Apply(t, e).remaining|
  {
    match e
    case Timeout(o) =>
      if o !in t.remaining {
        InsertGrows(t.remaining, o, PAUSE_MS);
      }
    case Tick(ms) => SameKeysSameSize(t.remaining, Elapsed(t, ms).remaining);
    case Clearing(o) =>
      if o in t.remaining {
        RemoveShrinks(t.remaining, o);
      }
  }

  lemma StepCapacity(t: Table, e: Event, objects: set<Obj>)
    requires |objects| <= OBJECTS && (e.Timeout? ==> e.obj in objects)
    requires t.remaining.Keys <= objects && t.stats.pendingObjects == |t.remaining|
    ensures var u := Apply(t, e);
      u.remaining.Keys <= objects && u.stats.capacityErrors == t.stats.capacityErrors &&
      u.stats.pendingObjects == |u.remaining|
  {
    KeepsSize(t, e);
    if e.Timeout? && e.obj !in t.remaining {
      SmallerSubset(t.remaining.Keys, objects, e.obj);
      assert |t.remaining| == |t.remaining.Keys|;
    }
  }

  /** Timeout `k` is of `o` and found room in the table. */
  predicate Admitted(events: seq<Event>, o: Obj, k: nat) {
    k < |events| && events[k] == Timeout(o) && |After(events[..k]).remaining| < OBJECTS
  }

  /** `f` is the first such timeout that no clearing has served. */
  ghost predicate FirstAdmitted(events: seq<Event>, o: Obj, f: nat) {
    Admitted(events, o, f) && (forall k :: f < k < |events| ==> events[k] != Clearing(o)) &&
    forall k: nat :: k < f && Admitted(events, o, k) ==> ClearedBetween(events, o, k, f)
  }

  /** Every timeout of `o` that found room was followed by a clearing of it. */
  ghost predicate AllServed(events: seq<Event>, o: Obj) {
    forall k: nat :: Admitted(events, o, k) ==> ClearedBetween(events, o, k, |events|)
  }

  /** What the table must hold for `o` after a history. */
  ghost predicate Tells(events: seq<Event>, o: Obj, t: Table) {
    if o in t.remaining
    then (exists f: nat :: FirstAdmitted(events, o, f) && t.remaining[o] == Less(PAUSE_MS, Ticked(events, f)))
    else AllServed(events, o)
  }

  lemma AdmittedBefore(before: seq<Event>, events: seq<Event>, o: Obj, k: nat)
    requires before <= events && k < |before|
    ensures Admitted(before, o, k) <==> Admitted(events, o, k)
  {
    assert before[..k] == events[..k];
  }

  lemma ClearedLonger(before: seq<Event>, events: seq<Event>, o: Obj, k: nat, f: nat, g: nat)
    requires before <= events && f <= g && ClearedBetween(before, o, k, f)
    ensures ClearedBetween(events, o, k, g)
  {
  }

  lemma StillServed(before: seq<Event>, events: seq<Event>, o: Obj, k: nat, f: nat)
    requires before <= events && k < f < |before|
    requires Admitted(before, o, k) ==> ClearedBetween(before, o, k, f)
    ensures Admitted(events, o, k) ==> ClearedBetween(events, o, k, f)
  {
    AdmittedBefore(before, events, o, k);
    if ClearedBetween(before, o, k, f) {
      ClearedLonger(before, events, o, k, f, f);
    }
  }

  /** An event other than a clearing of `o` leaves its first unserved timeout first. */
  lemma FirstStays(before: seq<Event>, e: Event, o: Obj, f: nat)
    requires e != Clearing(o) && FirstAdmitted(before, o, f)
    ensures FirstAdmitted(before + [e], o, f)
  {
    var events := before + [e];
    AdmittedBefore(before, events, o, f);
    forall k: nat | k < f && Admitted(events, o, k) ensures ClearedBetween(events, o, k, f) {
      StillServed(before, events, o, k, f);
    }
  }

  lemma TickedNext(before: seq<Event>, e: Event, f: nat)
    requires f <= |before|
    ensures Ticked(before + [e], f) == Ticked(before, f) + if e.Tick? then e.ms else 0
  {
    assert (before + [e])[..|before|] == before;
  }

  /** After a history in which `o` was all served, a timeout that finds room is the first
      unserved one, and any other event leaves it served. */
  lemma ServedStep(events: seq<Event>, o: Obj)
    requires events != [] && AllServed(events[..|events| - 1], o)
    ensures Admitted(events, o, |events| - 1) ==> FirstAdmitted(events, o, |events| - 1)
    ensures !Admitted(events, o, |events| - 1) ==> AllServed(events, o)
  {
    var last := |events| - 1;
    var before := events[..last];
    forall k: nat | k < last && Admitted(events, o, k)
      ensures ClearedBetween(events, o, k, last) && ClearedBetween(events, o, k, |events|)
    {
      AdmittedBefore(before, events, o, k);
      ClearedLonger(before, events, o, k, last, last);
      ClearedLonger(before, events, o, k, last, |events|);
    }
  }

  lemma ClearingServes(events: seq<Event>, o: Obj)
    requires events != [] && events[|events| - 1] == Clearing(o)
    ensures AllServed(events, o)
  {
    var last: nat := |events| - 1;
    forall k: nat | Admitted(events, o, k) ensures ClearedBetween(events, o, k, |events|) {
      assert k < last && events[last] == Clearing(o);
    }
  }

  lemma HeldStep(before: seq<Event>, e: Event, o: Obj)
    requires e != Clearing(o) && o in After(before).remaining && Tells(before, o, After(before))
    ensures Tells(before + [e], o, Apply(After(before), e))
  {
    var t := After(before);
    var f: nat :| FirstAdmitted(before, o, f) && t.remaining[o] == Less(PAUSE_MS, Ticked(before, f));
    FirstStays(before, e, o, f);
    TickedNext(before, e, f);
    assert Apply(t, e).remaining[o] == Less(PAUSE_MS, Ticked(before + [e], f));
  }

  lemma AbsentStep(before: seq<Event>, e: Event, o: Obj)
    requires e != Clearing(o) && o !in After(before).remaining && Tells(before, o, After(before))
    ensures Tells(before + [e], o, Apply(After(before), e))
  {
    var events := before + [e];
    assert events[..|before|] == before;
    ServedStep(events, o);
    assert o in Apply(After(before), e).remaining <==> Admitted(events, o, |before|);
    assert Ticked(events, |before|) == if e.Tick? then e.ms else 0;
  }

  lemma StepTells(before: seq<Event>, e: Event, o: Obj)
    requires Tells(before, o, After(before))
    ensures Tells(before + [e], o, Apply(After(before), e))
  {
    if e == Clearing(o) {
      ClearingServes(before + [e], o);
    } else if o in After(before).remaining {
      HeldStep(before, e, o);
    } else {
      AbsentStep(before, e, o);
    }
  }

  /** Whatever times out, however many objects: the table holds an object exactly while a
      timeout of it that found room is unserved, with what is left of a second since the first. */
  lemma {:induction false} TableTells(events: seq<Event>, o: Obj)
    ensures Tells(events, o, After(events))
    decreases |events|
  {
    if events == [] {
    } else {
      var before, e := events[..|events| - 1], events[|events| - 1];
      TableTells(before, o);
      StepTells(before, e, o);
      assert events == before + [e];
    }
  }

  lemma FirstIsUnique(events: seq<Event>, o: Obj, f: nat, g: nat)
    requires FirstAdmitted(events, o, f) && FirstAdmitted(events, o, g)
    ensures f == g
  {
    assert f < g ==> ClearedBetween(events, o, f, g);
    assert g < f ==> ClearedBetween(events, o, g, f);
  }

  /** Over every history: a refresh is due exactly when a second has passed since the object's
      first unserved timeout that found room; later timeouts never postpone it. */
  lemma DueAfterAdmission(events: seq<Event>, o: Obj)
    ensures Due(After(events), o) <==>
      exists f: nat :: FirstAdmitted(events, o, f) && Ticked(events, f) >= PAUSE_MS
  {
    TableTells(events, o);
    forall f: nat, g: nat | FirstAdmitted(events, o, f) && FirstAdmitted(events, o, g) ensures f == g {
      FirstIsUnique(events, o, f, g);
    }
    var n: nat := |events|;
    if o !in After(events).remaining {
      forall f: nat ensures !FirstAdmitted(events, o, f) {
        assert FirstAdmitted(events, o, f) ==> ClearedBetween(events, o, f, n);
      }
    }
  }

  // ----- the counters -----------------------------------------------------------------------------

  /** The events of which `p` holds, given what came before each. */
  function Count(events: seq<Event>, p: (seq<Event>, Event) -> bool): nat
    decreases |events|
  {
    if events == [] then 0
    else
      var last := |events| - 1;
      Count(events[..last], p) + if p(events[..last], events[last]) then 1 else 0
  }

  predicate IsTimeout(before: seq<Event>, e: Event) {
    e.Timeout?
  }

  /** A clearing of an object whose refresh is due. */
  predicate ServesRefresh(before: seq<Event>, e: Event) {
    e.Clearing? && Due(After(before), e.obj)
  }

  /** A timeout of an object not held, while 32 others are. */
  predicate FindsNoRoom(before: seq<Event>, e: Event) {
    e.Timeout? && e.obj !in After(before).remaining && |After(before).remaining| >= 32
  }

  lemma ApplyCounts(t: Table, e: Event)
    requires t.stats.pendingObjects == |t.remaining|
    ensures var u := Apply(t, e);
      u.stats.pendingObjects == |u.remaining| &&
      u.stats.confirmedTimeouts == t.stats.confirmedTimeouts + (if e.Timeout? then 1 else 0) &&
      u.stats.refreshRequests == t.stats.refreshRequests + (if e.Clearing? && Due(t, e.obj) then 1 else 0) &&
      u.stats.capacityErrors ==
        t.stats.capacityErrors + (if e.Timeout? && e.obj !in t.remaining && |t.remaining| >= 32 then 1 else 0)
  {
    KeepsSize(t, e);
  }

  /** The diagnostics are exact over every history: timeouts, refreshes served after their
      pause, timeouts that found no room, and objects held now. */
  lemma {:induction false} CountersTell(events: seq<Event>)
    ensures var t := After(events);
      t.stats.confirmedTimeouts == Count(events, IsTimeout) && t.stats.pendingObjects == |t.remaining| &&
      t.stats.refreshRequests == Count(events, ServesRefresh) && t.stats.capacityErrors == Count(events, FindsNoRoom)
    decreases |events|
  {
    if events == [] {
    } else {
      var last := |events| - 1;
      CountersTell(events[..last]);
      ApplyCounts(After(events[..last]), events[last]);
    }
  }

  // ----- at most 32 objects -------------------------------------------------------------------

  /** A timeout without room is then of an object the table holds. */
  lemma FullTableHolds(events: seq<Event>, objects: set<Obj>, o: Obj, k: nat)
    requires |objects| <= OBJECTS && Only(events, objects)
    requires k < |events| && events[k] == Timeout(o) && !Admitted(events, o, k)
    ensures exists f: nat :: f < k && Admitted(events, o, f) && !ClearedBetween(events, o, f, k)
  {
    var before := events[..k];
    assert Only(before, objects);
    NoCapacityErrors(before, objects);
    var t := After(before);
    assert |t.remaining.Keys| == |t.remaining| && events[k] in events;
    if o !in t.remaining {
      SmallerSubset(t.remaining.Keys, objects, o);
    }
    TableTells(before, o);
    var f: nat :| FirstAdmitted(before, o, f);
    AdmittedBefore(before, events, o, f);
    assert forall c :: f < c < k ==> events[c] == before[c];
  }

  lemma AdmittedIsUnserved(events: seq<Event>, objects: set<Obj>, o: Obj, f: nat, k: nat)
    requires |objects| <= OBJECTS && Only(events, objects) && FirstAdmitted(events, o, f)
    requires k < f && events[k] == Timeout(o)
    ensures ClearedBetween(events, o, k, f)
  {
    if !Admitted(events, o, k) {
      FullTableHolds(events, objects, o, k);
      var g: nat :| g < k && Admitted(events, o, g) && !ClearedBetween(events, o, g, k);
      var c :| g < c < f && events[c] == Clearing(o);
      assert c > k;
    }
  }

  /** So the first unserved timeout is the first unserved one that found room. */
  lemma UnservedIsAdmitted(events: seq<Event>, objects: set<Obj>, o: Obj, f: nat)
    requires |objects| <= OBJECTS && Only(events, objects)
    ensures FirstUnserved(events, o, f) <==> FirstAdmitted(events, o, f)
  {
    if FirstUnserved(events, o, f) && !Admitted(events, o, f) {
      FullTableHolds(events, objects, o, f);
    }
    if FirstAdmitted(events, o, f) {
      forall k: nat | k < f && events[k] == Timeout(o) ensures ClearedBetween(events, o, k, f) {
        AdmittedIsUnserved(events, objects, o, f, k);
      }
    }
  }

  /** While at most 32 distinct objects time out: an object's refresh is due exactly when a
      second has passed since its first unserved timeout; later timeouts never postpone it. */
  lemma DueAfterPause(events: seq<Event>, objects: set<Obj>, o: Obj)
    requires |objects| <= OBJECTS && Only(events, objects)
    ensures Due(After(events), o) <==>
      exists f: nat :: FirstUnserved(events, o, f) && Ticked(events, f) >= PAUSE_MS
  {
    DueAfterAdmission(events, o);
    forall f: nat ensures FirstUnserved(events, o, f) <==> FirstAdmitted(events, o, f) {
      UnservedIsAdmitted(events, objects, o, f);
    }
  }
}
