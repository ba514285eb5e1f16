/** Choosing the restart timestamp: `bacnet_restart_clock_select`, its caller
    `select_restart_timestamp`, and the loop that runs both before every scheduler tick. */
module RestartClock {

  import opened Common
  import opened RestartRecipients
  import opened RestartScheduler
  import RestartSafety

  const WAIT_MS: nat := 5000
  const POLL_MS: nat := 1000

  /** A date and time the firmware accepts, as `clock_datetime` makes it. */
  type Moment = t: Timestamp | Acceptable(t) witness DateTime(0, true)

  /** 1990-01-01 00:00:00. */
  const FALLBACK: Moment := DateTime(0, true)

  datatype Choice = Wait | Valid | Fallback

  datatype Clock = Clock(waitStarted: bool, selected: bool, fromValid: bool, waitStart: nat, selectedAt: nat)

  /** `bacnet_restart_clock_select`. */
  function Select(c: Clock, now: nat, ready: bool, valid: bool): (Clock, Choice) {
    if !ready || c.selected then (c, Wait)
    else
      var w := if c.waitStarted then c else c.(waitStarted := true, waitStart := now);
      if !valid && now - w.waitStart < WAIT_MS then (w, Wait)
      else (w.(selected := true, fromValid := valid, selectedAt := now), if valid then Valid else Fallback)
  }

  class ClockState {
    var waitStarted: bool
    var selected: bool
    var fromValid: bool
    var waitStart: nat
    var selectedAt: nat

    ghost function View(): Clock
      reads this
    {
      Clock(waitStarted, selected, fromValid, waitStart, selectedAt)
    }

    method SelectNow(now: nat, ready: bool, valid: bool) returns (choice: Choice)
      modifies this
      ensures (View(), choice) == Select(old(View()), now, ready, valid)
    {
      if !ready || selected {
        return Wait;
      }
      if !waitStarted {
        waitStarted := true;
        waitStart := now;
      }
      if !valid && now - waitStart < WAIT_MS {
        return Wait;
      }
      selected := true;
      fromValid := valid;
      selectedAt := now;
      choice := if valid then Valid else Fallback;
    }
  }

  // ----- the clock snapshot ----------------------------------------------------------------------

  /** What the clock service answers: busy, no valid time, or the boot's date and time. */
  datatype Reading = Busy | Invalid | Known(boot: Moment)

  datatype Poll = Poll(started: bool, last: nat, boot: Option<Moment>)

  /** `update_bacnet_clock`: at most one reading a second, and a busy service changes nothing. */
  function Update(p: Poll, now: nat, reading: Reading): Poll {
    if p.started && now - p.last < POLL_MS then p
    else
      match reading
      case Busy => Poll(true, now, p.boot)
      case Invalid => Poll(true, now, None)
      case Known(boot) => Poll(true, now, Some(boot))
  }

  // ----- the loop -------------------------------------------------------------------------------

  datatype Node = Node(clock: Clock, poll: Poll, sched: Sched)

  /** One loop iteration, with the clock readings it would get early and late; or a list edit. */
  datatype Event =
    | Loop(polled: nat, early: Reading, now: nat, late: Reading, ready: bool, instance: nat, env: nat -> Outcome)
    | Edit(w: WriteRequest, flash: Flash)

  predicate Overdue(c: Clock, now: nat, ready: bool) {
    ready && !c.selected && c.waitStarted && now - c.waitStart >= WAIT_MS
  }

  /** The clock snapshot on which an iteration decides. */
  function Refreshed(n: Node, e: Event): Poll
    requires e.Loop?
  {
    var p := Update(n.poll, e.polled, e.early);
    if Overdue(n.clock, e.now, e.ready) then Update(p.(started := false), e.now, e.late) else p
  }

  function Stamp(choice: Choice, p: Poll): Timestamp {
    if choice == Valid && p.boot.Some? then p.boot.value else FALLBACK
  }

  /** `select_restart_timestamp`. */
  function Selected(n: Node, e: Event): Node
    requires e.Loop?
  {
    var p := Refreshed(n, e);
    var (clock, choice) := Select(n.clock, e.now, e.ready, p.boot.Some?);
    var sched := if choice == Wait then n.sched else SetStamp(n.sched, Stamp(choice, p)).0;
    Node(clock, p, sched)
  }

  function Step(k: Stack, n: Node, e: Event): Node {
    match e
    case Edit(w, flash) => n.(sched := Write(k, n.sched, w, flash).0)
    case Loop(_, _, now, _, ready, instance, env) =>
      var m := Selected(n, e);
      m.(sched := Tick(k, m.sched, now, ready, instance, env))
  }

  function Start(k: Stack, nvs: Nvs, now: nat, reading: Reading): Node {
    Node(Clock(false, false, false, 0, 0), Update(Poll(false, 0, None), now, reading), Boot(k, nvs, None))
  }

  /** The state before event `i`. */
  function At(k: Stack, start: Node, es: seq<Event>, i: nat): Node
    requires i <= |es|
  {
    if i == 0 then start else Step(k, At(k, start, es, i - 1), es[i - 1])
  }

  /** What a reading that is taken leaves known: a busy service leaves the last answer. */
  function Learnt(known: Option<Moment>, reading: Reading): Option<Moment> {
    if reading.Known? then Some(reading.boot) else if reading.Busy? then known else None
  }

  /** The first reading is taken at startup. */
  lemma FirstReading(k: Stack, nvs: Nvs, now: nat, reading: Reading)
    ensures Start(k, nvs, now, reading).poll == Poll(true, now, if reading.Known? then Some(reading.boot) else None)
  {
  }

  /** An iteration takes its early reading unless one was taken within the second before, and
      its late one whenever the wait is over, so an overdue choice rests on a reading of that
      very moment. */
  lemma ReadingsTaken(n: Node, e: Event)
    requires e.Loop?
    ensures var recent := n.poll.started && e.polled < n.poll.last + 1000;
      var known := if recent then n.poll.boot else Learnt(n.poll.boot, e.early);
      var overdue := e.ready && !n.clock.selected && n.clock.waitStarted && e.now >= n.clock.waitStart + 5000;
      Refreshed(n, e).boot == (if overdue then Learnt(known, e.late) else known) &&
      (Refreshed(n, e).last == if overdue then e.now else if recent then n.poll.last else e.polled) &&
      (Refreshed(n, e).started <==> overdue || !recent || n.poll.started)
  {
  }

  // ----- when the choice is made ---------------------------------------------------------------

  predicate IsReady(e: Event) {
    e.Loop? && e.ready
  }

  /** Iteration `i` is the first ready one. */
  ghost predicate FirstReady(es: seq<Event>, i: nat) {
    i < |es| && IsReady(es[i]) && forall j: nat :: j < i ==> !IsReady(es[j])
  }

  /** Iteration `i` may choose: it is ready, and sees a valid clock or comes 5000 ms after the first ready one. */
  ghost predicate MayChoose(k: Stack, start: Node, es: seq<Event>, i: nat) {
    i < |es| && IsReady(es[i]) &&
    (Refreshed(At(k, start, es, i), es[i]).boot.Some? || exists f: nat :: FirstReady(es, f) && WaitedFrom(es, f, i))
  }

  predicate WaitedFrom(es: seq<Event>, f: nat, i: nat)
    requires f < |es| && i < |es| && IsReady(es[f]) && IsReady(es[i])
  {
    es[i].now >= es[f].now + WAIT_MS
  }

  ghost predicate FirstChoice(k: Stack, start: Node, es: seq<Event>, i: nat) {
    MayChoose(k, start, es, i) && forall j: nat :: j < i ==> !MayChoose(k, start, es, j)
  }

  /** The timestamp iteration `i` would choose: the boot time if the clock is valid, else 1990. */
  function Chosen(k: Stack, start: Node, es: seq<Event>, i: nat): Timestamp
    requires i < |es| && IsReady(es[i])
  {
    var boot := Refreshed(At(k, start, es, i), es[i]).boot;
    if boot.Some? then boot.value else FALLBACK
  }

  ghost predicate WaitInv(es: seq<Event>, i: nat, c: Clock) {
    (c.waitStarted ==> exists f: nat :: FirstReady(es, f) && f < i && c.waitStart == es[f].now) &&
    (!c.waitStarted ==> !c.selected && forall j: nat :: j < i && j < |es| ==> !IsReady(es[j]))
  }

  /** No choice yet: no timestamp, and no destination was ever set. */
  ghost predicate Undecided(k: Stack, start: Node, es: seq<Event>, i: nat, n: Node) {
    n.sched.stamp == None && n.sched.targets == [] && !n.sched.stats.bootReady &&
    forall j: nat :: j < i ==> !MayChoose(k, start, es, j)
  }

  /** A choice was made, by the first iteration that could. */
  ghost predicate Decided(k: Stack, start: Node, es: seq<Event>, i: nat, n: Node, pick: nat) {
    pick < i && FirstChoice(k, start, es, pick) && n.sched.stamp == Some(Chosen(k, start, es, pick)) &&
    n.clock.selectedAt == es[pick].now && (n.clock.fromValid <==> Refreshed(At(k, start, es, pick), es[pick]).boot.Some?)
  }

  ghost predicate Inv(k: Stack, start: Node, es: seq<Event>, i: nat)
    requires i <= |es|
  {
    var n := At(k, start, es, i);
    WaitInv(es, i, n.clock) &&
    if n.clock.selected then exists pick: nat :: Decided(k, start, es, i, n, pick)
    else Undecided(k, start, es, i, n)
  }

  lemma WaitStep(k: Stack, es: seq<Event>, i: nat, n: Node)
    requires i < |es| && WaitInv(es, i, n.clock)
    ensures WaitInv(es, i + 1, Step(k, n, es[i]).clock)
  {
  }

  /** An undecided node chooses in exactly the iterations that may. */
  lemma ChoosesWhenItMay(k: Stack, start: Node, es: seq<Event>, i: nat)
    requires i < |es| && es[i].Loop? && WaitInv(es, i, At(k, start, es, i).clock)
    requires !At(k, start, es, i).clock.selected
    ensures var n := At(k, start, es, i);
      MayChoose(k, start, es, i) <==>
      Select(n.clock, es[i].now, es[i].ready, Refreshed(n, es[i]).boot.Some?).1 != Wait
  {
  }

  lemma InvStep(k: Stack, start: Node, es: seq<Event>, i: nat)
    requires i < |es| && Inv(k, start, es, i)
    ensures Inv(k, start, es, i + 1)
  {
    var n, e := At(k, start, es, i), es[i];
    var n' := At(k, start, es, i + 1);
    WaitStep(k, es, i, n);
    if n.clock.selected {
      var pick: nat :| Decided(k, start, es, i, n, pick);
      StampStays(k, n, e);
      assert Decided(k, start, es, i + 1, n', pick);
    } else {
      UndecidedStep(k, start, es, i);
    }
  }

  /** Once selected, nothing replaces the timestamp. */
  lemma StampStays(k: Stack, n: Node, e: Event)
    requires n.clock.selected
    ensures Step(k, n, e).clock == n.clock && Step(k, n, e).sched.stamp == n.sched.stamp
  {
  }

  lemma UndecidedStep(k: Stack, start: Node, es: seq<Event>, i: nat)
    requires i < |es| && WaitInv(es, i, At(k, start, es, i).clock) && !At(k, start, es, i).clock.selected
    requires Undecided(k, start, es, i, At(k, start, es, i))
    ensures var n' := At(k, start, es, i + 1);
      if n'.clock.selected then Decided(k, start, es, i + 1, n', i) else Undecided(k, start, es, i + 1, n')
  {
    var n, e := At(k, start, es, i), es[i];
    match e
    case Edit(w, flash) =>
    case Loop(_, _, _, _, _, _, _) =>
      ChoosesWhenItMay(k, start, es, i);
  }

  lemma {:induction false} InvHolds(k: Stack, nvs: Nvs, now: nat, reading: Reading, es: seq<Event>, i: nat)
    requires i <= |es|
    ensures Inv(k, Start(k, nvs, now, reading), es, i)
  {
    if i == 0 {
    } else {
      InvHolds(k, nvs, now, reading, es, i - 1);
      InvStep(k, Start(k, nvs, now, reading), es, i - 1);
    }
  }

  // ----- the main results ----------------------------------------------------------------------

  /** The timestamp is chosen once, by the first iteration that may choose; no destination
      exists before, and nothing changes the choice after. */
  lemma SelectedOnce(k: Stack, nvs: Nvs, now: nat, reading: Reading, es: seq<Event>, pick: nat, i: nat)
    requires FirstChoice(k, Start(k, nvs, now, reading), es, pick) && i <= |es|
    ensures var start := Start(k, nvs, now, reading);
      var n := At(k, start, es, i);
      (n.clock.selected <==> i > pick) &&
      (i <= pick ==> n.sched.stamp == None && n.sched.targets == []) &&
      (i > pick ==> n.sched.stamp == Some(Chosen(k, start, es, pick)) && n.clock.selectedAt == es[pick].now) &&
      (i > pick ==> (n.clock.fromValid <==> Refreshed(At(k, start, es, pick), es[pick]).boot.Some?))
  {
    InvHolds(k, nvs, now, reading, es, i);
  }

  /** Without such an iteration nothing is chosen and nobody is notified. */
  lemma NeverSelected(k: Stack, nvs: Nvs, now: nat, reading: Reading, es: seq<Event>, i: nat)
    requires forall j: nat :: j < |es| ==> !MayChoose(k, Start(k, nvs, now, reading), es, j)
    requires i <= |es|
    ensures var n := At(k, Start(k, nvs, now, reading), es, i);
      !n.clock.selected && n.sched.stamp == None && n.sched.targets == []
  {
    InvHolds(k, nvs, now, reading, es, i);
  }

  /** The scheduler never rejects the choice as too late. */
  lemma NeverTooLate(k: Stack, nvs: Nvs, now: nat, reading: Reading, es: seq<Event>, i: nat)
    requires i < |es| && es[i].Loop?
    ensures var n := At(k, Start(k, nvs, now, reading), es, i);
      var p := Refreshed(n, es[i]);
      var choice := Select(n.clock, es[i].now, es[i].ready, p.boot.Some?).1;
      choice != Wait ==> SetStamp(n.sched, Stamp(choice, p)).1
  {
    InvHolds(k, nvs, now, reading, es, i);
  }

  /** The fallback is chosen only when the clock service has no valid time at that very moment,
      or is busy and had none at its latest reading. */
  lemma FallbackMeansNoClock(k: Stack, nvs: Nvs, now: nat, reading: Reading, es: seq<Event>, i: nat)
    requires var start := Start(k, nvs, now, reading);
      FirstChoice(k, start, es, i) && Refreshed(At(k, start, es, i), es[i]).boot == None
    ensures !es[i].late.Known?
    ensures es[i].late.Busy? ==>
      Update(At(k, Start(k, nvs, now, reading), es, i).poll, es[i].polled, es[i].early).boot == None
  {
    var start := Start(k, nvs, now, reading);
    InvHolds(k, nvs, now, reading, es, i);
    ChoosesWhenItMay(k, start, es, i);
    assert Overdue(At(k, start, es, i).clock, es[i].now, es[i].ready);
  }

  function Time(es: seq<Event>, i: nat, begin: nat): nat
    requires i <= |es|
  {
    if i == 0 then begin else if es[i - 1].Loop? then es[i - 1].now else Time(es, i - 1, begin)
  }

  predicate InOrder(es: seq<Event>, begin: nat) {
    forall i: nat :: i < |es| ==> Time(es, i, begin) <= Time(es, i + 1, begin)
  }

  lemma {:induction false} SchedulerInv(k: Stack, nvs: Nvs, now: nat, reading: Reading, es: seq<Event>, i: nat)
    requires Lawful(k) && InOrder(es, now) && i <= |es|
    ensures RestartSafety.Inv(k, At(k, Start(k, nvs, now, reading), es, i).sched, Time(es, i, now))
  {
    var start := Start(k, nvs, now, reading);
    if i == 0 {
      RestartSafety.BootInv(k, nvs, None, now);
    } else {
      SchedulerInv(k, nvs, now, reading, es, i - 1);
      var n, e, clock := At(k, start, es, i - 1), es[i - 1], Time(es, i - 1, now);
      assert clock <= Time(es, i, now);
      match e
      case Edit(w, flash) =>
        RestartSafety.StepKeepsInv(k, n.sched, RestartSafety.Edit(w, flash), clock);
      case Loop(_, _, at, _, ready, instance, env) =>
        var m := Selected(n, e);
        RestartSafety.StepKeepsInv(k, n.sched, RestartSafety.Stamp(Stamp(Valid, Refreshed(n, e))), clock);
        RestartSafety.StepKeepsInv(k, n.sched, RestartSafety.Stamp(FALLBACK), clock);
        RestartSafety.StepKeepsInv(k, m.sched, RestartSafety.Ticked(at, ready, instance, env), clock);
    }
  }

  /** Every try of every retry, however late, carries the one timestamp chosen. */
  lemma EveryTryCarriesTheChoice(k: Stack, nvs: Nvs, now: nat, reading: Reading, es: seq<Event>, i: nat,
                                 u: Target, y: Try)
    requires Lawful(k) && InOrder(es, now) && i <= |es|
    requires u in At(k, Start(k, nvs, now, reading), es, i).sched.targets && y in u.tries
    ensures var start := Start(k, nvs, now, reading);
      exists pick: nat :: pick < i && FirstChoice(k, start, es, pick) && y.stamp == Chosen(k, start, es, pick)
  {
    var start := Start(k, nvs, now, reading);
    InvHolds(k, nvs, now, reading, es, i);
    SchedulerInv(k, nvs, now, reading, es, i);
    var n := At(k, start, es, i);
    RestartSafety.TargetBounded(k, u, n.sched.live, n.sched.stamp, Time(es, i, now));
    var pick: nat :| Decided(k, start, es, i, n, pick);
  }
}
