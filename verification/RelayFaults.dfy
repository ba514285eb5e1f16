/** What the driver makes of transactions that fail, and what it may say of itself meanwhile. */
module RelayFaults {
  import opened RelayDriver
  import opened RelaySafety
  import opened RelayCalls

  // ----- a transaction that fails ---------------------------------------------------------------

  /** The pass is at an I2C transaction. */
  predicate OnBus(p: Pass) {
    p.LatchWrite? || p.ConfigRead? || p.OutputRead? || p.PolarityWrite? || p.ConfigWrite?
  }

  /** Whatever transaction is not acknowledged: the pass ends unhealthy, with an error, and what
      was applied and is to be saved stays as it was. */
  lemma FailedTransaction(b: Board, effect: bool, ack: bool, after: bool)
    requires b.mutex.InPass? && OnBus(b.mutex.pass)
    ensures var c := PassStep(PassStep(b, false, effect), ack, after);
      c.mutex.InPass? && c.mutex.who == b.mutex.who && c.mutex.pass == Finished(false, 0) &&
      !c.tcaHealthy && c.applied == b.applied && c.save == b.save && c.cmd == b.cmd
  {
  }

  /** A boot that fails anywhere has failed for good: the board never boots. */
  lemma FailedBoot(b: Board)
    requires BootInv(b) && !b.booted
    ensures Enabled(b, PassGives) && !b.mutex.pass.ok ==> Give(b).mutex == InitFailed && !Give(b).booted
    ensures b.mutex == BootPolarity ==>
      forall effect: bool :: AfterBootPolarity(b, false, effect).mutex == InitFailed &&
        !AfterBootPolarity(b, false, effect).tcaHealthy && !AfterBootPolarity(b, false, effect).booted
  {
  }

  lemma {:induction false} FailedBootStays(b: Board, events: seq<Event>, c: Board)
    requires BootInv(b) && !b.booted && b.mutex == InitFailed && Run(b, events, c)
    ensures c == b.(hw := c.hw, marks := c.marks)
    decreases |events|
  {
    if events == [] {
    } else {
      assert events[0] == ExpanderResets;
      FailedBootStays(Step(b, events[0]), events[1..], c);
    }
  }

  /** Whatever the bus answers, the code of `board_io_init` is a run of the state machine. */
  lemma InitIsRun(b: Board, off: nat -> Answer, second: Answer, again: nat -> Answer) returns (events: seq<Event>)
    requires Init(b)
    ensures Run(b, events, InitAlone(b, off, second, again))
  {
    var p := Settle(b, off, 0);
    SettleIsRun(b, off, 0);
    OneStepRun(p, PassGives);
    var q := Give(p);
    RunAppend(b, Moves(b, off, 0), p, [PassGives], q);
    events := Moves(b, off, 0) + [PassGives];
    if q.mutex == BootPolarity {
      var e := BootPolarityWrite(second.ack, second.effect);
      var r := Step(q, e);
      OneStepRun(q, e);
      RunAppend(b, events, q, [e], r);
      events := events + [e];
      if r.mutex.InPass? {
        var c := Settle(r, again, 0);
        SettleIsRun(r, again, 0);
        OneStepRun(c, PassGives);
        RunAppend(r, Moves(r, again, 0), c, [PassGives], Give(c));
        RunAppend(b, events, r, Moves(r, again, 0) + [PassGives], Give(c));
        events := events + (Moves(r, again, 0) + [PassGives]);
      }
    }
  }

  /** And so is a call that waits in vain. */
  lemma VainCallIsRun(b: Board, id: nat, command: Command, bus: nat -> Answer)
    requires Enabled(b, Publish(id, command)) && b.mutex == Free
    ensures Run(b, [Publish(id, command), SetterTimesOut(id)], SetAlone(b, id, command, false, bus))
  {
    var p := Step(b, Publish(id, command));
    OneStepRun(b, Publish(id, command));
    OneStepRun(p, SetterTimesOut(id));
    RunAppend(b, [Publish(id, command)], p, [SetterTimesOut(id)], Step(p, SetterTimesOut(id)));
    assert [Publish(id, command)] + [SetterTimesOut(id)] == [Publish(id, command), SetterTimesOut(id)];
  }

  // ----- health --------------------------------------------------------------------------------

  /** Nothing but the successful end of a verified pass makes an unhealthy controller healthy. */
  lemma {:induction false} HealthIsEarned(b: Board, events: seq<Event>, c: Board) returns (n: nat, d: Board)
    requires Run(b, events, c) && !b.tcaHealthy && c.tcaHealthy
    ensures n < |events| && Run(b, events[..n], d) && Enabled(d, events[n])
    ensures events[n].PassMoves? && d.mutex.InPass? && d.mutex.pass.Commit?
    decreases |events|
  {
    if events == [] {
      assert false;
    } else {
      var next := Step(b, events[0]);
      if next.tcaHealthy {
        n, d := 0, b;
      } else {
        n, d := HealthIsEarned(next, events[1..], c);
        assert events[..n + 1][1..] == events[1..][..n];
        n := n + 1;
      }
    }
  }

  /** A call that times out says so, takes the controller's health away, and leaves its command
      published for the next pass. */
  lemma TimeOutTells(b: Board, id: nat)
    requires Enabled(b, SetterTimesOut(id))
    ensures var c := Step(b, SetterTimesOut(id));
      c.cmd.calls[id] == Done(b.cmd.calls[id].pos, TimedOut) && !ControllerHealthy(c) &&
      c.cmd.log == b.cmd.log && c.cmd.desired == b.cmd.desired && c.hw == b.hw && c.mutex == b.mutex
  {
  }

  /** The pass is mending the expander. */
  predicate Mending(p: Pass) {
    p.PolarityWrite? || p.ConfigWrite? || (p.ConfigRead? && p.second) || (p.OutputRead? && p.second) ||
    (p.Noting? && p.second)
  }

  predicate MendingIsUnhealthy(b: Board) {
    b.mutex.InPass? && Mending(b.mutex.pass) ==> !b.tcaHealthy
  }

  lemma StepMending(b: Board, e: Event)
    requires MendingIsUnhealthy(b) && Enabled(b, e)
    ensures MendingIsUnhealthy(Step(b, e))
  {
    match e
    case PassMoves(ack, effect) =>
    case PassGives =>
    case BootPolarityWrite(_, _) =>
    case _ =>
  }

  /** From the moment a pass finds the pins disabled until it has verified the repair, the
      controller never counts as healthy. */
  lemma {:induction false} RunMending(b: Board, events: seq<Event>, c: Board)
    requires MendingIsUnhealthy(b) && Run(b, events, c)
    ensures MendingIsUnhealthy(c)
    decreases |events|
  {
    if events == [] {
    } else {
      StepMending(b, events[0]);
      RunMending(Step(b, events[0]), events[1..], c);
    }
  }

  // ----- the marks --------------------------------------------------------------------------------

  /** A read that is answered takes back its mark, and a verified success takes over that of the
      configuration read it rests on. */
  lemma PassMarks(p: Pass, was: Marks, ack: bool, effect: bool)
    ensures var now := Marked(p, was, ack, effect);
      now.sinceConfigRead == (was.sinceConfigRead && !(p.ConfigRead? && ack)) &&
      now.sinceLatchRead == (was.sinceLatchRead && !(p.OutputRead? && ack)) &&
      now.sinceVerified == if p.Commit? then was.sinceConfigRead else was.sinceVerified
  {
  }

  /** Enabled pins may show an unverified latch once an enabling write follows a reset since the
      latch was read, until a latch write takes effect. */
  lemma PassLuck(p: Pass, was: Marks, ack: bool, effect: bool)
    ensures Marked(p, was, ack, effect).unlucky <==>
      ((was.unlucky && !(p.LatchWrite? && effect)) || (p.ConfigWrite? && effect && was.sinceLatchRead))
  {
  }

  /** A reset sets the marks and disables the pins; nothing else but a pass touches them. */
  lemma OtherMarks(b: Board, e: Event)
    requires Enabled(b, e) && !e.PassMoves?
    ensures Step(b, e).marks == if e.ExpanderResets? then Marks(true, true, true, false) else b.marks
    ensures e.ExpanderResets? ==> Step(b, e).hw == Expander(0xFF, 0, 0xFF)
  {
    match e
    case PassGives =>
    case BootPolarityWrite(_, _) =>
    case _ =>
  }

  // ----- the revision of the applied mask --------------------------------------------------------

  /** The step notes a mask that differs from the one applied before. */
  predicate Changes(b: Board, e: Event) {
    e.PassMoves? && b.mutex.InPass? && b.mutex.pass.NoteChange? && b.mutex.pass.was != b.mutex.pass.mask
  }

  function ChangesIn(b: Board, events: seq<Event>): nat
    decreases |events|
  {
    if events == [] || !Enabled(b, events[0]) then 0
    else (if Changes(b, events[0]) then 1 else 0) + ChangesIn(Step(b, events[0]), events[1..])
  }

  lemma StepRevision(b: Board, e: Event)
    requires Enabled(b, e) && b.restore && b.save.revision < 0x1_0000_0000
    ensures var c := Step(b, e);
      c.restore && c.save.revision < 0x1_0000_0000 &&
      c.save.revision == (b.save.revision + if Changes(b, e) then 1 else 0) % 0x1_0000_0000 &&
      (Changes(b, e) ==> c.save.dirty)
  {
    match e
    case PassMoves(ack, effect) =>
    case _ =>
  }

  lemma Wrap(a: nat, d: nat)
    ensures (a % 0x1_0000_0000 + d) % 0x1_0000_0000 == (a + d) % 0x1_0000_0000
  {
  }

  /** With restore enabled the save revision counts the changes of the applied mask, modulo
      2^32, so a save that meets its own revision saw no change meanwhile, short of 2^32. */
  lemma {:induction false} RevisionCounts(b: Board, events: seq<Event>, c: Board)
    requires Run(b, events, c) && b.restore && b.save.revision < 0x1_0000_0000
    ensures c.save.revision == (b.save.revision + ChangesIn(b, events)) % 0x1_0000_0000
    decreases |events|
  {
    if events == [] {
    } else {
      var next := Step(b, events[0]);
      StepRevision(b, events[0]);
      RevisionCounts(next, events[1..], c);
      Wrap(b.save.revision + (if Changes(b, events[0]) then 1 else 0), ChangesIn(next, events[1..]));
    }
  }

  // ----- what a repair repairs -------------------------------------------------------------------

  /** How far the polarity register is, in a pass that began with these register contents. */
  predicate Polarity(p: Pass, hw: Expander, polarity: bv8, config: bv8) {
    match p
    case Entered => hw.config == config && hw.polarity == polarity
    case LatchWrite(_) => hw.config == config && hw.polarity == polarity
    case ConfigRead(_, second) =>
      if second then config != 0 && hw.polarity == 0 else hw.config == config && hw.polarity == polarity
    case OutputRead(_, read, second) =>
      if second then config != 0 && hw.polarity == 0 else read == config && hw.polarity == polarity
    case Noting(_, read, _, second) =>
      if second then config != 0 && hw.polarity == 0 else read == config && hw.polarity == polarity
    case Recovering(_) => config != 0
    case PolarityWrite(_) => config != 0
    case ConfigWrite(_) => config != 0 && hw.polarity == 0
    case Mismatch => true
    case IoError => true
    case Commit(_) => hw.polarity == if config != 0 then 0 else polarity
    case NoteChange(_, _) => hw.polarity == if config != 0 then 0 else polarity
    case Finished(ok, _) => ok ==> hw.polarity == if config != 0 then 0 else polarity
  }

  lemma ReadsPolarity(p: Pass, hw: Expander, desired: bv8, applied: bv8, polarity: bv8, config: bv8)
    requires Polarity(p, hw, polarity, config) && (p.ConfigRead? || p.OutputRead? || p.LatchWrite? || p.Entered?)
    ensures Polarity(NextPass(p, hw, desired, applied, true), Written(p, hw, true), polarity, config)
  {
  }

  lemma DecisionPolarity(p: Pass, hw: Expander, desired: bv8, applied: bv8, polarity: bv8, config: bv8)
    requires Polarity(p, hw, polarity, config) && p.Noting?
    ensures Polarity(NextPass(p, hw, desired, applied, true), Written(p, hw, true), polarity, config)
  {
  }

  lemma WritesPolarity(p: Pass, hw: Expander, desired: bv8, applied: bv8, polarity: bv8, config: bv8)
    requires Polarity(p, hw, polarity, config) && (p.Recovering? || p.PolarityWrite? || p.ConfigWrite?)
    ensures Polarity(NextPass(p, hw, desired, applied, true), Written(p, hw, true), polarity, config)
  {
  }

  lemma NextPolarity(p: Pass, hw: Expander, desired: bv8, applied: bv8, polarity: bv8, config: bv8)
    requires Polarity(p, hw, polarity, config)
    ensures Polarity(NextPass(p, hw, desired, applied, true), Written(p, hw, true), polarity, config)
  {
    if p.ConfigRead? || p.OutputRead? || p.LatchWrite? || p.Entered? {
      ReadsPolarity(p, hw, desired, applied, polarity, config);
    } else if p.Noting? {
      DecisionPolarity(p, hw, desired, applied, polarity, config);
    } else if p.Recovering? || p.PolarityWrite? || p.ConfigWrite? {
      WritesPolarity(p, hw, desired, applied, polarity, config);
    }
  }

  lemma {:induction false} SettlePolarity(b: Board, bus: nat -> Answer, n: nat, polarity: bv8, config: bv8)
    requires Good(bus) && b.mutex.InPass? && Polarity(b.mutex.pass, b.hw, polarity, config)
    ensures var c := Settle(b, bus, n); Polarity(c.mutex.pass, c.hw, polarity, config)
    decreases Rank(b.mutex.pass)
  {
    if b.mutex.pass.Finished? {
    } else {
      PassDescends(b, bus(n));
      NextPolarity(b.mutex.pass, b.hw, b.cmd.desired, b.applied, polarity, config);
      SettlePolarity(PassStep(b, true, true), bus, n + 1, polarity, config);
    }
  }

  /** On a working bus a pass that found the pins disabled also clears the polarity register,
      and any other leaves it alone. */
  lemma RepairClearsPolarity(b: Board, bus: nat -> Answer, n: nat)
    requires Good(bus) && b.mutex.InPass?
    requires b.mutex.pass == Entered || b.mutex.pass == LatchWrite(b.cmd.desired)
    ensures Settle(b, bus, n).hw.polarity == if b.hw.config != 0 then 0 else b.hw.polarity
  {
    SettlePolarity(b, bus, n, b.hw.polarity, b.hw.config);
    GoodPassSucceeds(b, bus, n);
  }

  /** So does the polarity write of a boot, and nothing else of the expander. */
  lemma BootClearsPolarity(b: Board, ack: bool, effect: bool)
    requires b.mutex == BootPolarity
    ensures var c := Step(b, BootPolarityWrite(ack, effect));
      c.hw == Expander(b.hw.output, if effect then 0 else b.hw.polarity, b.hw.config) && c.applied == b.applied
  {
  }

  /** Without restore a boot on a working bus ends with everything verified off. */
  lemma PlainBoot(b: Board, off: nat -> Answer, again: nat -> Answer)
    requires Init(b) && !b.restore && Good(off)
    ensures var c := InitAlone(b, off, Answer(true, true), again);
      c.booted && c.mutex == Free && c.applied == 0 && c.hw == Expander(0, 0, 0) && ControllerHealthy(c) &&
      c.cmd == Commands(0, [], 0, map[]) && c.save == b.save
  {
    GoodPassSucceeds(b, off, 0);
    SettleIsRun(b, off, 0);
    InitInv(b);
    RunKeepsInv(b, Moves(b, off, 0), Settle(b, off, 0));
    SettleKeepsSave(b, off, 0);
  }

  lemma {:induction false} SettleKeepsSave(b: Board, bus: nat -> Answer, n: nat)
    requires b.mutex.InPass? && !b.restore
    ensures Settle(b, bus, n).save == b.save && Settle(b, bus, n).cmd == b.cmd
    decreases Rank(b.mutex.pass)
  {
    if b.mutex.pass.Finished? {
    } else {
      PassDescends(b, bus(n));
      SettleKeepsSave(PassStep(b, bus(n).ack, bus(n).effect), bus, n + 1);
    }
  }
}
