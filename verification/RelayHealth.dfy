/** What `board_io_relay_controller_healthy` tells a caller that asks at any moment, in the middle
    of a pass or not. */
module RelayHealth {
  import opened BitMask
  import opened RelayDriver
  import opened RelaySafety
  import opened RelayCalls

  /** What a pass has done to the registers of an expander that was verified to drive `applied`
      and has not reset since; `m` is the mask the pass read. */
  predicate Stage(p: Pass, hw: Expander, applied: bv8, m: bv8) {
    hw.config == 0 &&
    match p
    case ConfigRead(_, second) => !second && Either(hw, applied, m)
    case OutputRead(_, config, second) => !second && config == 0 && Either(hw, applied, m)
    case Noting(_, config, output, second) =>
      !second && config == 0 && output == hw.output && Either(hw, applied, m)
    case IoError => Either(hw, applied, m)
    case Mismatch => Either(hw, applied, m)
    case Commit(_) => hw.output == m
    case Recovering(_) => false
    case PolarityWrite(_) => false
    case ConfigWrite(_) => false
    case _ => hw.output == applied
  }

  predicate Either(hw: Expander, applied: bv8, m: bv8) {
    hw.output == applied || hw.output == m
  }

  lemma NextStage(p: Pass, hw: Expander, applied: bv8, m: bv8, desired: bv8, ack: bool, effect: bool)
    requires Stage(p, hw, applied, m) && (p.LatchWrite? || p.Noting? ==> p.mask == m)
    requires !p.Entered? && !p.Commit? && !p.IoError? && !p.Mismatch?
    ensures Stage(NextPass(p, hw, desired, applied, ack), Written(p, hw, effect), applied, m)
  {
    match p
    case LatchWrite(mask) =>
    case ConfigRead(mask, second) =>
    case OutputRead(mask, config, second) =>
    case Noting(mask, config, output, second) =>
    case NoteChange(mask, was) =>
    case Finished(ok, mask) =>
  }

  /** The mask the pass at work read when it began. */
  function PassMask(b: Board): bv8
    requires b.mutex.InPass? && LogOk(b.cmd.log) && b.mutex.upto <= |b.cmd.log|
  {
    MaskAt(b.cmd, b.mutex.upto)
  }

  /** Believed healthy, and no reset since the readback that made it so. */
  predicate Trusted(b: Board) {
    b.tcaHealthy && !b.marks.sinceVerified
  }

  ghost predicate Told(b: Board)
    requires CommandInv(b.cmd, b.mutex)
  {
    Trusted(b) ==>
      if b.mutex.InPass? then Stage(b.mutex.pass, b.hw, b.applied, PassMask(b))
      else Registers(b, b.applied, 0)
  }

  /** A pass that only reads the desired mask, or that succeeds on its own readback. */
  lemma EndsKeepTold(b: Board, ack: bool, effect: bool)
    requires CommandInv(b.cmd, b.mutex) && RegisterInv(b) && Told(b)
    requires b.mutex.InPass? && (b.mutex.pass.Entered? || b.mutex.pass.Commit?)
    requires CommandInv(PassStep(b, ack, effect).cmd, PassStep(b, ack, effect).mutex)
    ensures Told(PassStep(b, ack, effect))
  {
  }

  lemma StageKeepsTold(b: Board, ack: bool, effect: bool)
    requires CommandInv(b.cmd, b.mutex) && Told(b)
    requires b.mutex.InPass? && !b.mutex.pass.Finished? && !b.mutex.pass.Entered? && !b.mutex.pass.Commit?
    requires CommandInv(PassStep(b, ack, effect).cmd, PassStep(b, ack, effect).mutex)
    ensures Told(PassStep(b, ack, effect))
  {
    if Trusted(PassStep(b, ack, effect)) {
      NextStage(b.mutex.pass, b.hw, b.applied, PassMask(b), b.cmd.desired, ack, effect);
    }
  }

  lemma PassKeepsTold(b: Board, ack: bool, effect: bool)
    requires CommandInv(b.cmd, b.mutex) && RegisterInv(b) && Told(b)
    requires b.mutex.InPass? && !b.mutex.pass.Finished?
    requires CommandInv(PassStep(b, ack, effect).cmd, PassStep(b, ack, effect).mutex)
    ensures Told(PassStep(b, ack, effect))
  {
    if b.mutex.pass.Entered? || b.mutex.pass.Commit? {
      EndsKeepTold(b, ack, effect);
    } else {
      StageKeepsTold(b, ack, effect);
    }
  }

  /** The pass stands still, or there is none that has touched the registers yet. */
  ghost predicate Still(b: Board, c: Board)
    requires CommandInv(b.cmd, b.mutex) && CommandInv(c.cmd, c.mutex)
  {
    if b.mutex.InPass? && !b.mutex.pass.Finished? then c.mutex == b.mutex && PassMask(c) == PassMask(b)
    else c.mutex.InPass? ==> c.mutex.pass.Entered? || c.mutex.pass.LatchWrite? || c.mutex == b.mutex
  }

  lemma StillKeepsTold(b: Board, c: Board)
    requires CommandInv(b.cmd, b.mutex) && CommandInv(c.cmd, c.mutex) && Told(b) && Still(b, c)
    requires Registers(c, b.hw.output, b.hw.config) && c.applied == b.applied
    requires c.marks == b.marks && (c.tcaHealthy ==> b.tcaHealthy)
    ensures Told(c)
  {
  }

  /** Publishing leaves the mask a pass has read. */
  lemma PublishKeepsMask(b: Board, id: nat, command: Command)
    requires CommandInv(b.cmd, b.mutex) && b.mutex.InPass? && command.index < 8
    ensures MaskAt(Published(b.cmd, id, command), b.mutex.upto) == PassMask(b)
  {
    assert (b.cmd.log + [command])[..b.mutex.upto] == b.cmd.log[..b.mutex.upto];
  }

  lemma StepIsStill(b: Board, e: Event)
    requires BootInv(b) && CommandInv(b.cmd, b.mutex) && Enabled(b, e)
    requires CommandInv(Step(b, e).cmd, Step(b, e).mutex)
    requires !e.PassMoves? && !e.ExpanderResets?
    ensures Still(b, Step(b, e))
  {
    match e
    case Publish(id, command) =>
      if b.mutex.InPass? {
        PublishKeepsMask(b, id, command);
      }
    case SetterTakes(id) =>
    case SetterTimesOut(id) =>
    case PassGives =>
    case BootPolarityWrite(ack, effect) =>
    case SaverCaptures(due) =>
    case ClearerClears =>
    case _ =>
  }

  lemma StepKeepsOutputs(b: Board, e: Event)
    requires Enabled(b, e) && !e.PassMoves? && !e.ExpanderResets?
    ensures var c := Step(b, e);
      Registers(c, b.hw.output, b.hw.config) && c.applied == b.applied && c.marks == b.marks &&
      (c.tcaHealthy ==> b.tcaHealthy)
  {
    match e
    case Publish(id, command) =>
    case SetterTimesOut(id) =>
    case PassGives =>
    case BootPolarityWrite(ack, effect) =>
    case SaverCaptures(due) =>
    case StoreReturns(ok) =>
    case ClearerClears =>
    case _ =>
  }

  lemma StepKeepsTold(b: Board, e: Event)
    requires Inv(b) && Told(b) && Enabled(b, e)
    ensures Inv(Step(b, e)) && Told(Step(b, e))
  {
    StepKeepsInv(b, e);
    if e.PassMoves? {
      PassKeepsTold(b, e.ack, e.effect);
    } else if !e.ExpanderResets? {
      StepIsStill(b, e);
      StepKeepsOutputs(b, e);
      StillKeepsTold(b, Step(b, e));
    }
  }

  lemma {:induction false} RunKeepsTold(b: Board, events: seq<Event>, c: Board)
    requires Inv(b) && Told(b) && Run(b, events, c)
    ensures Inv(c) && Told(c)
    decreases |events|
  {
    if events == [] {
    } else {
      StepKeepsTold(b, events[0]);
      RunKeepsTold(Step(b, events[0]), events[1..], c);
    }
  }

  // ----- the main results -----------------------------------------------------------------------

  /** A pass between its latch write and its judgement. */
  predicate MidPass(p: Pass) {
    p.ConfigRead? || p.OutputRead? || p.Noting? || p.IoError? || p.Mismatch? || p.Commit?
  }

  /** A pass at work has written the mask it read, and later commands have taken that mask back. */
  predicate Overtaken(b: Board)
    requires LogOk(b.cmd.log) && (b.mutex.InPass? ==> b.mutex.upto <= |b.cmd.log|)
  {
    b.mutex.InPass? && MidPass(b.mutex.pass) &&
    PassMask(b) != Fold(b.cmd.base, b.cmd.log) && b.hw.output == PassMask(b)
  }

  /** At any moment at all, without a reset since the last success: a healthy controller has its
      pins enabled, and they drive the sum of all published commands exactly unless a pass at
      work has been overtaken. */
  lemma HealthyExactly(b: Board, events: seq<Event>, c: Board)
    requires Init(b) && Run(b, events, c)
    requires ControllerHealthy(c) && !c.marks.sinceVerified
    ensures LogOk(c.cmd.log) && (c.mutex.InPass? ==> c.mutex.upto <= |c.cmd.log|)
    ensures c.hw.config == 0
    ensures c.hw.output == Fold(c.cmd.base, c.cmd.log) <==> !Overtaken(c)
  {
    InitInv(b);
    RunKeepsTold(b, events, c);
  }

  lemma Extend(b: Board, events: seq<Event>, c: Board, e: Event) returns (longer: seq<Event>)
    requires Run(b, events, c) && Enabled(c, e)
    ensures Run(b, longer, Step(c, e))
  {
    OneStepRun(c, e);
    RunAppend(b, events, c, [e], Step(c, e));
    longer := events + [e];
  }

  /** Nothing commanded, all off and verified. */
  predicate AllOff(b: Board) {
    b.booted && b.mutex == Free && b.cmd == Commands(0, [], 0, map[]) && b.applied == 0 && Trusted(b) &&
    b.hw.config == 0
  }

  /** Its first command, to turn relay 0 on, is at work. */
  predicate TurnsOn(b: Board, p: Pass, upto: nat) {
    b.booted && b.mutex == InPass(Setter(1), p, upto) && b.applied == 0 && Trusted(b) && b.hw.config == 0 &&
    b.cmd == Commands(0, [Command(0, true)], 1, map[1 := Inside(0)])
  }

  lemma CallBegins(b: Board) returns (events: seq<Event>, c: Board)
    requires AllOff(b)
    ensures Run(b, events, c) && TurnsOn(c, Entered, 0)
  {
    var on := Publish(1, Command(0, true));
    OneStepRun(b, on);
    events := Extend(b, [on], Step(b, on), SetterTakes(1));
    c := Step(Step(b, on), SetterTakes(1));
  }

  /** One call turns relay 0 on ... */
  lemma CallWritesLatch(b: Board) returns (events: seq<Event>, c: Board)
    requires TurnsOn(b, Entered, 0)
    ensures Run(b, events, c) && TurnsOn(c, ConfigRead(1, false), 1) && c.hw.output == 1
  {
    var move := PassMoves(true, true);
    OneStepRun(b, move);
    events := Extend(b, [move], Step(b, move), move);
    c := Step(Step(b, move), move);
  }

  /** ... and another turns it off before the first has read back its latch. */
  lemma CommandTakesBack(b: Board)
    requires TurnsOn(b, ConfigRead(1, false), 1) && b.hw.output == 1
    ensures Enabled(b, Publish(2, Command(0, false)))
    ensures var c := Step(b, Publish(2, Command(0, false)));
      ControllerHealthy(c) && Trusted(c) && c.cmd.desired == 0 && c.hw.output == 1 && c.hw.config == 0
  {
  }

  /** A moment at which healthy misleads, after a boot to all off: every command says off, and
      the pins drive relay 0. */
  lemma HealthyCanMislead(bus: nat -> Answer) returns (events: seq<Event>, c: Board)
    requires Good(bus)
    ensures Init(MISREAD) && Run(MISREAD, events, c)
    ensures ControllerHealthy(c) && !c.marks.sinceVerified
    ensures LogOk(c.cmd.log) && c.mutex.InPass? && c.mutex.upto <= |c.cmd.log| && Overtaken(c)
    ensures c.cmd.desired == 0 && c.hw.output == 1 && c.hw.config == 0
  {
    var b, d, more;
    events, b := BootIsRun(MISREAD, bus);
    events := Extend(MISREAD, events, b, PassGives);
    more, d := CallBegins(Step(b, PassGives));
    RunAppend(MISREAD, events, Step(b, PassGives), more, d);
    events := events + more;
    var e;
    more, e := CallWritesLatch(d);
    RunAppend(MISREAD, events, d, more, e);
    d := e;
    CommandTakesBack(d);
    events := Extend(MISREAD, events + more, d, Publish(2, Command(0, false)));
    c := Step(d, Publish(2, Command(0, false)));
    DesiredIsFold(MISREAD, events, c);
    HealthyExactly(MISREAD, events, c);
  }
}
