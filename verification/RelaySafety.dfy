/** What every interleaving of the relay driver keeps. */
module RelaySafety {
  import opened BitMask
  import opened RelayDriver

  // ----- commands ------------------------------------------------------------------

  predicate HasMask(p: Pass) {
    !p.Entered? && !p.IoError? && !p.Mismatch? && (p.Finished? ==> p.ok)
  }

  /** The desired mask after the first `q` commands. */
  function MaskAt(cmd: Commands, q: nat): bv8
    requires LogOk(cmd.log) && q <= |cmd.log|
  {
    Fold(cmd.base, cmd.log[..q])
  }

  ghost predicate PassMaskOk(cmd: Commands, m: Mutex)
    requires LogOk(cmd.log)
  {
    m.InPass? ==>
      m.upto <= |cmd.log| && (HasMask(m.pass) ==> m.pass.mask == MaskAt(cmd, m.upto))
  }

  /** The mask was the desired one at some moment after command `pos`. */
  ghost predicate Supersedes(cmd: Commands, pos: nat, mask: bv8)
    requires LogOk(cmd.log)
  {
    exists q :: pos < q <= |cmd.log| && mask == MaskAt(cmd, q)
  }

  ghost predicate CallOk(cmd: Commands, call: Call)
    requires LogOk(cmd.log)
  {
    call.pos < |cmd.log| &&
    (call.Done? && call.outcome.Applied? ==> Supersedes(cmd, call.pos, call.outcome.mask))
  }

  ghost predicate CallsOk(cmd: Commands)
    requires LogOk(cmd.log)
  {
    forall id | id in cmd.calls :: CallOk(cmd, cmd.calls[id])
  }

  ghost predicate SetterOk(cmd: Commands, m: Mutex) {
    m.InPass? && m.who.Setter? ==>
      m.who.id in cmd.calls && cmd.calls[m.who.id].Inside? &&
      (!m.pass.Entered? ==> cmd.calls[m.who.id].pos < m.upto)
  }

  ghost predicate LogInv(cmd: Commands) {
    LogOk(cmd.log) && cmd.desired == Fold(cmd.base, cmd.log)
  }

  ghost predicate BootInv(b: Board) {
    if b.booted then
      (b.mutex.InPass? ==> b.mutex.who.Setter? || b.mutex.who.Health?) && b.mutex != BootPolarity
    else
      b.cmd.calls == map[] && b.cmd.log == [] && b.save.saver == Resting &&
      (b.mutex.InPass? ==> b.mutex.who.BootOff? || b.mutex.who.BootRestore?) &&
      (b.mutex.InPass? && b.mutex.who.BootOff? ==> b.cmd.base == 0) &&
      (b.mutex == BootPolarity ==> b.cmd.base == 0) &&
      (b.mutex.InPass? || b.mutex == BootPolarity || b.mutex == InitFailed)
  }

  ghost predicate CommandInv(cmd: Commands, m: Mutex) {
    LogInv(cmd) && PassMaskOk(cmd, m) && SetterOk(cmd, m) && CallsOk(cmd)
  }

  /** A longer log over the same boot mask keeps what is known of a call. */
  lemma KeepCall(cmd: Commands, next: Commands, call: Call)
    requires LogOk(cmd.log) && LogOk(next.log) && cmd.base == next.base && cmd.log <= next.log
    requires CallOk(cmd, call)
    ensures CallOk(next, call)
  {
    if call.Done? && call.outcome.Applied? {
      var q :| call.pos < q <= |cmd.log| && call.outcome.mask == MaskAt(cmd, q);
      assert next.log[..q] == cmd.log[..q];
      assert call.outcome.mask == MaskAt(next, q);
    }
  }

  lemma PublishKeeps(cmd: Commands, m: Mutex, id: nat, c: Command)
    requires CommandInv(cmd, m) && c.index < 8 && (id in cmd.calls ==> cmd.calls[id].Done?)
    ensures CommandInv(Published(cmd, id, c), m)
  {
    var next := Published(cmd, id, c);
    assert next.log[..|cmd.log|] == cmd.log;
    forall i | i in next.calls ensures CallOk(next, next.calls[i]) {
      if i != id {
        KeepCall(cmd, next, cmd.calls[i]);
      }
    }
    if m.InPass? {
      assert next.log[..m.upto] == cmd.log[..m.upto];
    }
  }

  /** What a pass step does to the command mask it carries. */
  ghost predicate MaskMoves(cmd: Commands, m: Mutex, n: Mutex) {
    m.InPass? && n.InPass? && n.who == m.who && !n.pass.Entered? &&
    (m.pass.Entered? ==> n.upto == |cmd.log| && n.pass == LatchWrite(cmd.desired)) &&
    (!m.pass.Entered? ==>
      n.upto == m.upto && (HasMask(n.pass) ==> HasMask(m.pass) && n.pass.mask == m.pass.mask))
  }

  lemma PassMoveMask(b: Board, ack: bool, effect: bool)
    requires b.mutex.InPass? && !b.mutex.pass.Finished?
    ensures MaskMoves(b.cmd, b.mutex, PassStep(b, ack, effect).mutex)
  {
  }

  /** What a pass step leaves alone. */
  lemma PassFrame(b: Board, ack: bool, effect: bool)
    requires b.mutex.InPass?
    ensures var c := PassStep(b, ack, effect);
      c.cmd == b.cmd && c.booted == b.booted && c.save.saver == b.save.saver &&
      c.mutex.InPass? && c.mutex.who == b.mutex.who
  {
  }

  lemma PassKeeps(cmd: Commands, m: Mutex, n: Mutex)
    requires CommandInv(cmd, m) && m.InPass? && n.InPass?
    requires MaskMoves(cmd, m, n)
    ensures CommandInv(cmd, n)
  {
    assert cmd.log[..|cmd.log|] == cmd.log;
  }

  lemma ReturnKeeps(cmd: Commands, m: Mutex, id: nat, outcome: Outcome)
    requires CommandInv(cmd, m) && id in cmd.calls
    requires outcome.Applied? ==> Supersedes(cmd, cmd.calls[id].pos, outcome.mask)
    requires m.InPass? ==> m.who != Setter(id)
    ensures CommandInv(Returned(cmd, id, outcome), m)
  {
    var next := Returned(cmd, id, outcome);
    KeepCall(cmd, next, Done(cmd.calls[id].pos, outcome));
    forall i | i in next.calls ensures CallOk(next, next.calls[i]) {
      if i != id {
        KeepCall(cmd, next, cmd.calls[i]);
      }
    }
  }

  lemma GiveKeeps(b: Board)
    requires CommandInv(b.cmd, b.mutex) && Enabled(b, PassGives)
    ensures var c := Give(b); CommandInv(c.cmd, c.mutex)
  {
    var m := b.mutex;
    if m.who.Setter? {
      if m.pass.ok {
        assert m.pass.mask == MaskAt(b.cmd, m.upto);
      }
      ReturnKeeps(b.cmd, Free, m.who.id, if m.pass.ok then Applied(m.pass.mask) else Failed);
    }
  }

  lemma StepKeepsCommands(b: Board, e: Event)
    requires BootInv(b) && CommandInv(b.cmd, b.mutex) && Enabled(b, e)
    ensures var c := Step(b, e); CommandInv(c.cmd, c.mutex)
  {
    match e
    case Publish(id, c) => PublishKeeps(b.cmd, b.mutex, id, c);
    case SetterTakes(id) => TakeKeeps(b.cmd, id);
    case SetterTimesOut(id) => ReturnKeeps(b.cmd, b.mutex, id, TimedOut);
    case PassMoves(ack, effect) =>
      PassFrame(b, ack, effect);
      PassMoveMask(b, ack, effect);
      PassKeeps(b.cmd, b.mutex, PassStep(b, ack, effect).mutex);
    case PassGives => GiveKeeps(b);
    case BootPolarityWrite(ack, effect) =>
    case _ =>
  }

  lemma TakeKeeps(cmd: Commands, id: nat)
    requires CommandInv(cmd, Free) && id in cmd.calls && cmd.calls[id].Waiting?
    ensures CommandInv(cmd.(calls := cmd.calls[id := Inside(cmd.calls[id].pos)]), InPass(Setter(id), Entered, 0))
  {
    var next := cmd.(calls := cmd.calls[id := Inside(cmd.calls[id].pos)]);
    forall i | i in next.calls ensures CallOk(next, next.calls[i]) {
      if i != id {
        KeepCall(cmd, next, cmd.calls[i]);
      }
    }
  }

  lemma StepKeepsBoot(b: Board, e: Event)
    requires BootInv(b) && Enabled(b, e)
    ensures BootInv(Step(b, e))
  {
    match e
    case PassMoves(ack, effect) => PassFrame(b, ack, effect);
    case PassGives =>
    case BootPolarityWrite(ack, effect) =>
    case Publish(_, _) =>
    case _ =>
  }

  // ----- registers --------------------------------------------------------------------

  ghost predicate Registers(b: Board, output: bv8, config: bv8) {
    b.hw.output == output && b.hw.config == config
  }

  /** If the driver believes in its mask, the expander drives it, unless it has reset since. */
  ghost predicate Synced(b: Board) {
    b.tcaHealthy && !b.marks.sinceConfigRead ==> Registers(b, b.applied, 0)
  }

  /** What a pass knows of the registers. */
  predicate Known(p: Pass, hw: Expander, marks: Marks, applied: bv8) {
    match p
    case OutputRead(_, config, _) => !marks.sinceConfigRead ==> hw.config == config
    case Noting(_, config, output, _) =>
      (!marks.sinceConfigRead ==> hw.output == output && hw.config == config) &&
      (!marks.sinceLatchRead ==> hw.output == output)
    case Recovering(mask) => !marks.sinceLatchRead ==> hw.output == mask
    case PolarityWrite(mask) => !marks.sinceLatchRead ==> hw.output == mask
    case ConfigWrite(mask) => !marks.sinceLatchRead ==> hw.output == mask
    case Commit(mask) => !marks.sinceConfigRead ==> hw.output == mask && hw.config == 0
    case NoteChange(mask, _) =>
      applied == mask && (!marks.sinceConfigRead ==> hw.output == mask && hw.config == 0)
    case Finished(ok, mask) =>
      ok ==> applied == mask && (!marks.sinceConfigRead ==> hw.output == mask && hw.config == 0)
    case _ => true
  }

  ghost predicate RegisterInv(b: Board) {
    (b.mutex.InPass? ==> Known(b.mutex.pass, b.hw, b.marks, b.applied)) &&
    (!b.mutex.InPass? || b.mutex.pass.Entered? || b.mutex.pass.LatchWrite? || b.mutex.pass.Finished? ==> Synced(b))
  }

  lemma ReadsKnown(p: Pass, hw: Expander, marks: Marks, desired: bv8, applied: bv8, ack: bool, effect: bool)
    requires Known(p, hw, marks, applied) && (p.ConfigRead? || p.OutputRead?)
    ensures Known(NextPass(p, hw, desired, applied, ack), Written(p, hw, effect), Marked(p, marks, ack, effect),
                  if p.Commit? then p.mask else applied)
  {
  }

  lemma DecisionKnown(p: Pass, hw: Expander, marks: Marks, desired: bv8, applied: bv8, ack: bool, effect: bool)
    requires Known(p, hw, marks, applied) && (p.Noting?)
    ensures Known(NextPass(p, hw, desired, applied, ack), Written(p, hw, effect), Marked(p, marks, ack, effect),
                  if p.Commit? then p.mask else applied)
  {
  }

  lemma WritesKnown(p: Pass, hw: Expander, marks: Marks, desired: bv8, applied: bv8, ack: bool, effect: bool)
    requires Known(p, hw, marks, applied) && (p.Recovering? || p.PolarityWrite? || p.ConfigWrite?)
    ensures Known(NextPass(p, hw, desired, applied, ack), Written(p, hw, effect), Marked(p, marks, ack, effect),
                  if p.Commit? then p.mask else applied)
  {
  }

  lemma NextKnown(p: Pass, hw: Expander, marks: Marks, desired: bv8, applied: bv8, ack: bool, effect: bool)
    requires Known(p, hw, marks, applied)
    ensures Known(NextPass(p, hw, desired, applied, ack), Written(p, hw, effect), Marked(p, marks, ack, effect),
                  if p.Commit? then p.mask else applied)
  {
    if p.ConfigRead? || p.OutputRead? {
      ReadsKnown(p, hw, marks, desired, applied, ack, effect);
    } else if p.Noting? {
      DecisionKnown(p, hw, marks, desired, applied, ack, effect);
    } else if p.Recovering? || p.PolarityWrite? || p.ConfigWrite? {
      WritesKnown(p, hw, marks, desired, applied, ack, effect);
    }
  }

  lemma PassKeepsRegisters(b: Board, ack: bool, effect: bool)
    requires RegisterInv(b) && b.mutex.InPass?
    ensures RegisterInv(PassStep(b, ack, effect))
  {
    NextKnown(b.mutex.pass, b.hw, b.marks, b.cmd.desired, b.applied, ack, effect);
    var c := PassStep(b, ack, effect);
    match b.mutex.pass
    case Entered =>
    case NoteChange(mask, was) =>
    case Finished(ok, mask) =>
    case IoError => assert !c.tcaHealthy;
    case Mismatch => assert !c.tcaHealthy;
    case Noting(mask, config, output, second) =>
    case _ =>
  }

  lemma SameRegisters(b: Board, c: Board)
    requires RegisterInv(b) && c.mutex == b.mutex && c.marks == b.marks && c.applied == b.applied
    requires Registers(c, b.hw.output, b.hw.config) && (c.tcaHealthy ==> b.tcaHealthy)
    ensures RegisterInv(c)
  {}

  lemma IdleRegisters(b: Board, c: Board)
    requires Synced(b) && c.marks == b.marks && c.applied == b.applied
    requires Registers(c, b.hw.output, b.hw.config) && (c.tcaHealthy ==> b.tcaHealthy)
    requires c.mutex.InPass? ==> c.mutex.pass.Entered? || c.mutex.pass.LatchWrite?
    ensures RegisterInv(c)
  {}

  lemma ResetKeepsRegisters(b: Board)
    requires RegisterInv(b)
    ensures RegisterInv(Reset(b))
  {}

  lemma TakeKeepsRegisters(b: Board, e: Event)
    requires RegisterInv(b) && Enabled(b, e)
    requires e.SetterTakes? || e.HealthTakes? || e.SaverTakes? || e.ClearerTakes?
    ensures RegisterInv(Step(b, e))
  {
  }

  lemma GiveKeepsRegisters(b: Board, e: Event)
    requires RegisterInv(b) && Enabled(b, e)
    requires e.PassGives? || e.SaverCaptures? || e.ClearerClears?
    ensures RegisterInv(Step(b, e))
  {
    if e.PassGives? {
      IdleRegisters(b, Give(b));
    } else if e.SaverCaptures? {
      IdleRegisters(b, Capture(b, e.due));
    } else {
      IdleRegisters(b, ClearDirty(b));
    }
  }

  lemma StepKeepsRegisters(b: Board, e: Event)
    requires RegisterInv(b) && Enabled(b, e)
    ensures RegisterInv(Step(b, e))
  {
    match e
    case PassMoves(ack, effect) => PassKeepsRegisters(b, ack, effect);
    case ExpanderResets => ResetKeepsRegisters(b);
    case Publish(_, _) => SameRegisters(b, Step(b, e));
    case SetterTimesOut(_) => SameRegisters(b, Step(b, e));
    case StoreReturns(_) => SameRegisters(b, Step(b, e));
    case ClearerTimesOut => SameRegisters(b, Step(b, e));
    case PassGives => GiveKeepsRegisters(b, e);
    case BootPolarityWrite(ack, effect) => IdleRegisters(b, AfterBootPolarity(b, ack, effect));
    case SaverCaptures(_) => GiveKeepsRegisters(b, e);
    case ClearerClears => GiveKeepsRegisters(b, e);
    case SetterTakes(_) => TakeKeepsRegisters(b, e);
    case HealthTakes => TakeKeepsRegisters(b, e);
    case SaverTakes => TakeKeepsRegisters(b, e);
    case ClearerTakes => TakeKeepsRegisters(b, e);
  }

  // ----- what the pins drive ------------------------------------------------------------

  /** All off, or the sum of the commands published up to some moment. */
  ghost predicate WasPublished(cmd: Commands, mask: bv8)
    requires LogOk(cmd.log)
  {
    mask == 0 || exists q :: 0 <= q <= |cmd.log| && mask == MaskAt(cmd, q)
  }

  /** While the pins are enabled the latch holds a published mask. */
  ghost predicate DriveInv(b: Board)
    requires LogOk(b.cmd.log)
  {
    b.hw.config == 0 && !b.marks.unlucky ==> WasPublished(b.cmd, b.hw.output)
  }

  lemma PassMaskWasPublished(b: Board)
    requires CommandInv(b.cmd, b.mutex) && b.mutex.InPass? && HasMask(b.mutex.pass)
    ensures WasPublished(b.cmd, b.mutex.pass.mask)
  {
  }

  lemma PassKeepsDrive(b: Board, ack: bool, effect: bool)
    requires CommandInv(b.cmd, b.mutex) && RegisterInv(b) && DriveInv(b) && b.mutex.InPass?
    ensures PassStep(b, ack, effect).cmd == b.cmd && DriveInv(PassStep(b, ack, effect))
  {
  }

  lemma LongerLogKeepsPublished(cmd: Commands, next: Commands, mask: bv8)
    requires LogOk(cmd.log) && LogOk(next.log) && cmd.base == next.base && cmd.log <= next.log
    requires WasPublished(cmd, mask)
    ensures WasPublished(next, mask)
  {
    if mask != 0 {
      var q :| 0 <= q <= |cmd.log| && mask == MaskAt(cmd, q);
      assert next.log[..q] == cmd.log[..q];
      assert mask == MaskAt(next, q);
    }
  }

  lemma PublishKeepsDrive(b: Board, c: Board)
    requires LogOk(b.cmd.log) && LogOk(c.cmd.log) && DriveInv(b)
    requires c.cmd.base == b.cmd.base && b.cmd.log <= c.cmd.log
    requires c.hw == b.hw && c.marks == b.marks
    ensures DriveInv(c)
  {
    if WasPublished(b.cmd, b.hw.output) {
      LongerLogKeepsPublished(b.cmd, c.cmd, b.hw.output);
    }
  }

  lemma BootKeepsDrive(b: Board, ack: bool, effect: bool)
    requires BootInv(b) && LogOk(b.cmd.log) && DriveInv(b) && Enabled(b, BootPolarityWrite(ack, effect))
    ensures LogOk(AfterBootPolarity(b, ack, effect).cmd.log) && DriveInv(AfterBootPolarity(b, ack, effect))
  {
  }

  /** Other steps leave registers and history alone, and never forget a command. */
  lemma QuietForPins(b: Board, e: Event)
    requires Enabled(b, e) && !e.PassMoves? && !e.ExpanderResets? && !e.BootPolarityWrite?
    ensures var c := Step(b, e);
      c.hw == b.hw && c.marks == b.marks && c.cmd.base == b.cmd.base && b.cmd.log <= c.cmd.log
  {
    match e
    case Publish(id, command) =>
    case SetterTakes(id) =>
    case SetterTimesOut(id) =>
    case PassGives =>
    case SaverCaptures(due) =>
    case StoreReturns(ok) =>
    case ClearerClears =>
    case _ =>
  }

  lemma StepKeepsDrive(b: Board, e: Event)
    requires BootInv(b) && CommandInv(b.cmd, b.mutex) && RegisterInv(b) && DriveInv(b) && Enabled(b, e)
    requires LogOk(Step(b, e).cmd.log)
    ensures DriveInv(Step(b, e))
  {
    match e
    case PassMoves(ack, effect) => PassKeepsDrive(b, ack, effect);
    case ExpanderResets =>
    case BootPolarityWrite(ack, effect) => BootKeepsDrive(b, ack, effect);
    case _ =>
      QuietForPins(b, e);
      PublishKeepsDrive(b, Step(b, e));
  }

  // ----- the stored mask ------------------------------------------------------------------

  ghost predicate StoredOrDirty(b: Board) {
    b.save.dirty || b.save.stored == b.applied
  }

  ghost predicate SaverInv(b: Board) {
    (b.save.saver != Resting ==> b.save.dirty) &&
    (b.save.saver.Tried? && b.save.saver.ok ==> b.save.stored == b.save.saver.state)
  }

  /** During `board_io_init` nothing is applied before the restoring pass commits,
      and that commit marks the save dirty exactly when it restored a nonzero mask. */
  ghost predicate BootSaves(b: Board) {
    var m := b.mutex;
    if m.InPass? && m.who.BootRestore? && m.pass.Finished? && m.pass.ok then
      b.applied == b.restored && b.save.dirty == (b.restored != 0)
    else if m.InPass? && m.pass.NoteChange? then
      !b.save.dirty && m.pass.was == 0 && b.applied == m.pass.mask && BootMask(b, m)
    else
      b.applied == 0 && !b.save.dirty && (m.InPass? ==> BootMask(b, m) && !m.pass.Entered?)
  }

  ghost predicate BootMask(b: Board, m: Mutex)
    requires m.InPass?
  {
    HasMask(m.pass) ==> m.pass.mask == if m.who.BootOff? then 0 else b.restored
  }

  /** The mask read at boot was the stored one (a failed read gives 0). */
  predicate ReadWell(b: Board) {
    b.restored == b.save.stored || b.restored != 0
  }

  /** With restore enabled: outside the commit of a changed mask, a save is pending or up to date. */
  ghost predicate PersistInv(b: Board) {
    b.restore && SaverInv(b) &&
    if !b.booted then
      b.save.saver == Resting && BootSaves(b) && ReadWell(b)
    else if b.mutex.InPass? && b.mutex.pass.NoteChange? then
      b.applied == b.mutex.pass.mask && (b.save.dirty || b.save.stored == b.mutex.pass.was)
    else StoredOrDirty(b)
  }

  predicate BeforeCommit(m: Mutex) {
    m.InPass? && !m.pass.Commit? && !m.pass.NoteChange? && !m.pass.Finished?
  }

  /** Before its commit a pass touches neither the applied mask nor the save. */
  lemma PassSavesLate(b: Board, ack: bool, effect: bool)
    requires BeforeCommit(b.mutex)
    ensures var c := PassStep(b, ack, effect);
      c.applied == b.applied && c.save == b.save && c.restore == b.restore && c.restored == b.restored
  {
  }

  lemma PassEndsWithCommit(b: Board, ack: bool, effect: bool)
    requires BeforeCommit(b.mutex)
    ensures var m := PassStep(b, ack, effect).mutex;
      m.InPass? && !m.pass.NoteChange? && !(m.pass.Finished? && m.pass.ok)
  {
  }

  lemma QuietKeepsPersist(b: Board, c: Board)
    requires PersistInv(b) && BootInv(b) && b.mutex.InPass? && !b.mutex.pass.NoteChange?
    requires !b.mutex.pass.Finished?
    requires c.applied == b.applied && c.save == b.save && c.restore == b.restore && c.restored == b.restored
    requires c.booted == b.booted && MaskMoves(c.cmd, b.mutex, c.mutex)
    requires !c.mutex.pass.NoteChange? && !(c.mutex.pass.Finished? && c.mutex.pass.ok)
    ensures PersistInv(c)
  {}

  lemma PassKeepsPersist(b: Board, ack: bool, effect: bool)
    requires PersistInv(b) && BootInv(b) && b.mutex.InPass? && !b.mutex.pass.Finished?
    ensures PersistInv(PassStep(b, ack, effect))
  {
    if b.mutex.pass.Commit? {
      CommitKeepsPersist(b, b.mutex.pass.mask, ack, effect);
    } else if b.mutex.pass.NoteChange? {
      NoteKeepsPersist(b, b.mutex.pass.mask, b.mutex.pass.was, ack, effect);
    } else {
      PassFrame(b, ack, effect);
      PassMoveMask(b, ack, effect);
      PassSavesLate(b, ack, effect);
      PassEndsWithCommit(b, ack, effect);
      QuietKeepsPersist(b, PassStep(b, ack, effect));
    }
  }

  lemma CommitKeepsPersist(b: Board, mask: bv8, ack: bool, effect: bool)
    requires PersistInv(b) && BootInv(b) && b.mutex.InPass? && b.mutex.pass == Commit(mask)
    ensures PersistInv(PassStep(b, ack, effect))
  {}

  lemma NoteKeepsPersist(b: Board, mask: bv8, was: bv8, ack: bool, effect: bool)
    requires PersistInv(b) && BootInv(b) && b.mutex.InPass? && b.mutex.pass == NoteChange(mask, was)
    ensures PersistInv(PassStep(b, ack, effect))
  {}

  lemma SaverKeepsPersist(b: Board, e: Event)
    requires PersistInv(b) && BootInv(b) && Enabled(b, e)
    requires e.SaverTakes? || e.SaverCaptures? || e.StoreReturns? || e.ClearerTakes? ||
              e.ClearerTimesOut? || e.ClearerClears?
    ensures PersistInv(Step(b, e))
  {
    match e
    case SaverCaptures(due) =>
    case StoreReturns(ok) =>
    case ClearerClears =>
    case _ =>
  }

  lemma StepKeepsPersist(b: Board, e: Event)
    requires PersistInv(b) && BootInv(b) && Enabled(b, e)
    ensures PersistInv(Step(b, e))
  {
    match e
    case PassMoves(ack, effect) => PassKeepsPersist(b, ack, effect);
    case PassGives =>
    case BootPolarityWrite(ack, effect) =>
    case ExpanderResets =>
    case Publish(_, _) =>
    case SetterTakes(_) =>
    case SetterTimesOut(_) =>
    case HealthTakes =>
    case SaverTakes => SaverKeepsPersist(b, e);
    case SaverCaptures(_) => SaverKeepsPersist(b, e);
    case StoreReturns(_) => SaverKeepsPersist(b, e);
    case ClearerTakes => SaverKeepsPersist(b, e);
    case ClearerTimesOut => SaverKeepsPersist(b, e);
    case ClearerClears => SaverKeepsPersist(b, e);
  }

  // ----- whole runs -----------------------------------------------------------------------

  ghost predicate Run(b: Board, events: seq<Event>, c: Board)
    decreases |events|
  {
    if events == [] then c == b
    else Enabled(b, events[0]) && Run(Step(b, events[0]), events[1..], c)
  }

  ghost predicate Inv(b: Board) {
    BootInv(b) && CommandInv(b.cmd, b.mutex) && RegisterInv(b) && DriveInv(b)
  }

  lemma StepKeepsInv(b: Board, e: Event)
    requires Inv(b) && Enabled(b, e)
    ensures Inv(Step(b, e))
  {
    StepKeepsBoot(b, e);
    StepKeepsCommands(b, e);
    StepKeepsRegisters(b, e);
    StepKeepsDrive(b, e);
  }

  lemma {:induction false} RunKeepsInv(b: Board, events: seq<Event>, c: Board)
    requires Inv(b) && Run(b, events, c)
    ensures Inv(c)
    ensures PersistInv(b) ==> PersistInv(c)
    decreases |events|
  {
    if events == [] {
    } else {
      StepKeepsInv(b, events[0]);
      if PersistInv(b) {
        StepKeepsPersist(b, events[0]);
      }
      RunKeepsInv(Step(b, events[0]), events[1..], c);
    }
  }

  lemma InitInv(b: Board)
    requires Init(b)
    ensures Inv(b)
    ensures b.restore && ReadWell(b) ==> PersistInv(b)
  {
  }

  /** Healthy, no pass running, no reset since the last readback: the expander drives
      exactly the sum of all published commands. */
  lemma HealthyMeansDriven(b: Board, events: seq<Event>, c: Board)
    requires Init(b) && Run(b, events, c)
    requires !c.mutex.InPass? && ControllerHealthy(c) && !c.marks.sinceConfigRead
    ensures LogOk(c.cmd.log) && c.hw.output == Fold(c.cmd.base, c.cmd.log) && c.hw.config == 0
  {
    InitInv(b);
    RunKeepsInv(b, events, c);
  }

  /** In every interleaving the desired mask is the fold of the commands published so far. */
  lemma DesiredIsFold(b: Board, events: seq<Event>, c: Board)
    requires Init(b) && Run(b, events, c)
    ensures LogOk(c.cmd.log) && c.cmd.desired == Fold(c.cmd.base, c.cmd.log)
  {
    InitInv(b);
    RunKeepsInv(b, events, c);
  }

  /** Enabled pins only ever drive all-off or a mask that was published, from the first
      latch write on, unless a reset hits between a latch readback and its enabling write. */
  lemma PinsDrivePublishedMasks(b: Board, events: seq<Event>, c: Board)
    requires Init(b) && Run(b, events, c)
    requires c.hw.config == 0 && !c.marks.unlucky
    ensures LogOk(c.cmd.log) && WasPublished(c.cmd, c.hw.output)
  {
    InitInv(b);
    RunKeepsInv(b, events, c);
  }

  /** A write that enables the pins drives the mask its own pass read back, and can
      drive anything else only if the expander reset after that readback. */
  lemma EnablingIsVerified(b: Board, events: seq<Event>, c: Board, ack: bool)
    requires Init(b) && Run(b, events, c)
    requires c.mutex.InPass? && c.mutex.pass.ConfigWrite?
    ensures var d := Step(c, PassMoves(ack, true));
      d.hw.config == 0 &&
      (d.hw.output == c.mutex.pass.mask || c.marks.sinceLatchRead) &&
      LogOk(c.cmd.log) && WasPublished(c.cmd, c.mutex.pass.mask)
  {
    InitInv(b);
    RunKeepsInv(b, events, c);
    PassMaskWasPublished(c);
  }

  /** Command `j` is the last of the first `q` on relay `index`. */
  ghost predicate LastOn(log: seq<Command>, q: nat, index: nat, j: nat) {
    j < q <= |log| && log[j].index == index && forall k :: j < k < q ==> log[k].index != index
  }

  lemma {:induction false} BitOfFold(base: bv8, log: seq<Command>, pos: nat)
    requires LogOk(log) && pos < |log|
    ensures exists j :: pos <= j && LastOn(log, |log|, log[pos].index, j) &&
              Bit(Fold(base, log), log[pos].index) == log[j].active
    decreases |log|
  {
    var index, last := log[pos].index, |log| - 1;
    var before := log[..last];
    SetBitIsBit(Fold(base, before), log[last].index);
    ClearBitIsBit(Fold(base, before), log[last].index);
    if log[last].index == index {
      assert LastOn(log, |log|, index, last);
    } else {
      BitOfFold(base, before, pos);
      var j :| pos <= j && LastOn(before, last, index, j) && Bit(Fold(base, before), index) == before[j].active;
      assert LastOn(log, |log|, index, j);
    }
  }

  /** `mask` has on relay `index` the setting of a command published no earlier than `pos`. */
  ghost predicate ShowsCommandFrom(log: seq<Command>, pos: nat, index: nat, mask: bv8)
    requires index < 8
  {
    exists j, q :: pos <= j && LastOn(log, q, index, j) && Bit(mask, index) == log[j].active
  }

  lemma SupersedesShows(cmd: Commands, pos: nat, mask: bv8)
    requires LogOk(cmd.log) && pos < |cmd.log| && Supersedes(cmd, pos, mask)
    ensures ShowsCommandFrom(cmd.log, pos, cmd.log[pos].index, mask)
  {
    var q :| pos < q <= |cmd.log| && mask == MaskAt(cmd, q);
    var seen := cmd.log[..q];
    BitOfFold(cmd.base, seen, pos);
    var j :| pos <= j && LastOn(seen, |seen|, seen[pos].index, j) && Bit(mask, seen[pos].index) == seen[j].active;
    assert LastOn(cmd.log, q, cmd.log[pos].index, j);
  }

  /** The mask is applied and, unless the expander reset since the last readback, driven
      through enabled pins. */
  predicate Driven(b: Board, mask: bv8) {
    b.applied == mask && (!b.marks.sinceConfigRead ==> b.hw.output == mask && b.hw.config == 0)
  }

  /** Call `id` is about to give the mutex and return ESP_OK. */
  predicate ReturnsOk(b: Board, id: nat, mask: bv8) {
    b.mutex.InPass? && b.mutex.who == Setter(id) && b.mutex.pass == Finished(true, mask)
  }

  /** Whatever else happens meanwhile: when a call is about to return ESP_OK, the mask of its
      pass is applied and driven, and shows on the command's relay the setting of that
      command or of a later one that superseded it. */
  lemma OkIsDriven(b: Board, events: seq<Event>, c: Board, id: nat, mask: bv8)
    requires Init(b) && Run(b, events, c) && ReturnsOk(c, id, mask)
    ensures Driven(c, mask) && LogOk(c.cmd.log)
    ensures id in c.cmd.calls && c.cmd.calls[id].pos < |c.cmd.log|
    ensures var pos := c.cmd.calls[id].pos; ShowsCommandFrom(c.cmd.log, pos, c.cmd.log[pos].index, mask)
  {
    InitInv(b);
    RunKeepsInv(b, events, c);
    var cmd, pos := c.cmd, c.cmd.calls[id].pos;
    assert CallOk(cmd, cmd.calls[id]);
    assert pos < c.mutex.upto && mask == MaskAt(cmd, c.mutex.upto);
    assert Supersedes(cmd, pos, mask);
    SupersedesShows(cmd, pos, mask);
  }

  /** An outcome that is there and was not before was stored when that call returned. */
  lemma {:induction false} OutcomeWasReturned(b: Board, events: seq<Event>, c: Board, id: nat)
    returns (n: nat, d: Board)
    requires Run(b, events, c) && id in c.cmd.calls && c.cmd.calls[id].Done? && c.cmd.calls[id].outcome.Applied?
    requires id in b.cmd.calls ==> b.cmd.calls[id] != c.cmd.calls[id]
    ensures n < |events| && Run(b, events[..n], d) && events[n] == PassGives
    ensures ReturnsOk(d, id, c.cmd.calls[id].outcome.mask)
    ensures id in d.cmd.calls && d.cmd.calls[id].pos == c.cmd.calls[id].pos
    decreases |events|
  {
    if events == [] {
      assert false;
    } else {
      var next := Step(b, events[0]);
      if id in next.cmd.calls && next.cmd.calls[id] == c.cmd.calls[id] {
        OnlyReturnsAreDone(b, events[0], id);
        n, d := 0, b;
      } else {
        n, d := OutcomeWasReturned(next, events[1..], c, id);
        assert events[..n + 1][1..] == events[1..][..n];
        n := n + 1;
      }
    }
  }

  lemma OnlyReturnsAreDone(b: Board, e: Event, id: nat)
    requires Enabled(b, e) && id in Step(b, e).cmd.calls
    requires Step(b, e).cmd.calls[id].Done? && Step(b, e).cmd.calls[id].outcome.Applied?
    requires id in b.cmd.calls ==> b.cmd.calls[id] != Step(b, e).cmd.calls[id]
    ensures e == PassGives && ReturnsOk(b, id, Step(b, e).cmd.calls[id].outcome.mask)
    ensures id in b.cmd.calls && b.cmd.calls[id].pos == Step(b, e).cmd.calls[id].pos
  {
    match e
    case PassMoves(ack, effect) => PassFrame(b, ack, effect);
    case PassGives =>
    case Publish(other, command) =>
    case SetterTakes(other) =>
    case SetterTimesOut(other) =>
    case _ =>
  }

  /** A call that returned ESP_OK did so, at some moment of the run, with its mask applied and
      driven, its own command or a later one on the same relay being what that mask shows. */
  lemma OkMeansApplied(b: Board, events: seq<Event>, c: Board, id: nat) returns (n: nat, d: Board)
    requires Init(b) && Run(b, events, c)
    requires id in c.cmd.calls && c.cmd.calls[id].Done? && c.cmd.calls[id].outcome.Applied?
    ensures n < |events| && Run(b, events[..n], d) && events[n] == PassGives
    ensures ReturnsOk(d, id, c.cmd.calls[id].outcome.mask) && Driven(d, c.cmd.calls[id].outcome.mask)
    ensures var (log, pos) := (d.cmd.log, c.cmd.calls[id].pos);
      LogOk(log) && pos < |log| && ShowsCommandFrom(log, pos, log[pos].index, c.cmd.calls[id].outcome.mask)
    ensures var (log, pos) := (c.cmd.log, c.cmd.calls[id].pos);
      LogOk(log) && pos < |log| && ShowsCommandFrom(log, pos, log[pos].index, c.cmd.calls[id].outcome.mask)
  {
    InitInv(b);
    RunKeepsInv(b, events, c);
    assert CallOk(c.cmd, c.cmd.calls[id]);
    SupersedesShows(c.cmd, c.cmd.calls[id].pos, c.cmd.calls[id].outcome.mask);
    n, d := OutcomeWasReturned(b, events, c, id);
    OkIsDriven(b, events[..n], d, id, c.cmd.calls[id].outcome.mask);
  }

  /** With restore enabled, whenever the mutex is free a save is pending or the stored
      mask is the applied one. */
  lemma AppliedMaskIsKept(b: Board, events: seq<Event>, c: Board)
    requires Init(b) && b.restore && ReadWell(b) && Run(b, events, c)
    requires c.mutex == Free
    ensures StoredOrDirty(c)
  {
    InitInv(b);
    RunKeepsInv(b, events, c);
  }

  lemma {:induction false} BootedStays(b: Board, events: seq<Event>, c: Board)
    requires b.booted && Run(b, events, c)
    ensures c.booted
    decreases |events|
  {
    if events == [] {
    } else {
      if events[0].PassMoves? {
        PassFrame(b, events[0].ack, events[0].effect);
      }
      BootedStays(Step(b, events[0]), events[1..], c);
    }
  }

  lemma BootCommitSaves(b: Board, ack: bool, effect: bool)
    requires BootInv(b) && !b.booted && b.restore && BootSaves(b) && Enabled(b, PassMoves(ack, effect))
    requires b.mutex.pass.Commit? || b.mutex.pass.NoteChange?
    ensures var c := PassStep(b, ack, effect);
      BootSaves(c) && c.restore && c.restored == b.restored && c.save.stored == b.save.stored
  {
  }

  lemma BootPassSaves(b: Board, ack: bool, effect: bool)
    requires BootInv(b) && !b.booted && b.restore && BootSaves(b) && Enabled(b, PassMoves(ack, effect))
    ensures var c := PassStep(b, ack, effect);
      BootSaves(c) && c.restore && c.restored == b.restored && c.save.stored == b.save.stored
  {
    if b.mutex.pass.Commit? || b.mutex.pass.NoteChange? {
      BootCommitSaves(b, ack, effect);
    } else {
      PassMoveMask(b, ack, effect);
      PassSavesLate(b, ack, effect);
      PassEndsWithCommit(b, ack, effect);
    }
  }

  lemma BootGiveSaves(b: Board)
    requires BootInv(b) && !b.booted && b.restore && BootSaves(b) && Enabled(b, PassGives) && !Give(b).booted
    ensures var c := Give(b);
      BootSaves(c) && c.restore && c.restored == b.restored && c.save.stored == b.save.stored
  {
  }

  lemma BootStepSaves(b: Board, e: Event)
    requires BootInv(b) && !b.booted && b.restore && BootSaves(b) && Enabled(b, e)
    requires !Step(b, e).booted
    ensures var c := Step(b, e);
      BootSaves(c) && c.restore && c.restored == b.restored && c.save.stored == b.save.stored
  {
    match e
    case PassMoves(ack, effect) => BootPassSaves(b, ack, effect);
    case PassGives => BootGiveSaves(b);
    case BootPolarityWrite(ack, effect) =>
    case ExpanderResets =>
    case SaverCaptures(_) =>
    case ClearerClears =>
    case _ =>
  }

  lemma {:induction false} BootRunSaves(b: Board, events: seq<Event>, c: Board)
    requires BootInv(b) && b.restore && BootSaves(b) && !b.booted && Run(b, events, c) && !c.booted
    ensures BootSaves(c) && c.restored == b.restored && c.save.stored == b.save.stored
    decreases |events|
  {
    if events == [] {
    } else {
      var next := Step(b, events[0]);
      if next.booted {
        BootedStays(next, events[1..], c);
      }
      StepKeepsBoot(b, events[0]);
      BootStepSaves(b, events[0]);
      BootRunSaves(next, events[1..], c);
    }
  }

  /** When `board_io_init` ends, the stored mask is kept if and only if it was read well:
      after a failed read of a nonzero mask nothing is dirty and the stored mask is stale. */
  lemma BootKeepsMaskIffReadWell(b: Board, events: seq<Event>, c: Board)
    requires Init(b) && b.restore && Run(b, events, c)
    requires c.mutex.InPass? && c.mutex.who.BootRestore? && c.mutex.pass.Finished? && c.mutex.pass.ok
    ensures Enabled(c, PassGives) && Step(c, PassGives).mutex == Free
    ensures StoredOrDirty(Step(c, PassGives)) <==> ReadWell(b)
  {
    InitInv(b);
    RunKeepsInv(b, events, c);
    BootRunSaves(b, events, c);
  }
}
