/** The relay driver of `board_io.c`, one step per critical section, mutex
    operation and I2C transaction.

    Any number of callers publish commands under the spinlock and then queue for
    the mutex; the health task runs the same pass and the delayed save.  A write
    may be acknowledged or not and take effect or not; the expander may reset at
    any moment; a wait for the mutex may time out at any moment. */
module RelayDriver {
  import opened BitMask

  const RESET: bv8 := 0xFF

  datatype Expander = Expander(output: bv8, polarity: bv8, config: bv8)

  datatype Command = Command(index: nat, active: bool)

  /** Whose pass it is. */
  datatype Who = BootOff | BootRestore | Setter(id: nat) | Health

  /** Where `relay_mask_write_locked` is. */
  datatype Pass =
    | Entered
    | LatchWrite(mask: bv8)
    | ConfigRead(mask: bv8, second: bool)
    | OutputRead(mask: bv8, config: bv8, second: bool)
    | Noting(mask: bv8, config: bv8, output: bv8, second: bool)
    | Recovering(mask: bv8)
    | PolarityWrite(mask: bv8)
    | ConfigWrite(mask: bv8)
    | Commit(mask: bv8)
    | NoteChange(mask: bv8, was: bv8)
    | IoError
    | Mismatch
    | Finished(ok: bool, mask: bv8)

  /** `upto` counts the commands published when the pass read the desired mask. */
  datatype Mutex = Free | InPass(who: Who, pass: Pass, upto: nat) | BootPolarity | Capturing | Clearing | InitFailed

  datatype Outcome = Applied(mask: bv8) | Failed | TimedOut

  /** One call of `board_io_relay_set`; `pos` is its command's place in the log. */
  datatype Call = Waiting(pos: nat) | Inside(pos: nat) | Done(pos: nat, outcome: Outcome)

  /** The save logic between its mutex sections. */
  datatype Saver = Resting | Captured(state: bv8, revision: nat) | Tried(state: bv8, revision: nat, ok: bool)

  /** The commands in publication order over the boot mask, the mask they add up to
      (`s_relay_desired_mask`), and the calls that published them. */
  datatype Commands = Commands(base: bv8, log: seq<Command>, desired: bv8, calls: map<nat, Call>)

  /** The delayed save and the stored mask. */
  datatype Saves = Saves(saver: Saver, dirty: bool, revision: nat, stored: bv8)

  /** History: has the expander reset since the last configuration read, since the last latch
      read, since the readback on which a pass last succeeded; and may enabled pins show a latch
      no pass verified: from a power-up that finds them enabled, or because a reset hit the window
      before an enabling write, until a latch write takes effect or a reset disables the pins. */
  datatype Marks = Marks(sinceConfigRead: bool, sinceLatchRead: bool, sinceVerified: bool, unlucky: bool)

  datatype Board = Board(
    hw: Expander,
    applied: bv8,
    tcaHealthy: bool,
    mutex: Mutex,
    cmd: Commands,
    save: Saves,
    marks: Marks,
    restore: bool,
    restored: bv8,
    booted: bool)

  datatype Event =
    | ExpanderResets
    | Publish(id: nat, command: Command)
    | SetterTakes(id: nat)
    | SetterTimesOut(id: nat)
    | HealthTakes
    | PassMoves(ack: bool, effect: bool)
    | PassGives
    | BootPolarityWrite(ack: bool, effect: bool)
    | SaverTakes
    | SaverCaptures(due: bool)
    | StoreReturns(ok: bool)
    | ClearerTakes
    | ClearerTimesOut
    | ClearerClears

  function Publishes(mask: bv8, c: Command): bv8
    requires c.index < 8
  {
    if c.active then SetBit(mask, c.index) else ClearBit(mask, c.index)
  }

  predicate LogOk(log: seq<Command>) {
    forall i | 0 <= i < |log| :: log[i].index < 8
  }

  function Fold(base: bv8, log: seq<Command>): bv8
    requires LogOk(log)
    decreases |log|
  {
    if log == [] then base
    else Publishes(Fold(base, log[..|log| - 1]), log[|log| - 1])
  }

  /** `board_io_relay_controller_healthy`. */
  predicate ControllerHealthy(b: Board) {
    b.tcaHealthy && b.cmd.desired == b.applied
  }

  // ----- the pass --------------------------------------------------------------------

  /** The decision after both registers were read and noted. */
  function Decide(mask: bv8, config: bv8, output: bv8, second: bool): Pass {
    if !second && output != mask then Mismatch
    else if !second && config != 0 then Recovering(mask)
    else if config != 0 || output != mask then Mismatch
    else Commit(mask)
  }

  /** Where a pass goes next: an unacknowledged transaction ends it. */
  function NextPass(p: Pass, hw: Expander, desired: bv8, applied: bv8, ack: bool): Pass {
    match p
    case Entered => LatchWrite(desired)
    case LatchWrite(mask) => if ack then ConfigRead(mask, false) else IoError
    case ConfigRead(mask, second) => if ack then OutputRead(mask, hw.config, second) else IoError
    case OutputRead(mask, config, second) => if ack then Noting(mask, config, hw.output, second) else IoError
    case Noting(mask, config, output, second) => Decide(mask, config, output, second)
    case Recovering(mask) => PolarityWrite(mask)
    case PolarityWrite(mask) => if ack then ConfigWrite(mask) else IoError
    case ConfigWrite(mask) => if ack then ConfigRead(mask, true) else IoError
    case Commit(mask) => NoteChange(mask, applied)
    case NoteChange(mask, was) => Finished(true, mask)
    case IoError => Finished(false, 0)
    case Mismatch => Finished(false, 0)
    case Finished(_, _) => p
  }

  /** The registers after a step: a write takes effect whether or not it is acknowledged. */
  function Written(p: Pass, hw: Expander, effect: bool): Expander {
    if !effect then hw
    else
      match p
      case LatchWrite(mask) => hw.(output := mask)
      case PolarityWrite(_) => hw.(polarity := 0)
      case ConfigWrite(_) => hw.(config := 0)
      case _ => hw
  }

  function Marked(p: Pass, marks: Marks, ack: bool, effect: bool): Marks {
    match p
    case LatchWrite(_) => if effect then marks.(unlucky := false) else marks
    case ConfigRead(_, _) => if ack then marks.(sinceConfigRead := false) else marks
    case OutputRead(_, _, _) => if ack then marks.(sinceLatchRead := false) else marks
    case ConfigWrite(_) => if effect then marks.(unlucky := marks.unlucky || marks.sinceLatchRead) else marks
    case Commit(_) => marks.(sinceVerified := marks.sinceConfigRead)
    case _ => marks
  }

  /** `s_tca_healthy`: set by a commit, cleared by recovery and on the failure paths of
      `relay_io_result` and `relay_verification_failed`. */
  function HealthAfter(p: Pass, healthy: bool): bool {
    p.Commit? || (healthy && !p.Recovering? && !p.IoError? && !p.Mismatch?)
  }

  /** Remembering that the mask must be saved, when it changed. */
  function SaveNoted(p: Pass, save: Saves, restore: bool): Saves {
    if p.NoteChange? && p.was != p.mask && restore
    then save.(dirty := true, revision := (save.revision + 1) % 0x1_0000_0000)
    else save
  }

  /** One transaction or critical section of `relay_mask_write_locked`. */
  function PassStep(b: Board, ack: bool, effect: bool): Board
    requires b.mutex.InPass?
  {
    var m, p := b.mutex, b.mutex.pass;
    b.(hw := Written(p, b.hw, effect),
       applied := if p.Commit? then p.mask else b.applied,
       tcaHealthy := HealthAfter(p, b.tcaHealthy),
       mutex := InPass(m.who, NextPass(p, b.hw, b.cmd.desired, b.applied, ack),
                       if p.Entered? then |b.cmd.log| else m.upto),
       save := SaveNoted(p, b.save, b.restore),
       marks := Marked(p, b.marks, ack, effect))
  }

  // ----- the other steps ---------------------------------------------------------------

  function Reset(b: Board): Board {
    b.(hw := Expander(RESET, 0, RESET), marks := Marks(true, true, true, false))
  }

  function Published(cmd: Commands, id: nat, c: Command): Commands
    requires c.index < 8
  {
    Commands(cmd.base, cmd.log + [c], Publishes(cmd.desired, c), cmd.calls[id := Waiting(|cmd.log|)])
  }

  function Returned(cmd: Commands, id: nat, outcome: Outcome): Commands
    requires id in cmd.calls
  {
    cmd.(calls := cmd.calls[id := Done(cmd.calls[id].pos, outcome)])
  }

  /** Who has the mutex after a pass: nobody, or `board_io_init` going on or giving up. */
  function AfterGive(who: Who, ok: bool): Mutex {
    match who
    case BootOff => if ok then BootPolarity else InitFailed
    case BootRestore => if ok then Free else InitFailed
    case Setter(_) => Free
    case Health => Free
  }

  /** Giving the mutex: a call returns, or `board_io_init` goes on. */
  function Give(b: Board): Board
    requires b.mutex.InPass? && b.mutex.pass.Finished?
    requires b.mutex.who.Setter? ==> b.mutex.who.id in b.cmd.calls
  {
    var who, ok := b.mutex.who, b.mutex.pass.ok;
    b.(mutex := AfterGive(who, ok),
       booted := b.booted || (who.BootRestore? && ok),
       cmd := if who.Setter? then Returned(b.cmd, who.id, if ok then Applied(b.mutex.pass.mask) else Failed)
              else b.cmd)
  }

  /** `board_io_init` after the verified all-off pass. */
  function AfterBootPolarity(b: Board, ack: bool, effect: bool): Board {
    b.(hw := if effect then b.hw.(polarity := 0) else b.hw,
       tcaHealthy := b.tcaHealthy && ack,
       booted := b.booted || (ack && !b.restore),
       cmd := if ack && b.restore then b.cmd.(desired := b.restored, base := b.restored) else b.cmd,
       mutex := if !ack then InitFailed
                else if !b.restore then Free
                else InPass(BootRestore, LatchWrite(b.restored), 0))
  }

  function Capture(b: Board, due: bool): Board {
    var saver := if b.save.dirty && due then Captured(b.applied, b.save.revision) else Resting;
    b.(mutex := Free, save := b.save.(saver := saver))
  }

  function StoreDone(b: Board, ok: bool): Board
    requires b.save.saver.Captured?
  {
    var s := b.save.saver;
    b.(save := b.save.(stored := if ok then s.state else b.save.stored, saver := Tried(s.state, s.revision, ok)))
  }

  function ClearDirty(b: Board): Board
    requires b.save.saver.Tried?
  {
    var s := b.save.saver;
    var same := s.ok && s.revision == b.save.revision && s.state == b.applied;
    b.(mutex := Free, save := b.save.(saver := Resting, dirty := b.save.dirty && !same))
  }

  predicate Enabled(b: Board, e: Event) {
    match e
    case ExpanderResets => true
    case Publish(id, c) => b.booted && c.index < 8 && (id in b.cmd.calls ==> b.cmd.calls[id].Done?)
    case SetterTakes(id) => b.booted && b.mutex == Free && id in b.cmd.calls && b.cmd.calls[id].Waiting?
    case SetterTimesOut(id) => id in b.cmd.calls && b.cmd.calls[id].Waiting?
    case HealthTakes => b.booted && b.mutex == Free && b.save.saver == Resting
    case PassMoves(_, _) => b.mutex.InPass? && !b.mutex.pass.Finished?
    case PassGives =>
      b.mutex.InPass? && b.mutex.pass.Finished? && (b.mutex.who.Setter? ==> b.mutex.who.id in b.cmd.calls)
    case BootPolarityWrite(_, _) => b.mutex == BootPolarity
    case SaverTakes => b.booted && b.restore && b.mutex == Free && b.save.saver == Resting
    case SaverCaptures(_) => b.mutex == Capturing
    case StoreReturns(_) => b.save.saver.Captured?
    case ClearerTakes => b.booted && b.mutex == Free && b.save.saver.Tried?
    case ClearerTimesOut => b.save.saver.Tried? && b.mutex != Clearing
    case ClearerClears => b.mutex == Clearing && b.save.saver.Tried?
  }

  function Step(b: Board, e: Event): Board
    requires Enabled(b, e)
  {
    match e
    case ExpanderResets => Reset(b)
    case Publish(id, c) => b.(cmd := Published(b.cmd, id, c))
    case SetterTakes(id) =>
      b.(mutex := InPass(Setter(id), Entered, 0),
         cmd := b.cmd.(calls := b.cmd.calls[id := Inside(b.cmd.calls[id].pos)]))
    case SetterTimesOut(id) => b.(tcaHealthy := false, cmd := Returned(b.cmd, id, TimedOut))
    case HealthTakes => b.(mutex := InPass(Health, Entered, 0))
    case PassMoves(ack, effect) => PassStep(b, ack, effect)
    case PassGives => Give(b)
    case BootPolarityWrite(ack, effect) => AfterBootPolarity(b, ack, effect)
    case SaverTakes => b.(mutex := Capturing)
    case SaverCaptures(due) => Capture(b, due)
    case StoreReturns(ok) => StoreDone(b, ok)
    case ClearerTakes => b.(mutex := Clearing)
    case ClearerTimesOut => b.(save := b.save.(saver := Resting))
    case ClearerClears => ClearDirty(b)
  }

  /** Power-up of the processor: the expander may hold anything. */
  predicate Init(b: Board) {
    b.applied == 0 && !b.tcaHealthy && !b.booted && (b.hw.config == 0 ==> b.marks.unlucky) &&
    b.cmd == Commands(0, [], 0, map[]) &&
    b.save.saver == Resting && !b.save.dirty && b.save.revision == 0 &&
    b.mutex == InPass(BootOff, LatchWrite(0), 0)
  }
}
