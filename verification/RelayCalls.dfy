/** `relay_mask_write_locked` and `board_io_relay_set` as the driver runs them on its statics and
    the expander's registers, for a caller nobody interrupts: each transaction and critical
    section is one step of `RelayDriver`, so every result about its runs applies to these calls. */
module RelayCalls {
  import opened BitMask
  import opened RelayDriver
  import opened RelaySafety

  /** How the bus treats one transaction: is it acknowledged, and does a write take effect. */
  datatype Answer = Answer(ack: bool, effect: bool)

  datatype Register = Output | Polarity | Configuration

  datatype SetResult = InvalidArgument | Timeout | Error | Ok

  function Rank(p: Pass): nat {
    match p
    case Entered => 14
    case LatchWrite(_) => 13
    case ConfigRead(_, second) => if second then 6 else 12
    case OutputRead(_, _, second) => if second then 5 else 11
    case Noting(_, _, _, second) => if second then 4 else 10
    case Recovering(_) => 9
    case PolarityWrite(_) => 8
    case ConfigWrite(_) => 7
    case Commit(_) => 3
    case NoteChange(_, _) => 2
    case IoError => 1
    case Mismatch => 1
    case Finished(_, _) => 0
  }

  /** What no pass touches. */
  predicate SamePlan(b: Board, c: Board) {
    c.cmd == b.cmd && c.booted == b.booted && c.restore == b.restore && c.restored == b.restored &&
    c.save.stored == b.save.stored
  }

  lemma PassDescends(b: Board, a: Answer)
    requires b.mutex.InPass? && !b.mutex.pass.Finished?
    ensures var c := PassStep(b, a.ack, a.effect);
      c.mutex.InPass? && c.mutex.who == b.mutex.who && SamePlan(b, c) && Rank(c.mutex.pass) < Rank(b.mutex.pass)
  {
  }

  /** A pass run to its end, its `i`-th step from here meeting the bus answer `bus(n + i)`. */
  function Settle(b: Board, bus: nat -> Answer, n: nat): (c: Board)
    requires b.mutex.InPass?
    ensures c.mutex.InPass? && c.mutex.pass.Finished? && c.mutex.who == b.mutex.who && SamePlan(b, c)
    decreases Rank(b.mutex.pass)
  {
    if b.mutex.pass.Finished? then b
    else
      PassDescends(b, bus(n));
      Settle(PassStep(b, bus(n).ack, bus(n).effect), bus, n + 1)
  }

  function Moves(b: Board, bus: nat -> Answer, n: nat): seq<Event>
    requires b.mutex.InPass?
    decreases Rank(b.mutex.pass)
  {
    if b.mutex.pass.Finished? then []
    else
      PassDescends(b, bus(n));
      [PassMoves(bus(n).ack, bus(n).effect)] + Moves(PassStep(b, bus(n).ack, bus(n).effect), bus, n + 1)
  }

  /** An uninterrupted pass is a run of the state machine. */
  lemma {:induction false} SettleIsRun(b: Board, bus: nat -> Answer, n: nat)
    requires b.mutex.InPass?
    ensures Run(b, Moves(b, bus, n), Settle(b, bus, n))
    decreases Rank(b.mutex.pass)
  {
    if b.mutex.pass.Finished? {
    } else {
      PassDescends(b, bus(n));
      var c := PassStep(b, bus(n).ack, bus(n).effect);
      SettleIsRun(c, bus, n + 1);
      assert Moves(b, bus, n)[1..] == Moves(c, bus, n + 1);
    }
  }

  /** The whole of `board_io_relay_set`, uninterrupted. */
  function SetAlone(b: Board, id: nat, command: Command, takes: bool, bus: nat -> Answer): Board
    requires Enabled(b, Publish(id, command)) && b.mutex == Free
  {
    var p := Step(b, Publish(id, command));
    if !takes then Step(p, SetterTimesOut(id))
    else Give(Settle(Step(p, SetterTakes(id)), bus, 0))
  }

  /** The relay part of `board_io_init`: all off, the polarity, and the stored mask if it is
      to be restored; the first failure ends it. */
  function InitAlone(b: Board, off: nat -> Answer, second: Answer, again: nat -> Answer): Board
    requires b.mutex.InPass? && b.mutex.who.BootOff?
  {
    var p := Give(Settle(b, off, 0));
    if p.mutex != BootPolarity then p
    else
      var q := AfterBootPolarity(p, second.ack, second.effect);
      if !q.mutex.InPass? then q else Give(Settle(q, again, 0))
  }

  /** The static variables of `board_io.c` and the expander behind the bus; `board` is the
      state machine they are a state of. */
  class Relays {
    var output: bv8
    var polarity: bv8
    var config: bv8
    var desired: bv8
    var mask: bv8
    var healthy: bool
    var dirty: bool
    var revision: nat
    const restore: bool
    ghost var board: Board

    /** The statics and registers at some moment of the state machine. */
    constructor (b: Board)
      ensures Agrees() && board == b
      ensures b.booted && b.mutex == Free ==> forall id | id !in b.cmd.calls :: Idle(id)
    {
      output, polarity, config := b.hw.output, b.hw.polarity, b.hw.config;
      desired, mask, healthy := b.cmd.desired, b.applied, b.tcaHealthy;
      dirty, revision, restore := b.save.dirty, b.save.revision, b.restore;
      board := b;
    }

    ghost predicate AgreesWith(b: Board)
      reads `output, `polarity, `config, `desired, `mask, `healthy, `dirty, `revision
    {
      b.hw == Expander(output, polarity, config) && b.cmd.desired == desired && b.applied == mask &&
      b.tcaHealthy == healthy && b.save.dirty == dirty && b.save.revision == revision && b.restore == restore
    }

    ghost predicate Agrees()
      reads this
    {
      AgreesWith(board)
    }

    /** The pass stands at `p`, and its remaining steps lead where `goal` says. */
    ghost predicate Stands(p: Pass, bus: nat -> Answer, n: nat, goal: Board)
      reads this
    {
      Agrees() && board.mutex.InPass? && board.mutex.pass == p && Settle(board, bus, n) == goal
    }

    /** `relay_desired_mask_get`. */
    method DesiredMask(bus: nat -> Answer, n: nat, ghost goal: Board) returns (m: bv8)
      requires Stands(Entered, bus, n, goal)
      modifies this
      ensures m == old(desired) && Stands(LatchWrite(m), bus, n + 1, goal)
    {
      m := desired;
      board := PassStep(board, bus(n).ack, bus(n).effect);
    }

    /** `tca9554_write_register` for the latch, before its error handling. */
    method WriteLatchRegister(m: bv8, bus: nat -> Answer, n: nat, ghost goal: Board) returns (ack: bool)
      requires Stands(LatchWrite(m), bus, n, goal)
      modifies this
      ensures ack == bus(n).ack && Stands(if ack then ConfigRead(m, false) else IoError, bus, n + 1, goal)
    {
      if bus(n).effect {
        output := m;
      }
      ack := bus(n).ack;
      board := PassStep(board, bus(n).ack, bus(n).effect);
    }

    /** `tca9554_write_register` for the polarity. */
    method WritePolarityRegister(m: bv8, bus: nat -> Answer, n: nat, ghost goal: Board) returns (ack: bool)
      requires Stands(PolarityWrite(m), bus, n, goal)
      modifies this
      ensures ack == bus(n).ack && Stands(if ack then ConfigWrite(m) else IoError, bus, n + 1, goal)
    {
      if bus(n).effect {
        polarity := 0;
      }
      ack := bus(n).ack;
      board := PassStep(board, bus(n).ack, bus(n).effect);
    }

    /** `tca9554_write_register` for the configuration, which enables the pins. */
    method WriteConfigRegister(m: bv8, bus: nat -> Answer, n: nat, ghost goal: Board) returns (ack: bool)
      requires Stands(ConfigWrite(m), bus, n, goal)
      modifies this
      ensures ack == bus(n).ack && Stands(if ack then ConfigRead(m, true) else IoError, bus, n + 1, goal)
    {
      if bus(n).effect {
        config := 0;
      }
      ack := bus(n).ack;
      board := PassStep(board, bus(n).ack, bus(n).effect);
    }

    method ReadConfigRegister(m: bv8, second: bool, bus: nat -> Answer, n: nat, ghost goal: Board)
      returns (ack: bool, value: bv8)
      requires Stands(ConfigRead(m, second), bus, n, goal)
      modifies this`board
      ensures ack == bus(n).ack && Stands(if ack then OutputRead(m, value, second) else IoError, bus, n + 1, goal)
    {
      value := config;
      ack := bus(n).ack;
      board := PassStep(board, bus(n).ack, bus(n).effect);
    }

    method ReadOutputRegister(m: bv8, c: bv8, second: bool, bus: nat -> Answer, n: nat, ghost goal: Board)
      returns (ack: bool, value: bv8)
      requires Stands(OutputRead(m, c, second), bus, n, goal)
      modifies this`board
      ensures ack == bus(n).ack && Stands(if ack then Noting(m, c, value, second) else IoError, bus, n + 1, goal)
    {
      value := output;
      ack := bus(n).ack;
      board := PassStep(board, bus(n).ack, bus(n).effect);
    }

    /** `relay_io_result` on an error, and `relay_verification_failed`. */
    method Fail(bus: nat -> Answer, n: nat, ghost goal: Board)
      requires Stands(IoError, bus, n, goal) || Stands(Mismatch, bus, n, goal)
      modifies this
      ensures Stands(Finished(false, 0), bus, n + 1, goal)
    {
      healthy := false;
      board := PassStep(board, bus(n).ack, bus(n).effect);
    }

    /** `relay_registers_read_locked`: the configuration, then the latch. */
    method ReadRegisters(m: bv8, second: bool, bus: nat -> Answer, n: nat, ghost goal: Board)
      returns (ok: bool, readConfig: bv8, readOutput: bv8)
      requires Stands(ConfigRead(m, second), bus, n, goal)
      modifies this
      ensures if ok then Stands(Noting(m, readConfig, readOutput, second), bus, n + 2, goal)
              else Agrees() && board == goal && board.mutex == InPass(board.mutex.who, Finished(false, 0), board.mutex.upto)
    {
      ok, readConfig := ReadConfigRegister(m, second, bus, n, goal);
      readOutput := 0;
      if !ok {
        Fail(bus, n + 1, goal);
        return;
      }
      ok, readOutput := ReadOutputRegister(m, readConfig, second, bus, n + 1, goal);
      if !ok {
        Fail(bus, n + 2, goal);
      }
    }

    ghost predicate Ended(ok: bool, m: bv8, goal: Board)
      reads this
    {
      Agrees() && board == goal && board.mutex.InPass? && board.mutex.pass == Finished(ok, if ok then m else 0)
    }

    ghost method Note(m: bv8, c: bv8, o: bv8, second: bool, bus: nat -> Answer, n: nat, goal: Board)
      requires Stands(Noting(m, c, o, second), bus, n, goal)
      modifies this`board
      ensures Stands(Decide(m, c, o, second), bus, n + 1, goal)
    {
      board := PassStep(board, bus(n).ack, bus(n).effect);
    }

    /** The recovery branch of `relay_mask_write_locked`. */
    method Recover(m: bv8, bus: nat -> Answer, n: nat, ghost goal: Board)
      returns (ok: bool, readConfig: bv8, readOutput: bv8)
      requires Stands(Recovering(m), bus, n, goal)
      modifies this
      ensures if ok then Stands(Noting(m, readConfig, readOutput, true), bus, n + 5, goal) else Ended(false, m, goal)
    {
      readConfig, readOutput := 0, 0;
      healthy := false;
      board := PassStep(board, bus(n).ack, bus(n).effect);
      ok := WritePolarityRegister(m, bus, n + 1, goal);
      if !ok {
        Fail(bus, n + 2, goal);
        return;
      }
      ok := WriteConfigRegister(m, bus, n + 2, goal);
      if !ok {
        Fail(bus, n + 3, goal);
        return;
      }
      ok, readConfig, readOutput := ReadRegisters(m, true, bus, n + 3, goal);
    }

    /** The successful end of `relay_mask_write_locked`. */
    method Accept(m: bv8, bus: nat -> Answer, n: nat, ghost goal: Board)
      requires Stands(Commit(m), bus, n, goal)
      modifies this
      ensures Ended(true, m, goal)
    {
      var was := mask;
      mask := m;
      healthy := true;
      board := PassStep(board, bus(n).ack, bus(n).effect);
      RememberChange(m, was, bus, n + 1, goal);
    }

    method RememberChange(m: bv8, was: bv8, bus: nat -> Answer, n: nat, ghost goal: Board)
      requires Stands(NoteChange(m, was), bus, n, goal)
      modifies this
      ensures Ended(true, m, goal)
    {
      if was != m && restore {
        dirty := true;
        revision := (revision + 1) % 0x1_0000_0000;
      }
      board := PassStep(board, bus(n).ack, bus(n).effect);
      assert Stands(Finished(true, m), bus, n + 1, goal);
    }

    /** `relay_mask_write_locked`. */
    method MaskWriteLocked(m: bv8, bus: nat -> Answer, n: nat, ghost goal: Board) returns (ok: bool)
      requires Stands(LatchWrite(m), bus, n, goal)
      modifies this
      ensures Ended(ok, m, goal)
    {
      ok := WriteLatchRegister(m, bus, n, goal);
      if !ok {
        Fail(bus, n + 1, goal);
        return;
      }
      var readConfig, readOutput;
      ok, readConfig, readOutput := CheckLatch(m, bus, n + 1, goal);
      if !ok {
        return;
      }
      var k := n + 4;
      if readConfig != 0 {
        ok, readConfig, readOutput := Recover(m, bus, n + 4, goal);
        if !ok {
          return;
        }
        Note(m, readConfig, readOutput, true, bus, n + 9, goal);
        k := n + 10;
      }
      ok := Conclude(m, readConfig, readOutput, bus, k, goal);
    }

    /** The first readback: nothing is enabled with an unverified latch. */
    method CheckLatch(m: bv8, bus: nat -> Answer, n: nat, ghost goal: Board)
      returns (ok: bool, readConfig: bv8, readOutput: bv8)
      requires Stands(ConfigRead(m, false), bus, n, goal)
      modifies this
      ensures !ok ==> Ended(false, m, goal)
      ensures ok ==> readOutput == m && Stands(if readConfig != 0 then Recovering(m) else Commit(m), bus, n + 3, goal)
    {
      ok, readConfig, readOutput := ReadRegisters(m, false, bus, n, goal);
      if !ok {
        return;
      }
      Note(m, readConfig, readOutput, false, bus, n + 2, goal);
      if readOutput != m {
        Fail(bus, n + 3, goal);
        ok := false;
      }
    }

    /** The last test of `relay_mask_write_locked`, and its end. */
    method Conclude(m: bv8, readConfig: bv8, readOutput: bv8, bus: nat -> Answer, k: nat, ghost goal: Board)
      returns (ok: bool)
      requires Stands(if readConfig != 0 || readOutput != m then Mismatch else Commit(m), bus, k, goal)
      modifies this
      ensures Ended(ok, m, goal)
    {
      if readConfig != 0 || readOutput != m {
        Fail(bus, k, goal);
        return false;
      }
      Accept(m, bus, k, goal);
      ok := true;
    }

    /** The setter's pass and its return, once it has the mutex. */
    method PassAndGive(ghost id: nat, bus: nat -> Answer) returns (ok: bool, ghost m: bv8)
      requires Agrees() && board.mutex == InPass(Setter(id), Entered, 0) && id in board.cmd.calls
      modifies this
      ensures Agrees() && board == Give(Settle(old(board), bus, 0)) && id in board.cmd.calls
      ensures board.cmd.calls[id] == Done(old(board).cmd.calls[id].pos, if ok then Applied(m) else Failed)
    {
      ghost var goal := Settle(board, bus, 0);
      var latest := DesiredMask(bus, 0, goal);
      ok := MaskWriteLocked(latest, bus, 1, goal);
      m := latest;
      board := Give(board);
    }

    ghost predicate Idle(id: nat)
      reads this
    {
      Agrees() && board.booted && board.mutex == Free && (id in board.cmd.calls ==> board.cmd.calls[id].Done?)
    }

    ghost predicate Queued(id: nat)
      reads this
    {
      Agrees() && board.booted && board.mutex == Free && id in board.cmd.calls && board.cmd.calls[id].Waiting?
    }

    /** The critical section that publishes a command. */
    method PublishCommand(ghost id: nat, index: nat, active: bool)
      requires Idle(id) && index < 8
      modifies this
      ensures Queued(id) && board == Step(old(board), Publish(id, Command(index, active)))
    {
      desired := if active then SetBit(desired, index) else ClearBit(desired, index);
      board := Step(board, Publish(id, Command(index, active)));
    }

    /** The wait for the mutex that times out. */
    method TimeOut(ghost id: nat)
      requires Queued(id)
      modifies this
      ensures Agrees() && board == Step(old(board), SetterTimesOut(id))
      ensures id in board.cmd.calls && ResultIs(board.cmd.calls[id], Timeout)
    {
      healthy := false;
      board := Step(board, SetterTimesOut(id));
    }

    ghost method TakeMutex(id: nat)
      requires Queued(id)
      modifies this`board
      ensures Agrees() && board == Step(old(board), SetterTakes(id))
      ensures board.mutex == InPass(Setter(id), Entered, 0) && id in board.cmd.calls
    {
      board := Step(board, SetterTakes(id));
    }

    /** `board_io_relay_set`; `takes` is whether the mutex is granted within 250 ms. */
    method RelaySet(ghost id: nat, index: nat, active: bool, takes: bool, bus: nat -> Answer)
      returns (result: SetResult)
      requires Idle(id)
      modifies this
      ensures Agrees() && (result == InvalidArgument <==> index >= 8)
      ensures index >= 8 ==> board == old(board)
      ensures index < 8 ==> board == SetAlone(old(board), id, Command(index, active), takes, bus)
      ensures index < 8 ==> id in board.cmd.calls && ResultIs(board.cmd.calls[id], result)
    {
      if index >= 8 {
        return InvalidArgument;
      }
      PublishCommand(id, index, active);
      if !takes {
        TimeOut(id);
        return Timeout;
      }
      TakeMutex(id);
      var ok, _ := PassAndGive(id, bus);
      result := if ok then Ok else Error;
    }

    /** The relay part of `board_io_init`; `restored` is the stored mask as it was read. */
    method BoardInit(restored: bv8, off: nat -> Answer, second: Answer, again: nat -> Answer) returns (ok: bool)
      requires Agrees() && board.mutex == InPass(BootOff, LatchWrite(0), 0)
      requires board.restored == restored && !board.booted
      modifies this
      ensures Agrees() && board == InitAlone(old(board), off, second, again)
      ensures ok <==> board.booted
    {
      ok := PassAtBoot(0, off);
      if !ok {
        return;
      }
      ok := AfterAllOff(restored, second);
      if !ok || !restore {
        return;
      }
      ok := PassAtBoot(restored, again);
    }

    /** `relay_mask_write_locked` as `board_io_init` calls it. */
    method PassAtBoot(m: bv8, bus: nat -> Answer) returns (ok: bool)
      requires Agrees() && board.mutex.InPass? && board.mutex.pass == LatchWrite(m) && !board.mutex.who.Setter?
      modifies this
      ensures Agrees() && board == Give(Settle(old(board), bus, 0))
      ensures ok == Settle(old(board), bus, 0).mutex.pass.ok
    {
      ghost var goal := Settle(board, bus, 0);
      ok := MaskWriteLocked(m, bus, 0, goal);
      GiveAtBoot();
    }

    ghost method GiveAtBoot()
      requires Agrees() && board.mutex.InPass? && board.mutex.pass.Finished? && !board.mutex.who.Setter?
      modifies this`board
      ensures Agrees() && board == Give(old(board))
    {
      board := Give(board);
    }

    method WritePolarityAtBoot(a: Answer)
      modifies `polarity, `healthy
      ensures polarity == if a.effect then 0 else old(polarity)
      ensures healthy == (old(healthy) && a.ack)
    {
      if a.effect {
        polarity := 0;
      }
      if !a.ack {
        healthy := false;
      }
    }

    /** The polarity write of `board_io_init`, and the stored mask becoming the desired one. */
    method AfterAllOff(restored: bv8, a: Answer) returns (ok: bool)
      requires Agrees() && board.mutex == BootPolarity && board.restored == restored
      modifies this
      ensures Agrees() && board == AfterBootPolarity(old(board), a.ack, a.effect) && ok == a.ack
    {
      WritePolarityAtBoot(a);
      if a.ack && restore {
        desired := restored;
      }
      ok := a.ack;
      board := AfterBootPolarity(board, a.ack, a.effect);
    }
  }

  ghost predicate ResultIs(call: Call, result: SetResult) {
    call.Done? &&
    match result
    case InvalidArgument => false
    case Timeout => call.outcome.TimedOut?
    case Error => call.outcome.Failed?
    case Ok => call.outcome.Applied?
  }

  // ----- what such a call achieves -----------------------------------------------------------

  lemma {:induction false} RunAppend(b: Board, e1: seq<Event>, c: Board, e2: seq<Event>, d: Board)
    requires Run(b, e1, c) && Run(c, e2, d)
    ensures Run(b, e1 + e2, d)
    decreases |e1|
  {
    if e1 == [] {
      assert e1 + e2 == e2;
    } else {
      assert (e1 + e2)[1..] == e1[1..] + e2;
      RunAppend(Step(b, e1[0]), e1[1..], c, e2, d);
    }
  }

  lemma OneStepRun(b: Board, e: Event)
    requires Enabled(b, e)
    ensures Run(b, [e], Step(b, e))
  {
  }

  /** An uninterrupted call is a run of the state machine. */
  lemma SetAloneIsRun(b: Board, id: nat, command: Command, bus: nat -> Answer) returns (events: seq<Event>)
    requires Enabled(b, Publish(id, command)) && b.mutex == Free
    ensures Run(b, events, SetAlone(b, id, command, true, bus))
  {
    var p := Step(b, Publish(id, command));
    var q := Step(p, SetterTakes(id));
    var r := Settle(q, bus, 0);
    OneStepRun(b, Publish(id, command));
    OneStepRun(p, SetterTakes(id));
    SettleIsRun(q, bus, 0);
    OneStepRun(r, PassGives);
    RunAppend(b, [Publish(id, command)], p, [SetterTakes(id)], q);
    events := [Publish(id, command)] + [SetterTakes(id)];
    RunAppend(b, events, q, Moves(q, bus, 0), r);
    events := events + Moves(q, bus, 0);
    RunAppend(b, events, r, [PassGives], Step(r, PassGives));
    events := events + [PassGives];
  }

  predicate PastRead(p: Pass) {
    match p
    case Entered => false
    case LatchWrite(_) => false
    case ConfigRead(_, second) => second
    case IoError => false
    case Mismatch => false
    case Finished(ok, _) => ok
    case _ => true
  }

  predicate PastCommit(p: Pass) {
    p.NoteChange? || (p.Finished? && p.ok)
  }

  /** No reset since the configuration was read, nor since the pass succeeded on it. */
  predicate NoReset(b: Board) {
    b.mutex.InPass? && (PastRead(b.mutex.pass) ==> !b.marks.sinceConfigRead) &&
    (PastCommit(b.mutex.pass) ==> !b.marks.sinceVerified)
  }

  predicate AppliedNow(b: Board) {
    b.mutex.InPass? && (PastCommit(b.mutex.pass) ==> b.tcaHealthy && b.applied == b.mutex.pass.mask)
  }

  /** The pass works on the latest command, undisturbed. */
  predicate Fresh(b: Board) {
    NoReset(b) && AppliedNow(b) && (HasMask(b.mutex.pass) ==> b.mutex.pass.mask == b.cmd.desired)
  }

  lemma PassKeepsFresh(b: Board, a: Answer)
    requires Fresh(b) && !b.mutex.pass.Finished?
    ensures Fresh(PassStep(b, a.ack, a.effect))
  {
  }

  lemma {:induction false} SettleFresh(b: Board, bus: nat -> Answer, n: nat)
    requires Fresh(b)
    ensures Fresh(Settle(b, bus, n))
    decreases Rank(b.mutex.pass)
  {
    if b.mutex.pass.Finished? {
    } else {
      PassDescends(b, bus(n));
      PassKeepsFresh(b, bus(n));
      SettleFresh(PassStep(b, bus(n).ack, bus(n).effect), bus, n + 1);
    }
  }

  /** An uninterrupted call that succeeds leaves the latest command applied, no reset since. */
  lemma SetAloneFresh(c: Board, id: nat, command: Command, bus: nat -> Answer)
    requires c.mutex == Free && Enabled(c, Publish(id, command))
    requires SetAlone(c, id, command, true, bus).cmd.calls[id].outcome.Applied?
    ensures var d := SetAlone(c, id, command, true, bus);
      d.mutex == Free && ControllerHealthy(d) && !d.marks.sinceConfigRead &&
      d.cmd.desired == Publishes(c.cmd.desired, command)
  {
    SettleFresh(Step(Step(c, Publish(id, command)), SetterTakes(id)), bus, 0);
  }

  /** From any reachable state, an uninterrupted call that returns ESP_OK leaves its relay
      driven as it asked, through enabled pins, and the controller healthy. */
  lemma OkDrivesTheRelay(b: Board, events: seq<Event>, c: Board, id: nat, command: Command, bus: nat -> Answer)
    requires Init(b) && Run(b, events, c) && c.mutex == Free && Enabled(c, Publish(id, command))
    requires var d := SetAlone(c, id, command, true, bus); d.cmd.calls[id].outcome.Applied?
    ensures var d := SetAlone(c, id, command, true, bus);
      d.hw.config == 0 && d.hw.output == d.cmd.desired && ControllerHealthy(d) &&
      Bit(d.hw.output, command.index) == command.active
  {
    var d := SetAlone(c, id, command, true, bus);
    var call := SetAloneIsRun(c, id, command, bus);
    RunAppend(b, events, c, call, d);
    SetAloneFresh(c, id, command, bus);
    HealthyMeansDriven(b, events + call, d);
    DesiredIsFold(b, events + call, d);
    SetBitIsBit(c.cmd.desired, command.index);
    ClearBitIsBit(c.cmd.desired, command.index);
  }

  // ----- a bus that works ----------------------------------------------------------------------

  ghost predicate Good(bus: nat -> Answer) {
    forall n :: bus(n) == Answer(true, true)
  }

  /** The pass works on the latest command and has found nothing wrong that it cannot mend. */
  predicate Promising(p: Pass, hw: Expander, desired: bv8, applied: bv8, healthy: bool) {
    match p
    case Entered => true
    case LatchWrite(mask) => mask == desired
    case ConfigRead(mask, second) => mask == desired == hw.output && (second ==> hw.config == 0)
    case OutputRead(mask, config, second) =>
      mask == desired == hw.output && config == hw.config && (second ==> config == 0)
    case Noting(mask, config, output, second) =>
      mask == desired == hw.output == output && config == hw.config && (second ==> config == 0)
    case Recovering(mask) => mask == desired == hw.output
    case PolarityWrite(mask) => mask == desired == hw.output
    case ConfigWrite(mask) => mask == desired == hw.output
    case Commit(mask) => mask == desired == hw.output && hw.config == 0
    case NoteChange(mask, _) => mask == desired == hw.output && hw.config == 0 && applied == mask && healthy
    case Finished(ok, mask) => ok && mask == desired == hw.output && hw.config == 0 && applied == mask && healthy
    case IoError => false
    case Mismatch => false
  }

  lemma ReadsPromising(p: Pass, hw: Expander, desired: bv8, applied: bv8, healthy: bool)
    requires Promising(p, hw, desired, applied, healthy) && (p.ConfigRead? || p.OutputRead?)
    ensures Promising(NextPass(p, hw, desired, applied, true), Written(p, hw, true), desired,
                      if p.Commit? then p.mask else applied, HealthAfter(p, healthy))
  {
  }

  lemma DecisionPromising(p: Pass, hw: Expander, desired: bv8, applied: bv8, healthy: bool)
    requires Promising(p, hw, desired, applied, healthy) && (p.Noting?)
    ensures Promising(NextPass(p, hw, desired, applied, true), Written(p, hw, true), desired,
                      if p.Commit? then p.mask else applied, HealthAfter(p, healthy))
  {
  }

  lemma WritesPromising(p: Pass, hw: Expander, desired: bv8, applied: bv8, healthy: bool)
    requires Promising(p, hw, desired, applied, healthy) && (p.Recovering? || p.PolarityWrite? || p.ConfigWrite?)
    ensures Promising(NextPass(p, hw, desired, applied, true), Written(p, hw, true), desired,
                      if p.Commit? then p.mask else applied, HealthAfter(p, healthy))
  {
  }

  lemma NextPromising(p: Pass, hw: Expander, desired: bv8, applied: bv8, healthy: bool)
    requires Promising(p, hw, desired, applied, healthy)
    ensures Promising(NextPass(p, hw, desired, applied, true), Written(p, hw, true), desired,
                      if p.Commit? then p.mask else applied, HealthAfter(p, healthy))
  {
    if p.ConfigRead? || p.OutputRead? {
      ReadsPromising(p, hw, desired, applied, healthy);
    } else if p.Noting? {
      DecisionPromising(p, hw, desired, applied, healthy);
    } else if p.Recovering? || p.PolarityWrite? || p.ConfigWrite? {
      WritesPromising(p, hw, desired, applied, healthy);
    }
  }

  predicate OnTrack(b: Board) {
    b.mutex.InPass? && Promising(b.mutex.pass, b.hw, b.cmd.desired, b.applied, b.tcaHealthy)
  }

  lemma {:induction false} SettleOnTrack(b: Board, bus: nat -> Answer, n: nat)
    requires Good(bus) && OnTrack(b)
    ensures OnTrack(Settle(b, bus, n))
    decreases Rank(b.mutex.pass)
  {
    if b.mutex.pass.Finished? {
    } else {
      PassDescends(b, bus(n));
      NextPromising(b.mutex.pass, b.hw, b.cmd.desired, b.applied, b.tcaHealthy);
      SettleOnTrack(PassStep(b, true, true), bus, n + 1);
    }
  }

  /** On a bus that answers everything a pass succeeds: the desired mask is applied, driven
      through enabled pins, and the controller healthy. */
  lemma GoodPassSucceeds(b: Board, bus: nat -> Answer, n: nat)
    requires Good(bus) && b.mutex.InPass?
    requires b.mutex.pass == Entered || b.mutex.pass == LatchWrite(b.cmd.desired)
    ensures var c := Settle(b, bus, n);
      c.mutex.pass == Finished(true, b.cmd.desired) && c.applied == b.cmd.desired &&
      c.hw.output == b.cmd.desired && c.hw.config == 0 && ControllerHealthy(c)
  {
    SettleOnTrack(b, bus, n);
  }

  /** So whatever went wrong before, the next health pass on a working bus repairs it. */
  lemma HealthPassRepairs(b: Board, bus: nat -> Answer)
    requires Good(bus) && Enabled(b, HealthTakes)
    ensures var c := Give(Settle(Step(b, HealthTakes), bus, 0));
      c.mutex == Free && c.cmd == b.cmd && ControllerHealthy(c) && c.hw.output == c.cmd.desired && c.hw.config == 0
  {
    GoodPassSucceeds(Step(b, HealthTakes), bus, 0);
  }

  // ----- boot ----------------------------------------------------------------------------------

  /** `board_io_init` is a run of the state machine, up to its last give. */
  lemma BootIsRun(b: Board, bus: nat -> Answer) returns (events: seq<Event>, c: Board)
    requires Init(b) && b.restore && Good(bus)
    ensures Run(b, events, c) && Enabled(c, PassGives)
    ensures c.mutex.who.BootRestore? && c.mutex.pass == Finished(true, b.restored)
    ensures Step(c, PassGives) == InitAlone(b, bus, Answer(true, true), bus)
    ensures c.applied == b.restored && c.save.stored == b.save.stored
    ensures c.cmd == Commands(b.restored, [], b.restored, map[]) && ControllerHealthy(c)
    ensures c.hw.output == b.restored && c.hw.config == 0 && !c.marks.sinceVerified
  {
    var p := Settle(b, bus, 0);
    SettleIsRun(b, bus, 0);
    GoodPassSucceeds(b, bus, 0);
    var q := Give(p);
    OneStepRun(p, PassGives);
    var e := BootPolarityWrite(true, true);
    var r := Step(q, e);
    OneStepRun(q, e);
    SettleIsRun(r, bus, 0);
    GoodPassSucceeds(r, bus, 0);
    c := Settle(r, bus, 0);
    SettleFresh(r, bus, 0);
    RunAppend(b, Moves(b, bus, 0), p, [PassGives], q);
    events := Moves(b, bus, 0) + [PassGives];
    RunAppend(b, events, q, [e], r);
    events := events + [e];
    RunAppend(b, events, r, Moves(r, bus, 0), c);
    events := events + Moves(r, bus, 0);
  }

  /** A power-up with relay 0 stored on, whose read of the stored mask fails. */
  const MISREAD: Board := Board(
    Expander(RESET, 0, RESET), 0, false, InPass(BootOff, LatchWrite(0), 0), Commands(0, [], 0, map[]),
    Saves(Resting, false, 0, 1), Marks(true, true, true, false), true, 0, false)

  /** That boot succeeds on a working bus, and ends with a stale stored mask that nothing will save. */
  lemma MisreadMaskIsForgotten(bus: nat -> Answer) returns (events: seq<Event>, c: Board)
    requires Good(bus)
    ensures Init(MISREAD) && MISREAD.restore && !ReadWell(MISREAD)
    ensures Run(MISREAD, events, c) && c.booted && c.mutex == Free
    ensures c.applied == 0 && c.save.stored == 1 && !c.save.dirty
  {
    var d;
    events, d := BootIsRun(MISREAD, bus);
    BootKeepsMaskIffReadWell(MISREAD, events, d);
    OneStepRun(d, PassGives);
    c := Step(d, PassGives);
    RunAppend(MISREAD, events, d, [PassGives], c);
    events := events + [PassGives];
  }
}
