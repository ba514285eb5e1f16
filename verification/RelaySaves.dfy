/** What the delayed save achieves. */
module RelaySaves {
  import opened RelayDriver
  import opened RelaySafety
  import opened BitMask

  // ----- a save that nobody disturbs ----------------------------------------------------------

  predicate ReadyToSave(b: Board) {
    b.booted && b.restore && b.mutex == Free && b.save.saver == Resting
  }

  lemma First(b: Board, e: Event, events: seq<Event>, c: Board)
    requires Enabled(b, e) && Run(Step(b, e), events, c)
    ensures Run(b, [e] + events, c)
  {
    assert ([e] + events)[1..] == events;
  }

  /** The board after a save that wrote the applied mask, or failed to. */
  function AfterSave(b: Board, stored: bool): Board {
    b.(save := Saves(Resting, !stored, b.save.revision, if stored then b.applied else b.save.stored))
  }

  /** A captured save that nobody disturbs is stored and cleared, or fails and stays pending. */
  lemma CapturedCompletes(b: Board, stored: bool)
    requires b.booted && b.mutex == Free && b.save.saver == Captured(b.applied, b.save.revision) && b.save.dirty
    ensures Run(b, [StoreReturns(stored)] + ([ClearerTakes] + ([ClearerClears] + [])), AfterSave(b, stored))
  {
    var tried := Step(b, StoreReturns(stored));
    var clearing := Step(tried, ClearerTakes);
    First(clearing, ClearerClears, [], AfterSave(b, stored));
    First(tried, ClearerTakes, [ClearerClears] + [], AfterSave(b, stored));
    First(b, StoreReturns(stored), [ClearerTakes] + ([ClearerClears] + []), AfterSave(b, stored));
  }

  /** A due save that nobody disturbs runs to its end: a successful write leaves the applied
      mask stored and nothing to save, a failed one leaves the mask stored before and the save
      pending; nothing else changes. */
  lemma SaveCompletes(b: Board, stored: bool)
    requires ReadyToSave(b) && b.save.dirty
    ensures Run(b, [SaverTakes, SaverCaptures(true), StoreReturns(stored), ClearerTakes, ClearerClears],
                AfterSave(b, stored))
  {
    var rest := [StoreReturns(stored)] + ([ClearerTakes] + ([ClearerClears] + []));
    var capturing := Step(b, SaverTakes);
    CapturedCompletes(Step(capturing, SaverCaptures(true)), stored);
    First(capturing, SaverCaptures(true), rest, AfterSave(b, stored));
    First(b, SaverTakes, [SaverCaptures(true)] + rest, AfterSave(b, stored));
    assert [SaverTakes] + ([SaverCaptures(true)] + rest) ==
      [SaverTakes, SaverCaptures(true), StoreReturns(stored), ClearerTakes, ClearerClears];
  }

  /** A save that is not due, or that nothing asks for, leaves the board as it was. */
  lemma NothingToSave(b: Board, due: bool)
    requires ReadyToSave(b) && !(b.save.dirty && due)
    ensures Run(b, [SaverTakes, SaverCaptures(due)], b)
  {
    First(Step(b, SaverTakes), SaverCaptures(due), [], b);
    First(b, SaverTakes, [SaverCaptures(due)] + [], b);
    assert [SaverTakes] + ([SaverCaptures(due)] + []) == [SaverTakes, SaverCaptures(due)];
  }

  // ----- a save among other events --------------------------------------------------------------

  predicate SaverMoves(e: Event) {
    e.SaverTakes? || e.SaverCaptures? || e.StoreReturns? || e.ClearerTakes? || e.ClearerTimesOut? || e.ClearerClears?
  }

  /** What callers, passes and faults leave alone while the saver is at work. */
  ghost predicate SaverKept(b: Board, c: Board) {
    c.save.saver == b.save.saver && c.save.stored == b.save.stored && (b.save.dirty ==> c.save.dirty)
  }

  lemma {:induction false} OthersKeepTheSaver(b: Board, events: seq<Event>, c: Board)
    requires Run(b, events, c) && forall e | e in events :: !SaverMoves(e)
    ensures SaverKept(b, c)
    decreases |events|
  {
    if events == [] {
    } else {
      var e := events[0];
      assert !SaverMoves(e);
      OtherKeepsTheSaver(b, e);
      OthersKeepTheSaver(Step(b, e), events[1..], c);
    }
  }

  lemma OtherKeepsTheSaver(b: Board, e: Event)
    requires Enabled(b, e) && !SaverMoves(e)
    ensures SaverKept(b, Step(b, e))
  {
    match e
    case PassMoves(ack, effect) => PassFrame(b, ack, effect);
    case PassGives =>
    case BootPolarityWrite(_, _) =>
    case _ =>
  }

  /** The saver captures at `b`, its write returns at `x`, and the dirty mark is looked at in `y`. */
  ghost predicate SavesOver(b: Board, during: seq<Event>, x: Board, stored: bool, after: seq<Event>, y: Board) {
    Enabled(b, SaverCaptures(true)) && Run(Step(b, SaverCaptures(true)), during, x) &&
    Enabled(x, StoreReturns(stored)) && Run(Step(x, StoreReturns(stored)), after, y) && Enabled(y, ClearerClears) &&
    (forall e | e in during :: !SaverMoves(e)) && forall e | e in after :: !SaverMoves(e) || e.ClearerTakes?
  }

  lemma {:induction false} ClearerKeepsTheSaver(b: Board, events: seq<Event>, c: Board)
    requires Run(b, events, c) && forall e | e in events :: !SaverMoves(e) || e.ClearerTakes?
    ensures SaverKept(b, c)
    decreases |events|
  {
    if events == [] {
    } else {
      var e := events[0];
      assert !SaverMoves(e) || e.ClearerTakes?;
      if !SaverMoves(e) {
        OtherKeepsTheSaver(b, e);
      }
      ClearerKeepsTheSaver(Step(b, e), events[1..], c);
    }
  }

  /** Whatever callers, passes and faults do around it, a save stores the mask that was applied
      at its capture, or nothing, and clears the mark exactly if it stored that mask and no
      other mask was applied since. */
  lemma SaveTells(b: Board, during: seq<Event>, x: Board, stored: bool, after: seq<Event>, y: Board)
    requires b.save.dirty && SavesOver(b, during, x, stored, after, y)
    ensures var c := Step(y, ClearerClears);
      c.mutex == Free && c.save.saver == Resting && c.save.stored == (if stored then b.applied else b.save.stored) &&
      (!c.save.dirty <==> stored && y.save.revision == b.save.revision && y.applied == b.applied)
  {
    OthersKeepTheSaver(Step(b, SaverCaptures(true)), during, x);
    ClearerKeepsTheSaver(Step(x, StoreReturns(stored)), after, y);
  }

  /** A clearing that times out leaves the save pending. */
  lemma TimeOutKeepsDirty(b: Board)
    requires Enabled(b, ClearerTimesOut)
    ensures Step(b, ClearerTimesOut) == b.(save := b.save.(saver := Resting))
  {
  }
}
