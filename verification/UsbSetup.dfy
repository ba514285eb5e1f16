/** The USB setup line protocol (`usb_setup_model.c`) and the browser's side of it.

    A byte is the character of that code.  The receiver is proved to answer exactly
    the lines of the grammar below, in order, whatever surrounds them. */
module UsbSetup {

  import opened Common

  const PREFIX := "BACNET-USB/1 "
  const ID_LENGTH: nat := 16
  const LINE_SIZE: nat := 96
  const FIRST_BOOT_MS: nat := 300000
  const UNLOCK_MS: nat := 60000
  const HOLD_MS: nat := 3000

  datatype Command = Status | Key | Lock

  datatype Request = Request(id: string, command: Command)

  predicate HexDigit(c: char) {
    '0' <= c <= '9' || 'a' <= c <= 'f'
  }

  predicate ValidId(id: string) {
    |id| == ID_LENGTH && forall i :: 0 <= i < |id| ==> HexDigit(id[i])
  }

  function Word(command: Command): string {
    match command
    case Status => "STATUS"
    case Key => "KEY"
    case Lock => "LOCK"
  }

  /** The line of a request, without its terminator. */
  function Print(r: Request): string {
    PREFIX + r.id + " " + Word(r.command)
  }

  /** The grammar: the printed request, with an optional carriage return. */
  predicate Requests(line: string, r: Request) {
    ValidId(r.id) && (line == Print(r) || line == Print(r) + "\r")
  }

  // ----- the receiver as a function ----------------------------------------------------

  datatype Receiver = Receiver(line: string, discard: bool)

  const FRESH := Receiver("", false)

  predicate Accepted(b: char) {
    (b >= ' ' || b == '\r') && b <= '~'
  }

  function StripReturn(line: string): string {
    if line != "" && line[|line| - 1] == '\r' then line[..|line| - 1] else line
  }

  const OFFSET: nat := 30

  function ParseCommand(word: string): Option<Command> {
    if word == "STATUS" then Some(Status)
    else if word == "KEY" then Some(Key)
    else if word == "LOCK" then Some(Lock)
    else None
  }

  function ParseLine(line: string): Option<Request> {
    if |line| <= OFFSET || line[..13] != PREFIX || line[29] != ' ' || !ValidId(line[13..29]) then None
    else
      match ParseCommand(line[OFFSET..])
      case None => None
      case Some(command) => Some(Request(line[13..29], command))
  }

  function Receive(r: Receiver, b: char): (Receiver, Option<Request>) {
    if b == '\n' then (FRESH, if r.discard then None else ParseLine(StripReturn(r.line)))
    else if r.discard then (r, None)
    else if !Accepted(b) || |r.line| >= LINE_SIZE - 1 then (r.(discard := true), None)
    else (r.(line := r.line + [b]), None)
  }

  function Listed(o: Option<Request>): seq<Request> {
    if o.Some? then [o.value] else []
  }

  /** All requests emitted while receiving a stream. */
  function Emitted(r: Receiver, stream: string): seq<Request>
    decreases |stream|
  {
    if stream == "" then []
    else
      var (next, answer) := Receive(r, stream[0]);
      Listed(answer) + Emitted(next, stream[1..])
  }

  // ----- the model record ----------------------------------------------------------------

  class Model {
    var exportUntil: nat
    var buttonSince: nat
    var buttonPressed: bool
    var buttonHandled: bool
    var discardLine: bool
    var lineLength: nat
    const line: array<char>

    constructor (now: nat, newKey: bool)
      ensures Valid() && View() == FRESH && fresh(line)
      ensures Unlocking() == Init(now, newKey)
    {
      exportUntil := if newKey then now + FIRST_BOOT_MS else 0;
      buttonSince, buttonPressed, buttonHandled := 0, false, false;
      discardLine, lineLength := false, 0;
      line := new char[LINE_SIZE](_ => '\0');
    }

    ghost predicate Valid()
      reads this
    {
      line.Length == LINE_SIZE && lineLength < LINE_SIZE
    }

    ghost function View(): Receiver
      requires Valid()
      reads this, line
    {
      Receiver(line[..lineLength], discardLine)
    }

    ghost function Unlocking(): Button
      reads this
    {
      Button(exportUntil, buttonSince, buttonPressed, buttonHandled)
    }

    method ReceiveByte(b: char) returns (answer: Option<Request>)
      requires Valid()
      modifies this`discardLine, this`lineLength, line
      ensures Valid() && (View(), answer) == Receive(old(View()), b)
    {
      if b == '\n' {
        answer := None;
        if !discardLine {
          var length := lineLength;
          if length > 0 && line[length - 1] == '\r' {
            length := length - 1;
          }
          assert line[..length] == StripReturn(line[..lineLength]);
          answer := ParseLine(line[..length]);
          line[length] := '\0';
        }
        discardLine := false;
        lineLength := 0;
        assert line[..0] == "";
        return;
      }
      answer := None;
      if discardLine {
        return;
      }
      if (b < ' ' && b != '\r') || b > '~' || lineLength >= LINE_SIZE - 1 {
        discardLine := true;
        return;
      }
      line[lineLength] := b;
      lineLength := lineLength + 1;
      assert line[..lineLength] == old(line[..lineLength]) + [b];
    }

    method PollButton(now: nat, pressed: bool)
      modifies this`buttonSince, this`buttonHandled, this`exportUntil, this`buttonPressed
      ensures Unlocking() == Poll(old(Unlocking()), now, pressed)
    {
      if pressed && !buttonPressed {
        buttonSince := now;
        buttonHandled := false;
      }
      if pressed && !buttonHandled && now - buttonSince >= HOLD_MS {
        exportUntil := now + UNLOCK_MS;
        buttonHandled := true;
      }
      buttonPressed := pressed;
    }

    predicate KeyAllowed(now: nat)
      reads this
      ensures KeyAllowed(now) == KeyReadable(Unlocking(), now)
    {
      now < exportUntil
    }

    method LockKey()
      modifies this`exportUntil, this`buttonHandled
      ensures Unlocking() == LockNow(old(Unlocking()))
    {
      exportUntil := 0;
      buttonHandled := buttonPressed;
    }
  }

  // ----- the button ------------------------------------------------------------------------

  datatype Button = Button(exportUntil: nat, since: nat, pressed: bool, handled: bool)

  function Init(now: nat, newKey: bool): Button {
    Button(if newKey then now + FIRST_BOOT_MS else 0, 0, false, false)
  }

  /** `usb_setup_model_key_allowed`. */
  predicate KeyReadable(b: Button, now: nat) {
    now < b.exportUntil
  }

  function Poll(b: Button, now: nat, pressed: bool): Button {
    var edge := if pressed && !b.pressed then b.(since := now, handled := false) else b;
    var held := if pressed && !edge.handled && now - edge.since >= HOLD_MS
                then edge.(exportUntil := now + UNLOCK_MS, handled := true) else edge;
    held.(pressed := pressed)
  }

  function LockNow(b: Button): Button {
    b.(exportUntil := 0, handled := b.pressed)
  }

  // ----- the receiver answers exactly the grammar -------------------------------------------

  /** The newline-terminated lines of a stream, given the start of the first one. */
  function SplitLines(partial: string, stream: string): seq<string>
    decreases |stream|
  {
    if stream == "" then []
    else if stream[0] == '\n' then [partial] + SplitLines("", stream[1..])
    else SplitLines(partial + [stream[0]], stream[1..])
  }

  function Lines(stream: string): seq<string> {
    SplitLines("", stream)
  }

  function LineAnswer(line: string): Option<Request> {
    ParseLine(StripReturn(line))
  }

  function Answers(lines: seq<string>): seq<Request>
    decreases |lines|
  {
    if lines == [] then [] else Listed(LineAnswer(lines[0])) + Answers(lines[1..])
  }

  lemma PrintParts(r: Request)
    requires |r.id| == ID_LENGTH
    ensures var line := Print(r);
      |line| > OFFSET && line[..13] == PREFIX && line[13..29] == r.id && line[29] == ' ' &&
      line[OFFSET..] == Word(r.command)
  {
  }

  lemma ParseIsPrinted(line: string, r: Request)
    ensures ParseLine(line) == Some(r) <==> ValidId(r.id) && line == Print(r)
  {
    if ParseLine(line) == Some(r) {
      assert line == line[..13] + line[13..29] + [line[29]] + line[OFFSET..];
    }
    if ValidId(r.id) && line == Print(r) {
      PrintParts(r);
    }
  }

  lemma PrintEndsInLetter(r: Request)
    ensures Print(r) != "" && Print(r)[|Print(r)| - 1] != '\r'
  {
  }

  /** A line is answered if and only if it is a request of the grammar, with that request. */
  lemma AnswerIsGrammar(line: string, r: Request)
    ensures LineAnswer(line) == Some(r) <==> Requests(line, r)
  {
    ParseIsPrinted(StripReturn(line), r);
    PrintEndsInLetter(r);
    if line != "" && line[|line| - 1] == '\r' {
      assert line == line[..|line| - 1] + "\r";
    }
  }

  predicate Clean(line: string) {
    |line| < LINE_SIZE && forall i :: 0 <= i < |line| ==> Accepted(line[i])
  }

  lemma PrintIsClean(r: Request)
    requires ValidId(r.id)
    ensures Clean(Print(r) + "\r")
  {
  }

  lemma AnsweredIsClean(line: string)
    requires LineAnswer(line).Some?
    ensures Clean(line)
  {
    var r := LineAnswer(line).value;
    AnswerIsGrammar(line, r);
    PrintIsClean(r);
    var longer := Print(r) + "\r";
    assert line == longer[..|line|];
    assert forall i :: 0 <= i < |line| ==> line[i] == longer[i];
  }

  /** The receiver holds the line so far, or discards one that cannot be a request. */
  predicate Tracks(r: Receiver, partial: string) {
    if Clean(partial) then r == Receiver(partial, false) else r.discard
  }

  lemma CleanStep(line: string, b: char)
    ensures Clean(line + [b]) <==> Clean(line) && Accepted(b) && |line| < LINE_SIZE - 1
  {
    var longer := line + [b];
    if Clean(longer) {
      assert forall i :: 0 <= i < |line| ==> line[i] == longer[i];
      assert longer[|line|] == b;
    }
  }

  lemma {:induction false} EmitsAnswers(r: Receiver, partial: string, stream: string)
    requires Tracks(r, partial)
    ensures Emitted(r, stream) == Answers(SplitLines(partial, stream))
    decreases |stream|
  {
    if stream == "" {
    } else {
      var next := Receive(r, stream[0]).0;
      if stream[0] == '\n' {
        if LineAnswer(partial).Some? {
          AnsweredIsClean(partial);
        }
        EmitsAnswers(next, "", stream[1..]);
        assert SplitLines(partial, stream)[1..] == SplitLines("", stream[1..]);
      } else {
        CleanStep(partial, stream[0]);
        EmitsAnswers(next, partial + [stream[0]], stream[1..]);
      }
    }
  }

  /** For every byte stream, the emitted requests are those of its lines, in order. */
  lemma StreamIsAnswered(stream: string)
    ensures Emitted(FRESH, stream) == Answers(Lines(stream))
  {
    EmitsAnswers(FRESH, "", stream);
  }

  // ----- the browser client -----------------------------------------------------------------

  function HexChar(n: nat): (c: char)
    requires n < 16
    ensures HexDigit(c)
  {
    if n < 10 then '0' + n as char else 'a' + (n - 10) as char
  }

  /** Random bytes, two lower-case digits each. */
  function ClientId(bytes: seq<byte>): (id: string)
    ensures |id| == 2 * |bytes|
    ensures forall i :: 0 <= i < |id| ==> HexDigit(id[i])
    decreases |bytes|
  {
    if bytes == [] then "" else HexByte(bytes[0]) + ClientId(bytes[1..])
  }

  function HexByte(b: byte): (s: string)
    ensures |s| == 2 && HexDigit(s[0]) && HexDigit(s[1])
  {
    [HexChar(b / 16), HexChar(b % 16)]
  }

  function ClientLine(bytes: seq<byte>, command: Command): string {
    PREFIX + ClientId(bytes) + " " + Word(command) + "\n"
  }

  lemma {:induction false} SplitAppend(partial: string, a: string, b: string)
    ensures SplitLines(partial, a + "\n" + b) == SplitLines(partial, a + "\n") + Lines(b)
    decreases |a|
  {
    if a == "" {
      assert a + "\n" + b == "\n" + b && ("\n" + b)[1..] == b;
    } else {
      assert (a + "\n" + b)[1..] == a[1..] + "\n" + b;
      assert (a + "\n")[1..] == a[1..] + "\n";
      if a[0] == '\n' {
        SplitAppend("", a[1..], b);
      } else {
        SplitAppend(partial + [a[0]], a[1..], b);
      }
    }
  }

  lemma {:induction false} SplitOneLine(partial: string, line: string)
    requires '\n' !in line
    ensures SplitLines(partial, line + "\n") == [partial + line]
    decreases |line|
  {
    if line == "" {
      assert line + "\n" == "\n" && partial + line == partial;
      assert "\n"[1..] == "";
    } else {
      assert (line + "\n")[1..] == line[1..] + "\n";
      SplitOneLine(partial + [line[0]], line[1..]);
      assert partial + [line[0]] + line[1..] == partial + line;
    }
  }

  lemma {:induction false} AnswersAppend(a: seq<string>, b: seq<string>)
    ensures Answers(a + b) == Answers(a) + Answers(b)
    decreases |a|
  {
    if a == [] {
      assert a + b == b;
    } else {
      assert (a + b)[1..] == a[1..] + b;
      AnswersAppend(a[1..], b);
    }
  }

  /** After any garbage ending in a newline, the client's line is answered with its own
      id and command, and with nothing else. */
  lemma ClientIsAnswered(garbage: string, bytes: seq<byte>, command: Command)
    requires |bytes| == 8
    ensures Emitted(FRESH, garbage + "\n" + ClientLine(bytes, command)) ==
      Emitted(FRESH, garbage + "\n") + [Request(ClientId(bytes), command)]
  {
    var r := Request(ClientId(bytes), command);
    var line := Print(r);
    assert ClientLine(bytes, command) == line + "\n";
    StreamIsAnswered(garbage + "\n" + ClientLine(bytes, command));
    StreamIsAnswered(garbage + "\n");
    SplitAppend("", garbage, line + "\n");
    PrintIsClean(r);
    forall i | 0 <= i < |line| ensures line[i] != '\n' {
      assert Accepted((line + "\r")[i]);
    }
    SplitOneLine("", line);
    assert "" + line == line;
    AnswersAppend(Lines(garbage + "\n"), [line]);
    AnswerIsGrammar(line, r);
    assert [line][1..] == [] && Answers([line]) == [r];
  }

  // ----- who may read the key -----------------------------------------------------------------

  /** What the device sees of its user, in order. */
  datatype Event = Polled(now: nat, pressed: bool) | Locked

  function ButtonAfter(b: Button, events: seq<Event>): Button
    decreases |events|
  {
    if events == [] then b
    else
      var before := ButtonAfter(b, events[..|events| - 1]);
      match events[|events| - 1]
      case Polled(now, pressed) => Poll(before, now, pressed)
      case Locked => LockNow(before)
  }

  predicate Pressed(e: Event) {
    e.Polled? && e.pressed
  }

  /** Whether the last poll saw the button down; `before` if there was none. */
  predicate Down(before: bool, events: seq<Event>) {
    if events == [] then before
    else if events[|events| - 1].Polled? then events[|events| - 1].pressed
    else Down(before, events[..|events| - 1])
  }

  lemma {:induction false} DownIsPressed(b: Button, events: seq<Event>)
    ensures ButtonAfter(b, events).pressed == Down(b.pressed, events)
    decreases |events|
  {
    if events == [] {
    } else {
      DownIsPressed(b, events[..|events| - 1]);
    }
  }

  /** Events `i` to `j` are polls that saw the button down, `i` the first since it was up. */
  ghost predicate Held(b: Button, events: seq<Event>, i: nat, j: nat) {
    i <= j < |events| && (forall k :: i <= k <= j ==> Pressed(events[k])) && !Down(b.pressed, events[..i])
  }

  /** Poll `j` is the first of its hold at least three seconds after poll `i` began it. */
  ghost predicate Completes(b: Button, events: seq<Event>, i: nat, j: nat) {
    Held(b, events, i, j) && events[j].now - events[i].now >= HOLD_MS &&
    forall k :: i <= k < j ==> events[k].now - events[i].now < HOLD_MS
  }

  /** A hold was completed at `j` and nothing was locked after it. */
  ghost predicate Unlocks(b: Button, events: seq<Event>, i: nat, j: nat) {
    Completes(b, events, i, j) && forall k :: j < k < |events| ==> events[k] != Locked
  }

  /** No hold was completed after `j`. */
  ghost predicate Latest(b: Button, events: seq<Event>, j: nat) {
    forall i: nat, k: nat :: Completes(b, events, i, k) ==> k <= j
  }

  /** Held since poll `i`, but not yet for three seconds. */
  ghost predicate ShortHold(b: Button, events: seq<Event>, i: nat) {
    i < |events| && Held(b, events, i, |events| - 1) &&
    forall k :: i <= k < |events| ==> events[k].now - events[i].now < HOLD_MS
  }

  lemma PrefixHolds(b: Button, events: seq<Event>, n: nat, i: nat, j: nat)
    requires n <= |events| && j < n
    ensures Held(b, events[..n], i, j) <==> Held(b, events, i, j)
    ensures Completes(b, events[..n], i, j) <==> Completes(b, events, i, j)
  {
    if i <= j {
      assert events[..n][..i] == events[..i];
      assert forall k :: i <= k <= j ==> events[..n][k] == events[k];
    }
  }

  /** An unhandled press is a hold that is still short. */
  ghost predicate PressInv(b: Button, events: seq<Event>, s: Button) {
    s.pressed && !s.handled ==> exists i: nat :: ShortHold(b, events, i) && s.since == events[i].now
  }

  ghost predicate WindowInv(b: Button, events: seq<Event>, until: nat) {
    (forall i: nat, j: nat :: Unlocks(b, events, i, j) && Latest(b, events, j) ==>
      until == events[j].now + UNLOCK_MS) &&
    ((forall i: nat, j: nat :: !Unlocks(b, events, i, j)) ==> until == if Locked in events then 0 else b.exportUntil)
  }

  lemma SameCompletions(b: Button, events: seq<Event>, last: nat, i: nat, j: nat)
    requires last == |events| - 1 && events[last].Polled?
    requires !Completes(b, events, i, last)
    ensures Completes(b, events[..last], i, j) <==> Completes(b, events, i, j)
    ensures Unlocks(b, events[..last], i, j) <==> Unlocks(b, events, i, j)
  {
    if j < last {
      PrefixHolds(b, events, last, i, j);
      assert forall k :: j < k < last ==> events[..last][k] == events[k];
    }
  }

  lemma SameLatest(b: Button, events: seq<Event>, last: nat, j: nat)
    requires last == |events| - 1 && events[last].Polled? && forall i: nat :: !Completes(b, events, i, last)
    requires Latest(b, events, j)
    ensures Latest(b, events[..last], j)
  {
    forall i: nat, k: nat | Completes(b, events[..last], i, k) ensures k <= j {
      SameCompletions(b, events, last, i, k);
    }
  }

  lemma SameLocks(events: seq<Event>, last: nat)
    requires last == |events| - 1 && events[last].Polled?
    ensures Locked in events <==> Locked in events[..last]
  {
    assert events == events[..last] + [events[last]];
  }

  /** An event that completes no hold adds no completion. */
  lemma NothingCompleted(b: Button, events: seq<Event>, last: nat, until: nat)
    requires last == |events| - 1 && events[last].Polled? && WindowInv(b, events[..last], until)
    requires forall i: nat :: !Completes(b, events, i, last)
    ensures WindowInv(b, events, until)
  {
    SameLocks(events, last);
    forall i: nat, j: nat | Unlocks(b, events, i, j) && Latest(b, events, j)
      ensures until == events[j].now + UNLOCK_MS
    {
      SameCompletions(b, events, last, i, j);
      SameLatest(b, events, last, j);
    }
    if forall i: nat, j: nat :: !Unlocks(b, events, i, j) {
      forall i: nat, j: nat ensures !Unlocks(b, events[..last], i, j) {
        SameCompletions(b, events, last, i, j);
      }
    }
  }

  lemma Completed(b: Button, events: seq<Event>, i: nat)
    requires events != [] && Completes(b, events, i, |events| - 1)
    ensures WindowInv(b, events, events[|events| - 1].now + UNLOCK_MS)
  {
    assert Unlocks(b, events, i, |events| - 1);
  }

  /** What the last poll makes of a hold that began before it. */
  lemma HoldGoesOn(b: Button, events: seq<Event>, i: nat)
    requires i < |events| - 1
    ensures var last := |events| - 1;
      var before := events[..last];
      (ShortHold(b, events, i) <==>
        ShortHold(b, before, i) && Pressed(events[last]) && events[last].now - events[i].now < HOLD_MS) &&
      (Completes(b, events, i, last) <==>
        ShortHold(b, before, i) && Pressed(events[last]) && events[last].now - events[i].now >= HOLD_MS)
  {
    var last := |events| - 1;
    var before := events[..last];
    PrefixHolds(b, events, last, i, last - 1);
    assert forall k :: i <= k < last ==> before[k] == events[k];
  }

  lemma HoldBegins(b: Button, events: seq<Event>)
    requires events != []
    ensures ShortHold(b, events, |events| - 1) <==>
      Pressed(events[|events| - 1]) && !Down(b.pressed, events[..|events| - 1])
  {
  }

  lemma {:induction false} ShortHoldWaits(b: Button, events: seq<Event>, i: nat)
    requires ShortHold(b, events, i)
    ensures var s := ButtonAfter(b, events); s.pressed && !s.handled && s.since == events[i].now
    decreases |events|
  {
    var before := events[..|events| - 1];
    if i == |before| {
      assert before == events[..i];
      DownIsPressed(b, before);
    } else {
      assert before[..i] == events[..i];
      ShortHoldWaits(b, before, i);
    }
  }

  lemma PollOpens(b: Button, events: seq<Event>, last: nat, i: nat)
    requires last == |events| - 1 && Completes(b, events, i, last)
    ensures var s := ButtonAfter(b, events); s.exportUntil == events[last].now + UNLOCK_MS && s.handled
  {
    HoldGoesOn(b, events, i);
    ShortHoldWaits(b, events[..last], i);
  }

  lemma PollWaits(b: Button, events: seq<Event>, last: nat, p: Button)
    requires last == |events| - 1 && events[last].Polled? && p == ButtonAfter(b, events[..last])
    requires p.pressed == Down(b.pressed, events[..last]) && PressInv(b, events[..last], p)
    requires forall i: nat :: !Completes(b, events, i, last)
    ensures ButtonAfter(b, events).exportUntil == p.exportUntil && PressInv(b, events, ButtonAfter(b, events))
  {
    HoldBegins(b, events);
    if p.pressed && !p.handled {
      var i: nat :| ShortHold(b, events[..last], i) && p.since == events[..last][i].now;
      HoldGoesOn(b, events, i);
      assert !Completes(b, events, i, last);
    }
  }

  lemma PollIsExact(b: Button, events: seq<Event>, last: nat, p: Button)
    requires last == |events| - 1 && events[last].Polled? && p == ButtonAfter(b, events[..last])
    requires p.pressed == Down(b.pressed, events[..last])
    requires WindowInv(b, events[..last], p.exportUntil) && PressInv(b, events[..last], p)
    ensures WindowInv(b, events, ButtonAfter(b, events).exportUntil)
    ensures PressInv(b, events, ButtonAfter(b, events))
  {
    if i: nat :| Completes(b, events, i, last) {
      Completed(b, events, i);
      PollOpens(b, events, last, i);
    } else {
      NothingCompleted(b, events, last, p.exportUntil);
      PollWaits(b, events, last, p);
    }
  }

  /** Over every history of a button that begins released, the window is the one opened by the
      latest completed hold, one for each press however long it lasts; a lock since then has
      closed it; and before any of these it is that of the first boot. */
  lemma {:induction false} WindowExactly(b: Button, events: seq<Event>)
    requires !b.pressed
    ensures WindowInv(b, events, ButtonAfter(b, events).exportUntil)
    ensures PressInv(b, events, ButtonAfter(b, events))
    decreases |events|
  {
    if events == [] {
    } else {
      var last: nat := |events| - 1;
      var before := events[..last];
      WindowExactly(b, before);
      DownIsPressed(b, before);
      match events[last]
      case Locked =>
        assert forall i: nat, j: nat :: !Unlocks(b, events, i, j);
      case Polled(now, pressed) => PollIsExact(b, events, last, ButtonAfter(b, before));
    }
  }

  /** The poll that completes a fresh three-second hold opens the window for a minute. */
  lemma FreshHoldUnlocks(b: Button, events: seq<Event>, i: nat)
    requires i < |events| - 1 && ShortHold(b, events[..|events| - 1], i)
    requires Pressed(events[|events| - 1]) && events[|events| - 1].now - events[i].now >= HOLD_MS
    ensures ButtonAfter(b, events).exportUntil == events[|events| - 1].now + UNLOCK_MS
    ensures forall now: nat ::
              KeyReadable(ButtonAfter(b, events), now) <==> now < events[|events| - 1].now + UNLOCK_MS
    ensures ButtonAfter(b, events).pressed && ButtonAfter(b, events).handled
  {
    ShortHoldWaits(b, events[..|events| - 1], i);
  }

  /** Holding on does not open it again, however long. */
  lemma {:induction false} HoldUnlocksOnce(b: Button, events: seq<Event>, i: nat, more: seq<Event>)
    requires i < |events| - 1 && ShortHold(b, events[..|events| - 1], i)
    requires Pressed(events[|events| - 1]) && events[|events| - 1].now - events[i].now >= HOLD_MS
    requires forall k :: 0 <= k < |more| ==> Pressed(more[k])
    ensures ButtonAfter(b, events + more).exportUntil == events[|events| - 1].now + UNLOCK_MS
    ensures ButtonAfter(b, events + more).pressed && ButtonAfter(b, events + more).handled
    decreases |more|
  {
    if more == [] {
      assert events + more == events;
      FreshHoldUnlocks(b, events, i);
    } else {
      var fewer := more[..|more| - 1];
      assert (events + more)[..|events + more| - 1] == events + fewer;
      HoldUnlocksOnce(b, events, i, fewer);
    }
  }

  /** No hold completed, nothing locked, and the five minutes of a first boot not over. */
  ghost predicate FirstBoot(b: Button, t0: nat, newKey: bool, events: seq<Event>, now: nat) {
    newKey && now < t0 + 300000 && Locked !in events && forall i: nat, j: nat :: !Unlocks(b, events, i, j)
  }

  /** Within a minute of the poll that completed the latest hold, with no lock since. */
  ghost predicate MinuteAfterHold(b: Button, events: seq<Event>, now: nat) {
    exists i: nat, j: nat :: Unlocks(b, events, i, j) && Latest(b, events, j) && now < events[j].now + 60000
  }

  /** The key may be read exactly within five minutes of a first boot, before any hold or lock,
      or within a minute of the first poll that ends a three-second hold begun by a fresh press,
      with no lock since. */
  lemma KeyNeedsPresence(t0: nat, newKey: bool, events: seq<Event>, now: nat)
    ensures var b := Init(t0, newKey);
      KeyReadable(ButtonAfter(b, events), now) <==>
        FirstBoot(b, t0, newKey, events, now) || MinuteAfterHold(b, events, now)
  {
    var b := Init(t0, newKey);
    WindowExactly(b, events);
    if i: nat, j: nat :| Unlocks(b, events, i, j) {
      SomeLatest(b, events, i, j, |events|);
      var m: nat, n: nat :| Completes(b, events, m, n) && Latest(b, events, n) && n >= j;
      assert Unlocks(b, events, m, n) && Latest(b, events, n);
    }
  }

  /** Some completion is the latest. */
  lemma {:induction false} SomeLatest(b: Button, events: seq<Event>, i: nat, j: nat, bound: nat)
    requires Completes(b, events, i, j) && j < bound <= |events|
    requires forall p: nat, q: nat :: Completes(b, events, p, q) ==> q < bound
    ensures exists m: nat, n: nat :: Completes(b, events, m, n) && Latest(b, events, n) && n >= j
    decreases bound
  {
    var last: nat := bound - 1;
    if p: nat :| Completes(b, events, p, last) {
      assert Latest(b, events, last);
    } else {
      SomeLatest(b, events, i, j, bound - 1);
    }
  }

  /** Locking closes the window, and keeps it closed until a fresh press. */
  lemma {:induction false} LockHolds(b: Button, events: seq<Event>, more: seq<Event>)
    requires forall k :: 0 <= k < |more| ==> Pressed(more[k])
    requires Down(b.pressed, events)
    ensures ButtonAfter(b, events + [Locked] + more).exportUntil == 0
    ensures forall now: nat :: !KeyReadable(ButtonAfter(b, events + [Locked] + more), now)
    ensures var s := ButtonAfter(b, events + [Locked] + more); s.pressed && s.handled
    decreases |more|
  {
    var all := events + [Locked] + more;
    if more == [] {
      assert all[..|all| - 1] == events;
      DownIsPressed(b, events);
    } else {
      var fewer := more[..|more| - 1];
      assert all[..|all| - 1] == events + [Locked] + fewer;
      LockHolds(b, events, fewer);
    }
  }
}
