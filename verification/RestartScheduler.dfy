/** Sums over a sequence, and what replacing one element does to them. */
module Tally {

  function Sum<T>(w: T -> int, s: seq<T>): int {
    if s == [] then 0 else w(s[0]) + Sum(w, s[1..])
  }

  lemma {:induction false} SumUpdate<T>(w: T -> int, s: seq<T>, i: nat, x: T)
    requires i < |s|
    ensures Sum(w, s[i := x]) == Sum(w, s) - w(s[i]) + w(x)
    decreases |s|
  {
    if i == 0 {
      assert s[i := x][1..] == s[1..];
    } else {
      assert s[i := x][1..] == s[1..][i - 1 := x];
      SumUpdate(w, s[1..], i - 1, x);
    }
  }

  lemma {:induction false} SumAppend<T>(w: T -> int, s: seq<T>, x: T)
    ensures Sum(w, s + [x]) == Sum(w, s) + w(x)
    decreases |s|
  {
    if s == [] {
      assert (s + [x])[1..] == [];
    } else {
      assert (s + [x])[1..] == s[1..] + [x];
      SumAppend(w, s[1..], x);
    }
  }

  lemma {:induction false} SumZero<T>(w: T -> int, s: seq<T>)
    requires forall i :: 0 <= i < |s| ==> w(s[i]) == 0
    ensures Sum(w, s) == 0
    decreases |s|
  {
    if s == [] {
    } else {
      assert s[0] == s[0] && forall i :: 0 <= i < |s[1..]| ==> s[1..][i] == s[i + 1];
      SumZero(w, s[1..]);
    }
  }

  lemma {:induction false} SumOnes<T>(w: T -> int, s: seq<T>)
    requires forall i :: 0 <= i < |s| ==> w(s[i]) == 1
    ensures Sum(w, s) == |s|
    decreases |s|
  {
    if s == [] {
    } else {
      assert s[0] == s[0] && forall i :: 0 <= i < |s[1..]| ==> s[1..][i] == s[i + 1];
      SumOnes(w, s[1..]);
    }
  }
}

/** The restart-notification scheduler of `bacnet_restart.c`: live recipient edits, and at most
    five tries a recipient for the boot notification. */
module RestartScheduler {

  import opened Common
  import opened RestartRecipients
  import opened Tally

  const ATTEMPTS_MAX: nat := 5
  const RETRY_MS: nat := 1000

  /** `wellFormed`: a valid date and time without wildcards. */
  datatype Timestamp = DateTime(value: nat, wellFormed: bool) | OtherTime

  /** `restart_destination_t`; `address` is `resolved` and `destination` together. */
  datatype Destination = Destination(
    recipient: Recipient,
    address: Option<Address>,
    pending: bool,
    canceled: bool,
    attempts: nat,
    sendAttempts: nat,
    lastResult: int,
    firstAttempt: nat,
    lastAttempt: nat,
    lastAccepted: nat,
    next: nat)

  /** One attempt: when, to which address (none if unresolved), with what result and stamp. */
  datatype Try = Try(at: nat, sentTo: Option<Address>, result: int, stamp: Timestamp)

  /** A destination with the history of its attempts. */
  datatype Target = Target(d: Destination, tries: seq<Try>)

  datatype Stats = Stats(
    bootReady: bool,
    pending: int,
    sent: nat,
    sendFailures: nat,
    resolutionFailures: nat,
    exhausted: nat,
    configurationErrors: nat,
    persistenceFailures: nat)

  const NO_STATS := Stats(false, 0, 0, 0, 0, 0, 0, 0)

  datatype Sched = Sched(live: List, key: Key, targets: seq<Target>, stats: Stats, stamp: Option<Timestamp>)

  /** What the resolve and send callbacks answer. */
  datatype Outcome = Outcome(resolved: Option<Address>, result: int)

  datatype WriteRequest = WriteRequest(ownProperty: bool, wholeArray: bool, bytes: Option<seq<byte>>)

  datatype WriteResult = Accepted | AccessDenied | NotAnArray | OutOfRange | NotPersisted

  // ----- the boot and the timestamp ----------------------------------------------------------

  predicate Acceptable(t: Timestamp) {
    t.DateTime? && t.wellFormed
  }

  /** `bacnet_restart_set_timestamp_before_ready`. */
  function SetStamp(s: Sched, t: Timestamp): (Sched, bool) {
    if s.stats.bootReady || !Acceptable(t) then (s, false) else (s.(stamp := Some(t)), true)
  }

  /** `bacnet_restart_init`, given what flash holds and a timestamp or none. */
  function Boot(k: Stack, nvs: Nvs, t: Option<Timestamp>): Sched {
    var (list, corrupt) := BootList(k, nvs);
    var refused := t.Some? && !Acceptable(t.value);
    var errors := (if corrupt then 1 else 0) + (if refused then 1 else 0);
    Sched(list, nvs.key, [], NO_STATS.(configurationErrors := errors), if refused then None else t)
  }

  // ----- one attempt -----------------------------------------------------------------------------

  /** `resolved_destination_valid`. */
  predicate ResolvedValid(k: Stack, r: Recipient, a: Address) {
    |a.mac| <= k.maxMac && |a.adr| <= k.maxMac &&
    match r
    case Device(_, _) => |a.mac| == 6 && a.net != k.broadcastNetwork && (a.net == 0 || |a.adr| != 0)
    case Direct(address) => k.netSame(address, a) && address.net == 0
    case OtherTag => false
  }

  function Resolve(k: Stack, r: Recipient, o: Outcome): Option<Address> {
    if o.resolved.Some? && ResolvedValid(k, r, o.resolved.value) then o.resolved else None
  }

  predicate Due(d: Destination, now: nat) {
    d.pending && d.next <= now
  }

  predicate Received(t: Try) {
    t.sentTo.Some? && t.result > 0
  }

  function MadeTry(k: Stack, r: Recipient, now: nat, stamp: Timestamp, o: Outcome): Try {
    var to := Resolve(k, r, o);
    Try(now, to, if to.Some? then o.result else 0, stamp)
  }

  /** A due destination after an attempt that went as `y` tells. */
  function After(d: Destination, y: Try): Destination {
    var pending := !Received(y) && d.attempts + 1 != ATTEMPTS_MAX;
    Destination(
      d.recipient, y.sentTo, pending, d.canceled, d.attempts + 1,
      if y.sentTo.Some? then d.sendAttempts + 1 else d.sendAttempts,
      y.result,
      if d.attempts == 0 then y.at else d.firstAttempt,
      y.at,
      if Received(y) then y.at else d.lastAccepted,
      if pending then y.at + RETRY_MS else d.next)
  }

  /** A due destination after one pass through the loop of `bacnet_restart_tick`. */
  function Tried(k: Stack, t: Target, now: nat, stamp: Timestamp, o: Outcome): Target {
    var y := MadeTry(k, t.d.recipient, now, stamp, o);
    Target(After(t.d, y), t.tries + [y])
  }

  /** The statistics after that pass. */
  function Counted(k: Stack, d: Destination, stats: Stats, o: Outcome): Stats {
    var to := Resolve(k, d.recipient, o);
    if to.Some? && o.result > 0 then
      stats.(pending := stats.pending - 1, sent := stats.sent + 1)
    else
      var failed :=
        if to.Some? then stats.(sendFailures := stats.sendFailures + 1)
        else stats.(resolutionFailures := stats.resolutionFailures + 1);
      if d.attempts + 1 != ATTEMPTS_MAX then failed
      else failed.(pending := failed.pending - 1, exhausted := failed.exhausted + 1)
  }

  function TickFrom(k: Stack, ts: seq<Target>, stats: Stats, i: nat, now: nat, stamp: Timestamp, env: nat -> Outcome)
    : (seq<Target>, Stats)
    decreases |ts| - i
  {
    if i >= |ts| then (ts, stats)
    else if Due(ts[i].d, now) then
      TickFrom(k, ts[i := Tried(k, ts[i], now, stamp, env(i))], Counted(k, ts[i].d, stats, env(i)),
               i + 1, now, stamp, env)
    else TickFrom(k, ts, stats, i + 1, now, stamp, env)
  }

  // ----- the tick --------------------------------------------------------------------------------

  function Fresh(r: Recipient, now: nat): Target {
    Target(Destination(r, None, true, false, 0, 0, 0, 0, 0, 0, now), [])
  }

  /** The first ready tick fixes this boot's destinations. */
  function Snapshot(s: Sched, now: nat): Sched {
    if s.stats.bootReady then s
    else
      var rs := s.live.recipients;
      s.(targets := seq(|rs|, i requires 0 <= i < |rs| => Fresh(rs[i], now)),
         stats := s.stats.(bootReady := true, pending := |rs|))
  }

  /** Whether a tick gets past the guard of `bacnet_restart_tick`. */
  predicate Effective(k: Stack, s: Sched, ready: bool, instance: nat) {
    ready && s.stamp.Some? && instance < k.maxInstance
  }

  /** `bacnet_restart_tick`. */
  function Tick(k: Stack, s: Sched, now: nat, ready: bool, instance: nat, env: nat -> Outcome): Sched {
    if !Effective(k, s, ready, instance) then s
    else
      var b := Snapshot(s, now);
      var (targets, stats) := TickFrom(k, b.targets, b.stats, 0, now, b.stamp.value, env);
      b.(targets := targets, stats := stats)
  }

  // ----- a list edit -----------------------------------------------------------------------------

  predicate StillListed(k: Stack, live: List, r: Recipient) {
    exists x | x in live.recipients :: k.same(r, x)
  }

  function CancelFrom(k: Stack, ts: seq<Target>, stats: Stats, live: List, i: nat): (seq<Target>, Stats)
    decreases |ts| - i
  {
    if i >= |ts| then (ts, stats)
    else if ts[i].d.pending && !StillListed(k, live, ts[i].d.recipient) then
      CancelFrom(k, ts[i := Canceled(ts[i])], stats.(pending := stats.pending - 1), live, i + 1)
    else CancelFrom(k, ts, stats, live, i + 1)
  }

  function Canceled(t: Target): Target {
    t.(d := t.d.(pending := false, canceled := true))
  }

  function Adopt(k: Stack, s: Sched, key: Key, list: List): Sched {
    var (targets, stats) := CancelFrom(k, s.targets, s.stats, list, 0);
    s.(live := list, key := key, targets := targets, stats := stats)
  }

  /** `bacnet_restart_write_property`; `flash` is how flash would answer. */
  function Write(k: Stack, s: Sched, w: WriteRequest, flash: Flash): (Sched, WriteResult) {
    if !w.ownProperty then (s, AccessDenied)
    else if !w.wholeArray then (s, NotAnArray)
    else if w.bytes.None? || DecodeList(k, w.bytes.value).None? then (s, OutOfRange)
    else
      var list := DecodeList(k, w.bytes.value).value;
      var (key, stored) := StoreRecipients(s.key, list.canonical, flash);
      if stored then (Adopt(k, s, key, list), Accepted)
      else (s.(stats := s.stats.(persistenceFailures := s.stats.persistenceFailures + 1)), NotPersisted)
  }

  // ----- the module's statics ------------------------------------------------------------------

  function Zip(ds: seq<Destination>, ys: seq<seq<Try>>): (ts: seq<Target>)
    requires |ds| == |ys|
    ensures |ts| == |ds| && forall i :: 0 <= i < |ds| ==> ts[i] == Target(ds[i], ys[i])
  {
    seq(|ds|, i requires 0 <= i < |ds| => Target(ds[i], ys[i]))
  }

  const IDLE := Destination(OtherTag, None, false, false, 0, 0, 0, 0, 0, 0, 0)

  class Notifier {
    const stack: Stack
    const destinations: array<Destination>
    var live: List
    var key: Key
    var count: nat
    var stats: Stats
    var stamp: Option<Timestamp>
    ghost var tries: seq<seq<Try>>

    ghost predicate Valid()
      reads `live, `count, `tries
    {
      destinations.Length == RECIPIENTS_MAX && |live.recipients| <= RECIPIENTS_MAX &&
      count <= RECIPIENTS_MAX && |tries| == count
    }

    ghost function Targets(): (ts: seq<Target>)
      requires Valid()
      reads `live, `count, `tries, destinations
      ensures |ts| == count
      ensures forall i :: 0 <= i < count ==> ts[i] == Target(destinations[i], tries[i])
    {
      Zip(destinations[..count], tries)
    }

    ghost function View(): Sched
      requires Valid()
      reads this, destinations
    {
      Sched(live, key, Targets(), stats, stamp)
    }

    constructor (k: Stack, stored: Nvs, restartStamp: Option<Timestamp>)
      ensures Valid() && fresh(destinations) && stack == k
      ensures View() == Boot(k, stored, restartStamp)
    {
      stack := k;
      destinations := new Destination[RECIPIENTS_MAX](_ => IDLE);
      key, count, stats, stamp, tries := stored.key, 0, NO_STATS, None, [];
      live := NO_RECIPIENTS;
      new;
      assert Targets() == [];
      if restartStamp.Some? {
        var taken := SetStampBeforeReady(restartStamp.value);
        if !taken {
          stats := stats.(configurationErrors := stats.configurationErrors + 1);
        }
      }
      match ReadRecipients(stored) {
        case NotFound =>
          live := List([LOCAL_BROADCAST], k.encode(LOCAL_BROADCAST));
        case Found(bytes) =>
          var decoded := DecodeListLoop(k, bytes);
          if decoded.Some? {
            AtMostEight(k, bytes, NO_RECIPIENTS);
            live := decoded.value;
          } else {
            stats := stats.(configurationErrors := stats.configurationErrors + 1);
          }
        case _ =>
          stats := stats.(configurationErrors := stats.configurationErrors + 1);
      }
    }

    /** `bacnet_restart_set_timestamp_before_ready`. */
    method SetStampBeforeReady(t: Timestamp) returns (taken: bool)
      requires Valid()
      modifies this`stamp
      ensures Valid() && (View(), taken) == SetStamp(old(View()), t)
    {
      if stats.bootReady || !t.DateTime? || !t.wellFormed {
        return false;
      }
      stamp := Some(t);
      taken := true;
    }

    /** `recipient_still_listed`. */
    method Listed(r: Recipient) returns (found: bool)
      ensures found == StillListed(stack, live, r)
    {
      var i := 0;
      while i < |live.recipients|
        invariant i <= |live.recipients|
        invariant forall j :: 0 <= j < i ==> !stack.same(r, live.recipients[j])
      {
        if stack.same(r, live.recipients[i]) {
          return true;
        }
        i := i + 1;
      }
      found := false;
    }

    /** `bacnet_restart_write_property`. */
    method WriteProperty(w: WriteRequest, flash: Flash) returns (result: WriteResult)
      requires Valid()
      modifies this, destinations
      ensures Valid() && (View(), result) == Write(stack, old(View()), w, flash)
    {
      if !w.ownProperty {
        return AccessDenied;
      }
      if !w.wholeArray {
        return NotAnArray;
      }
      if w.bytes.None? {
        return OutOfRange;
      }
      var decoded := DecodeListLoop(stack, w.bytes.value);
      if decoded.None? {
        return OutOfRange;
      }
      var (written, stored) := StoreRecipients(key, decoded.value.canonical, flash);
      if !stored {
        stats := stats.(persistenceFailures := stats.persistenceFailures + 1);
        return NotPersisted;
      }
      AtMostEight(stack, w.bytes.value, NO_RECIPIENTS);
      key, live := written, decoded.value;
      CancelUnlisted();
      result := Accepted;
    }

    /** The cancellation loop of `bacnet_restart_write_property`. */
    method CancelUnlisted()
      requires Valid()
      modifies this`stats, destinations
      ensures Valid()
      ensures (Targets(), stats) == CancelFrom(stack, old(Targets()), old(stats), live, 0)
    {
      var i := 0;
      while i < count
        invariant i <= count && Valid()
        invariant CancelFrom(stack, Targets(), stats, live, i) ==
                  CancelFrom(stack, old(Targets()), old(stats), live, 0)
      {
        if destinations[i].pending {
          var listed := Listed(destinations[i].recipient);
          if !listed {
            CancelOne(i);
          }
        }
        i := i + 1;
      }
    }

    method CancelOne(i: nat)
      requires Valid() && i < count
      modifies this`stats, destinations
      ensures Valid() && stats == old(stats).(pending := old(stats).pending - 1)
      ensures Targets() == old(Targets())[i := Canceled(old(Targets())[i])]
    {
      destinations[i] := destinations[i].(pending := false);
      destinations[i] := destinations[i].(canceled := true);
      stats := stats.(pending := stats.pending - 1);
    }

    /** `bacnet_restart_tick`. */
    method TickNow(now: nat, ready: bool, instance: nat, env: nat -> Outcome)
      requires Valid()
      modifies this, destinations
      ensures Valid() && View() == Tick(stack, old(View()), now, ready, instance, env)
    {
      if !ready || stamp.None? || instance >= stack.maxInstance {
        return;
      }
      if !stats.bootReady {
        TakeSnapshot(now);
      }
      Attempts(now, env);
    }

    method TakeSnapshot(now: nat)
      requires Valid() && !stats.bootReady
      modifies this, destinations
      ensures Valid() && View() == Snapshot(old(View()), now)
    {
      stats := stats.(bootReady := true, pending := |live.recipients|);
      count := |live.recipients|;
      tries := seq(count, _ => []);
      var i := 0;
      while i < count
        invariant i <= count == |live.recipients| && Valid() && tries == seq(count, _ => [])
        invariant live == old(live) && key == old(key) && stamp == old(stamp)
        invariant stats == old(stats).(bootReady := true, pending := |live.recipients|)
        invariant forall j :: 0 <= j < i ==> destinations[j] == Fresh(live.recipients[j], now).d
      {
        destinations[i] := IDLE.(recipient := live.recipients[i], pending := true, next := now);
        i := i + 1;
      }
      assert Targets() == Snapshot(old(View()), now).targets;
    }

    /** The loop of `bacnet_restart_tick`. */
    method Attempts(now: nat, env: nat -> Outcome)
      requires Valid() && stamp.Some?
      modifies this`stats, this`tries, destinations
      ensures Valid()
      ensures (Targets(), stats) ==
              TickFrom(stack, old(Targets()), old(stats), 0, now, stamp.value, env)
    {
      var i := 0;
      while i < count
        invariant i <= count && Valid()
        invariant TickFrom(stack, Targets(), stats, i, now, stamp.value, env) ==
                  TickFrom(stack, old(Targets()), old(stats), 0, now, stamp.value, env)
      {
        if destinations[i].pending && now >= destinations[i].next {
          AttemptOne(i, now, env(i));
        }
        i := i + 1;
      }
    }

    method AttemptOne(i: nat, now: nat, o: Outcome)
      requires Valid() && stamp.Some? && i < count && Due(destinations[i], now)
      modifies this`stats, this`tries, destinations
      ensures Valid()
      ensures Targets() == old(Targets())[i := Tried(stack, old(Targets())[i], now, stamp.value, o)]
      ensures stats == Counted(stack, old(destinations[i]), old(stats), o)
    {
      tries := tries[i := tries[i] + [MadeTry(stack, destinations[i].recipient, now, stamp.value, o)]];
      destinations[i] := Attempt(destinations[i], now, o);
    }

    /** One attempt on a due destination. */
    method Attempt(due: Destination, now: nat, o: Outcome) returns (target: Destination)
      requires Due(due, now) && stamp.Some?
      modifies this`stats
      ensures target == After(due, MadeTry(stack, due.recipient, now, stamp.value, o))
      ensures stats == Counted(stack, due, old(stats), o)
    {
      target := due;
      if target.attempts == 0 {
        target := target.(firstAttempt := now);
      }
      target := target.(attempts := target.attempts + 1, lastAttempt := now);
      var resolved := o.resolved.Some? && ResolvedValid(stack, target.recipient, o.resolved.value);
      target := target.(address := if resolved then o.resolved else None, lastResult := 0);
      if !resolved {
        stats := stats.(resolutionFailures := stats.resolutionFailures + 1);
      } else {
        target := target.(sendAttempts := target.sendAttempts + 1, lastResult := o.result);
        if target.lastResult > 0 {
          target := target.(pending := false, lastAccepted := now);
          stats := stats.(pending := stats.pending - 1, sent := stats.sent + 1);
        } else {
          stats := stats.(sendFailures := stats.sendFailures + 1);
        }
      }
      if target.pending {
        if target.attempts == ATTEMPTS_MAX {
          target := target.(pending := false);
          stats := stats.(pending := stats.pending - 1, exhausted := stats.exhausted + 1);
        } else {
          target := target.(next := now + RETRY_MS);
        }
      }
    }
  }

  lemma {:induction false} AtMostEight(k: Stack, rest: seq<byte>, l: List)
    requires |l.recipients| <= RECIPIENTS_MAX && DecodeRest(k, rest, l).Some?
    ensures |DecodeRest(k, rest, l).value.recipients| <= RECIPIENTS_MAX
    decreases |rest|
  {
    if rest == [] {
    } else {
      var (r, consumed) := k.decode(rest);
      AtMostEight(k, rest[consumed..], Grow(k, l, r));
    }
  }
}
