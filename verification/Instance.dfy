/** Device-instance selection for one controller (`bacnet_instance.c`).

    `Node` is the record as a value, with the occupancy bitmap seen as the set
    `taken` of instance numbers.  The class at the end is the source's own record
    over a 125-byte bitmap, each method proved to do what the value function does. */
module Instance {
  import opened BitMask

  type u32 = x: nat | x < 0x1_0000_0000

  const FIRST: u32 := 599000
  const COUNT: nat := 1000
  const LAST: u32 := 599999
  const NONE: u32 := 0xFFFF_FFFF

  datatype Phase = Discovering | Claiming | Saving | Ready | RangeFull | SaveFailed | ConfigChanged

  datatype Node = Node(
    taken: set<u32>,
    phase: Phase,
    automatic: bool,
    conflict: bool,
    candidate: u32,
    preferred: u32,
    random: bv32,
    conflicts: nat,
    key: nat,
    deadline: nat,
    nextQuery: nat)

  datatype Actions = Actions(query: bool, announce: bool, save: bool)

  const NOTHING := Actions(false, false, false)

  predicate InRange(instance: u32) {
    FIRST <= instance <= LAST
  }

  function Left13(v: bv32): bv32 { v ^ (v << 13) }

  function Right17(v: bv32): bv32 { v ^ (v >> 17) }

  function Left5(v: bv32): bv32 { v ^ (v << 5) }

  /** The xorshift step. */
  function NextRandom(value: bv32): bv32 {
    Left5(Right17(Left13(value)))
  }

  /** The random part of the first query's delay. */
  function Jitter(random: bv32): (ms: nat)
    ensures ms <= 500
  {
    random as nat % 501
  }

  function InitialRandom(seed: bv32, key: nat): bv32 {
    var mixed := seed ^ ((key / 0x1_0000 % 0x1_0000_0000) as bv32) ^ ((key % 0x1_0000_0000) as bv32);
    if mixed == 0 then 0x9e37_79b9 else mixed
  }

  function Discover(n: Node, now: nat): Node {
    var random := NextRandom(n.random);
    var nextQuery := now + Jitter(random);
    n.(taken := {}, phase := Discovering, random := random,
       nextQuery := nextQuery, deadline := nextQuery + 3000)
  }

  function Blank(automatic: bool, preferred: u32, seed: bv32, key: nat): Node {
    Node({}, Discovering, automatic, false, preferred, preferred, InitialRandom(seed, key), 0, key, 0, 0)
  }

  function Start(automatic: bool, preferred: u32, seed: bv32, key: nat, now: nat): Node {
    var n := Blank(automatic, preferred, seed, key);
    if automatic then Discover(n, now) else n.(phase := Ready, nextQuery := now)
  }

  function Mark(taken: set<u32>, instance: u32): set<u32> {
    if InRange(instance) then taken + {instance} else taken
  }

  predicate Occupied(taken: set<u32>, instance: u32) {
    !InRange(instance) || instance in taken
  }

  /** An I-Am for `instance` from the device with address key `key`. */
  function Observe(n: Node, instance: u32, key: nat, now: nat): Node {
    if key == n.key then n
    else
      var seen := n.(taken := Mark(n.taken, instance));
      if instance != n.candidate || (n.phase != Claiming && n.phase != Ready) then seen
      else
        var hit := seen.(conflict := true, conflicts := n.conflicts + 1);
        if !n.automatic then hit
        else
          var again := Discover(hit.(preferred := NONE), now);
          again.(taken := Mark(again.taken, n.candidate))
  }

  function Slot(start: nat, i: nat): (r: u32)
    ensures InRange(r)
  {
    FIRST + (start + i) % COUNT
  }

  /** The first free slot among `i ..`, circularly from `start`, or none. */
  function Probe(taken: set<u32>, start: nat, i: nat): u32
    requires i <= COUNT
    decreases COUNT - i
  {
    if i == COUNT then NONE
    else if !Occupied(taken, Slot(start, i)) then Slot(start, i)
    else Probe(taken, start, i + 1)
  }

  /** The choice at the end of discovery: the preferred ID, else a probe from a random slot. */
  function Choose(n: Node): (Node, u32) {
    if !Occupied(n.taken, n.preferred) then (n, n.preferred)
    else
      var random := NextRandom(n.random);
      (n.(random := random), Probe(n.taken, random as nat % COUNT, 0))
  }

  /** The end of discovery: a claim of the chosen ID, or a wait for one to come free. */
  function EndDiscovery(n: Node, now: nat): (Node, Actions) {
    var (m, candidate) := Choose(n);
    if candidate == NONE then (m.(phase := RangeFull, deadline := now + 30000), NOTHING)
    else (m.(candidate := candidate, conflict := false, phase := Claiming,
             deadline := now + 3000, nextQuery := now + 1000),
          Actions(true, true, false))
  }

  /** A tick that does not end discovery. */
  function Continue(n: Node, now: nat): (Node, Actions) {
    if n.phase == Claiming && now >= n.deadline then
      (n.(phase := Saving), Actions(false, false, true))
    else if (n.phase == Discovering || n.phase == Claiming || n.phase == Ready) && now >= n.nextQuery then
      (n.(nextQuery := now + if n.phase == Ready then 60000 else 1000),
       Actions(true, n.phase == Claiming, false))
    else (n, NOTHING)
  }

  function Tick(node: Node, now: nat): (Node, Actions) {
    var n := if node.phase == RangeFull && now >= node.deadline then Discover(node, now) else node;
    if n.phase == Discovering && now >= n.deadline then EndDiscovery(n, now) else Continue(n, now)
  }

  function Saved(n: Node, success: bool, now: nat): Node {
    if n.phase != Saving then n
    else if success then
      n.(phase := Ready, automatic := false, preferred := n.candidate, conflict := false,
         nextQuery := now + 500)
    else n.(phase := SaveFailed)
  }

  // ----- the choice ------------------------------------------------------------

  ghost predicate RangeTaken(taken: set<u32>) {
    forall i: u32 :: InRange(i) ==> i in taken
  }

  lemma SlotsCoverRange(start: nat, instance: u32)
    requires InRange(instance)
    ensures exists i: nat :: i < COUNT && Slot(start, i) == instance
  {
    var offset := instance - FIRST;
    var s := start % COUNT;
    var i := if offset >= s then offset - s else offset + COUNT - s;
    assert (start + i) % COUNT == offset by {
      assert start == COUNT * (start / COUNT) + s;
    }
    assert Slot(start, i) == instance;
  }

  /** Slot `j` is free and holds `r`; the slots from `i` up to it are taken. */
  ghost predicate FirstFree(taken: set<u32>, start: nat, i: nat, j: nat, r: u32) {
    r == Slot(start, j) && r !in taken && forall k: nat :: i <= k < j ==> Slot(start, k) in taken
  }

  lemma {:induction false} ProbeFinds(taken: set<u32>, start: nat, i: nat)
    requires i <= COUNT
    ensures var r := Probe(taken, start, i);
      if r == NONE then forall j: nat :: i <= j < COUNT ==> Slot(start, j) in taken
      else (exists j: nat :: i <= j < COUNT && FirstFree(taken, start, i, j, r))
    decreases COUNT - i
  {
    if i == COUNT {
    } else {
      if Occupied(taken, Slot(start, i)) {
        ProbeFinds(taken, start, i + 1);
        if Probe(taken, start, i) != NONE {
          var j: nat :| i < j < COUNT && FirstFree(taken, start, i + 1, j, Probe(taken, start, i));
          assert FirstFree(taken, start, i, j, Probe(taken, start, i));
        }
      } else {
        assert FirstFree(taken, start, i, i, Slot(start, i));
      }
    }
  }

  /** A free in-range ID is chosen whenever there is one; only a full range gives none. */
  lemma ChoiceIsFree(n: Node)
    ensures Choose(n).1 == NONE <==> RangeTaken(n.taken)
    ensures Choose(n).1 != NONE ==> InRange(Choose(n).1) && Choose(n).1 !in n.taken
  {
    if Occupied(n.taken, n.preferred) {
      var start := NextRandom(n.random) as nat % COUNT;
      ProbeFinds(n.taken, start, 0);
      if Probe(n.taken, start, 0) == NONE {
        forall i: u32 | InRange(i) ensures i in n.taken {
          SlotsCoverRange(start, i);
        }
      }
    }
  }

  /** The first free slot circularly from `start` holds `r`. */
  ghost predicate FreeFrom(taken: set<u32>, start: nat, r: u32) {
    exists j: nat :: j < COUNT && FirstFree(taken, start, 0, j, r)
  }

  /** When the preferred ID is taken the choice is the first free one from a random slot, and
      the generator has moved on; else the preferred ID, and it has not. */
  lemma ChoiceIsFirstFree(n: Node)
    ensures var (m, r) := Choose(n);
      m == n.(random := if Occupied(n.taken, n.preferred) then NextRandom(n.random) else n.random) &&
      (!Occupied(n.taken, n.preferred) ==> r == n.preferred) &&
      (Occupied(n.taken, n.preferred) && r != NONE ==> FreeFrom(n.taken, m.random as nat % COUNT, r))
  {
    ProbeFinds(n.taken, NextRandom(n.random) as nat % COUNT, 0);
  }

  /** Discovery ends in a claim of a free ID, held for 3000 ms, and in RANGE_FULL, for 30000 ms,
      exactly when all 1000 are taken. */
  lemma EndOfDiscovery(n: Node, now: nat)
    requires n.phase == Discovering && now >= n.deadline
    ensures var (m, actions) := Tick(n, now);
      if RangeTaken(n.taken) then m.phase == RangeFull && m.deadline == now + 30000 && actions == NOTHING
      else m.phase == Claiming && InRange(m.candidate) && m.candidate !in n.taken && !m.conflict
           && m.candidate == Choose(n).1 && m.random == Choose(n).0.random && m.taken == n.taken
           && m.deadline == now + 3000 && m.nextQuery == now + 1000 && actions == Actions(true, true, false)
  {
    ChoiceIsFree(n);
  }

  /** Before it is over discovery asks once a second and does nothing else. */
  lemma DiscoveryTick(n: Node, now: nat)
    requires n.phase == Discovering && now < n.deadline
    ensures var (m, actions) := Tick(n, now);
      actions == Actions(now >= n.nextQuery, false, false) &&
      m == n.(nextQuery := if actions.query then now + 1000 else n.nextQuery)
  {
  }

  /** A claim is repeated every second, both asked and announced, until its time is over; then
      it asks to be saved. */
  lemma ClaimTick(n: Node, now: nat)
    requires n.phase == Claiming
    ensures var (m, actions) := Tick(n, now);
      if now >= n.deadline then m == n.(phase := Saving) && actions == Actions(false, false, true)
      else actions == Actions(now >= n.nextQuery, now >= n.nextQuery, false) &&
           m == n.(nextQuery := if actions.query then now + 1000 else n.nextQuery)
  {
  }

  /** A manual start is ready at once on its own number, and asks about it at the first tick. */
  lemma ManualStart(preferred: u32, seed: bv32, key: nat, now: nat)
    ensures var n := Start(false, preferred, seed, key, now);
      n.phase == Ready && !n.automatic && !n.conflict && n.conflicts == 0 && n.key == key &&
      n.candidate == n.preferred == preferred && n.taken == {} &&
      Tick(n, now) == (n.(nextQuery := now + 60000), Actions(true, false, false))
  {
  }

  /** A full range is waited out, and then discovered afresh. */
  lemma RangeFullTick(n: Node, now: nat)
    requires n.phase == RangeFull
    ensures var (m, actions) := Tick(n, now);
      (m.phase == Discovering <==> now >= n.deadline) &&
      if now < n.deadline then m == n && actions == NOTHING
      else m.taken == {} && now + 3000 <= m.deadline <= now + 3500 && !actions.announce && !actions.save &&
           m.automatic == n.automatic && m.preferred == n.preferred && (actions.query <==> m.deadline == now + 3000)
  {
  }

  /** A ready controller asks about its own number every minute, and does nothing else. */
  lemma ReadyTick(n: Node, now: nat)
    requires n.phase == Ready
    ensures var (m, actions) := Tick(n, now);
      actions == Actions(now >= n.nextQuery, false, false) &&
      m == n.(nextQuery := if actions.query then now + 60000 else n.nextQuery)
  {
  }

  /** A foreign claim on the number a controller claims or holds is a conflict, and counted; only
      an unlocked controller gives way, forgetting what it preferred. */
  lemma ForeignClaim(n: Node, key: nat, now: nat)
    requires key != n.key && (n.phase == Claiming || n.phase == Ready)
    ensures var m := Observe(n, n.candidate, key, now);
      m.conflict && m.conflicts == n.conflicts + 1 && m.automatic == n.automatic &&
      if n.automatic then m.phase == Discovering && m.preferred == NONE && now + 3000 <= m.deadline <= now + 3500
      else m.phase == n.phase && m.candidate == n.candidate && m.deadline == n.deadline && m.nextQuery == n.nextQuery
  {
  }

  /** What the answer to a save makes of the claim. */
  lemma SaveOutcome(n: Node, success: bool, now: nat)
    ensures var m := Saved(n, success, now);
      (n.phase != Saving ==> m == n) &&
      (n.phase == Saving && success ==>
        m.phase == Ready && !m.automatic && m.preferred == m.candidate == n.candidate && !m.conflict &&
        m.nextQuery == now + 500) &&
      (n.phase == Saving && !success ==> m == n.(phase := SaveFailed))
  {
  }

  // ----- the generator never sticks ------------------------------------------------

  lemma NonzeroLeft13(v: bv32)
    ensures Left13(v) == 0 ==> v == 0
  {}

  lemma NonzeroRight17(v: bv32)
    ensures Right17(v) == 0 ==> v == 0
  {}

  lemma NonzeroLeft5(v: bv32)
    ensures Left5(v) == 0 ==> v == 0
  {}

  /** A nonzero xorshift state stays nonzero, so jitter and probe starts keep varying. */
  lemma RandomStaysNonzero(v: bv32)
    requires v != 0
    ensures NextRandom(v) != 0
  {
    NonzeroLeft13(v);
    NonzeroRight17(Left13(v));
    NonzeroLeft5(Right17(Left13(v)));
  }

  lemma UndoLeft13(v: bv32)
    ensures Left13(v ^ (v << 13) ^ (v << 26)) == v
  {}

  lemma UndoRight17(v: bv32)
    ensures Right17(v ^ (v >> 17)) == v
  {}

  lemma UndoLeft5(v: bv32)
    ensures Left5(v ^ (v << 5) ^ (v << 10) ^ (v << 15) ^ (v << 20) ^ (v << 25) ^ (v << 30)) == v
  {}

  function Unleft13(v: bv32): (r: bv32)
    ensures Left13(r) == v
  {
    UndoLeft13(v);
    v ^ (v << 13) ^ (v << 26)
  }

  function Unright17(v: bv32): (r: bv32)
    ensures Right17(r) == v
  {
    UndoRight17(v);
    v ^ (v >> 17)
  }

  function Unleft5(v: bv32): (r: bv32)
    ensures Left5(r) == v
  {
    UndoLeft5(v);
    v ^ (v << 5) ^ (v << 10) ^ (v << 15) ^ (v << 20) ^ (v << 25) ^ (v << 30)
  }

  lemma NextIs(y: bv32, x: bv32, w: bv32, v: bv32)
    requires Left13(y) == x && Right17(x) == w && Left5(w) == v
    ensures NextRandom(y) == v
  {}

  /** Every state is the successor of another, so the step permutes the states. */
  lemma HasPrevious(v: bv32) returns (before: bv32)
    ensures NextRandom(before) == v
  {
    var w := Unleft5(v);
    var x := Unright17(w);
    before := Unleft13(x);
    NextIs(before, x, w, v);
  }

  lemma JitterOf(random: bv32)
    requires random as nat <= 500
    ensures Jitter(random) == random as nat
  {
  }

  /** A discovery waits any of 0 to 500 ms and no other time, by the state of the generator. */
  lemma JitterIsAny(n: Node, now: nat, jitter: bv32)
    ensures jitter as nat <= 500 <==>
      exists random: bv32 :: Discover(n.(random := random), now).nextQuery == now + jitter as nat
  {
    if jitter as nat <= 500 {
      var random := HasPrevious(jitter);
      JitterOf(jitter);
      assert Discover(n.(random := random), now).nextQuery == now + jitter as nat;
    }
  }

  /** No controller starts with the one state the generator never leaves. */
  lemma SeedIsNonzero(seed: bv32, key: nat)
    ensures InitialRandom(seed, key) != 0
  {
  }

  // ----- the record --------------------------------------------------------------

  /** `bacnet_instance_t`. */
  class InstanceRecord {
    const occupied: array<bv8>
    var phase: Phase
    var automatic: bool
    var conflict: bool
    var candidate: u32
    var preferred: u32
    var random: bv32
    var conflicts: nat
    var key: nat
    var deadline: nat
    var nextQuery: nat

    constructor ()
      ensures Valid() && fresh(occupied)
    {
      occupied := new bv8[125](_ => 0);
      phase, automatic, conflict := Discovering, false, false;
      candidate, preferred, random, conflicts := 0, 0, 0, 0;
      key, deadline, nextQuery := 0, 0, 0;
    }

    predicate Valid() {
      occupied.Length == 125
    }

    predicate Marked(i: nat)
      requires Valid() && i < COUNT
      reads occupied
    {
      Bit(occupied[i / 8], i % 8)
    }

    /** The bitmap as a set of instance numbers. */
    ghost function Taken(): set<u32>
      requires Valid()
      reads occupied
    {
      set i: u32 | InRange(i) && Marked(i - FIRST)
    }

    ghost function View(): Node
      requires Valid()
      reads this, occupied
    {
      Node(Taken(), phase, automatic, conflict, candidate, preferred, random, conflicts, key,
           deadline, nextQuery)
    }

    method ClearBitmap()
      requires Valid()
      modifies occupied
      ensures Taken() == {}
    {
      for i := 0 to 125
        invariant forall k :: 0 <= k < i ==> occupied[k] == 0
      {
        occupied[i] := 0;
      }
      forall i: u32 | InRange(i) ensures !Marked(i - FIRST) {
        NoBits((i - FIRST) % 8);
      }
    }

    method MarkOccupied(instance: u32)
      requires Valid()
      modifies occupied
      ensures Taken() == Mark(old(Taken()), instance)
    {
      if InRange(instance) {
        var index := instance - FIRST;
        SetBitIsBit(occupied[index / 8], index % 8);
        occupied[index / 8] := SetBit(occupied[index / 8], index % 8);
        forall i: u32 | InRange(i)
          ensures Marked(i - FIRST) == (i == instance || old(Marked(i - FIRST)))
        {
          var k := i - FIRST;
          if k / 8 == index / 8 {
            assert k % 8 == index % 8 <==> k == index;
          }
        }
      }
    }

    predicate IsOccupied(instance: u32)
      requires Valid()
      reads occupied
      ensures IsOccupied(instance) == Occupied(Taken(), instance)
    {
      !InRange(instance) || Marked(instance - FIRST)
    }

    method DiscoverAgain(now: nat)
      requires Valid()
      modifies this, occupied
      ensures Valid() && View() == Discover(old(View()), now)
    {
      ClearBitmap();
      phase := Discovering;
      random := NextRandom(random);
      nextQuery := now + Jitter(random);
      deadline := nextQuery + 3000;
    }

    method Begin(automatic: bool, preferred: u32, seed: bv32, key: nat, now: nat)
      requires Valid()
      modifies this, occupied
      ensures Valid() && View() == Start(automatic, preferred, seed, key, now)
    {
      Reset(automatic, preferred, seed, key);
      if automatic {
        DiscoverAgain(now);
      } else {
        phase := Ready;
        nextQuery := now;
      }
    }

    /** The cleared record, with its address and its random seed. */
    method Reset(automatic: bool, preferred: u32, seed: bv32, key: nat)
      requires Valid()
      modifies this, occupied
      ensures Valid() && View() == Blank(automatic, preferred, seed, key)
    {
      conflict, conflicts, deadline, nextQuery, phase := false, 0, 0, 0, Discovering;
      this.automatic, this.preferred, this.candidate, this.key := automatic, preferred, preferred, key;
      random := InitialRandom(seed, key);
      ClearBitmap();
    }

    method ObserveIAm(instance: u32, key: nat, now: nat)
      requires Valid()
      modifies this, occupied
      ensures Valid() && View() == Observe(old(View()), instance, key, now)
    {
      if key == this.key {
        return;
      }
      MarkOccupied(instance);
      if instance != candidate || (phase != Claiming && phase != Ready) {
        return;
      }
      conflict := true;
      conflicts := conflicts + 1;
      if !automatic {
        return;
      }
      var duplicate := candidate;
      preferred := NONE;
      DiscoverAgain(now);
      MarkOccupied(duplicate);
    }

    method TickNow(now: nat) returns (actions: Actions)
      requires Valid()
      modifies this, occupied
      ensures Valid() && (View(), actions) == Tick(old(View()), now)
    {
      if phase == RangeFull && now >= deadline {
        DiscoverAgain(now);
      }
      if phase == Discovering && now >= deadline {
        actions := LeaveDiscovery(now);
        return;
      }
      actions := GoOn(now);
    }

    /** The branch of a tick that ends discovery. */
    method LeaveDiscovery(now: nat) returns (actions: Actions)
      requires Valid()
      modifies this
      ensures Valid() && (View(), actions) == EndDiscovery(old(View()), now)
    {
      var chosen := ChooseCandidate();
      if chosen == NONE {
        phase := RangeFull;
        deadline := now + 30000;
        return NOTHING;
      }
      BeginClaim(chosen, now);
      return Actions(true, true, false);
    }

    method BeginClaim(chosen: u32, now: nat)
      requires Valid()
      modifies this
      ensures View() == old(View()).(candidate := chosen, conflict := false, phase := Claiming,
                                     deadline := now + 3000, nextQuery := now + 1000)
    {
      candidate := chosen;
      conflict := false;
      phase := Claiming;
      deadline := now + 3000;
      nextQuery := now + 1000;
    }

    /** The rest of a tick. */
    method GoOn(now: nat) returns (actions: Actions)
      requires Valid()
      modifies this
      ensures Valid() && (View(), actions) == Continue(old(View()), now)
    {
      if phase == Claiming && now >= deadline {
        phase := Saving;
        return Actions(false, false, true);
      }
      if (phase == Discovering || phase == Claiming || phase == Ready) && now >= nextQuery {
        nextQuery := now + if phase == Ready then 60000 else 1000;
        return Actions(true, phase == Claiming, false);
      }
      return NOTHING;
    }

    /** The preferred ID if free, else the wrap-around probe from a random start. */
    method ChooseCandidate() returns (chosen: u32)
      requires Valid()
      modifies this`random
      ensures Valid() && (View(), chosen) == Choose(old(View()))
    {
      if !IsOccupied(preferred) {
        return preferred;
      }
      ghost var before := View();
      var next := NextRandom(random);
      random := next;
      assert View() == before.(random := next);
      chosen := ProbeFrom(next as nat % COUNT);
    }

    method ProbeFrom(start: nat) returns (chosen: u32)
      requires Valid()
      ensures chosen == Probe(Taken(), start, 0)
    {
      chosen := NONE;
      for i := 0 to COUNT
        invariant Probe(Taken(), start, 0) == Probe(Taken(), start, i)
      {
        if !IsOccupied(Slot(start, i)) {
          return Slot(start, i);
        }
      }
    }

    method SavedNow(success: bool, now: nat)
      requires Valid()
      modifies this
      ensures Valid() && View() == Saved(old(View()), success, now)
    {
      if phase != Saving {
        return;
      }
      phase := if success then Ready else SaveFailed;
      if success {
        automatic := false;
        preferred := candidate;
        conflict := false;
        nextQuery := now + 500;
      }
    }
  }
}
