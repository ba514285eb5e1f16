/** Any number of controllers claiming instance numbers over one network.

    A world is the controllers (keyed by their distinct address keys), the
    packets in flight with their delivery deadlines, and a clock that cannot pass
    an undelivered deadline.  The steps are the loop iterations of
    `bacnet_app.c`: one received packet, or one tick with the sends it asks for. */
module ClaimProtocol {
  import opened Instance

  datatype Packet =
    | WhoIs(src: nat, dst: nat, low: u32, high: u32, due: nat)
    | IAm(src: nat, dst: nat, instance: u32, due: nat)

  datatype World = World(nodes: map<nat, Node>, wire: set<Packet>, now: nat, delay: nat)

  /** What `config_store_assign_instance` reports to the loop. */
  datatype SaveResult = Stored | StoreFailed | StaleRevision

  datatype Event =
    | Advance(to: nat)
    | Boot(k: nat, preferred: u32, seed: bv32)
    | Iterate(k: nat, result: SaveResult)
    | Deliver(p: Packet)
    | OutsideIAm(k: nat, instance: u32, key: nat)
    | OutsideWhoIs(k: nat, low: u32, high: u32)

  /** One tick of the loop: SAVE and its outcome belong to the same iteration. */
  function TickAndSave(n: Node, now: nat, result: SaveResult): (Node, Actions) {
    var (m, actions) := Tick(n, now);
    if !actions.save then (m, actions)
    else
      var saved := Saved(m, result == Stored, now);
      (if result == StaleRevision then saved.(phase := ConfigChanged) else saved, actions)
  }

  function Others(w: World, k: nat): set<nat> {
    w.nodes.Keys - {k}
  }

  function SendWhoIs(w: World, k: nat, low: u32, high: u32): set<Packet> {
    set d | d in Others(w, k) :: WhoIs(k, d, low, high, w.now + w.delay)
  }

  function SendIAm(w: World, k: nat, instance: u32): set<Packet> {
    set d | d in Others(w, k) :: IAm(k, d, instance, w.now + w.delay)
  }

  /** The sends of an iteration: the query covers the whole range while discovering. */
  function Sends(w: World, k: nat, m: Node, actions: Actions): set<Packet> {
    (if !actions.query then {}
     else if m.phase == Discovering then SendWhoIs(w, k, FIRST, LAST)
     else SendWhoIs(w, k, m.candidate, m.candidate)) +
    (if actions.announce then SendIAm(w, k, m.candidate) else {})
  }

  predicate Holds(n: Node) {
    n.phase == Claiming || n.phase == Ready
  }

  /** The Who-Is handler: only a holder answers, and only for its own number. */
  function Answer(w: World, k: nat, low: u32, high: u32): set<Packet>
    requires k in w.nodes
  {
    var n := w.nodes[k];
    if Holds(n) && low <= n.candidate <= high then SendIAm(w, k, n.candidate) else {}
  }

  /** Packet `p` goes from `k` to some other controller, as soon as the network delivers. */
  predicate FromTo(w: World, k: nat, p: Packet) {
    p.src == k && p.dst in w.nodes && p.dst != k && p.due == w.now + w.delay
  }

  /** An iteration asks every other controller, about all 1000 numbers while it discovers and
      about its own after that, and announces its own, exactly as its tick tells. */
  lemma SendsExactly(w: World, k: nat, m: Node, actions: Actions, p: Packet)
    ensures p in Sends(w, k, m, actions) <==>
      (FromTo(w, k, p) &&
       if p.IAm? then actions.announce && p.instance == m.candidate
       else actions.query && if m.phase == Discovering then p.low == 599000 && p.high == 599999
                             else p.low == m.candidate && p.high == m.candidate)
  {
    if FromTo(w, k, p) {
      assert p.dst in Others(w, k);
      assert p == if p.IAm? then IAm(k, p.dst, p.instance, p.due) else WhoIs(k, p.dst, p.low, p.high, p.due);
    }
  }

  /** A query is answered, to everyone, exactly by those that claim or hold a number it covers. */
  lemma AnswersExactly(w: World, k: nat, low: u32, high: u32, p: Packet)
    requires k in w.nodes
    ensures p in Answer(w, k, low, high) <==>
      (FromTo(w, k, p) && p.IAm? && p.instance == w.nodes[k].candidate && low <= p.instance <= high &&
       (w.nodes[k].phase == Claiming || w.nodes[k].phase == Ready))
  {
    if FromTo(w, k, p) && p.IAm? {
      assert p.dst in Others(w, k) && p == IAm(k, p.dst, p.instance, p.due);
    }
  }

  predicate Enabled(w: World, e: Event) {
    match e
    case Advance(to) => w.now <= to && forall p | p in w.wire :: to <= p.due
    // A controller joins, or restarts, only while its assignment is pending.
    case Boot(k, _, _) => k in w.nodes ==> w.nodes[k].automatic
    case Iterate(k, _) => k in w.nodes
    case Deliver(p) => p in w.wire && p.dst in w.nodes
    case OutsideIAm(k, _, _) => k in w.nodes
    case OutsideWhoIs(k, _, _) => k in w.nodes
  }

  function Step(w: World, e: Event): World
    requires Enabled(w, e)
  {
    match e
    case Advance(to) => w.(now := to)
    case Boot(k, preferred, seed) =>
      w.(nodes := w.nodes[k := Start(true, preferred, seed, k, w.now)])
    case Iterate(k, result) =>
      var (m, actions) := TickAndSave(w.nodes[k], w.now, result);
      w.(nodes := w.nodes[k := m], wire := w.wire + Sends(w, k, m, actions))
    case Deliver(p) =>
      var rest := w.wire - {p};
      if p.WhoIs? then w.(wire := rest + Answer(w, p.dst, p.low, p.high))
      else w.(nodes := w.nodes[p.dst := Observe(w.nodes[p.dst], p.instance, p.src, w.now)], wire := rest)
    case OutsideIAm(k, instance, key) =>
      w.(nodes := w.nodes[k := Observe(w.nodes[k], instance, key, w.now)])
    case OutsideWhoIs(k, low, high) =>
      w.(wire := w.wire + Answer(w, k, low, high))
  }

  /** A controller that boots looks for the number it kept first, and discovers before it claims. */
  lemma BootDiscovers(w: World, k: nat, preferred: u32, seed: bv32)
    requires Enabled(w, Boot(k, preferred, seed))
    ensures var n := Step(w, Boot(k, preferred, seed)).nodes[k];
      n.phase == Discovering && n.automatic && n.key == k && n.preferred == preferred && n.taken == {} &&
      w.now + 3000 <= n.deadline <= w.now + 3500
  {
  }

  /** A claim from outside on a number that is claimed or held counts like any other. */
  lemma OutsideClaim(w: World, k: nat, key: nat)
    requires k in w.nodes && key != w.nodes[k].key && Holds(w.nodes[k])
    ensures var (n, m) := (w.nodes[k], Step(w, OutsideIAm(k, w.nodes[k].candidate, key)).nodes[k]);
      m.conflict && m.conflicts == n.conflicts + 1 &&
      (if n.automatic then m.phase == Discovering else m.phase == n.phase && m.candidate == n.candidate)
  {
    ForeignClaim(w.nodes[k], key, w.now);
  }

  /** And a query from outside is answered like any other. */
  lemma OutsideQuery(w: World, k: nat, low: u32, high: u32, p: Packet)
    requires k in w.nodes
    ensures p in Step(w, OutsideWhoIs(k, low, high)).wire <==>
      p in w.wire ||
      (FromTo(w, k, p) && p.IAm? && p.instance == w.nodes[k].candidate && low <= p.instance <= high &&
       Holds(w.nodes[k]))
  {
    AnswersExactly(w, k, low, high, p);
  }

  // ----- the invariant -----------------------------------------------------------

  ghost predicate NodeOk(n: Node, k: nat) {
    n.key == k && n.phase != Saving &&
    (n.phase == Ready ==> !n.automatic) &&
    (n.phase in {Discovering, Claiming, RangeFull} ==> n.automatic)
  }

  ghost predicate WellFormed(w: World, preset: set<nat>) {
    2 * w.delay < 3000 &&
    (forall k | k in w.nodes :: NodeOk(w.nodes[k], k)) &&
    (forall k | k in preset :: k in w.nodes && w.nodes[k].phase == Ready) &&
    (forall p | p in w.wire :: w.now <= p.due && p.src != p.dst)
  }

  ghost predicate Rivals(w: World, a: nat, b: nat) {
    a in w.nodes && b in w.nodes && a != b && Holds(w.nodes[a]) && Holds(w.nodes[b]) &&
    w.nodes[a].candidate == w.nodes[b].candidate
  }

  /** Packet `p` will make the claimer `l` aware of the holder `e` before `l` can lock:
      it is `l`'s query, or `e`'s claim itself. */
  ghost predicate Alarm(w: World, p: Packet, e: nat, l: nat)
    requires e in w.nodes && l in w.nodes
  {
    var n := w.nodes[l];
    if p.WhoIs? then
      p.src == l && p.dst == e && p.low <= n.candidate <= p.high && p.due + w.delay < n.deadline
    else
      p.src == e && p.dst == l && p.instance == n.candidate && p.due < n.deadline
  }

  /** `l` is still claiming and an alarm about `e` is in flight. */
  ghost predicate MustYield(w: World, e: nat, l: nat)
    requires e in w.nodes && l in w.nodes
  {
    w.nodes[l].phase == Claiming && exists p :: p in w.wire && Alarm(w, p, e, l)
  }

  ghost predicate Resolved(w: World, preset: set<nat>, a: nat, b: nat) {
    Rivals(w, a, b) ==> (a in preset && b in preset) || MustYield(w, a, b) || MustYield(w, b, a)
  }

  ghost predicate Inv(w: World, preset: set<nat>) {
    WellFormed(w, preset) && forall a, b :: Resolved(w, preset, a, b)
  }

  /** Before the run some controllers are locked or manual (the preset ones); the rest discover. */
  ghost predicate Init(w: World, preset: set<nat>) {
    2 * w.delay < 3000 && w.wire == {} &&
    (forall k | k in w.nodes :: NodeOk(w.nodes[k], k) &&
      w.nodes[k].phase == if k in preset then Ready else Discovering) &&
    preset <= w.nodes.Keys
  }

  lemma InitInv(w: World, preset: set<nat>)
    requires Init(w, preset)
    ensures Inv(w, preset)
  {}

  // ----- single-node facts -------------------------------------------------------

  ghost predicate SameFace(n: Node, m: Node) {
    n.phase == m.phase && n.candidate == m.candidate && n.deadline == m.deadline
  }

  /** What one iteration can do to the claim another node sees. */
  lemma IterationFaces(n: Node, now: nat, result: SaveResult, k: nat)
    requires NodeOk(n, k)
    ensures var (m, actions) := TickAndSave(n, now, result);
      NodeOk(m, k) &&
      (|| SameFace(n, m)
       || !Holds(m)
       || (!Holds(n) && m.phase == Claiming && m.deadline == now + 3000 && actions == Actions(true, true, false))
       || (n.phase == Claiming && now >= n.deadline && m.phase == Ready && m.candidate == n.candidate)) &&
      (n.phase == Ready ==> m.phase == Ready)
  {}

  lemma ObserveFaces(n: Node, instance: u32, key: nat, now: nat, k: nat)
    requires NodeOk(n, k)
    ensures var m := Observe(n, instance, key, now);
      NodeOk(m, k) && (SameFace(n, m) || !Holds(m)) &&
      (n.phase == Ready ==> m.phase == Ready) &&
      (n.phase == Claiming && instance == n.candidate && key != k ==> !Holds(m))
  {}

  // ----- preservation --------------------------------------------------------------

  /** An alarm survives any step that keeps both claims and its packet. */
  lemma KeepYield(w: World, v: World, e: nat, l: nat, p: Packet)
    requires e in w.nodes && l in w.nodes && e in v.nodes && l in v.nodes
    requires w.nodes[l].phase == Claiming && Alarm(w, p, e, l) && p in v.wire
    requires v.delay == w.delay && SameFace(w.nodes[l], v.nodes[l])
    ensures MustYield(v, e, l)
  {
  }

  /** Nothing about `a` and `b` changes except that the wire may grow. */
  lemma KeepPair(w: World, v: World, preset: set<nat>, a: nat, b: nat)
    requires Resolved(w, preset, a, b)
    requires w.wire <= v.wire && v.delay == w.delay
    requires a in w.nodes && b in w.nodes && a in v.nodes && b in v.nodes
    requires SameFace(w.nodes[a], v.nodes[a]) && SameFace(w.nodes[b], v.nodes[b])
    ensures Resolved(v, preset, a, b)
  {
  }

  /** Nodes other than `k` are untouched and `k`'s face is kept or no longer holds. */
  lemma KeepUnlessReleased(w: World, v: World, preset: set<nat>, k: nat)
    requires Inv(w, preset) && k in v.nodes
    requires v.nodes.Keys == w.nodes.Keys + {k} && w.wire <= v.wire && v.delay == w.delay
    requires forall j | j in w.nodes && j != k :: v.nodes[j] == w.nodes[j]
    requires !Holds(v.nodes[k]) || (k in w.nodes && SameFace(w.nodes[k], v.nodes[k]))
    ensures forall a, b :: Resolved(v, preset, a, b)
  {
    forall a, b ensures Resolved(v, preset, a, b) {
      if Rivals(v, a, b) {
        KeepPair(w, v, preset, a, b);
      }
    }
  }

  lemma AdvanceKeeps(w: World, preset: set<nat>, to: nat)
    requires Inv(w, preset) && Enabled(w, Advance(to))
    ensures Inv(Step(w, Advance(to)), preset)
  {
    var v := Step(w, Advance(to));
    forall a, b ensures Resolved(v, preset, a, b) {
      if Rivals(v, a, b) {
        KeepPair(w, v, preset, a, b);
      }
    }
  }

  lemma BootKeeps(w: World, preset: set<nat>, e: Event)
    requires Inv(w, preset) && e.Boot? && Enabled(w, e)
    ensures Inv(Step(w, e), preset)
  {
    KeepUnlessReleased(w, Step(w, e), preset, e.k);
  }

  lemma OutsideKeeps(w: World, preset: set<nat>, e: Event)
    requires Inv(w, preset) && (e.OutsideIAm? || e.OutsideWhoIs?) && Enabled(w, e)
    ensures Inv(Step(w, e), preset)
  {
    if e.OutsideIAm? {
      ObserveFaces(w.nodes[e.k], e.instance, e.key, w.now, e.k);
    }
    KeepUnlessReleased(w, Step(w, e), preset, e.k);
  }

  /** A new claim: the claimer's query to every other holder is in flight in time. */
  lemma ClaimKeeps(w: World, preset: set<nat>, k: nat, result: SaveResult)
    requires Inv(w, preset) && k in w.nodes
    requires !Holds(w.nodes[k])
    requires TickAndSave(w.nodes[k], w.now, result).0.phase == Claiming
    ensures forall a, b :: Resolved(Step(w, Iterate(k, result)), preset, a, b)
  {
    var v := Step(w, Iterate(k, result));
    IterationFaces(w.nodes[k], w.now, result, k);
    var c := v.nodes[k].candidate;
    forall a, b ensures Resolved(v, preset, a, b) {
      if Rivals(v, a, b) {
        if a == k || b == k {
          var other := if a == k then b else a;
          var query := WhoIs(k, other, c, c, w.now + w.delay);
          assert other in Others(w, k);
          assert query in SendWhoIs(w, k, c, c);
          assert query in v.wire && Alarm(v, query, other, k);
        } else {
          KeepPair(w, v, preset, a, b);
        }
      }
    }
  }

  /** A claimer whose deadline has come has no alarm left, so its rivals must yield to it. */
  lemma DueClaimerWins(w: World, preset: set<nat>, k: nat, b: nat)
    requires Inv(w, preset) && Rivals(w, b, k)
    requires w.nodes[k].phase == Claiming && w.now >= w.nodes[k].deadline
    ensures MustYield(w, k, b)
  {
    assert Resolved(w, preset, b, k);
    assert forall p | p in w.wire :: w.now <= p.due;
  }

  lemma LockKeeps(w: World, preset: set<nat>, k: nat, result: SaveResult)
    requires Inv(w, preset) && k in w.nodes
    requires w.nodes[k].phase == Claiming && w.now >= w.nodes[k].deadline
    requires TickAndSave(w.nodes[k], w.now, result).0.phase == Ready
    ensures forall a, b :: Resolved(Step(w, Iterate(k, result)), preset, a, b)
  {
    var v := Step(w, Iterate(k, result));
    IterationFaces(w.nodes[k], w.now, result, k);
    forall a, b ensures Resolved(v, preset, a, b) {
      if Rivals(v, a, b) {
        if a == k || b == k {
          var other := if a == k then b else a;
          DueClaimerWins(w, preset, k, other);
          var p :| p in w.wire && Alarm(w, p, k, other);
          KeepYield(w, v, k, other, p);
        } else {
          KeepPair(w, v, preset, a, b);
        }
      }
    }
  }

  lemma IterateKeeps(w: World, preset: set<nat>, k: nat, result: SaveResult)
    requires Inv(w, preset) && k in w.nodes
    ensures Inv(Step(w, Iterate(k, result)), preset)
  {
    var v := Step(w, Iterate(k, result));
    IterationFaces(w.nodes[k], w.now, result, k);
    if SameFace(w.nodes[k], v.nodes[k]) || !Holds(v.nodes[k]) {
      KeepUnlessReleased(w, v, preset, k);
    } else if v.nodes[k].phase == Claiming {
      ClaimKeeps(w, preset, k, result);
    } else {
      LockKeeps(w, preset, k, result);
    }
  }

  /** A delivered query turns into the holder's answer, still in time. */
  lemma QueryKeeps(w: World, preset: set<nat>, p: Packet)
    requires Inv(w, preset) && p.WhoIs? && Enabled(w, Deliver(p))
    ensures Inv(Step(w, Deliver(p)), preset)
  {
    var v := Step(w, Deliver(p));
    forall a, b ensures Resolved(v, preset, a, b) {
      if Rivals(v, a, b) {
        assert Resolved(w, preset, a, b);
        if MustYield(w, a, b) {
          QueryAnswered(w, p, a, b);
        }
        if MustYield(w, b, a) {
          QueryAnswered(w, p, b, a);
        }
      }
    }
  }

  lemma QueryAnswered(w: World, p: Packet, e: nat, l: nat)
    requires p.WhoIs? && Enabled(w, Deliver(p)) && w.now <= p.due
    requires Rivals(w, e, l) && MustYield(w, e, l)
    ensures MustYield(Step(w, Deliver(p)), e, l)
  {
    var v := Step(w, Deliver(p));
    var q :| q in w.wire && Alarm(w, q, e, l);
    if q == p {
      var reply := IAm(e, l, w.nodes[e].candidate, w.now + w.delay);
      assert l in Others(w, e);
      assert reply in SendIAm(w, e, w.nodes[e].candidate);
      assert reply in v.wire && Alarm(v, reply, e, l);
    } else {
      KeepYield(w, v, e, l, q);
    }
  }

  /** A delivered claim makes the claimer it warns release the number. */
  lemma ClaimHeardKeeps(w: World, preset: set<nat>, p: Packet)
    requires Inv(w, preset) && p.IAm? && Enabled(w, Deliver(p))
    ensures Inv(Step(w, Deliver(p)), preset)
  {
    var v := Step(w, Deliver(p));
    ObserveFaces(w.nodes[p.dst], p.instance, p.src, w.now, p.dst);
    forall a, b ensures Resolved(v, preset, a, b) {
      if Rivals(v, a, b) {
        assert Resolved(w, preset, a, b);
        if MustYield(w, a, b) {
          var q :| q in w.wire && Alarm(w, q, a, b);
          KeepYield(w, v, a, b, q);
        }
        if MustYield(w, b, a) {
          var q :| q in w.wire && Alarm(w, q, b, a);
          KeepYield(w, v, b, a, q);
        }
      }
    }
  }

  lemma StepKeepsInv(w: World, preset: set<nat>, e: Event)
    requires Inv(w, preset) && Enabled(w, e)
    ensures Inv(Step(w, e), preset)
  {
    match e
    case Advance(to) => AdvanceKeeps(w, preset, to);
    case Boot(_, _, _) => BootKeeps(w, preset, e);
    case Iterate(k, result) => IterateKeeps(w, preset, k, result);
    case Deliver(p) => if p.WhoIs? { QueryKeeps(w, preset, p); } else { ClaimHeardKeeps(w, preset, p); }
    case OutsideIAm(_, _, _) => OutsideKeeps(w, preset, e);
    case OutsideWhoIs(_, _, _) => OutsideKeeps(w, preset, e);
  }

  // ----- whole runs ------------------------------------------------------------------

  ghost predicate Run(w: World, events: seq<Event>, v: World)
    decreases |events|
  {
    if events == [] then v == w
    else Enabled(w, events[0]) && Run(Step(w, events[0]), events[1..], v)
  }

  lemma {:induction false} RunKeepsInv(w: World, preset: set<nat>, events: seq<Event>, v: World)
    requires Inv(w, preset) && Run(w, events, v)
    ensures Inv(v, preset)
    decreases |events|
  {
    if events == [] {
    } else {
      StepKeepsInv(w, preset, events[0]);
      RunKeepsInv(Step(w, events[0]), preset, events[1..], v);
    }
  }

  /** In every reachable world, two controllers are ready on one number only if
      both were locked or configured to it before the run. */
  lemma LockedNumbersAreUnique(w: World, preset: set<nat>, events: seq<Event>, v: World, a: nat, b: nat)
    requires Init(w, preset) && Run(w, events, v)
    requires a in v.nodes && b in v.nodes && a != b
    requires v.nodes[a].phase == Ready && v.nodes[b].phase == Ready
    requires v.nodes[a].candidate == v.nodes[b].candidate
    ensures a in preset && b in preset
  {
    InitInv(w, preset);
    RunKeepsInv(w, preset, events, v);
    assert Rivals(v, a, b) && Resolved(v, preset, a, b);
  }

  predicate Locks(n: Node, now: nat, result: SaveResult) {
    n.phase == Claiming && now >= n.deadline && result == Stored
  }

  /** A claimer becomes ready in exactly the iterations that find it due and store its number. */
  lemma LocksIff(n: Node, now: nat, result: SaveResult)
    requires n.phase == Claiming
    ensures Locks(n, now, result) <==> TickAndSave(n, now, result).0.phase == Ready
  {
  }

  /** What a due claimer becomes: locked, failed, or overtaken by another configuration. */
  lemma SaveIterations(n: Node, now: nat, result: SaveResult)
    requires n.phase == Claiming && now >= n.deadline
    ensures var (m, actions) := TickAndSave(n, now, result);
      actions == Actions(false, false, true) && m.candidate == n.candidate &&
      m.phase == (match result
                  case Stored => Ready
                  case StoreFailed => SaveFailed
                  case StaleRevision => ConfigChanged) &&
      (m.automatic <==> n.automatic && result != Stored)
  {
  }

  /** At the moment a controller locks a number nobody is ready on it, and everyone
      else claiming it is about to be told and cannot lock it. */
  lemma LockingIsExclusive(w: World, preset: set<nat>, events: seq<Event>, v: World, k: nat, result: SaveResult, b: nat)
    requires Init(w, preset) && Run(w, events, v)
    requires k in v.nodes && Locks(v.nodes[k], v.now, result) && Rivals(v, b, k)
    ensures v.nodes[b].phase == Claiming && v.now < v.nodes[b].deadline
    ensures forall r :: TickAndSave(v.nodes[b], v.now, r).0.phase == Claiming
  {
    InitInv(w, preset);
    RunKeepsInv(w, preset, events, v);
    IterationFaces(v.nodes[k], v.now, result, k);
    DueClaimerWins(v, preset, k, b);
  }
}
