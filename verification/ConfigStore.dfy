/** The configuration store of `config_store.c`, and the history its compare-and-set makes
    under any interleaving of web edits and automatic assignment. */
module ConfigStore {

  import opened Common
  import opened ConfigModel
  import opened Runs

  /** The flash key: a blob with or without intact magic, schema, size and checksum. */
  datatype Flash = Empty | Blob(config: Config, intact: bool)

  datatype Store = Store(ram: Config, flash: Flash)

  datatype Outcome = Committed | InvalidArgument | Conflict | StorageError

  predicate Loads(flash: Flash, readable: bool) {
    readable && flash.Blob? && flash.intact && Validate(flash.config)
  }

  /** `config_store_init`: what a boot loads, and whether it writes it back. */
  function BootConfig(flash: Flash, readable: bool): (Config, bool) {
    if Loads(flash, readable) then (Migrate(flash.config), Migrate(flash.config) != flash.config)
    else (DEFAULTS, true)
  }

  /** `config_store_update`. */
  function Update(s: Store, c: Config, commits: bool): (Store, Outcome) {
    if !Validate(c) then (s, InvalidArgument)
    else if c.revision != s.ram.revision then (s, Conflict)
    else if !commits then (s, StorageError)
    else
      var next := c.(revision := (s.ram.revision + 1) % REVISIONS);
      (Store(next, Blob(next, true)), Committed)
  }

  /** `config_store_assign_instance`. */
  function AssignIn(s: Store, expected: nat, instance: nat, commits: bool): (Store, Outcome) {
    var next := Assign(s.ram, expected, instance);
    if next.None? then (s, Conflict)
    else if !commits then (s, StorageError)
    else (Store(next.value, Blob(next.value, true)), Committed)
  }

  class Storage {
    var ram: Config
    var flash: Flash

    ghost function View(): Store
      reads this
    {
      Store(ram, flash)
    }

    constructor (found: Flash)
      ensures flash == found
    {
      flash := found;
      ram := DEFAULTS;
    }

    /** `write_config_blob`: one atomic commit, or no change. */
    method WriteBlob(c: Config, commits: bool) returns (ok: bool)
      modifies this`flash
      ensures ok == commits && flash == if commits then Blob(c, true) else old(flash)
    {
      if commits {
        flash := Blob(c, true);
      }
      ok := commits;
    }

    /** `config_store_init`; a failed write fails the boot. */
    method Init(readable: bool, commits: bool) returns (ok: bool)
      modifies this
      ensures var (c, writes) := BootConfig(old(flash), readable);
        ram == c && ok == (writes ==> commits) && flash == if writes && commits then Blob(c, true) else old(flash)
    {
      var loaded := false;
      if readable && flash.Blob? {
        ram := flash.config;
        loaded := flash.intact && Validate(ram);
      }
      if loaded {
        var record := new Record(ram);
        var changed := record.MigrateMode();
        ram := record.Copy();
        if changed {
          ok := WriteBlob(ram, commits);
          return;
        }
      } else {
        ram := DEFAULTS;
        ok := WriteBlob(ram, commits);
        return;
      }
      ok := true;
    }

    method UpdateConfig(c: Config, commits: bool) returns (outcome: Outcome)
      modifies this
      ensures (View(), outcome) == Update(old(View()), c, commits)
    {
      if !Validate(c) {
        return InvalidArgument;
      }
      if c.revision != ram.revision {
        return Conflict;
      }
      var candidate := c.(revision := (ram.revision + 1) % REVISIONS);
      var ok := WriteBlob(candidate, commits);
      if ok {
        ram := candidate;
      }
      outcome := if ok then Committed else StorageError;
    }

    method AssignInstance(expected: nat, instance: nat, commits: bool) returns (outcome: Outcome, saved: Option<Config>)
      modifies this
      ensures (View(), outcome) == AssignIn(old(View()), expected, instance, commits)
      ensures saved == if outcome == Committed then Some(ram) else None
    {
      var candidate := new Record(ram);
      var ok := candidate.AssignInstance(expected, instance);
      if !ok {
        return Conflict, None;
      }
      var next := candidate.Copy();
      ok := WriteBlob(next, commits);
      if !ok {
        return StorageError, None;
      }
      ram := next;
      return Committed, Some(next);
    }
  }

  // ----- boots ---------------------------------------------------------------------------------

  /** A boot keeps a stored configuration exactly if flash can be read, and it is intact and
      valid; else it takes the defaults.  It writes exactly what flash does not hold already. */
  lemma BootExactly(flash: Flash, readable: bool)
    ensures var (c, writes) := BootConfig(flash, readable);
      if readable && flash.Blob? && flash.intact && Validate(flash.config) then
        c == Migrate(flash.config) && (writes <==> flash != Blob(c, true))
      else c == DEFAULTS && writes
  {
  }

  lemma BootIsSound(flash: Flash, readable: bool)
    ensures var c := BootConfig(flash, readable).0; Validate(c) && Settled(c) && (Loads(flash, readable) ==>
      c.settings == flash.config.settings && c.instance == flash.config.instance && c.revision == flash.config.revision)
  {
    DefaultsAreValid();
    if Loads(flash, readable) {
      RewritesSettle(flash.config, Options(None, None, false), 0, 0);
    }
  }

  /** A readable boot from what an earlier boot or commit left is exact, and writes nothing. */
  lemma RebootIsExact(c: Config)
    requires Validate(c) && Settled(c)
    ensures BootConfig(Blob(c, true), true) == (c, false)
  {
  }

  // ----- writers -------------------------------------------------------------------------------

  /** A writer's copy of the configuration, with the commit (by position) it was taken from. */
  datatype Draft = Draft(at: nat, config: Config)

  /** The store, its committed configurations since boot (the first is the boot's own), and
      every writer's copy. */
  datatype World = World(store: Store, log: seq<Config>, drafts: map<nat, Draft>)

  datatype Event =
    | Get(w: nat)
    | Change(w: nat, options: Options, settings: Settings)
    | Put(w: nat, commits: bool)
    | Lock(w: nat, instance: nat, commits: bool)

  function Boot(c: Config): World {
    World(Store(c, Blob(c, true)), [c], map[])
  }

  function Logged(x: World, s: Store, outcome: Outcome): World {
    if outcome == Committed then World(s, x.log + [s.ram], x.drafts) else x.(store := s)
  }

  function Newest(x: World): nat {
    if x.log == [] then 0 else |x.log| - 1
  }

  function Step(x: World, e: Event): World {
    match e
    case Get(w) => x.(drafts := x.drafts[w := Draft(Newest(x), x.store.ram)])
    case Change(w, options, settings) =>
      if w !in x.drafts then x
      else
        var edited := InstanceOptions(x.drafts[w].config, options);
        if edited.None? then x
        else x.(drafts := x.drafts[w := x.drafts[w].(config := edited.value.(settings := settings))])
    case Put(w, commits) =>
      if w !in x.drafts then x
      else
        var (s, outcome) := Update(x.store, x.drafts[w].config, commits);
        Logged(x, s, outcome)
    case Lock(w, instance, commits) =>
      if w !in x.drafts then x
      else
        var (s, outcome) := AssignIn(x.store, x.drafts[w].config.revision, instance, commits);
        var y := Logged(x, s, outcome);
        if outcome == Committed then y.(drafts := y.drafts[w := Draft(Newest(y), s.ram)]) else y
  }

  function Run(x: World, es: seq<Event>): World {
    RunAll(Step, x, es)
  }

  // ----- the history ---------------------------------------------------------------------------

  predicate Sound(c: Config) {
    Validate(c) && Settled(c)
  }

  ghost predicate HistoryInv(log: seq<Config>) {
    log != [] && (forall c | c in log :: Sound(c)) && log[0].revision < REVISIONS &&
    forall i :: 0 <= i < |log| - 1 ==> log[i + 1].revision == (log[i].revision + 1) % REVISIONS
  }

  predicate DraftInv(log: seq<Config>, d: Draft) {
    d.at < |log| && d.config.revision == log[d.at].revision && Settled(d.config)
  }

  ghost predicate Inv(x: World) {
    HistoryInv(x.log) && x.store.ram == x.log[|x.log| - 1] && x.store.flash == Blob(x.store.ram, true) &&
    forall w | w in x.drafts :: DraftInv(x.log, x.drafts[w])
  }

  lemma CommitKeepsInv(x: World, s: Store)
    requires Inv(x) && Sound(s.ram) && s.flash == Blob(s.ram, true)
    requires s.ram.revision == (x.store.ram.revision + 1) % REVISIONS
    ensures Inv(World(s, x.log + [s.ram], x.drafts))
  {
  }

  lemma LockKeepsInv(x: World, w: nat, instance: nat, commits: bool)
    requires Inv(x)
    ensures Inv(Step(x, Lock(w, instance, commits)))
  {
    if w in x.drafts {
      var expected := x.drafts[w].config.revision;
      var (s, outcome) := AssignIn(x.store, expected, instance, commits);
      if outcome == Committed {
        assert x.store.ram in x.log;
        RewritesSettle(x.store.ram, Options(None, None, false), expected, instance);
        AssignKeepsValid(x.store.ram, expected, instance);
        CommitKeepsInv(x, s);
      }
    }
  }

  lemma PutKeepsInv(x: World, w: nat, commits: bool)
    requires Inv(x)
    ensures Inv(Step(x, Put(w, commits)))
  {
    if w in x.drafts {
      var (s, outcome) := Update(x.store, x.drafts[w].config, commits);
      if outcome == Committed {
        CommitKeepsInv(x, s);
      }
    }
  }

  lemma StepKeepsInv(x: World, e: Event)
    requires Inv(x)
    ensures Inv(Step(x, e)) && x.log <= Step(x, e).log && |Step(x, e).log| <= |x.log| + 1
  {
    match e
    case Get(w) =>
      assert x.store.ram in x.log;
    case Change(w, options, settings) =>
      if w in x.drafts {
        RewritesSettle(x.drafts[w].config, options, 0, 0);
      }
    case Put(w, commits) =>
      PutKeepsInv(x, w, commits);
    case Lock(w, instance, commits) =>
      LockKeepsInv(x, w, instance, commits);
  }

  /** Over any interleaving: memory, flash and the newest commit agree; every commit is valid
      and, if locked, in the automatic range; each raises the revision by one. */
  lemma {:induction false} RunKeepsInv(x: World, es: seq<Event>)
    requires Inv(x)
    ensures Inv(Run(x, es)) && x.log <= Run(x, es).log
    decreases |es|
  {
    if es == [] {
    } else {
      StepKeepsInv(x, es[0]);
      RunKeepsInv(Step(x, es[0]), es[1..]);
    }
  }

  lemma BootedHistory(flash: Flash, readable: bool, es: seq<Event>)
    requires BootConfig(flash, readable).0.revision < REVISIONS
    ensures Inv(Run(Boot(BootConfig(flash, readable).0), es))
  {
    BootIsSound(flash, readable);
    RunKeepsInv(Boot(BootConfig(flash, readable).0), es);
  }

  /** A boot at any moment reloads the newest commit. */
  lemma RebootAnyTime(x: World, es: seq<Event>)
    requires Inv(x)
    ensures var y := Run(x, es); BootConfig(y.store.flash, true) == (y.store.ram, false)
  {
    RunKeepsInv(x, es);
    var y := Run(x, es);
    assert y.store.ram in y.log;
    RebootIsExact(y.store.ram);
  }

  // ----- compare and set -----------------------------------------------------------------------

  lemma {:induction false} RevisionsCount(log: seq<Config>, i: nat, j: nat)
    requires HistoryInv(log) && i <= j < |log|
    ensures log[j].revision == (log[i].revision + (j - i)) % REVISIONS && log[j].revision < REVISIONS
    decreases j
  {
    if j == 0 {
    } else {
      RevisionsCount(log, if i == j then j - 1 else i, j - 1);
      var r, d := log[i].revision, j - 1 - i;
      assert log[j].revision == (log[j - 1].revision + 1) % REVISIONS;
      if i < j {
        WrapAdd(r + d);
      }
    }
  }

  lemma WrapAdd(a: nat)
    ensures (a % REVISIONS + 1) % REVISIONS == (a + 1) % REVISIONS
  {
  }

  lemma WrapCompare(a: nat, d: nat)
    requires a < REVISIONS
    ensures (a + d) % REVISIONS == a <==> d % REVISIONS == 0
  {
  }

  /** The commits since a writer took its copy. */
  function Since(x: World, w: nat): int
    requires w in x.drafts
  {
    |x.log| - 1 - x.drafts[w].at
  }

  /** The answer to a web edit, the first that applies, and its effect on memory and flash. */
  lemma UpdateAnswers(s: Store, c: Config, commits: bool)
    ensures var (t, outcome) := Update(s, c, commits);
      (outcome == InvalidArgument <==> !Validate(c)) &&
      (outcome == Conflict <==> Validate(c) && c.revision != s.ram.revision) &&
      (outcome == StorageError <==> Validate(c) && c.revision == s.ram.revision && !commits) &&
      (outcome != Committed ==> t == s) &&
      (outcome == Committed ==> t.flash == Blob(t.ram, true) && t.ram == c.(revision := t.ram.revision))
  {
  }

  /** The answer to an automatic assignment. */
  lemma AssignAnswers(s: Store, expected: nat, instance: nat, commits: bool)
    ensures var (t, outcome) := AssignIn(s, expected, instance, commits);
      var open := s.ram.mode in {AUTO_NEW, AUTO_CHECK_SAVED} && s.ram.revision == expected && FIRST <= instance <= LAST;
      (outcome == Conflict <==> !open) && (outcome == StorageError <==> open && !commits) &&
      (outcome == Committed <==> open && commits) && (outcome != Committed ==> t == s) &&
      (outcome == Committed ==> t.flash == Blob(t.ram, true) && t.ram.instance == instance && t.ram.mode == AUTO_LOCKED)
  {
  }

  /** A write goes in exactly when it is valid, flash takes it, and the number of commits since
      its copy was taken is a multiple of 2^32; nothing else ever reaches the history. */
  lemma PutCommitsIff(x: World, w: nat, commits: bool)
    requires Inv(x) && w in x.drafts
    ensures var y := Step(x, Put(w, commits));
      var d := x.drafts[w];
      (y.log != x.log <==> (Validate(d.config) && commits && Since(x, w) % REVISIONS == 0)) &&
      (y.log != x.log ==>
        y.log == x.log + [d.config.(revision := (x.log[d.at].revision + 1) % REVISIONS)]) &&
      (y.log == x.log ==> y == x)
  {
    var d := x.drafts[w];
    RevisionsCount(x.log, d.at, |x.log| - 1);
    RevisionsCount(x.log, d.at, d.at);
    WrapCompare(x.log[d.at].revision, Since(x, w));
  }

  lemma LockCommitsIff(x: World, w: nat, instance: nat, commits: bool)
    requires Inv(x) && w in x.drafts
    ensures var y := Step(x, Lock(w, instance, commits));
      (y.log != x.log <==> (Pending(x.store.ram) && FIRST <= instance <= LAST && commits && Since(x, w) % REVISIONS == 0))
      && (y.log == x.log ==> y == x)
  {
    var d := x.drafts[w];
    RevisionsCount(x.log, d.at, |x.log| - 1);
    RevisionsCount(x.log, d.at, d.at);
    WrapCompare(x.log[d.at].revision, Since(x, w));
  }

  /** A committed assignment locks the instance and leaves the writer with the new configuration. */
  lemma LockCommits(x: World, w: nat, instance: nat, commits: bool)
    requires Inv(x) && w in x.drafts && Step(x, Lock(w, instance, commits)).log != x.log
    ensures var y := Step(x, Lock(w, instance, commits));
      y.log == x.log + [y.store.ram] && y.store.ram.instance == instance && y.store.ram.mode == AUTO_LOCKED &&
      y.drafts == x.drafts[w := Draft(|x.log|, y.store.ram)]
  {
  }

  /** A web edit that nobody disturbs: refused, it leaves the copy as it was read; else the copy
      is what it asks for, and goes in exactly if valid, over the newest commit and under the
      next revision. */
  lemma EditCommits(x: World, w: nat, options: Options, settings: Settings)
    requires Inv(x)
    ensures var read := Step(x, Get(w));
      var y := Step(read, Change(w, options, settings));
      var edited := InstanceOptions(x.store.ram, options);
      if edited.None? then y == read && y.drafts[w].config == x.store.ram
      else
        var next := edited.value.(settings := settings, revision := (x.store.ram.revision + 1) % REVISIONS);
        Step(y, Put(w, true)).log == if Validate(edited.value.(settings := settings)) then x.log + [next] else x.log
  {
    var read := Step(x, Get(w));
    StepKeepsInv(x, Get(w));
    var y := Step(read, Change(w, options, settings));
    StepKeepsInv(read, Change(w, options, settings));
    PutCommitsIff(y, w, true);
  }

  /** Short of 2^32 commits in between, a writer only ever replaces the configuration it read. */
  lemma NoLostUpdate(x: World, e: Event)
    requires Inv(x) && (e.Put? || e.Lock?) && e.w in x.drafts && Since(x, e.w) < REVISIONS
    requires Step(x, e).log != x.log
    ensures x.drafts[e.w].at == |x.log| - 1 && x.log[x.drafts[e.w].at] == x.store.ram
  {
    match e
    case Put(w, commits) => PutCommitsIff(x, w, commits);
    case Lock(w, instance, commits) => LockCommitsIff(x, w, instance, commits);
  }

  /** The revision wraps: a copy exactly 2^32 commits old is accepted over all of them. */
  lemma WrappedRevisionOverwrites(x: World, w: nat)
    requires Inv(x) && w in x.drafts && Validate(x.drafts[w].config) && Since(x, w) == REVISIONS
    ensures Step(x, Put(w, true)).log != x.log && x.drafts[w].at != |x.log| - 1
  {
    PutCommitsIff(x, w, true);
  }

  /** `n` times another writer reads the configuration and writes it back. */
  function Rounds(n: nat): seq<Event> {
    Repeat(Get(1), Put(1, true), n)
  }

  /** Writer 0 still has its copy of the defaults, `n` commits old. */
  ghost predicate Lags(x: World, n: nat) {
    Inv(x) && 0 in x.drafts && x.drafts[0] == Draft(0, DEFAULTS) && |x.log| == n + 1 && x.log[0] == DEFAULTS
  }

  lemma OneRound(x: World, n: nat)
    requires Lags(x, n)
    ensures Lags(Step(Step(x, Get(1)), Put(1, true)), n + 1)
  {
    var m := Step(x, Get(1));
    StepKeepsInv(x, Get(1));
    StepKeepsInv(m, Put(1, true));
    assert x.store.ram in x.log;
    PutCommitsIff(m, 1, true);
  }

  lemma AfterRounds(n: nat)
    ensures Lags(Run(Boot(DEFAULTS), [Get(0)] + Rounds(n)), n)
  {
    DefaultsAreValid();
    var b := Boot(DEFAULTS);
    var g := Step(b, Get(0));
    StepKeepsInv(b, Get(0));
    forall y, j: nat | Lags(y, j) ensures Lags(Step(Step(y, Get(1)), Put(1, true)), j + 1) {
      OneRound(y, j);
    }
    Repeated(Step, g, Get(1), Put(1, true), 0, n, Lags);
    assert ([Get(0)] + Rounds(n))[1..] == Rounds(n);
  }

  /** A run that gets there, from the defaults: a writer reads, another commits 2^32 times, and
      the first one's write goes in over all of them. */
  lemma WrapIsReachable(n: nat)
    requires n == REVISIONS
    ensures var x := Run(Boot(DEFAULTS), [Get(0)] + Rounds(n));
      Inv(x) && 0 in x.drafts && x.drafts[0] == Draft(0, DEFAULTS) && |x.log| == REVISIONS + 1 &&
      Step(x, Put(0, true)).log == x.log + [DEFAULTS.(revision := 2)]
  {
    DefaultsAreValid();
    AfterRounds(n);
    PutCommitsIff(Run(Boot(DEFAULTS), [Get(0)] + Rounds(n)), 0, true);
  }
}
