/** Every run of the repository over any number of scopes: snapshots, releases, units of work, commits that
    finish, are refused or raise anywhere, whose handlers may raise too, and processes that die anywhere: idle, inside a release's cleanup, or
    at any effect of a commit, whether or not its catalog would have been accepted.

    No release happens inside a commit: releases and commits are separate events.
    `ReleaseInsideCommit` shows what that condition rules out.
 */
module CatalogRuns {
  import opened Ordering
  import opened Wrappers
  import opened CatalogRefs
  import opened GenerationStream
  import opened CatalogClosure
  import opened CatalogStore
  import opened Transitions
  import Digraph

  datatype Scope = Scope(id: nat)

  /** What a snapshot is pinned to. */
  datatype Key = Key(scope: Scope, generation: Generation)

  datatype Unit = Unit(scope: Scope, base: Generation, mutations: seq<Mutation>, sessionSeen: bool, closed: bool)

  datatype State = State(disks: map<Scope, Disk>, counts: map<Key, nat>, live: map<nat, Key>, units: map<nat, Unit>)

  /** Content addressing, and when a staged reference graph is accepted. */
  datatype Rules = Rules(names: Names, sound: Docs -> bool)

  // Reference counts

  function Held(counts: map<Key, nat>, k: Key): nat {
    if k in counts then counts[k] else 0
  }

  function Acquire(counts: map<Key, nat>, k: Key): map<Key, nat> {
    counts[k := Held(counts, k) + 1]
  }

  function Drop(counts: map<Key, nat>, k: Key): map<Key, nat> {
    if Held(counts, k) <= 1 then counts - {k} else counts[k := counts[k] - 1]
  }

  function Holders(live: map<nat, Key>, k: Key): set<nat> {
    set id | id in live && live[id] == k
  }

  ghost predicate Counted(counts: map<Key, nat>, live: map<nat, Key>) {
    forall k :: Held(counts, k) == |Holders(live, k)| && (k in counts ==> counts[k] > 0)
  }

  lemma {:induction false} HoldersAdd(live: map<nat, Key>, id: nat, key: Key, k: Key)
    requires id !in live
    ensures |Holders(live[id := key], k)| == |Holders(live, k)| + (if k == key then 1 else 0)
  {
    assert Holders(live[id := key], k) == if k == key then Holders(live, k) + {id} else Holders(live, k);
  }

  lemma {:induction false} HoldersRemove(live: map<nat, Key>, id: nat, k: Key)
    requires id in live
    ensures |Holders(live - {id}, k)| == |Holders(live, k)| - (if k == live[id] then 1 else 0)
  {
    assert Holders(live, k) == if k == live[id] then Holders(live - {id}, k) + {id} else Holders(live - {id}, k);
  }

  lemma {:induction false} AcquireCounts(counts: map<Key, nat>, live: map<nat, Key>, id: nat, key: Key)
    requires Counted(counts, live) && id !in live
    ensures Counted(Acquire(counts, key), live[id := key])
  {
    forall k ensures Held(Acquire(counts, key), k) == |Holders(live[id := key], k)| {
      HoldersAdd(live, id, key, k);
    }
  }

  lemma {:induction false} DropCounts(counts: map<Key, nat>, live: map<nat, Key>, id: nat)
    requires Counted(counts, live) && id in live
    ensures Counted(Drop(counts, live[id]), live - {id})
  {
    forall k ensures Held(Drop(counts, live[id]), k) == |Holders(live - {id}, k)| {
      HoldersRemove(live, id, k);
    }
  }

  lemma {:induction false} LiveIsCounted(counts: map<Key, nat>, live: map<nat, Key>, id: nat)
    requires Counted(counts, live) && id in live
    ensures live[id] in counts
  {
    assert id in Holders(live, live[id]);
  }

  /** Generations cleanup may remove: not CURRENT, and no snapshot holds them. */
  function Dead(d: Disk, counts: map<Key, nat>, scope: Scope): set<Generation> {
    set g | g in d.generations && Some(g) != d.current && Held(counts, Key(scope, g)) == 0
  }

  function Swept(d: Disk, removed: set<Generation>): Disk {
    d.(generations := d.generations - removed)
  }

  // Events

  datatype Event =
    | OpenSnapshot(scope: Scope, id: nat)
    | Release(id: nat, removed: set<Generation>)
    | Begin(unit: nat, scope: Scope, base: Generation)
    | Add(unit: nat, mutation: Mutation)
    | Abort(unit: nat)
    | CommitRefused(unit: nat, registered: Option<nat>, token: Token, left: Disk)
    | CommitRaised(unit: nat, baseId: nat, commit: Commit, done: nat, left: Disk)
    | CommitDone(unit: nat, baseId: nat, newId: nat, commit: Commit)
    | Crash(unit: nat, commit: Commit, done: nat, crashed: Disk)
    | Die(releasing: Option<nat>, removed: set<Generation>)

  predicate MayAdd(u: Unit, m: Mutation) {
    && !u.closed
    && (u.sessionSeen ==> IsSessionPublication(m))
    && (forall i :: 0 <= i < |u.mutations| ==> u.mutations[i].ref != m.ref)
    && m.ref.namespace.User?
    && (m.content.None? ==> m.expected.Some?)
  }

  function Added(u: Unit, m: Mutation): Unit {
    u.(mutations := u.mutations + [m], sessionSeen := u.sessionSeen || IsSessionPublication(m))
  }

  /** What `_commit` has established when it starts staging. */
  ghost predicate Attempted(d: Disk, u: Unit, c: Commit) {
    && !u.closed && u.mutations != []
    && HasCurrent(d) && d.current == Some(u.base) && Fresh(d, c)
    && Lists(c.items, Current(d))
    && multiset(c.mutations) == multiset(u.mutations)
    && AllMatch(Current(d), u.mutations)
  }

  /** Everything `_commit` checks before a byte of the new catalog is visible, and the plan it then runs. */
  ghost predicate Admitted(rules: Rules, d: Disk, u: Unit, counts: map<Key, nat>, c: Commit) {
    && Attempted(d, u, c)
    && Ready(rules.names, d, c)
    && rules.sound(Updated(Current(d), c.mutations))
    && Elements(c.doomed) == Dead(DoAll(Publishing(c.temporary, c.generation), Named(d, c)), counts, u.scope)
  }

  function WithSnapshot(s: State, id: nat, key: Key): State {
    s.(counts := Acquire(s.counts, key), live := s.live[id := key])
  }

  function WithUnit(s: State, u: nat, unit: Unit): State {
    s.(units := s.units[u := unit])
  }

  function WithDisk(s: State, scope: Scope, d: Disk): State {
    s.(disks := s.disks[scope := d])
  }

  /** A snapshot of CURRENT. */
  ghost predicate Opens(s: State, scope: Scope, id: nat, after: State) {
    && scope in s.disks && s.disks[scope].current.Some? && id !in s.live
    && after == WithSnapshot(s, id, Key(scope, s.disks[scope].current.value))
  }

  /** Its finalizer drops the count, then removes dead generations (fewer, if removal raises). */
  ghost predicate Releases(s: State, id: nat, removed: set<Generation>, after: State) {
    && id in s.live && s.live[id].scope in s.disks
    && var key := s.live[id];
       var d, counts := s.disks[key.scope], Drop(s.counts, key);
       && removed <= Dead(d, counts, key.scope)
       && after == WithDisk(s.(counts := counts, live := s.live - {id}), key.scope, Swept(d, removed))
  }

  /** A refusal leaves at most a staging directory of its own, which its handler could not remove. */
  ghost predicate Refuses(s: State, u: nat, registered: Option<nat>, token: Token, left: Disk, after: State) {
    && u in s.units && s.units[u].scope in s.disks && OnlyStages(s.disks[s.units[u].scope], token, left)
    && var closed := WithDisk(WithUnit(s, u, s.units[u].(closed := true)), s.units[u].scope, left);
       if registered.None? then after == closed else Opens(closed, s.units[u].scope, registered.value, after)
  }

  /** The base snapshot is registered first and outlives the commit: its own release comes later. Of the commit's own
      leftovers the handlers may have removed everything, something or nothing. */
  ghost predicate Raises(rules: Rules, s: State, u: nat, baseId: nat, c: Commit, done: nat, left: Disk, after: State) {
    && u in s.units && s.units[u].scope in s.disks && baseId !in s.live
    && var unit := s.units[u];
       var d, key := s.disks[unit.scope], Key(unit.scope, unit.base);
       && Admitted(rules, d, unit, Acquire(s.counts, key), c)
       && done <= |Plan(d, c)| && Abandoned(DoAll(Plan(d, c)[..done], d), c, left)
       && after == WithDisk(WithSnapshot(WithUnit(s, u, unit.(closed := true)), baseId, key), unit.scope, left)
  }

  ghost predicate Finishes(rules: Rules, s: State, u: nat, baseId: nat, newId: nat, c: Commit, after: State) {
    && u in s.units && s.units[u].scope in s.disks && baseId !in s.live && newId !in s.live && baseId != newId
    && var unit := s.units[u];
       var d, key := s.disks[unit.scope], Key(unit.scope, unit.base);
       && Admitted(rules, d, unit, Acquire(s.counts, key), c)
       && after == WithSnapshot(WithDisk(WithSnapshot(WithUnit(s, u, unit.(closed := true)), baseId, key), unit.scope,
                                         DoAll(Plan(d, c), d)),
                                newId, Key(unit.scope, c.generation))
  }

  /** A commit that got `done` effects far: past staging only when it was admitted. */
  ghost predicate Reached(rules: Rules, d: Disk, u: Unit, counts: map<Key, nat>, c: Commit, done: nat) {
    && Attempted(d, u, c) && done <= |Plan(d, c)|
    && (done > |Staging(c.token, c.items, c.mutations)| ==> Admitted(rules, d, u, counts, c))
  }

  /** A new process: nothing is held or open, and every scope is recovered from what is on its disk. */
  ghost predicate Restarts(stopped: map<Scope, Disk>, after: State) {
    && after.counts == map[] && after.live == map[] && after.units == map[] && after.disks.Keys == stopped.Keys
    && forall scope :: scope in stopped ==> HasCurrent(stopped[scope]) && after.disks[scope] == Recovered(stopped[scope])
  }

  /** The process dies inside a commit; a new one recovers every scope. */
  ghost predicate Crashes(rules: Rules, s: State, u: nat, c: Commit, done: nat, crashed: Disk, after: State) {
    && u in s.units && s.units[u].scope in s.disks
    && var unit := s.units[u];
       var d := s.disks[unit.scope];
       && Reached(rules, d, unit, Acquire(s.counts, Key(unit.scope, unit.base)), c, done)
       && Torn(DoAll(Plan(d, c)[..done], d), crashed)
       && Restarts(s.disks[unit.scope := crashed], after)
  }

  /** The process dies between operations, or while a release removes dead generations. */
  ghost predicate Dies(s: State, releasing: Option<nat>, removed: set<Generation>, after: State) {
    match releasing
    case None => removed == {} && Restarts(s.disks, after)
    case Some(id) =>
      && id in s.live && s.live[id].scope in s.disks
      && var key := s.live[id];
         var d := s.disks[key.scope];
         && removed <= Dead(d, Drop(s.counts, key), key.scope)
         && Restarts(s.disks[key.scope := Swept(d, removed)], after)
  }

  ghost predicate Next(rules: Rules, s: State, e: Event, after: State) {
    match e
    case OpenSnapshot(scope, id) => Opens(s, scope, id, after)
    case Release(id, removed) => Releases(s, id, removed, after)
    case Begin(u, scope, base) =>
      scope in s.disks && u !in s.units && after == WithUnit(s, u, Unit(scope, base, [], false, false))
    case Add(u, m) => u in s.units && MayAdd(s.units[u], m) && after == WithUnit(s, u, Added(s.units[u], m))
    case Abort(u) => u in s.units && after == WithUnit(s, u, s.units[u].(mutations := [], closed := true))
    case CommitRefused(u, registered, token, left) => Refuses(s, u, registered, token, left, after)
    case CommitRaised(u, baseId, c, done, left) => Raises(rules, s, u, baseId, c, done, left, after)
    case CommitDone(u, baseId, newId, c) => Finishes(rules, s, u, baseId, newId, c, after)
    case Crash(u, c, done, crashed) => Crashes(rules, s, u, c, done, crashed, after)
    case Die(releasing, removed) => Dies(s, releasing, removed, after)
  }

  // The invariant

  ghost predicate DisksSound(rules: Rules, s: State) {
    forall scope :: scope in s.disks ==> Intact(rules.names, s.disks[scope]) && rules.sound(Current(s.disks[scope]))
  }

  ghost predicate Pinned(s: State, id: nat)
    requires id in s.live
  {
    s.live[id].scope in s.disks && s.live[id].generation in s.disks[s.live[id].scope].generations
  }

  ghost predicate Inv(rules: Rules, s: State) {
    && DisksSound(rules, s)
    && Counted(s.counts, s.live)
    && (forall id :: id in s.live ==> Pinned(s, id))
    && (forall u :: u in s.units ==> s.units[u].scope in s.disks && WellFormed(s.units[u].mutations))
  }

  /** The documents a live snapshot reads. */
  function Reads(s: State, id: nat): Docs
    requires id in s.live && s.live[id].scope in s.disks
    requires s.live[id].generation in s.disks[s.live[id].scope].generations
  {
    s.disks[s.live[id].scope].generations[s.live[id].generation]
  }

  /** One disk changed so that every generation a live snapshot holds is still there, unchanged. */
  ghost predicate Keeps(d: Disk, after: Disk, scope: Scope, live: map<nat, Key>) {
    forall id :: id in live && live[id].scope == scope && live[id].generation in d.generations ==>
      live[id].generation in after.generations && after.generations[live[id].generation] == d.generations[live[id].generation]
  }

  lemma {:induction false} RemovalKeeps(d: Disk, scope: Scope, counts: map<Key, nat>, live: map<nat, Key>, removed: set<Generation>)
    requires Counted(counts, live) && removed <= Dead(d, counts, scope)
    ensures Keeps(d, Swept(d, removed), scope, live)
    ensures d.current.Some? && d.current.value in d.generations ==> d.current.value in d.generations - removed
  {
    forall id | id in live && live[id].scope == scope && live[id].generation in d.generations
      ensures live[id].generation !in removed
    {
      LiveIsCounted(counts, live, id);
      assert live[id] == Key(scope, live[id].generation);
    }
  }

  lemma {:induction false} DoomedAreUnheld(rules: Rules, d: Disk, u: Unit, counts: map<Key, nat>, live: map<nat, Key>, c: Commit)
    requires Admitted(rules, d, u, counts, c) && Counted(counts, live)
    ensures forall id :: id in live && live[id].scope == u.scope ==> live[id].generation !in c.doomed
  {
    forall id | id in live && live[id].scope == u.scope ensures live[id].generation !in c.doomed {
      LiveIsCounted(counts, live, id);
      assert live[id] == Key(u.scope, live[id].generation);
      assert live[id].generation !in Elements(c.doomed);
    }
  }

  /** A commit stopped anywhere keeps every pinned generation, whatever its handlers do. */
  lemma {:induction false} CommitKeeps(rules: Rules, d: Disk, u: Unit, counts: map<Key, nat>, live: map<nat, Key>, c: Commit, k: nat, left: Disk)
    requires Admitted(rules, d, u, counts, c) && Counted(counts, live) && k <= |Plan(d, c)|
    requires rules.sound(Current(d)) && Abandoned(DoAll(Plan(d, c)[..k], d), c, left)
    ensures Keeps(d, left, u.scope, live) && Intact(rules.names, left) && rules.sound(Current(left))
    ensures k >= Published(c) ==> left.current == Some(c.generation)
  {
    RaisedCommit(rules.names, d, c, k, left);
    DoomedAreUnheld(rules, d, u, counts, live, c);
  }

  /** A commit that finishes has nothing left to handle. */
  lemma {:induction false} DoneIsAbandoned(d: Disk, c: Commit)
    ensures Abandoned(DoAll(Plan(d, c)[..|Plan(d, c)|], d), c, DoAll(Plan(d, c), d))
    ensures |Plan(d, c)| >= Published(c)
  {
    assert Plan(d, c)[..|Plan(d, c)|] == Plan(d, c);
  }

  /** Changing one disk the way `Keeps` allows, and adding snapshots that are pinned, keeps the invariant. */
  lemma {:induction false} ReplaceDisk(rules: Rules, s: State, scope: Scope, after: Disk)
    requires Inv(rules, s) && scope in s.disks
    requires Intact(rules.names, after) && rules.sound(Current(after))
    requires Keeps(s.disks[scope], after, scope, s.live)
    ensures Inv(rules, WithDisk(s, scope, after))
  {
    var t := WithDisk(s, scope, after);
    forall id | id in t.live ensures Pinned(t, id) { assert Pinned(s, id); }
  }

  lemma {:induction false} AddSnapshot(rules: Rules, s: State, id: nat, key: Key)
    requires Inv(rules, s) && id !in s.live
    requires key.scope in s.disks && key.generation in s.disks[key.scope].generations
    ensures Inv(rules, WithSnapshot(s, id, key))
  {
    AcquireCounts(s.counts, s.live, id, key);
    var t := WithSnapshot(s, id, key);
    forall other | other in t.live ensures Pinned(t, other) { if other != id { assert Pinned(s, other); } }
  }

  lemma {:induction false} ChangeUnit(rules: Rules, s: State, u: nat, unit: Unit)
    requires Inv(rules, s) && unit.scope in s.disks && WellFormed(unit.mutations)
    ensures Inv(rules, WithUnit(s, u, unit))
  {
    var t := WithUnit(s, u, unit);
    forall id | id in t.live ensures Pinned(t, id) { assert Pinned(s, id); }
  }

  lemma {:induction false} RaisedKeepsInv(rules: Rules, s: State, u: nat, baseId: nat, c: Commit, done: nat, left: Disk, after: State)
    requires Inv(rules, s) && Raises(rules, s, u, baseId, c, done, left, after)
    ensures Inv(rules, after)
  {
    var unit := s.units[u];
    var d, key := s.disks[unit.scope], Key(unit.scope, unit.base);
    ChangeUnit(rules, s, u, unit.(closed := true));
    var t := WithUnit(s, u, unit.(closed := true));
    AddSnapshot(rules, t, baseId, key);
    var v := WithSnapshot(t, baseId, key);
    CommitKeeps(rules, d, unit, v.counts, v.live, c, done, left);
    ReplaceDisk(rules, v, unit.scope, left);
  }

  lemma {:induction false} FinishedKeepsInv(rules: Rules, s: State, u: nat, baseId: nat, newId: nat, c: Commit, after: State)
    requires Inv(rules, s) && Finishes(rules, s, u, baseId, newId, c, after)
    ensures Inv(rules, after)
  {
    var unit := s.units[u];
    var d, key := s.disks[unit.scope], Key(unit.scope, unit.base);
    var whole, left := |Plan(d, c)|, DoAll(Plan(d, c), d);
    DoneIsAbandoned(d, c);
    var raised := WithDisk(WithSnapshot(WithUnit(s, u, unit.(closed := true)), baseId, key), unit.scope, left);
    assert Raises(rules, s, u, baseId, c, whole, left, raised);
    RaisedKeepsInv(rules, s, u, baseId, c, whole, left, raised);
    AcquireCounts(s.counts, s.live, baseId, key);
    CommitKeeps(rules, d, unit, Acquire(s.counts, key), s.live[baseId := key], c, whole, left);
    AddSnapshot(rules, raised, newId, Key(unit.scope, c.generation));
  }

  lemma {:induction false} ReleaseKeepsInv(rules: Rules, s: State, id: nat, removed: set<Generation>, after: State)
    requires Inv(rules, s) && Releases(s, id, removed, after)
    ensures Inv(rules, after)
  {
    var key := s.live[id];
    DropCounts(s.counts, s.live, id);
    var t := s.(counts := Drop(s.counts, key), live := s.live - {id});
    forall other | other in t.live ensures Pinned(t, other) { assert Pinned(s, other); }
    assert Inv(rules, t);
    RemovalKeeps(s.disks[key.scope], key.scope, t.counts, t.live, removed);
    ReplaceDisk(rules, t, key.scope, after.disks[key.scope]);
  }

  /** Recovering an intact disk leaves an intact disk with the same catalog. */
  lemma {:induction false} RecoveredIntact(names: Names, d: Disk)
    requires Intact(names, d)
    ensures Intact(names, Recovered(d)) && Recovered(d).current == d.current && Current(Recovered(d)) == Current(d)
  {}

  /** A restart over intact disks with sound catalogs starts in the invariant. */
  lemma {:induction false} RestartKeepsInv(rules: Rules, stopped: map<Scope, Disk>, after: State)
    requires Restarts(stopped, after)
    requires forall scope :: scope in stopped ==> Intact(rules.names, stopped[scope]) && rules.sound(Current(stopped[scope]))
    ensures Inv(rules, after)
  {
    forall scope | scope in after.disks
      ensures Intact(rules.names, after.disks[scope]) && rules.sound(Current(after.disks[scope]))
    {
      RecoveredIntact(rules.names, stopped[scope]);
    }
    EmptyCounted();
  }

  /** Recovery after a commit stopped anywhere: the scope's catalog is the base or the update. */
  lemma {:induction false} CrashedScope(rules: Rules, d: Disk, u: Unit, counts: map<Key, nat>, c: Commit, done: nat, crashed: Disk)
    requires Intact(rules.names, d) && Reached(rules, d, u, counts, c, done) && rules.sound(Current(d))
    requires Torn(DoAll(Plan(d, c)[..done], d), crashed)
    ensures Intact(rules.names, crashed) && rules.sound(Current(crashed))
    ensures done < Published(c) ==> crashed.current == d.current && Current(crashed) == Current(d)
    ensures Published(c) <= done ==> Current(crashed) == Updated(Current(d), c.mutations)
  {
    CrashRecovery(rules.names, d, c, done, crashed);
    RecoveredIntact(rules.names, crashed);
  }

  lemma {:induction false} CrashKeepsInv(rules: Rules, s: State, u: nat, c: Commit, done: nat, crashed: Disk, after: State)
    requires Inv(rules, s) && Crashes(rules, s, u, c, done, crashed, after)
    ensures Inv(rules, after)
  {
    var unit := s.units[u];
    CrashedScope(rules, s.disks[unit.scope], unit, Acquire(s.counts, Key(unit.scope, unit.base)), c, done, crashed);
    RestartKeepsInv(rules, s.disks[unit.scope := crashed], after);
  }

  lemma {:induction false} DeathKeepsInv(rules: Rules, s: State, releasing: Option<nat>, removed: set<Generation>, after: State)
    requires Inv(rules, s) && Dies(s, releasing, removed, after)
    ensures Inv(rules, after)
  {
    if releasing.None? {
      RestartKeepsInv(rules, s.disks, after);
    } else {
      var key := s.live[releasing.value];
      var d := s.disks[key.scope];
      RestartKeepsInv(rules, s.disks[key.scope := Swept(d, removed)], after);
    }
  }

  ghost function Restarted(stopped: map<Scope, Disk>): (after: State)
    requires forall scope :: scope in stopped ==> HasCurrent(stopped[scope])
    ensures Restarts(stopped, after)
  {
    State(map scope | scope in stopped :: Recovered(stopped[scope]), map[], map[], map[])
  }

  /** No crash inside a commit, admitted or not, leaves a scope that cannot be recovered. */
  lemma {:induction false} CrashRecovers(rules: Rules, s: State, u: nat, c: Commit, done: nat, crashed: Disk) returns (after: State)
    requires Inv(rules, s) && u in s.units
    requires var unit := s.units[u];
             && Reached(rules, s.disks[unit.scope], unit, Acquire(s.counts, Key(unit.scope, unit.base)), c, done)
             && Torn(DoAll(Plan(s.disks[unit.scope], c)[..done], s.disks[unit.scope]), crashed)
    ensures Next(rules, s, Crash(u, c, done, crashed), after)
  {
    var unit := s.units[u];
    CrashedScope(rules, s.disks[unit.scope], unit, Acquire(s.counts, Key(unit.scope, unit.base)), c, done, crashed);
    after := Restarted(s.disks[unit.scope := crashed]);
  }

  lemma {:induction false} EmptyCounted()
    ensures Counted(map[], map[])
  {
    var none: map<nat, Key> := map[];
    forall k ensures |Holders(none, k)| == 0 { assert Holders(none, k) == {}; }
  }

  lemma {:induction false} AddedWellFormed(u: Unit, m: Mutation)
    requires WellFormed(u.mutations) && MayAdd(u, m)
    ensures WellFormed(Added(u, m).mutations) && Added(u, m).scope == u.scope
  {
    var ms := u.mutations + [m];
    forall i, j | 0 <= i < j < |ms| ensures ms[i].ref != ms[j].ref {
      assert ms[i] == u.mutations[i];
      if j < |u.mutations| { assert ms[j] == u.mutations[j]; }
    }
  }

  predicate EndsCommit(e: Event) {
    e.CommitRefused? || e.CommitRaised? || e.CommitDone?
  }

  lemma {:induction false} BeginningsKeepInv(rules: Rules, s: State, e: Event, after: State)
    requires Inv(rules, s) && Next(rules, s, e, after) && !EndsCommit(e) && !e.Crash? && !e.Die?
    ensures Inv(rules, after)
  {
    match e
    case OpenSnapshot(scope, id) => AddSnapshot(rules, s, id, Key(scope, s.disks[scope].current.value));
    case Release(id, removed) => ReleaseKeepsInv(rules, s, id, removed, after);
    case Begin(u, scope, base) => ChangeUnit(rules, s, u, Unit(scope, base, [], false, false));
    case Add(u, m) => AddKeepsInv(rules, s, u, m);
    case Abort(u) => ChangeUnit(rules, s, u, s.units[u].(mutations := [], closed := true));
  }

  lemma {:induction false} EndsKeepInv(rules: Rules, s: State, e: Event, after: State)
    requires Inv(rules, s) && Next(rules, s, e, after) && EndsCommit(e)
    ensures Inv(rules, after)
  {
    match e
    case CommitRefused(u, registered, token, left) => RefusedKeepsInv(rules, s, u, registered, token, left, after);
    case CommitRaised(u, baseId, c, done, left) => RaisedKeepsInv(rules, s, u, baseId, c, done, left, after);
    case CommitDone(u, baseId, newId, c) => FinishedKeepsInv(rules, s, u, baseId, newId, c, after);
  }

  lemma {:induction false} DeathsKeepInv(rules: Rules, s: State, e: Event, after: State)
    requires Inv(rules, s) && Next(rules, s, e, after) && (e.Crash? || e.Die?)
    ensures Inv(rules, after)
  {
    match e
    case Crash(u, c, done, crashed) => CrashKeepsInv(rules, s, u, c, done, crashed, after);
    case Die(releasing, removed) => DeathKeepsInv(rules, s, releasing, removed, after);
  }

  /** Every event keeps the invariant. */
  lemma {:induction false} NextKeepsInv(rules: Rules, s: State, e: Event, after: State)
    requires Inv(rules, s) && Next(rules, s, e, after)
    ensures Inv(rules, after)
  {
    if EndsCommit(e) {
      EndsKeepInv(rules, s, e, after);
    } else if e.Crash? || e.Die? {
      DeathsKeepInv(rules, s, e, after);
    } else {
      BeginningsKeepInv(rules, s, e, after);
    }
  }

  lemma {:induction false} AddKeepsInv(rules: Rules, s: State, u: nat, m: Mutation)
    requires Inv(rules, s) && u in s.units && MayAdd(s.units[u], m)
    ensures Inv(rules, WithUnit(s, u, Added(s.units[u], m)))
  {
    AddedWellFormed(s.units[u], m);
    ChangeUnit(rules, s, u, Added(s.units[u], m));
  }

  lemma {:induction false} RefusedKeepsInv(rules: Rules, s: State, u: nat, registered: Option<nat>, token: Token, left: Disk, after: State)
    requires Inv(rules, s) && Refuses(s, u, registered, token, left, after)
    ensures Inv(rules, after)
  {
    var unit := s.units[u].(closed := true);
    ChangeUnit(rules, s, u, unit);
    var t := WithUnit(s, u, unit);
    ReplaceDisk(rules, t, unit.scope, left);
    if registered.Some? {
      AddSnapshot(rules, WithDisk(t, unit.scope, left), registered.value, Key(unit.scope, left.current.value));
    }
  }

  // Runs

  ghost function InvOf(rules: Rules): State -> bool {
    s => Inv(rules, s)
  }

  ghost function NextOf(rules: Rules): (State, Event, State) -> bool {
    (s, e, t) => Next(rules, s, e, t)
  }

  ghost predicate Run(rules: Rules, states: seq<State>, events: seq<Event>) {
    IsRun(NextOf(rules), states, events) && InvOf(rules)(states[0])
  }

  lemma {:induction false} InvInductive(rules: Rules)
    ensures Inductive(InvOf(rules), NextOf(rules))
  {
    forall s, e, t | InvOf(rules)(s) && NextOf(rules)(s, e, t) ensures InvOf(rules)(t) {
      NextKeepsInv(rules, s, e, t);
    }
  }

  /** In every state of every run: CURRENT names a present generation, every directory is what its name
      says, counts are exactly the live snapshots, every pinned generation is present, and the published
      reference graph is sound. */
  lemma {:induction false} RunInvariant(rules: Rules, states: seq<State>, events: seq<Event>, n: nat)
    requires Run(rules, states, events) && n < |states|
    ensures Inv(rules, states[n])
  {
    InvInductive(rules);
    InvariantHolds(InvOf(rules), NextOf(rules), states, events, n);
    assert InvOf(rules)(states[n]);
  }

  /** Two states that pin one snapshot to one generation read the same bytes through it. */
  lemma {:induction false} ReadsByName(rules: Rules, s: State, t: State, id: nat)
    requires Injective(rules.names) && Inv(rules, s) && Inv(rules, t)
    requires id in s.live && id in t.live && s.live[id] == t.live[id]
    ensures Pinned(s, id) && Pinned(t, id) && Reads(s, id) == Reads(t, id)
  {
    assert Pinned(s, id) && Pinned(t, id);
    assert rules.names(s.live[id].generation, Reads(s, id));
    assert rules.names(s.live[id].generation, Reads(t, id));
  }

  lemma {:induction false} NextKeepsPins(rules: Rules, s: State, e: Event, after: State, id: nat)
    requires Next(rules, s, e, after) && id in s.live && id in after.live
    ensures after.live[id] == s.live[id]
  {}

  lemma {:induction false} PinsStay(rules: Rules, states: seq<State>, events: seq<Event>, i: nat, j: nat, id: nat)
    requires IsRun(NextOf(rules), states, events) && i <= j < |states|
    requires forall k :: i <= k <= j ==> id in states[k].live
    ensures states[j].live[id] == states[i].live[id]
    decreases j - i
  {
    if i < j {
      PinsStay(rules, states, events, i, j - 1, id);
      assert NextOf(rules)(states[j - 1], events[j - 1], states[j]);
      NextKeepsPins(rules, states[j - 1], events[j - 1], states[j], id);
    }
  }

  /** A snapshot reads the bytes it was opened on for as long as it lives, whatever commits meanwhile. */
  lemma {:induction false} SnapshotsAreFrozen(rules: Rules, states: seq<State>, events: seq<Event>, i: nat, j: nat, id: nat)
    requires Run(rules, states, events) && Injective(rules.names) && i <= j < |states|
    requires forall k :: i <= k <= j ==> id in states[k].live
    ensures Pinned(states[i], id) && Pinned(states[j], id)
    ensures Reads(states[j], id) == Reads(states[i], id)
  {
    PinsStay(rules, states, events, i, j, id);
    RunInvariant(rules, states, events, i);
    RunInvariant(rules, states, events, j);
    ReadsByName(rules, states[i], states[j], id);
  }

  // Serial history

  /** The event that published a new catalog for a scope, if this is one. */
  ghost function Publishes(s: State, e: Event, scope: Scope): Option<Commit> {
    match e
    case CommitDone(u, _, _, c) => if u in s.units && s.units[u].scope == scope then Some(c) else None
    case CommitRaised(u, _, c, done, _) =>
      if u in s.units && s.units[u].scope == scope && done >= Published(c) then Some(c) else None
    case Crash(u, c, done, _) =>
      if u in s.units && s.units[u].scope == scope && done >= Published(c) then Some(c) else None
    case _ => None
  }

  ghost function Catalog(s: State, scope: Scope): Docs
    requires scope in s.disks && HasCurrent(s.disks[scope])
  {
    Current(s.disks[scope])
  }

  /** What one event does to a scope's published catalog. */
  ghost predicate SerialStep(s: State, e: Event, after: State, scope: Scope)
    requires scope in s.disks && HasCurrent(s.disks[scope])
  {
    && scope in after.disks && HasCurrent(after.disks[scope])
    && match Publishes(s, e, scope)
       case None => after.disks[scope].current == s.disks[scope].current && Catalog(after, scope) == Catalog(s, scope)
       case Some(c) =>
         && e.unit in s.units
         && s.disks[scope].current == Some(s.units[e.unit].base)
         && AllMatch(Catalog(s, scope), s.units[e.unit].mutations)
         && multiset(c.mutations) == multiset(s.units[e.unit].mutations)
         && Catalog(after, scope) == Updated(Catalog(s, scope), s.units[e.unit].mutations)
  }

  /** What an admitted commit stopped after `done` effects does to its scope's catalog. */
  ghost predicate Advances(d: Disk, u: Unit, c: Commit, done: nat, after: Disk)
    requires HasCurrent(d)
  {
    && HasCurrent(after)
    && d.current == Some(u.base) && AllMatch(Current(d), u.mutations) && multiset(c.mutations) == multiset(u.mutations)
    && if done < Published(c) then after.current == d.current && Current(after) == Current(d)
       else Current(after) == Updated(Current(d), u.mutations)
  }

  lemma {:induction false} RaisedAdvances(rules: Rules, d: Disk, u: Unit, counts: map<Key, nat>, c: Commit, done: nat, left: Disk)
    requires Admitted(rules, d, u, counts, c) && WellFormed(u.mutations) && done <= |Plan(d, c)|
    requires Abandoned(DoAll(Plan(d, c)[..done], d), c, left)
    ensures HasCurrent(d) && Advances(d, u, c, done, left)
  {
    RaisedCommit(rules.names, d, c, done, left);
    UpdateOrderFree(Current(d), u.mutations, c.mutations);
  }

  lemma {:induction false} FinishedAdvances(rules: Rules, d: Disk, u: Unit, counts: map<Key, nat>, c: Commit)
    requires Admitted(rules, d, u, counts, c) && WellFormed(u.mutations)
    ensures HasCurrent(d) && Advances(d, u, c, Published(c), DoAll(Plan(d, c), d))
  {
    DoneIsAbandoned(d, c);
    RaisedAdvances(rules, d, u, counts, c, |Plan(d, c)|, DoAll(Plan(d, c), d));
  }

  lemma {:induction false} CrashAdvances(rules: Rules, d: Disk, u: Unit, counts: map<Key, nat>, c: Commit, done: nat, crashed: Disk)
    requires Intact(rules.names, d) && Reached(rules, d, u, counts, c, done) && WellFormed(u.mutations) && rules.sound(Current(d))
    requires Torn(DoAll(Plan(d, c)[..done], d), crashed)
    ensures HasCurrent(crashed) && Advances(d, u, c, done, Recovered(crashed))
  {
    CrashedScope(rules, d, u, counts, c, done, crashed);
    UpdateOrderFree(Current(d), u.mutations, c.mutations);
  }

  /** An event that moves one scope the way `Advances` says is a serial step for every scope. */
  lemma {:induction false} AdvanceIsSerial(s: State, e: Event, u: nat, c: Commit, done: nat, after: State, scope: Scope)
    requires u in s.units && s.units[u].scope in s.disks && HasCurrent(s.disks[s.units[u].scope])
    requires scope in s.disks && HasCurrent(s.disks[scope]) && scope in after.disks
    requires Publishes(s, e, scope) == if s.units[u].scope == scope && done >= Published(c) then Some(c) else None
    requires Publishes(s, e, scope).Some? ==> e.unit == u
    requires if scope == s.units[u].scope then Advances(s.disks[scope], s.units[u], c, done, after.disks[scope])
             else HasCurrent(after.disks[scope]) && after.disks[scope].current == s.disks[scope].current
                  && Current(after.disks[scope]) == Current(s.disks[scope])
    ensures SerialStep(s, e, after, scope)
  {}

  lemma {:induction false} RaisedIsSerial(rules: Rules, s: State, e: Event, after: State, scope: Scope)
    requires scope in s.disks && HasCurrent(s.disks[scope])
    requires e.CommitRaised? && Raises(rules, s, e.unit, e.baseId, e.commit, e.done, e.left, after)
    requires WellFormed(s.units[e.unit].mutations)
    ensures SerialStep(s, e, after, scope)
  {
    var unit := s.units[e.unit];
    RaisedAdvances(rules, s.disks[unit.scope], unit, Acquire(s.counts, Key(unit.scope, unit.base)), e.commit, e.done, e.left);
    AdvanceIsSerial(s, e, e.unit, e.commit, e.done, after, scope);
  }

  lemma {:induction false} FinishedIsSerial(rules: Rules, s: State, e: Event, after: State, scope: Scope)
    requires scope in s.disks && HasCurrent(s.disks[scope])
    requires e.CommitDone? && Finishes(rules, s, e.unit, e.baseId, e.newId, e.commit, after)
    requires WellFormed(s.units[e.unit].mutations)
    ensures SerialStep(s, e, after, scope)
  {
    var unit := s.units[e.unit];
    FinishedAdvances(rules, s.disks[unit.scope], unit, Acquire(s.counts, Key(unit.scope, unit.base)), e.commit);
    AdvanceIsSerial(s, e, e.unit, e.commit, Published(e.commit), after, scope);
  }

  lemma {:induction false} RecoveredSame(d: Disk)
    requires HasCurrent(d)
    ensures HasCurrent(Recovered(d)) && Recovered(d).current == d.current && Current(Recovered(d)) == Current(d)
  {}

  lemma {:induction false} CrashedStep(s: State, e: Event, after: State, scope: Scope)
    requires e.Crash? && e.unit in s.units && s.units[e.unit].scope in s.disks && HasCurrent(s.disks[s.units[e.unit].scope])
    requires scope in s.disks && HasCurrent(s.disks[scope]) && scope in after.disks
    requires if scope == s.units[e.unit].scope
             then Advances(s.disks[scope], s.units[e.unit], e.commit, e.done, after.disks[scope])
             else after.disks[scope] == Recovered(s.disks[scope])
    ensures SerialStep(s, e, after, scope)
  {
    if scope != s.units[e.unit].scope { RecoveredSame(s.disks[scope]); }
    AdvanceIsSerial(s, e, e.unit, e.commit, e.done, after, scope);
  }

  lemma {:induction false} CrashIsSerial(rules: Rules, s: State, e: Event, after: State, scope: Scope)
    requires Inv(rules, s) && scope in s.disks
    requires e.Crash? && Crashes(rules, s, e.unit, e.commit, e.done, e.crashed, after)
    ensures HasCurrent(s.disks[scope]) && SerialStep(s, e, after, scope)
  {
    var unit := s.units[e.unit];
    var stopped := s.disks[unit.scope := e.crashed];
    assert after.disks[scope] == Recovered(stopped[scope]);
    if scope == unit.scope {
      CrashAdvances(rules, s.disks[scope], unit, Acquire(s.counts, Key(scope, unit.base)), e.commit, e.done, e.crashed);
    }
    CrashedStep(s, e, after, scope);
  }

  /** Recovery changes no scope's catalog. */
  lemma {:induction false} RestartIsSerial(s: State, e: Event, stopped: map<Scope, Disk>, after: State, scope: Scope)
    requires scope in s.disks && HasCurrent(s.disks[scope]) && scope in stopped && Restarts(stopped, after)
    requires stopped[scope].current == s.disks[scope].current && Current(stopped[scope]) == Current(s.disks[scope])
    requires Publishes(s, e, scope).None?
    ensures SerialStep(s, e, after, scope)
  {
    RecoveredSame(stopped[scope]);
  }

  lemma {:induction false} DeathIsSerial(rules: Rules, s: State, e: Event, after: State, scope: Scope)
    requires Inv(rules, s) && scope in s.disks && e.Die? && Dies(s, e.releasing, e.removed, after)
    ensures HasCurrent(s.disks[scope]) && SerialStep(s, e, after, scope)
  {
    if e.releasing.None? {
      RestartIsSerial(s, e, s.disks, after, scope);
    } else {
      SweepDeathIsSerial(s, e, after, scope, s.live[e.releasing.value]);
    }
  }

  lemma {:induction false} SweepDeathIsSerial(s: State, e: Event, after: State, scope: Scope, key: Key)
    requires scope in s.disks && HasCurrent(s.disks[scope]) && key.scope in s.disks && e.Die?
    requires e.removed <= Dead(s.disks[key.scope], Drop(s.counts, key), key.scope)
    requires Restarts(s.disks[key.scope := Swept(s.disks[key.scope], e.removed)], after)
    ensures SerialStep(s, e, after, scope)
  {
    RestartIsSerial(s, e, s.disks[key.scope := Swept(s.disks[key.scope], e.removed)], after, scope);
  }

  lemma {:induction false} ReleaseIsSerial(rules: Rules, s: State, e: Event, after: State, scope: Scope)
    requires Inv(rules, s) && scope in s.disks && e.Release? && Next(rules, s, e, after)
    ensures HasCurrent(s.disks[scope]) && SerialStep(s, e, after, scope)
  {
    var key := s.live[e.id];
    DropCounts(s.counts, s.live, e.id);
    RemovalKeeps(s.disks[key.scope], key.scope, Drop(s.counts, key), s.live - {e.id}, e.removed);
  }

  lemma {:induction false} RefusedIsSerial(s: State, e: Event, after: State, scope: Scope)
    requires scope in s.disks && HasCurrent(s.disks[scope])
    requires e.CommitRefused? && Refuses(s, e.unit, e.registered, e.token, e.left, after)
    ensures SerialStep(s, e, after, scope)
  {
    assert after.disks == s.disks[s.units[e.unit].scope := e.left];
  }

  /** A scope's catalog changes only when a commit publishes, and then from its own base, with every
      expected revision matching, to the simultaneous update of that base. */
  lemma {:induction false} NextIsSerial(rules: Rules, s: State, e: Event, after: State, scope: Scope)
    requires Inv(rules, s) && scope in s.disks && Next(rules, s, e, after)
    ensures HasCurrent(s.disks[scope]) && SerialStep(s, e, after, scope)
  {
    if EndsCommit(e) {
      EndIsSerial(rules, s, e, after, scope);
    } else if e.Crash? {
      CrashIsSerial(rules, s, e, after, scope);
    } else if e.Die? {
      DeathIsSerial(rules, s, e, after, scope);
    } else if e.Release? {
      ReleaseIsSerial(rules, s, e, after, scope);
    } else {
      assert after.disks == s.disks;
      assert Publishes(s, e, scope).None?;
    }
  }

  lemma {:induction false} EndIsSerial(rules: Rules, s: State, e: Event, after: State, scope: Scope)
    requires Inv(rules, s) && scope in s.disks && Next(rules, s, e, after) && EndsCommit(e)
    ensures HasCurrent(s.disks[scope]) && SerialStep(s, e, after, scope)
  {
    match e
    case CommitRefused(_, _, _, _) => RefusedIsSerial(s, e, after, scope);
    case CommitRaised(_, _, _, _, _) => RaisedIsSerial(rules, s, e, after, scope);
    case CommitDone(_, _, _, _) => FinishedIsSerial(rules, s, e, after, scope);
  }

  /** Replaying only the published units of work, one after another. */
  ghost function Replay(states: seq<State>, events: seq<Event>, scope: Scope, n: nat, start: Docs): Docs
    requires n <= |events| && |states| == |events| + 1
  {
    if n == 0 then start
    else
      var before := Replay(states, events, scope, n - 1, start);
      if Publishes(states[n - 1], events[n - 1], scope).Some? && events[n - 1].unit in states[n - 1].units then
        Updated(before, states[n - 1].units[events[n - 1].unit].mutations)
      else before
  }

  lemma {:induction false} StartHasCurrent(rules: Rules, s: State, scope: Scope)
    requires Inv(rules, s) && scope in s.disks
    ensures HasCurrent(s.disks[scope])
  {}

  /** The invariant and the steps under these rules, as values. */
  ghost predicate Acts(rules: Rules, inv: State -> bool, next: (State, Event, State) -> bool) {
    && Inductive(inv, next)
    && (forall s {:trigger Inv(rules, s)} :: inv(s) == Inv(rules, s))
    && (forall s, e, t {:trigger Next(rules, s, e, t)} :: next(s, e, t) == Next(rules, s, e, t))
  }

  lemma {:induction false} StepIsSerial(rules: Rules, inv: State -> bool, next: (State, Event, State) -> bool, s: State, e: Event, t: State, scope: Scope)
    requires Acts(rules, inv, next) && inv(s) && next(s, e, t) && scope in s.disks
    ensures HasCurrent(s.disks[scope]) && SerialStep(s, e, t, scope)
  {
    assert Inv(rules, s) && Next(rules, s, e, t);
    NextIsSerial(rules, s, e, t, scope);
  }

  /** The catalog after n events is the replay of those that published. */
  ghost predicate Replayed(states: seq<State>, events: seq<Event>, scope: Scope, n: nat)
    requires n <= |events| && |states| == |events| + 1
  {
    && scope in states[0].disks && HasCurrent(states[0].disks[scope])
    && scope in states[n].disks && HasCurrent(states[n].disks[scope])
    && Catalog(states[n], scope) == Replay(states, events, scope, n, Catalog(states[0], scope))
  }

  lemma {:induction false} HistoryOf(rules: Rules, inv: State -> bool, next: (State, Event, State) -> bool, states: seq<State>, events: seq<Event>, scope: Scope, n: nat)
    requires Acts(rules, inv, next) && IsRun(next, states, events) && inv(states[0]) && n <= |events| && scope in states[0].disks
    ensures Replayed(states, events, scope, n)
  {
    if n == 0 {
      assert Inv(rules, states[0]);
      StartHasCurrent(rules, states[0], scope);
    } else {
      HistoryOf(rules, inv, next, states, events, scope, n - 1);
      InvariantHolds(inv, next, states, events, n - 1);
      StepIsSerial(rules, inv, next, states[n - 1], events[n - 1], states[n], scope);
      ReplayStep(states, events, scope, n);
    }
  }

  /** Over every interleaving of units of work, process deaths included, the published catalog is that serial replay. */
  lemma {:induction false} SerialHistory(rules: Rules, states: seq<State>, events: seq<Event>, scope: Scope, n: nat)
    requires Run(rules, states, events) && n <= |events| && scope in states[0].disks
    ensures Replayed(states, events, scope, n)
  {
    InvInductive(rules);
    HistoryOf(rules, InvOf(rules), NextOf(rules), states, events, scope, n);
  }

  lemma {:induction false} ReplayStep(states: seq<State>, events: seq<Event>, scope: Scope, n: nat)
    requires 0 < n <= |events| && |states| == |events| + 1
    requires Replayed(states, events, scope, n - 1) && SerialStep(states[n - 1], events[n - 1], states[n], scope)
    ensures Replayed(states, events, scope, n)
  {}

  // The rules of this repository

  /** What a snapshot over a catalog reads: its own documents and the shipped ones. */
  function SnapshotView(env: Env, docs: Docs): View {
    View(map r | r in env.shipped.Keys + docs.Keys && (if r.namespace.Shipped? then r in env.shipped else r in docs) ::
           Found(Family(r), PreservedPath(r), if r.namespace.Shipped? then env.shipped[r] else docs[r]),
         env.validate)
  }

  /** `_validate_staged_reference_graph` accepts the catalog. */
  ghost predicate SoundIn(env: Env, docs: Docs) {
    Collectable(JudgeOf(SnapshotView(env, docs)), docs.Keys)
  }

  ghost function RulesOf(env: Env): Rules {
    Rules(NamesOf(env), docs => SoundIn(env, docs))
  }

  /** What soundness means to a reader: every reference of every document names a document of the catalog
      or of the shipped catalog, and no document reaches itself. */
  lemma {:induction false} SoundMeansClosedAndAcyclic(env: Env, docs: Docs, r: Ref, target: Ref)
    requires SoundIn(env, docs) && r in docs
    requires Digraph.Reaches(Cites(JudgeOf(SnapshotView(env, docs))), r, target)
    ensures target in SnapshotView(env, docs).documents
    ensures !Digraph.OnCycle(Cites(JudgeOf(SnapshotView(env, docs))), target)
    ensures if target.namespace.Shipped? then target in env.shipped else target in docs
  {
    assert Reachable(JudgeOf(SnapshotView(env, docs)), docs.Keys, target);
    assert JudgeOf(SnapshotView(env, docs))(target).Accepts?;
  }

  /** In every run, every document of every published catalog resolves all of its references, transitively. */
  lemma {:induction false} NoDanglingReferences(env: Env, states: seq<State>, events: seq<Event>, n: nat, scope: Scope, r: Ref, target: Ref)
    requires Run(RulesOf(env), states, events) && n < |states| && scope in states[n].disks
    requires HasCurrent(states[n].disks[scope]) && r in Catalog(states[n], scope)
    requires Digraph.Reaches(Cites(JudgeOf(SnapshotView(env, Catalog(states[n], scope)))), r, target)
    ensures target in SnapshotView(env, Catalog(states[n], scope)).documents
    ensures !Digraph.OnCycle(Cites(JudgeOf(SnapshotView(env, Catalog(states[n], scope)))), target)
  {
    RunInvariant(RulesOf(env), states, events, n);
    assert RulesOf(env).sound(Catalog(states[n], scope));
    SoundMeansClosedAndAcyclic(env, Catalog(states[n], scope), r, target);
  }

  /** The empty catalog has nothing to resolve. */
  lemma {:induction false} EmptyIsSound(env: Env)
    ensures SoundIn(env, map[])
  {}

  /** A fresh process over recovered scopes whose catalogs are sound starts in the invariant. */
  lemma {:induction false} FreshStart(rules: Rules, disks: map<Scope, Disk>)
    requires forall scope :: scope in disks ==> Intact(rules.names, disks[scope]) && rules.sound(Current(disks[scope]))
    ensures Inv(rules, State(disks, map[], map[], map[]))
  {
    EmptyCounted();
  }

  /** Why no snapshot may be released inside a commit: nothing holds the new generation yet, so a cleanup between
      naming it and replacing CURRENT removes it as dead, and CURRENT then names nothing. */
  lemma {:induction false} ReleaseInsideCommit(names: Names, d: Disk, c: Commit, counts: map<Key, nat>, scope: Scope)
    requires Ready(names, d, c) && c.generation !in d.generations && Held(counts, Key(scope, c.generation)) == 0
    ensures var swept := Named(d, c).(generations := Named(d, c).generations - Dead(Named(d, c), counts, scope));
            var after := DoAll(Publishing(c.temporary, c.generation), swept);
            after.current == Some(c.generation) && !HasCurrent(after)
  {
    NamedDisk(names, d, c);
    var swept := Named(d, c).(generations := Named(d, c).generations - Dead(Named(d, c), counts, scope));
    var tmp := MakeTemporary(c.temporary, c.generation);
    assert c.generation in Dead(Named(d, c), counts, scope);
    assert Publishing(c.temporary, c.generation) == [tmp] + [ReplaceCurrent(c.temporary)];
    DoAllLast([tmp], ReplaceCurrent(c.temporary), swept);
    assert DoAll([tmp], swept) == DoAll([], Do(tmp, swept));
  }
}
