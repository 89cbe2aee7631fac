/** The repository and its units of work as the objects they are.

    Storage can fail at any effect, those of the exception handlers included: `fates` says of each effect whether it
    works, raises, or raises once it is done. `Repository.Stands` says which
    state of the run machine the objects stand for, and every public operation is proved to take them to a next
    state of that machine, so everything proved of its runs holds of the objects.
 */
module CatalogRepository {
  import opened Ordering
  import opened Wrappers
  import opened CatalogRefs
  import opened Utf8
  import opened GenerationStream
  import opened CatalogClosure
  import opened CatalogStore
  import opened CatalogRuns

  datatype Reason = UnknownScope | StaleGeneration | Conflict | InvalidCatalog | StorageFailed

  /** How a commit ends; `registered` says whether the base snapshot was counted. */
  datatype Outcome = Declined(reason: Reason, registered: bool) | Raised | Committed(generation: Generation)

  /** `rules` is what this environment's hashing and validation amount to. */
  ghost predicate Follows(rules: Rules, env: Env) {
    && (forall g, docs {:trigger NamedBy(env, g, docs)} :: rules.names(g, docs) == NamedBy(env, g, docs))
    && (forall docs {:trigger SoundIn(env, docs)} :: rules.sound(docs) == SoundIn(env, docs))
  }

  lemma {:induction false} RulesFollow(env: Env)
    ensures Follows(RulesOf(env), env)
  {}

  lemma {:induction false} FollowingInjective(rules: Rules, env: Env)
    requires Follows(rules, env)
    ensures Injective(rules.names)
  {
    NamesInjective(env);
    forall g, a, b | rules.names(g, a) && rules.names(g, b) ensures a == b {
      assert NamedBy(env, g, a) && NamedBy(env, g, b);
      assert NamesOf(env)(g, a) && NamesOf(env)(g, b);
    }
  }

  /** How a commit ended: the plan and how far it got, the disk and the counts it left, and whether storage failed. */
  datatype Ending = Ending(outcome: Outcome, commit: Commit, done: nat, disk: Disk, active: map<Key, nat>, faulted: bool)

  /** The run machine under one set of rules, as values: its invariant, its steps, and what a commit may do. */
  datatype Machine = Machine(inv: State -> bool, next: (State, Event, State) -> bool,
                             settles: (Disk, Unit, map<Key, nat>, Ending) -> bool)

  ghost predicate Runs(m: Machine, rules: Rules) {
    && (forall s {:trigger Inv(rules, s)} :: m.inv(s) == Inv(rules, s))
    && (forall s, e, after {:trigger Next(rules, s, e, after)} :: m.next(s, e, after) == Next(rules, s, e, after))
    && (forall d, u, held, end {:trigger Settles(rules, d, u, held, end)} :: m.settles(d, u, held, end) == Settles(rules, d, u, held, end))
  }

  ghost function MachineOf(rules: Rules): (m: Machine)
    ensures Runs(m, rules)
  {
    Machine(InvOf(rules), NextOf(rules), (d, u, held, end) => Settles(rules, d, u, held, end))
  }

  /** A step from the invariant, and where it leads. */
  ghost predicate Steps(m: Machine, s: State, e: Event, after: State) {
    m.next(s, e, after) && m.inv(after)
  }

  lemma {:induction false} StepFrom(m: Machine, rules: Rules, s: State, e: Event, after: State)
    requires Runs(m, rules) && m.inv(s) && Next(rules, s, e, after)
    ensures Steps(m, s, e, after)
  {
    assert Inv(rules, s);
    NextKeepsInv(rules, s, e, after);
    assert Inv(rules, after);
  }

  /** What the invariant says of one scope and one unit. */
  lemma {:induction false} InvariantOf(m: Machine, rules: Rules, s: State)
    requires Runs(m, rules) && m.inv(s)
    ensures forall scope :: scope in s.disks ==> Intact(rules.names, s.disks[scope])
    ensures forall u :: u in s.units ==> s.units[u].scope in s.disks && WellFormed(s.units[u].mutations)
    ensures forall id :: id in s.live ==> s.live[id].scope in s.disks
  {
    assert Inv(rules, s);
    forall id | id in s.live ensures s.live[id].scope in s.disks { assert Pinned(s, id); }
  }

  lemma {:induction false} UnitOf(m: Machine, rules: Rules, s: State, u: nat)
    requires Runs(m, rules) && m.inv(s) && u in s.units
    ensures s.units[u].scope in s.disks && WellFormed(s.units[u].mutations)
  {
    InvariantOf(m, rules, s);
  }

  lemma {:induction false} SnapshotStep(m: Machine, rules: Rules, s: State, scope: Scope, id: nat)
    requires Runs(m, rules) && m.inv(s) && scope in s.disks && id !in s.live
    ensures HasCurrent(s.disks[scope])
    ensures Steps(m, s, OpenSnapshot(scope, id), WithSnapshot(s, id, Key(scope, s.disks[scope].current.value)))
  {
    InvariantOf(m, rules, s);
    StepFrom(m, rules, s, OpenSnapshot(scope, id), WithSnapshot(s, id, Key(scope, s.disks[scope].current.value)));
  }

  /** The state once a snapshot's count is dropped and the removed generations are gone. */
  ghost function Released(s: State, id: nat, removed: set<Generation>): State
    requires id in s.live && s.live[id].scope in s.disks
  {
    var key := s.live[id];
    State(s.disks[key.scope := Swept(s.disks[key.scope], removed)], Drop(s.counts, key), s.live - {id}, s.units)
  }

  lemma {:induction false} ReleaseStep(m: Machine, rules: Rules, s: State, id: nat, removed: set<Generation>, after: State)
    requires Runs(m, rules) && m.inv(s) && id in s.live && s.live[id].scope in s.disks
    requires removed <= Dead(s.disks[s.live[id].scope], Drop(s.counts, s.live[id]), s.live[id].scope) && after == Released(s, id, removed)
    ensures Steps(m, s, Event.Release(id, removed), after)
  {
    StepFrom(m, rules, s, Event.Release(id, removed), after);
  }

  lemma {:induction false} BeginStep(m: Machine, rules: Rules, s: State, u: nat, scope: Scope, base: Generation)
    requires Runs(m, rules) && m.inv(s) && scope in s.disks && u !in s.units
    ensures Steps(m, s, Event.Begin(u, scope, base), WithUnit(s, u, Unit(scope, base, [], false, false)))
  {
    StepFrom(m, rules, s, Event.Begin(u, scope, base), WithUnit(s, u, Unit(scope, base, [], false, false)));
  }

  lemma {:induction false} AddStep(m: Machine, rules: Rules, s: State, u: nat, mutation: Mutation)
    requires Runs(m, rules) && m.inv(s) && u in s.units && MayAdd(s.units[u], mutation)
    ensures Steps(m, s, Event.Add(u, mutation), WithUnit(s, u, Added(s.units[u], mutation)))
  {
    StepFrom(m, rules, s, Event.Add(u, mutation), WithUnit(s, u, Added(s.units[u], mutation)));
  }

  lemma {:induction false} AbortStep(m: Machine, rules: Rules, s: State, u: nat)
    requires Runs(m, rules) && m.inv(s) && u in s.units
    ensures Steps(m, s, Event.Abort(u), WithUnit(s, u, s.units[u].(mutations := [], closed := true)))
  {
    StepFrom(m, rules, s, Event.Abort(u), WithUnit(s, u, s.units[u].(mutations := [], closed := true)));
  }

  /** A commit without mutations only closes its unit. */
  lemma {:induction false} CloseStep(m: Machine, rules: Rules, s: State, u: nat)
    requires Runs(m, rules) && m.inv(s) && u in s.units
    ensures s.units[u].scope in s.disks
    ensures Steps(m, s, CommitRefused(u, None, 0, s.disks[s.units[u].scope]), WithUnit(s, u, s.units[u].(closed := true)))
  {
    InvariantOf(m, rules, s);
    var d := s.disks[s.units[u].scope];
    assert WithDisk(s, s.units[u].scope, d) == s;
    StepFrom(m, rules, s, CommitRefused(u, None, 0, d), WithUnit(s, u, s.units[u].(closed := true)));
  }

  /** Documents in no particular order, as directory enumeration yields them. */
  method ListDocuments(docs: Docs) returns (items: seq<Document>)
    ensures Lists(items, docs)
  {
    items := [];
    var left := docs.Keys;
    while left != {}
      invariant left <= docs.Keys && Distinct(items)
      invariant forall d :: d in items <==> d.0 in docs && d.0 !in left && d.1 == docs[d.0]
      decreases |left|
    {
      var r :| r in left;
      assert forall d :: d in items + [(r, docs[r])] <==> d in items || d == (r, docs[r]);
      assert (r, docs[r]) !in items;
      items := items + [(r, docs[r])];
      left := left - {r};
    }
  }

  /** `_validate_catalog_root`: every document valid, then the catalog's own name. */
  method ValidateRoot(env: Env, docs: Docs) returns (g: Option<Generation>)
    ensures g.Some? <==> Storable(env, docs)
    ensures g.Some? ==> NamedBy(env, g.value, docs)
  {
    var items := ListDocuments(docs);
    var i := 0;
    while i < |items|
      invariant 0 <= i <= |items|
      invariant forall k :: 0 <= k < i ==> Fits(items[k]) && items[k].0.namespace.User? && env.validate(items[k].0, items[k].1).Valid?
    {
      assert items[i] in items;
      if !Fits(items[i]) || items[i].0.namespace.Shipped? || !env.validate(items[i].0, items[i].1).Valid? {
        return None;
      }
      i := i + 1;
    }
    forall r | r in docs ensures Fits((r, docs[r])) && r.namespace.User? && env.validate(r, docs[r]).Valid? {
      assert (r, docs[r]) in items;
    }
    var name := CatalogGeneration(items, docs);
    g := Some(name);
  }

  function RefsOf(items: seq<Document>): (refs: seq<Ref>)
    ensures |refs| == |items|
    ensures forall i :: 0 <= i < |items| ==> refs[i] == items[i].0
  {
    seq(|items|, i requires 0 <= i < |items| => items[i].0)
  }

  lemma {:induction false} RefsOfListing(items: seq<Document>, docs: Docs)
    requires Lists(items, docs)
    ensures Elements(RefsOf(items)) == docs.Keys
  {
    forall r ensures r in Elements(RefsOf(items)) <==> r in docs {
      if r in docs {
        assert (r, docs[r]) in items;
        var i :| 0 <= i < |items| && items[i] == (r, docs[r]);
        assert RefsOf(items)[i] == r;
      }
      if r in RefsOf(items) {
        var i :| 0 <= i < |items| && RefsOf(items)[i] == r;
        assert items[i] in items;
      }
    }
  }

  /** `_validate_staged_reference_graph`. */
  method ValidateGraph(env: Env, docs: Docs) returns (ok: bool)
    ensures ok <==> SoundIn(env, docs)
  {
    var items := ListDocuments(docs);
    RefsOfListing(items, docs);
    var graph := CollectReferences(RefsOf(items), SnapshotView(env, docs));
    ok := graph.Ok?;
  }

  /** `_validate_catalog_root` against the rules: a name exactly when the rules have one. */
  method NameOf(ghost rules: Rules, env: Env, docs: Docs) returns (name: Option<Generation>)
    requires Follows(rules, env)
    ensures name.Some? ==> rules.names(name.value, docs)
    ensures forall g :: rules.names(g, docs) ==> name == Some(g)
  {
    name := ValidateRoot(env, docs);
    forall g | rules.names(g, docs) ensures name == Some(g) { assert NamedBy(env, g, docs); }
  }

  method ListGenerations(d: Disk) returns (listing: seq<Generation>)
    ensures Elements(listing) == d.generations.Keys && Distinct(listing)
  {
    listing := [];
    var left := d.generations.Keys;
    while left != {}
      invariant left <= d.generations.Keys && Elements(listing) == d.generations.Keys - left && Distinct(listing)
      decreases |left|
    {
      var g :| g in left;
      assert g !in Elements(listing) && Elements(listing + [g]) == Elements(listing) + {g};
      listing := listing + [g];
      left := left - {g};
    }
  }

  /** `_ScopeState`: one scope's directory. */
  class ScopeState {
    const scope: Scope
    var disk: Disk

    constructor (scope: Scope, disk: Disk)
      ensures this.scope == scope && this.disk == disk
    {
      this.scope, this.disk := scope, disk;
    }
  }

  /** What becomes of one storage effect. An effect that raises late has happened: a rename whose fsync fails. */
  datatype Fate = Works | Raises | RaisesLate

  class Repository {
    const env: Env
    const fates: nat -> Fate
    ghost const rules: Rules
    ghost const machine: Machine
    var scopes: map<Scope, ScopeState>
    var active: map<Key, nat>
    var clock: nat

    /** What the storage methods rely on. */
    ghost predicate Usable()
      reads this, scopes.Values
    {
      && Follows(rules, env)
      && forall s :: s in scopes ==> scopes[s].scope == s && Intact(rules.names, scopes[s].disk)
    }

    /** The scopes hold these disks. */
    ghost predicate Linked(disks: map<Scope, Disk>)
      reads this`scopes, scopes.Values
    {
      && scopes.Keys == disks.Keys
      && forall s :: s in scopes ==> scopes[s].scope == s && scopes[s].disk == disks[s]
    }

    /** The objects stand for this state of a run: its disks, its counts, and the invariant of runs. */
    ghost predicate Stands(s: State)
      reads this, scopes.Values
    {
      && Follows(rules, env) && Runs(machine, rules) && machine.inv(s)
      && Linked(s.disks) && active == s.counts
    }

    lemma {:induction false} StandsUsable(s: State)
      requires Stands(s)
      ensures Usable()
    {
      InvariantOf(machine, rules, s);
    }

    constructor (env: Env, fates: nat -> Fate)
      ensures this.env == env && this.fates == fates && scopes == map[] && active == map[] && clock == 0
      ensures Follows(rules, env) && Runs(machine, rules)
    {
      this.env, this.rules, this.fates := env, RulesOf(env), fates;
      machine := MachineOf(RulesOf(env));
      scopes, active, clock := map[], map[], 0;
      RulesFollow(env);
    }

    /** Some effect since then did not just work. */
    ghost predicate Faulted(from: nat)
      reads this`clock
    {
      exists n :: from <= n < clock && !fates(n).Works?
    }

    /** One storage effect; an exception may come before it or after it. */
    method Perform(state: ScopeState, e: Effect) returns (ok: bool, ghost did: bool)
      modifies state`disk, this`clock
      ensures clock == old(clock) + 1 && (ok ==> did) && (!ok ==> Faulted(old(clock)))
      ensures state.disk == if did then Do(e, old(state.disk)) else old(state.disk)
    {
      var fate := fates(clock);
      ok, did := fate.Works?, !fate.Raises?;
      clock := clock + 1;
      if !fate.Raises? { state.disk := Do(e, state.disk); }
    }

    /** Effects one after another until one raises. */
    method PerformAll(state: ScopeState, es: seq<Effect>) returns (ok: bool, ghost done: nat)
      modifies state`disk, this`clock
      ensures old(clock) <= clock && done <= |es| && (ok ==> done == |es|) && (!ok ==> Faulted(old(clock)))
      ensures state.disk == DoAll(es[..done], old(state.disk))
    {
      var i := 0;
      while i < |es|
        invariant 0 <= i <= |es| && old(clock) <= clock
        invariant state.disk == DoAll(es[..i], old(state.disk))
      {
        ghost var did;
        ok, did := Perform(state, es[i]);
        assert es[..i + 1] == es[..i] + [es[i]];
        DoAllLast(es[..i], es[i], old(state.disk));
        if !ok {
          done := if did then i + 1 else i;
          return;
        }
        i := i + 1;
      }
      ok, done := true, i;
    }

    /** `_snapshot_at`: count one more reader of a generation. */
    method Register(key: Key)
      modifies this`active
      ensures active == Acquire(old(active), key)
    {
      active := active[key := Held(active, key) + 1];
    }

    /** `snapshot`: an unknown scope is refused; otherwise a snapshot of CURRENT. */
    method Snapshot(scope: Scope, ghost s: State, ghost id: nat) returns (key: Option<Key>, ghost after: State)
      requires Stands(s) && id !in s.live
      modifies this`active
      ensures Stands(after)
      ensures key.None? <==> scope !in scopes
      ensures key.None? ==> after == s
      ensures key.Some? ==> Steps(machine, s, OpenSnapshot(scope, id), after)
      ensures key.Some? ==> id in after.live && after.live[id] == key.value && key.value.scope == scope && after.units == s.units
    {
      after := s;
      if scope !in scopes { return None, after; }
      SnapshotStep(machine, rules, s, scope, id);
      var k := Key(scope, scopes[scope].disk.current.value);
      Register(k);
      key, after := Some(k), WithSnapshot(s, id, k);
    }

    /** Check one dead directory and remove it. */
    method Sweep(state: ScopeState, g: Generation) returns (ok: bool, ghost did: bool)
      requires Follows(rules, env) && g in state.disk.generations
      modifies state`disk, this`clock
      ensures old(clock) <= clock && (ok ==> did) && (did ==> rules.names(g, old(state.disk).generations[g]))
      ensures state.disk == if did then Do(RemoveGeneration(g), old(state.disk)) else old(state.disk)
      ensures !ok && rules.names(g, old(state.disk).generations[g]) ==> Faulted(old(clock))
    {
      var name := NameOf(rules, env, state.disk.generations[g]);
      ok, did := name == Some(g), false;
      if ok { ok, did := Perform(state, RemoveGeneration(g)); }
    }

    /** `_cleanup_inactive_generations`: remove each dead directory after checking it is what its name says. */
    method Cleanup(state: ScopeState) returns (ok: bool, ghost doomed: seq<Generation>, ghost done: nat)
      requires Follows(rules, env)
      modifies state`disk, this`clock
      ensures Elements(doomed) == Dead(old(state.disk), active, state.scope)
      ensures done <= |doomed| && (ok ==> done == |doomed|) && old(clock) <= clock
      ensures !ok && Addressed(rules.names, old(state.disk)) ==> Faulted(old(clock))
      ensures ok ==> forall g :: g in doomed ==> g in old(state.disk).generations && rules.names(g, old(state.disk).generations[g])
      ensures state.disk == Swept(old(state.disk), Elements(doomed[..done]))
    {
      ghost var d, counts, dead := state.disk, active, Dead(state.disk, active, state.scope);
      var current := state.disk.current;
      var listing := ListGenerations(state.disk);
      ghost var gone := [];
      assert Swept(d, Elements(gone)) == d;
      var i := 0;
      while i < |listing|
        invariant 0 <= i <= |listing| && old(clock) <= clock
        invariant gone == DeadAmong(listing, i, d, counts, state.scope)
        invariant forall g :: g in gone ==> g in d.generations && rules.names(g, d.generations[g])
        invariant state.disk == Swept(d, Elements(gone))
      {
        var g := listing[i];
        if Some(g) != current && Held(active, Key(state.scope, g)) == 0 {
          NextDead(listing, i, d, counts, state.scope);
          SweptOneMore(d, gone, g);
          ghost var did;
          ok, did := Sweep(state, g);
          if did { gone := gone + [g]; }
          if !ok {
            doomed, done := gone + Enumeration(dead - Elements(gone)), |gone|;
            Completed(gone, dead);
            return;
          }
        }
        i := i + 1;
      }
      ok, doomed, done := true, gone, |gone|;
      assert doomed[..done] == doomed;
      AllDead(listing, d, counts, state.scope);
    }

    /** `_release_snapshot`, the finalizer of a snapshot. */
    method Release(key: Key, ghost s: State, ghost id: nat) returns (ok: bool, ghost removed: set<Generation>, ghost after: State)
      requires Stands(s) && id in s.live && s.live[id] == key && key.scope in scopes
      modifies this`active, this`clock, scopes[key.scope]
      ensures Stands(after) && (!ok ==> Faulted(old(clock)))
      ensures ok ==> removed == Dead(s.disks[key.scope], after.counts, key.scope)
      ensures Steps(machine, s, Event.Release(id, removed), after) && after.units == s.units
    {
      StandsUsable(s);
      ok, removed := DropKey(key, s.disks);
      after := Released(s, id, removed);
      ReleaseStep(machine, rules, s, id, removed, after);
    }

    method Unregister(key: Key)
      modifies this`active
      ensures active == Drop(old(active), key)
    {
      var held := Held(active, key);
      if held <= 1 { active := active - {key}; } else { active := active[key := held - 1]; }
    }

    /** Drop the count and sweep. */
    method DropKey(key: Key, ghost disks: map<Scope, Disk>) returns (ok: bool, ghost removed: set<Generation>)
      requires Usable() && Linked(disks) && key.scope in scopes
      modifies this`active, this`clock, scopes[key.scope]
      ensures active == Drop(old(active), key)
      ensures removed <= Dead(disks[key.scope], active, key.scope)
      ensures ok ==> removed == Dead(disks[key.scope], active, key.scope)
      ensures !ok ==> Faulted(old(clock))
      ensures Linked(disks[key.scope := Swept(disks[key.scope], removed)])
    {
      Unregister(key);
      ok, removed := SweepScope(scopes[key.scope]);
    }

    /** Cleanup of an intact scope. */
    method SweepScope(state: ScopeState) returns (ok: bool, ghost removed: set<Generation>)
      requires Follows(rules, env) && Intact(rules.names, state.disk)
      modifies state`disk, this`clock
      ensures removed <= Dead(old(state.disk), active, state.scope)
      ensures ok ==> removed == Dead(old(state.disk), active, state.scope)
      ensures !ok ==> Faulted(old(clock))
      ensures state.disk == Swept(old(state.disk), removed)
    {
      ghost var doomed, done;
      ok, doomed, done := Cleanup(state);
      removed := Elements(doomed[..done]);
      RemovedDead(rules.names, old(state.disk), active, state.scope, doomed, done);
    }

    /** Copy the base into a fresh staging directory and apply the mutations in order. */
    method Stage(state: ScopeState, token: Token, items: seq<Document>, ms: seq<Mutation>) returns (ok: bool)
      modifies state`disk, this`clock
      ensures old(clock) <= clock && (!ok ==> Faulted(old(clock)))
      ensures ok ==> state.disk == DoAll(Staging(token, items, ms), old(state.disk))
      ensures !ok ==> OnlyStages(old(state.disk), token, state.disk)
    {
      ghost var did, done;
      ok, did := Perform(state, MakeStaging(token));
      if !ok { return; }
      var writes := Writes(token, items) + Mutates(token, ms);
      ok, done := PerformAll(state, writes);
      StagedSoFar(token, items, ms, old(state.disk), done);
      if ok {
        assert writes[..done] == writes;
      } else {
        DiscardStaging(state, token);
      }
    }

    /** The handler of `_commit`, which may raise in its turn. */
    method DiscardStaging(state: ScopeState, token: Token)
      modifies state`disk, this`clock
      ensures old(clock) <= clock && OnlyStages(old(state.disk), token, state.disk)
    {
      if token in state.disk.staging {
        var ok;
        ghost var did;
        ok, did := Perform(state, DropStaging(token));
      }
    }

    /** The handler of `_publish_current`. */
    method DiscardTemporary(state: ScopeState, temporary: Token)
      modifies state`disk, this`clock
      ensures old(clock) <= clock
      ensures state.disk == old(state.disk) || state.disk == Do(DropTemporary(temporary), old(state.disk))
    {
      if temporary in state.disk.temporaries {
        var ok;
        ghost var did;
        ok, did := Perform(state, DropTemporary(temporary));
      }
    }

    /** `_check_preconditions`: stops at the first mutation that does not match. */
    static method CheckPreconditions(docs: Docs, ms: seq<Mutation>) returns (ok: bool)
      ensures ok <==> AllMatch(docs, ms)
    {
      var i := 0;
      while i < |ms|
        invariant 0 <= i <= |ms| && forall k :: 0 <= k < i ==> Matches(docs, ms[k])
      {
        var present := ms[i].ref in docs;
        if ms[i].content.None? {
          if !present || Some(Revision(docs[ms[i].ref])) != ms[i].expected { return false; }
        } else if ms[i].expected.None? {
          if present { return false; }
        } else if !present || Some(Revision(docs[ms[i].ref])) != ms[i].expected {
          return false;
        }
        i := i + 1;
      }
      ok := true;
    }

    /** `_finalize_generation` then `_publish_current`: three effects, or fewer when one raises. */
    method MoveCurrent(state: ScopeState, ghost d: Disk, ghost c: Commit, token: Token, temporary: Token, g: Generation)
      returns (ok: bool, ghost moved: nat)
      requires state.disk == DoAll(Staging(c.token, c.items, c.mutations), d) && state.disk.generations == d.generations
      requires c.token == token && c.temporary == temporary && c.generation == g
      modifies state`disk, this`clock
      ensures old(clock) <= clock && moved <= 3 && (ok ==> moved == 3) && (!ok ==> Faulted(old(clock)))
      ensures state.disk == Moved(d, c, moved)
    {
      ok, moved := PerformAll(state, Naming(state.disk, token, g));
      AtNaming(d, c);
      if !ok { return; }
      ok, moved := PerformAll(state, Publishing(temporary, g));
      assert moved == 2 ==> Publishing(temporary, g)[..2] == Publishing(temporary, g);
      moved := 1 + moved;
    }

    /** The cleanup that follows publication. */
    method Finish(state: ScopeState, ghost d: Disk, ghost planned: Commit) returns (ok: bool, ghost c: Commit, ghost done: nat)
      requires Follows(rules, env) && Ready(rules.names, d, planned) && state.disk == Moved(d, planned, 3)
      modifies state`disk, this`clock
      ensures Schedules(rules.names, d, planned, active, state.scope, c)
      ensures Stops(d, c, done, ok, state.disk) && old(clock) <= clock && (!ok ==> Faulted(old(clock)))
    {
      AddressedAfterPublication(rules.names, d, planned);
      ghost var doomed, swept;
      ok, doomed, swept := Cleanup(state);
      c, done := Rescheduled(rules.names, d, planned, active, state.scope, doomed), Published(planned) + swept;
      SweptAt(d, planned, c, swept, ok);
    }

    /** From a checked staging directory to a published generation. */
    method Advance(state: ScopeState, ghost d: Disk, ghost planned: Commit, token: Token, temporary: Token, g: Generation)
      returns (ok: bool, ghost c: Commit, ghost done: nat)
      requires Follows(rules, env) && Ready(rules.names, d, planned)
      requires planned.token == token && planned.temporary == temporary && planned.generation == g
      requires Schedules(rules.names, d, planned, active, state.scope, planned)
      requires state.disk == Moved(d, planned, 0) && state.disk.generations == d.generations
      modifies state`disk, this`clock
      ensures Schedules(rules.names, d, planned, active, state.scope, c)
      ensures Stops(d, c, done, ok, state.disk) && (!ok ==> Faulted(old(clock)))
    {
      ghost var moved;
      ok, moved := MoveCurrent(state, d, planned, token, temporary, g);
      if ok {
        ok, c, done := Finish(state, d, planned);
      } else {
        c, done := planned, |Staging(planned.token, planned.items, planned.mutations)| + moved;
        AtMove(d, planned, moved);
      }
    }

    /** The same, with the handlers run when something raised. */
    method Publish(state: ScopeState, ghost d: Disk, ghost planned: Commit, token: Token, temporary: Token, g: Generation)
      returns (ok: bool, ghost c: Commit, ghost done: nat)
      requires Follows(rules, env) && Ready(rules.names, d, planned)
      requires planned.token == token && planned.temporary == temporary && planned.generation == g
      requires Schedules(rules.names, d, planned, active, state.scope, planned)
      requires state.disk == Moved(d, planned, 0) && state.disk.generations == d.generations
      modifies state`disk, this`clock
      ensures Schedules(rules.names, d, planned, active, state.scope, c)
      ensures EndsAt(d, c, done, ok, state.disk) && (!ok ==> Faulted(old(clock)))
    {
      ok, c, done := Advance(state, d, planned, token, temporary, g);
      ghost var stopped := state.disk;
      if !ok {
        DiscardTemporary(state, temporary);
        ghost var unlinked := state.disk;
        DiscardStaging(state, token);
        HandlersAbandon(stopped, c, unlinked, state.disk);
      }
      assert EndsFrom(d, c, done, ok, stopped, state.disk);
    }

    /** The body of `_commit` once the base is current and the preconditions hold. */
    method CommitChecked(state: ScopeState, unit: Unit) returns (o: Outcome, ghost c: Commit, ghost done: nat)
      requires Follows(rules, env) && Intact(rules.names, state.disk) && state.scope == unit.scope
      requires Eligible(state.disk, unit)
      modifies state`disk, this`clock
      ensures o.Declined? ==> o.registered && OnlyStages(old(state.disk), c.token, state.disk)
      ensures o.Declined? ==>
                || (o.reason.InvalidCatalog? && !Acceptable(rules, Updated(Current(old(state.disk)), unit.mutations)))
                || (o.reason.StorageFailed? && Faulted(old(clock)))
      ensures !o.Declined? ==> Admitted(rules, old(state.disk), unit, active, c)
      ensures !o.Declined? ==> EndsAt(old(state.disk), c, done, o.Committed?, state.disk)
      ensures o.Committed? ==> o.generation == c.generation
      ensures o.Raised? ==> Faulted(old(clock))
    {
      ghost var d := state.disk;
      var token := FreshToken(state.disk.staging.Keys);
      var temporary := FreshToken(state.disk.temporaries.Keys);
      var items := ListDocuments(state.disk.generations[state.disk.current.value]);
      var ms := Sort(MutationLt, unit.mutations);
      UpdateOrderFree(Current(d), unit.mutations, ms);
      c, done := Commit(items, ms, unit.base, token, temporary, []), 0;
      var checked := StageAndCheck(state, token, items, ms);
      if checked.Err? { return Declined(checked.error, true), c, done; }
      var g := checked.value;
      var ok;
      ok, c, done := PublishStaged(state, d, unit, items, ms, token, temporary, g);
      o := if ok then Committed(g) else Raised;
    }

    /** The plan for a staging directory that passed every check, carried out. */
    method PublishStaged(state: ScopeState, ghost d: Disk, ghost unit: Unit, ghost items: seq<Document>, ghost ms: seq<Mutation>,
                         token: Token, temporary: Token, g: Generation)
      returns (ok: bool, ghost c: Commit, ghost done: nat)
      requires Follows(rules, env) && Intact(rules.names, d) && state.scope == unit.scope && Eligible(d, unit)
      requires Lists(items, Current(d)) && multiset(ms) == multiset(unit.mutations)
      requires token !in d.staging && temporary !in d.temporaries
      requires rules.names(g, Updated(Current(d), ms)) && rules.sound(Updated(Current(d), ms))
      requires state.disk == DoAll(Staging(token, items, ms), d) && state.disk.generations == d.generations
      modifies state`disk, this`clock
      ensures Admitted(rules, d, unit, active, c) && c.generation == g
      ensures EndsAt(d, c, done, ok, state.disk) && (!ok ==> Faulted(old(clock)))
    {
      FollowingInjective(rules, env);
      ghost var planned := PlannedCommit(rules.names, d, items, ms, token, g, temporary, active, unit.scope);
      ok, c, done := Publish(state, d, planned, token, temporary, g);
      ScheduledAdmitted(rules, d, unit, active, planned, c);
    }

    /** Stage, hash and validate; a refusal leaves at most the staging directory. */
    method StageAndCheck(state: ScopeState, token: Token, items: seq<Document>, ms: seq<Mutation>) returns (r: Result<Generation, Reason>)
      requires Follows(rules, env) && Intact(rules.names, state.disk) && Lists(items, Current(state.disk))
      modifies state`disk, this`clock
      ensures old(clock) <= clock
      ensures r.Ok? ==> rules.names(r.value, Updated(Current(old(state.disk)), ms)) && rules.sound(Updated(Current(old(state.disk)), ms))
      ensures r.Ok? ==> state.disk == DoAll(Staging(token, items, ms), old(state.disk)) && state.disk.generations == old(state.disk.generations)
      ensures r.Err? ==> OnlyStages(old(state.disk), token, state.disk)
      ensures r.Err? ==>
                || (r.error.InvalidCatalog? && !Acceptable(rules, Updated(Current(old(state.disk)), ms)))
                || (r.error.StorageFailed? && Faulted(old(clock)))
    {
      var staged := Stage(state, token, items, ms);
      if !staged { return Err(StorageFailed); }
      StagingStages(token, items, Current(old(state.disk)), ms, old(state.disk));
      var docs := state.disk.staging[token];
      var name := NameOf(rules, env, docs);
      var sound := ValidateGraph(env, docs);
      if name.Some? && sound { return Ok(name.value); }
      DiscardStaging(state, token);
      r := Err(InvalidCatalog);
    }

    /** `_commit` in its scope's directory: a stale base and stale revisions are refused in that order; the base
        snapshot is counted before the revisions are checked. */
    method CommitScope(state: ScopeState, unit: Unit) returns (o: Outcome, ghost c: Commit, ghost done: nat)
      requires Follows(rules, env) && Intact(rules.names, state.disk) && state.scope == unit.scope
      requires WellFormed(unit.mutations) && !unit.closed && unit.mutations != []
      modifies this`active, this`clock, state`disk
      ensures o != Declined(UnknownScope, false) && Intact(rules.names, state.disk)
      ensures Settles(rules, old(state.disk), unit, old(active), Ending(o, c, done, state.disk, active, Faulted(old(clock))))
    {
      c, done := Commit([], [], unit.base, 0, 0, []), 0;
      if state.disk.current != Some(unit.base) { return Declined(StaleGeneration, false), c, done; }
      Register(Key(unit.scope, unit.base));
      var matches := CheckPreconditions(state.disk.generations[unit.base], unit.mutations);
      if !matches { return Declined(Conflict, true), c, done; }
      o, c, done := CommitChecked(state, unit);
      if !o.Declined? { IntactAfterCommit(rules, old(state.disk), unit, active, c, done, o.Committed?, state.disk); }
      if o.Committed? { Register(Key(unit.scope, o.generation)); }
    }

    /** `_commit`: an unknown scope is refused first. */
    method CommitUnit(unit: Unit) returns (o: Outcome, ghost c: Commit, ghost done: nat)
      requires Usable() && WellFormed(unit.mutations) && !unit.closed && unit.mutations != []
      modifies this`active, this`clock, if unit.scope in scopes then {scopes[unit.scope]} else {}
      ensures Usable()
      ensures unit.scope !in scopes <==> o == Declined(UnknownScope, false)
      ensures unit.scope !in scopes ==> active == old(active) && clock == old(clock)
      ensures unit.scope in scopes ==>
                Settles(rules, old(scopes[unit.scope].disk), unit, old(active), Ending(o, c, done, scopes[unit.scope].disk, active, Faulted(old(clock))))
    {
      c, done := Commit([], [], unit.base, 0, 0, []), 0;
      if unit.scope !in scopes { return Declined(UnknownScope, false), c, done; }
      o, c, done := CommitScope(scopes[unit.scope], unit);
    }

    /** `_commit` for a scope there is. */
    method CommitKnown(unit: Unit) returns (o: Outcome, ghost end: Ending)
      requires Usable() && Runs(machine, rules) && unit.scope in scopes
      requires WellFormed(unit.mutations) && !unit.closed && unit.mutations != []
      modifies this`active, this`clock, scopes[unit.scope]
      ensures o != Declined(UnknownScope, false)
      ensures end == Ending(o, end.commit, end.done, scopes[unit.scope].disk, active, Faulted(old(clock)))
      ensures machine.settles(old(scopes[unit.scope].disk), unit, old(active), end)
    {
      ghost var c, done;
      o, c, done := CommitUnit(unit);
      end := Ending(o, c, done, scopes[unit.scope].disk, active, Faulted(old(clock)));
    }

    /** No other scope's disk changes. */
    method CommitLinked(unit: Unit, ghost disks: map<Scope, Disk>) returns (o: Outcome, ghost end: Ending)
      requires Usable() && Runs(machine, rules) && Linked(disks) && unit.scope in scopes
      requires WellFormed(unit.mutations) && !unit.closed && unit.mutations != []
      modifies this`active, this`clock, scopes[unit.scope]
      ensures o != Declined(UnknownScope, false)
      ensures end == Ending(o, end.commit, end.done, end.disk, active, Faulted(old(clock)))
      ensures machine.settles(disks[unit.scope], unit, old(active), end) && Linked(disks[unit.scope := end.disk])
    {
      o, end := CommitKnown(unit);
    }

    /** Remove leftover CURRENT temporaries and staging directories. */
    method ClearLeftovers(state: ScopeState) returns (ok: bool)
      modifies state`disk, this`clock
      ensures ok ==> state.disk == old(state.disk).(temporaries := map[], staging := map[])
      ensures state.disk.generations == old(state.disk.generations) && state.disk.current == old(state.disk.current)
      ensures old(clock) <= clock && (!ok ==> Faulted(old(clock)))
    {
      ok := true;
      ghost var did;
      while state.disk.temporaries.Keys != {}
        invariant state.disk == old(state.disk).(temporaries := state.disk.temporaries) && old(clock) <= clock
        decreases |state.disk.temporaries.Keys|
      {
        var t :| t in state.disk.temporaries.Keys;
        ghost var before := state.disk.temporaries;
        ok, did := Perform(state, DropTemporary(t));
        if !ok { return; }
        assert state.disk.temporaries.Keys == before.Keys - {t};
      }
      while state.disk.staging.Keys != {}
        invariant state.disk == old(state.disk).(temporaries := map[], staging := state.disk.staging) && old(clock) <= clock
        decreases |state.disk.staging.Keys|
      {
        var t :| t in state.disk.staging.Keys;
        ghost var before := state.disk.staging;
        ok, did := Perform(state, DropStaging(t));
        if !ok { return; }
        assert state.disk.staging.Keys == before.Keys - {t};
      }
      ok := true;
    }

    /** First use of a scope: publish the empty catalog. */
    method Bootstrap(state: ScopeState) returns (ok: bool)
      requires Follows(rules, env) && state.disk.temporaries == map[] && state.disk.staging == map[]
      modifies state`disk, this`clock
      ensures ok ==> exists g :: rules.names(g, map[]) && state.disk == old(state.disk).(generations := old(state.disk.generations)[g := map[]], current := Some(g))
      ensures old(clock) <= clock && (!ok && Addressed(rules.names, old(state.disk)) ==> Faulted(old(clock)))
    {
      ghost var d, did := state.disk, false;
      var name := NameOf(rules, env, map[]);
      assert NamedBy(env, GenerationOf(map[]), map[]);
      var g := name.value;
      if g in state.disk.generations {
        var actual := NameOf(rules, env, state.disk.generations[g]);
        if actual != Some(g) { return false; }
        FollowingInjective(rules, env);
        assert state.disk.generations[g] == map[];
        assert d.generations == d.generations[g := map[]];
      } else {
        ok, did := Perform(state, NameGeneration(0, g));
        if !ok { return; }
        assert d.staging - {0} == map[];
      }
      ok, did := Perform(state, MakeTemporary(0, g));
      if !ok { return; }
      ok, did := Perform(state, ReplaceCurrent(0));
      if ok { assert state.disk.temporaries == map[]; }
    }

    /** The scopes outside `todo` have been recovered; nothing is open yet. */
    ghost predicate Opening(roots: map<Scope, Disk>, todo: set<Scope>)
      reads this, scopes.Values
    {
      && Follows(rules, env) && active == map[] && scopes.Keys == roots.Keys - todo
      && forall s :: s in scopes ==> scopes[s].scope == s && Reopened(rules.names, roots[s], scopes[s].disk)
    }

    /** Recover one more scope. */
    method OpenScope(s: Scope, roots: map<Scope, Disk>, ghost todo: set<Scope>) returns (ok: bool, next: ScopeState)
      requires Opening(roots, todo) && s in todo && s in roots
      modifies this`scopes, this`clock
      ensures fresh(next) && scopes.Values <= old(scopes.Values) + {next}
      ensures ok ==> Opening(roots, todo - {s})
      ensures old(clock) <= clock && (!ok && Recoverable(rules.names, roots[s]) ==> Faulted(old(clock)))
    {
      next := new ScopeState(s, roots[s]);
      ok := Recover(next);
      if ok {
        Joined(scopes, s, next);
        scopes := scopes[s := next];
      }
    }

    /** Recover every scope, until one cannot be. */
    method OpenScopes(roots: map<Scope, Disk>) returns (ok: bool)
      requires Opening(roots, roots.Keys)
      modifies this`scopes, this`clock
      ensures ok ==> Opening(roots, {}) && fresh(scopes.Values)
      ensures !ok ==> Faulted(old(clock)) || Unrecoverable(rules.names, roots)
    {
      ok := true;
      var todo := roots.Keys;
      ghost var made: set<ScopeState> := {};
      while todo != {}
        invariant todo <= roots.Keys && Opening(roots, todo) && old(clock) <= clock
        invariant fresh(made) && scopes.Values <= made
        decreases |todo|
      {
        var s :| s in todo;
        var next;
        ok, next := OpenScope(s, roots, todo);
        if !ok { return; }
        made, todo := made + {next}, todo - {s};
      }
    }

    ghost function Start(): State
      reads this, scopes.Values
    {
      State(map s | s in scopes :: scopes[s].disk, active, map[], map[])
    }

    /** An opened repository starts a run, whatever it recovered, if the current catalogs it found were sound. */
    lemma {:induction false} OpeningStands(roots: map<Scope, Disk>)
      requires Opening(roots, {}) && Runs(machine, rules)
      requires forall s :: s in roots ==> Wholesome(env, roots[s])
      ensures Stands(Start())
    {
      OpenedInInvariant(machine, rules, env, roots, Start());
    }

    /** `begin`: from the given base, or from CURRENT through a snapshot of its own. */
    method Begin(scope: Scope, base: Option<Generation>, ghost s: State, ghost id: nat, ghost snapped: nat)
      returns (unit: Option<UnitOfWork>, ghost mid: State, ghost after: State)
      requires Stands(s) && id !in s.units && snapped !in s.live
      modifies this`active
      ensures Stands(after)
      ensures unit.None? <==> scope !in scopes
      ensures unit.None? ==> after == s
      ensures unit.Some? ==> fresh(unit.value) && unit.value.repository == this && unit.value.id == id && unit.value.Stands(after)
      ensures unit.Some? ==> unit.value.Value() == Unit(scope, unit.value.base, [], false, false)
      ensures unit.Some? ==> Steps(machine, mid, Event.Begin(id, scope, unit.value.base), after)
      ensures unit.Some? ==> after.units == s.units[id := unit.value.Value()]
      ensures unit.Some? && base.Some? ==> unit.value.base == base.value && mid == s
      ensures unit.Some? && base.None? ==>
                && Steps(machine, s, OpenSnapshot(scope, snapped), mid)
                && snapped in mid.live && mid.live[snapped] == Key(scope, unit.value.base)
    {
      mid, after := s, s;
      if scope !in scopes { return None, mid, after; }
      var generation;
      if base.None? {
        var key;
        key, mid := Snapshot(scope, s, snapped);
        generation := key.value.generation;
      } else {
        generation := base.value;
      }
      BeginStep(machine, rules, mid, id, scope, generation);
      var u := new UnitOfWork(this, scope, generation, id);
      unit, after := Some(u), WithUnit(mid, id, Unit(scope, generation, [], false, false));
    }

    /** `_recover_scope` in a fresh process. A scope that was intact ends as its CURRENT generation alone,
        and if recovery is itself interrupted, what is left still recovers to that. */
    method Recover(state: ScopeState) returns (ok: bool)
      requires Follows(rules, env) && active == map[]
      modifies state`disk, this`clock
      ensures ok ==> Reopened(rules.names, old(state.disk), state.disk)
      ensures Intact(rules.names, old(state.disk)) ==>
                Intact(rules.names, state.disk) && Recovered(state.disk) == Recovered(old(state.disk))
      ensures old(clock) <= clock && (!ok && Recoverable(rules.names, old(state.disk)) ==> Faulted(old(clock)))
    {
      ok := ClearLeftovers(state);
      if !ok { return; }
      if state.disk.current.None? {
        ok := Bootstrap(state);
        if !ok { return; }
      }
      ghost var d := state.disk;
      var current := state.disk.current.value;
      if current !in state.disk.generations { return false; }
      var actual := NameOf(rules, env, state.disk.generations[current]);
      if actual != Some(current) { return false; }
      ghost var doomed, done;
      ok, doomed, done := Cleanup(state);
      RecoverySwept(rules.names, d, state.scope, doomed, done, ok);
    }
  }

  lemma {:induction false} Joined<K, V>(m: map<K, V>, k: K, v: V)
    ensures m[k := v].Values <= m.Values + {v}
  {
    forall x | x in m[k := v].Values ensures x in m.Values + {v} {
      var j :| j in m[k := v] && m[k := v][j] == x;
      if j != k { assert j in m && m[j] == x; }
    }
  }

  /** What recovery accepts: every directory is what its name says, and CURRENT names one of them or is absent. */
  ghost predicate Recoverable(names: Names, d: Disk) {
    Addressed(names, d) && (d.current.Some? ==> HasCurrent(d))
  }

  ghost predicate Unrecoverable(names: Names, roots: map<Scope, Disk>) {
    exists s :: s in roots && !Recoverable(names, roots[s])
  }

  lemma {:induction false} UnrecoverableIn(rules: Rules, env: Env, roots: map<Scope, Disk>)
    requires Follows(rules, env) && Unrecoverable(rules.names, roots)
    ensures Unrecoverable(NamesOf(env), roots)
  {
    var s :| s in roots && !Recoverable(rules.names, roots[s]);
    forall g | g in roots[s].generations ensures rules.names(g, roots[s].generations[g]) == NamesOf(env)(g, roots[s].generations[g]) {
      var _ := NamedBy(env, g, roots[s].generations[g]);
    }
  }

  /** What recovery leaves: CURRENT's generation alone, or the empty catalog where there was no CURRENT. */
  ghost predicate Reopened(names: Names, before: Disk, after: Disk) {
    if before.current.Some? then Intact(names, before) && after == Recovered(before)
    else exists g :: names(g, map[]) && HoldsOnly(after, g, map[])
  }

  /** Opening a repository recovers every scope, or refuses: a disk cannot be recovered, or storage failed. */
  method Open(env: Env, roots: map<Scope, Disk>, fates: nat -> Fate) returns (r: Option<Repository>, ghost spent: nat)
    ensures r.Some? ==> fresh(r.value) && fresh(r.value.scopes.Values)
    ensures r.Some? ==> r.value.env == env && r.value.fates == fates && Runs(r.value.machine, r.value.rules)
    ensures r.Some? ==> r.value.Opening(roots, {})
    ensures r.None? ==> Unrecoverable(NamesOf(env), roots) || exists n: nat :: n < spent && !fates(n).Works?
  {
    var repository := new Repository(env, fates);
    var ok := repository.OpenScopes(roots);
    spent := repository.clock;
    if ok { return Some(repository), spent; }
    r := None;
    if !repository.Faulted(0) { UnrecoverableIn(repository.rules, env, roots); }
  }

  /** A disk whose current catalog, if there is one, has a sound reference graph. */
  ghost predicate Wholesome(env: Env, d: Disk) {
    HasCurrent(d) ==> SoundIn(env, Current(d))
  }

  lemma {:induction false} ReopenedIsSound(rules: Rules, env: Env, before: Disk, after: Disk)
    requires Follows(rules, env) && Reopened(rules.names, before, after) && Wholesome(env, before)
    ensures Intact(rules.names, after) && rules.sound(Current(after))
  {
    EmptyIsSound(env);
    assert SoundIn(env, map[]);
    assert before.current.Some? ==> SoundIn(env, Current(before));
  }

  /** Recovered disks with sound catalogs, empty ones included, start the run machine in its invariant. */
  lemma {:induction false} OpenedInInvariant(m: Machine, rules: Rules, env: Env, roots: map<Scope, Disk>, start: State)
    requires Runs(m, rules) && Follows(rules, env)
    requires start == State(start.disks, map[], map[], map[]) && start.disks.Keys == roots.Keys
    requires forall s :: s in roots ==> Reopened(rules.names, roots[s], start.disks[s]) && Wholesome(env, roots[s])
    ensures m.inv(start)
  {
    forall s | s in start.disks ensures Intact(rules.names, start.disks[s]) && rules.sound(Current(start.disks[s])) {
      ReopenedIsSound(rules, env, roots[s], start.disks[s]);
    }
    FreshStart(rules, start.disks);
    assert Inv(rules, start);
  }

  lemma {:induction false} RecoverySwept(names: Names, d: Disk, scope: Scope, doomed: seq<Generation>, done: nat, ok: bool)
    requires HasCurrent(d) && names(d.current.value, Current(d)) && d.temporaries == map[] && d.staging == map[]
    requires Elements(doomed) == Dead(d, map[], scope) && done <= |doomed| && (ok ==> done == |doomed|)
    requires ok ==> forall g :: g in doomed ==> g in d.generations && names(g, d.generations[g])
    ensures ok ==> Intact(names, d) && Swept(d, Elements(doomed[..done])) == Recovered(d)
    ensures Intact(names, d) ==>
              var after := Swept(d, Elements(doomed[..done])); Intact(names, after) && Recovered(after) == Recovered(d)
  {
    forall g | g in doomed[..done] ensures g != d.current.value { assert g in Elements(doomed); }
    if ok {
      assert doomed[..done] == doomed;
      forall g | g in d.generations ensures names(g, d.generations[g]) {
        if Some(g) != d.current { assert g in Elements(doomed); }
      }
      var after := Swept(d, Elements(doomed));
      assert forall g :: g in d.generations && Some(g) != d.current ==> g in Dead(d, map[], scope);
      assert after.generations.Keys == {d.current.value};
    }
  }

  // Units of work

  datatype AddError = BadReference | ReadOnly | ClosedUnit | OutOfOrder | MutatedTwice

  datatype CommitResult = NotOpen | NoMutations | Ran(outcome: Outcome)

  class UnitOfWork {
    const repository: Repository
    const scope: Scope
    const base: Generation
    ghost const id: nat
    var mutations: seq<Mutation>
    var sessionSeen: bool
    var closed: bool

    ghost function Value(): Unit
      reads this
    {
      Unit(scope, base, mutations, sessionSeen, closed)
    }

    /** The state has this unit under its id. */
    ghost predicate Stands(s: State)
      reads this, repository, repository.scopes.Values
    {
      repository.Stands(s) && id in s.units && s.units[id] == Value() && Knows()
    }

    /** An open unit knows whether it publishes a session. */
    ghost predicate Knows()
      reads this
    {
      !closed ==> (sessionSeen <==> exists i :: 0 <= i < |mutations| && IsSessionPublication(mutations[i]))
    }

    constructor (repository: Repository, scope: Scope, base: Generation, ghost id: nat)
      ensures this.repository == repository && this.scope == scope && this.base == base && this.id == id
      ensures Value() == Unit(scope, base, [], false, false)
    {
      this.repository, this.scope, this.base, this.id := repository, scope, base, id;
      mutations, sessionSeen, closed := [], false, false;
    }

    /** `_writable_ref` then `_assert_can_add`: each refusal exactly when it is the first that applies. */
    method CheckAdd(raw: string, content: Option<Bytes>, expected: Option<Digest>) returns (r: Result<Mutation, AddError>)
      requires content.None? ==> expected.Some?
      ensures r.Ok? <==> Parse(raw, Some(FAMILIES)).Parsed?
                         && MayAdd(Value(), Mutation(Parse(raw, Some(FAMILIES)).ref, content, expected))
      ensures r.Ok? ==> r.value == Mutation(Parse(raw, Some(FAMILIES)).ref, content, expected)
      ensures var parsed := Parse(raw, Some(FAMILIES));
              var late := parsed.Parsed? && sessionSeen && !IsSessionPublication(Mutation(parsed.ref, content, expected));
              && (r == Err(BadReference) <==> !parsed.Parsed?)
              && (r == Err(ReadOnly) <==> parsed.Parsed? && parsed.ref.namespace.Shipped?)
              && (r == Err(ClosedUnit) <==> parsed.Parsed? && parsed.ref.namespace.User? && closed)
              && (r == Err(OutOfOrder) <==> parsed.Parsed? && parsed.ref.namespace.User? && !closed && late)
              && (r == Err(MutatedTwice) <==> parsed.Parsed? && parsed.ref.namespace.User? && !closed && !late
                                              && exists i :: 0 <= i < |mutations| && mutations[i].ref == parsed.ref)
    {
      var parsed := Parse(raw, Some(FAMILIES));
      if !parsed.Parsed? { return Err(BadReference); }
      if parsed.ref.namespace.Shipped? { return Err(ReadOnly); }
      var m := Mutation(parsed.ref, content, expected);
      if closed { return Err(ClosedUnit); }
      if sessionSeen && !IsSessionPublication(m) { return Err(OutOfOrder); }
      var i := 0;
      while i < |mutations|
        invariant 0 <= i <= |mutations| && forall k :: 0 <= k < i ==> mutations[k].ref != m.ref
      {
        if mutations[i].ref == m.ref { return Err(MutatedTwice); }
        i := i + 1;
      }
      r := Ok(m);
    }

    /** `write_bytes` (content given) and `delete` (none): one mutation added, or nothing changed. */
    method Add(raw: string, content: Option<Bytes>, expected: Option<Digest>, ghost s: State)
      returns (r: Result<Mutation, AddError>, ghost after: State)
      requires Stands(s) && (content.None? ==> expected.Some?)
      modifies this`mutations, this`sessionSeen
      ensures Stands(after)
      ensures r.Ok? <==> old(Parse(raw, Some(FAMILIES)).Parsed? && MayAdd(Value(), Mutation(Parse(raw, Some(FAMILIES)).ref, content, expected)))
      ensures r.Ok? ==> Value() == Added(old(Value()), r.value)
      ensures r.Ok? ==> Steps(repository.machine, s, Event.Add(id, r.value), after) && after.units == s.units[id := Value()]
      ensures r.Err? ==> Value() == old(Value()) && after == s
    {
      after := s;
      r := CheckAdd(raw, content, expected);
      if r.Ok? {
        AddStep(repository.machine, repository.rules, s, id, r.value);
        Keep(r.value);
        after := WithUnit(s, id, Value());
      }
    }

    method Keep(m: Mutation)
      requires !closed && Knows()
      modifies this`mutations, this`sessionSeen
      ensures Knows() && Value() == Added(old(Value()), m)
    {
      ghost var was := mutations;
      mutations := mutations + [m];
      sessionSeen := sessionSeen || IsSessionPublication(m);
      assert forall i :: 0 <= i < |was| ==> mutations[i] == was[i];
      assert mutations[|was|] == m;
    }

    /** `commit`: a step of the run machine, whatever the outcome; the unit is closed afterwards. */
    method Commit(ghost s: State, ghost baseId: nat) returns (r: CommitResult, ghost e: Event, ghost after: State)
      requires Stands(s) && baseId !in s.live && baseId + 1 !in s.live
      modifies this`closed, repository`active, repository`clock
      modifies if scope in repository.scopes then {repository.scopes[scope]} else {}
      ensures Stands(after) && Value() == old(Value()).(closed := true)
      ensures r.NotOpen? <==> old(closed)
      ensures r.NotOpen? ==> after == s
      ensures r.NoMutations? <==> !old(closed) && old(mutations) == []
      ensures !r.NotOpen? ==> Steps(repository.machine, s, e, after) && after.units == s.units[id := Value()]
      ensures r.Ran? ==> r.outcome != Declined(UnknownScope, false)
      ensures r.Ran? ==> Reports(s, id, r.outcome, e, repository.rules, repository.Faulted(old(repository.clock)))
    {
      UnitOf(repository.machine, repository.rules, s, id);
      e, after := CommitRefused(id, None, 0, s.disks[scope]), s;
      if closed { return NotOpen, e, after; }
      if mutations == [] {
        CloseStep(repository.machine, repository.rules, s, id);
        closed := true;
        after := WithUnit(s, id, Value());
        return NoMutations, e, after;
      }
      var o;
      o, e, after := Run(s, baseId);
      r := Ran(o);
    }

    /** A commit that reaches the repository. */
    method Run(ghost s: State, ghost baseId: nat) returns (o: Outcome, ghost e: Event, ghost after: State)
      requires Stands(s) && baseId !in s.live && baseId + 1 !in s.live && !closed && mutations != []
      modifies this`closed, repository`active, repository`clock
      modifies if scope in repository.scopes then {repository.scopes[scope]} else {}
      ensures Stands(after) && Value() == old(Value()).(closed := true)
      ensures Steps(repository.machine, s, e, after) && after.units == s.units[id := Value()]
      ensures o != Declined(UnknownScope, false)
      ensures Reports(s, id, o, e, repository.rules, repository.Faulted(old(repository.clock)))
    {
      repository.StandsUsable(s);
      UnitOf(repository.machine, repository.rules, s, id);
      closed := true;
      ghost var end;
      o, end := repository.CommitLinked(Unit(scope, base, mutations, sessionSeen, false), s.disks);
      e, after := CommitEvent(id, end, baseId), CommitAfter(s, id, end, baseId);
      CommitIsStep(repository.machine, repository.rules, s, id, end, baseId);
    }

    method Abort(ghost s: State) returns (ghost after: State)
      requires Stands(s)
      modifies this`mutations, this`closed
      ensures Stands(after) && Value() == old(Value()).(mutations := [], closed := true)
      ensures Steps(repository.machine, s, Event.Abort(id), after) && after.units == s.units[id := Value()]
    {
      AbortStep(repository.machine, repository.rules, s, id);
      mutations, closed := [], true;
      after := WithUnit(s, id, Value());
    }
  }

  // Commits as steps of the run machine

  ghost function CommitEvent(u: nat, end: Ending, baseId: nat): Event {
    match end.outcome
    case Declined(_, registered) => CommitRefused(u, if registered then Some(baseId) else None, end.commit.token, end.disk)
    case Raised => CommitRaised(u, baseId, end.commit, end.done, end.disk)
    case Committed(_) => CommitDone(u, baseId, baseId + 1, end.commit)
  }

  /** The snapshots a commit leaves behind: its base, counted before the checks, and what it published. */
  ghost function LiveAfter(s: State, u: nat, end: Ending, baseId: nat): map<nat, Key>
    requires u in s.units
  {
    var unit := s.units[u];
    if end.outcome.Declined? && !end.outcome.registered then s.live
    else if end.outcome.Committed? then s.live[baseId := Key(unit.scope, unit.base)][baseId + 1 := Key(unit.scope, end.commit.generation)]
    else s.live[baseId := Key(unit.scope, unit.base)]
  }

  ghost function CommitAfter(s: State, u: nat, end: Ending, baseId: nat): (after: State)
    requires u in s.units
  {
    State(s.disks[s.units[u].scope := end.disk], end.active, LiveAfter(s, u, end, baseId), s.units[u := s.units[u].(closed := true)])
  }

  /** What a commit settles is a step of the run machine. */
  lemma {:induction false} SettledIsNext(rules: Rules, s: State, u: nat, end: Ending, baseId: nat)
    requires u in s.units && s.units[u].scope in s.disks && baseId !in s.live && baseId + 1 !in s.live
    requires Settles(rules, s.disks[s.units[u].scope], s.units[u], s.counts, end)
    ensures Next(rules, s, CommitEvent(u, end, baseId), CommitAfter(s, u, end, baseId))
  {
    var unit := s.units[u];
    var d := s.disks[unit.scope];
    if !end.outcome.Declined? {
      var stopped :| EndsFrom(d, end.commit, end.done, end.outcome.Committed?, stopped, end.disk);
      if end.outcome.Committed? { assert Plan(d, end.commit)[..end.done] == Plan(d, end.commit); }
    }
  }

  lemma {:induction false} CommitIsStep(m: Machine, rules: Rules, s: State, u: nat, end: Ending, baseId: nat)
    requires Runs(m, rules) && m.inv(s)
    requires u in s.units && s.units[u].scope in s.disks && baseId !in s.live && baseId + 1 !in s.live
    requires m.settles(s.disks[s.units[u].scope], s.units[u], s.counts, end)
    ensures Steps(m, s, CommitEvent(u, end, baseId), CommitAfter(s, u, end, baseId))
    ensures Reports(s, u, end.outcome, CommitEvent(u, end, baseId), rules, end.faulted)
  {
    assert Settles(rules, s.disks[s.units[u].scope], s.units[u], s.counts, end);
    SettledIsNext(rules, s, u, end, baseId);
    StepFrom(m, rules, s, CommitEvent(u, end, baseId), CommitAfter(s, u, end, baseId));
  }

  /** The event tells the outcome: a refusal for its reason, an exception with the storage at fault, or a publication. */
  ghost predicate Reports(s: State, u: nat, o: Outcome, e: Event, rules: Rules, faulted: bool) {
    && u in s.units && s.units[u].scope in s.disks && HasCurrent(s.disks[s.units[u].scope])
    && var unit := s.units[u];
       var d := s.disks[unit.scope];
       && (o.Declined? <==> e.CommitRefused?) && (o.Raised? <==> e.CommitRaised?) && (o.Committed? <==> e.CommitDone?)
       && (o == Declined(StaleGeneration, false) <==> d.current != Some(unit.base))
       && (o == Declined(Conflict, true) <==> d.current == Some(unit.base) && !AllMatch(Current(d), unit.mutations))
       && (o == Declined(InvalidCatalog, true) ==> !Acceptable(rules, Updated(Current(d), unit.mutations)))
       && (o == Declined(StorageFailed, true) || o.Raised? ==> faulted)
       && (o.Committed? ==> o.generation == e.commit.generation)
  }

  /** What one commit of a known scope may do to the disk `d` and the counts: refuse and leave the disk, stop part
      way with its handlers run, or publish. */
  ghost predicate Settles(rules: Rules, d: Disk, unit: Unit, held: map<Key, nat>, end: Ending) {
    var counts, o := Acquire(held, Key(unit.scope, unit.base)), end.outcome;
    && HasCurrent(d)
    && (o == Declined(StaleGeneration, false) <==> d.current != Some(unit.base))
    && (o == Declined(Conflict, true) <==> d.current == Some(unit.base) && !AllMatch(Current(d), unit.mutations))
    && (o.Declined? ==> OnlyStages(d, end.commit.token, end.disk) && end.active == if o.registered then counts else held)
    && (!o.Declined? ==> Admitted(rules, d, unit, counts, end.commit) && EndsAt(d, end.commit, end.done, o.Committed?, end.disk))
    && (o == Declined(InvalidCatalog, true) ==> !Acceptable(rules, Updated(Current(d), unit.mutations)))
    && (o == Declined(StorageFailed, true) || o.Raised? ==> end.faulted)
    && (o.Committed? ==> o.generation == end.commit.generation && end.active == Acquire(counts, Key(unit.scope, end.commit.generation)))
    && (o.Raised? ==> end.active == counts)
  }

  /** What `_commit` has established before it starts staging. */
  ghost predicate Eligible(d: Disk, unit: Unit)
    requires HasCurrent(d)
  {
    && WellFormed(unit.mutations) && !unit.closed && unit.mutations != []
    && d.current == Some(unit.base) && AllMatch(Current(d), unit.mutations)
  }

  /** The staged catalog hashes, validates and has a sound reference graph. */
  ghost predicate Acceptable(rules: Rules, docs: Docs) {
    (exists g :: rules.names(g, docs)) && rules.sound(docs)
  }

  lemma {:induction false} ScheduledAdmitted(rules: Rules, d: Disk, unit: Unit, counts: map<Key, nat>, planned: Commit, c: Commit)
    requires HasCurrent(d) && Eligible(d, unit) && Ready(rules.names, d, planned)
    requires multiset(planned.mutations) == multiset(unit.mutations) && rules.sound(Updated(Current(d), planned.mutations))
    requires Schedules(rules.names, d, planned, counts, unit.scope, c)
    ensures Admitted(rules, d, unit, counts, c)
  {
    assert Named(d, c) == Named(d, planned);
  }

  lemma {:induction false} IntactAfterCommit(rules: Rules, d: Disk, unit: Unit, counts: map<Key, nat>, c: Commit, done: nat, ok: bool, e: Disk)
    requires Admitted(rules, d, unit, counts, c) && EndsAt(d, c, done, ok, e)
    ensures Intact(rules.names, e)
  {
    RaisedCommit(rules.names, d, c, done, e);
  }

  /** `c` is `planned` with every dead generation, in some order, as its doomed list. */
  ghost predicate Schedules(names: Names, d: Disk, planned: Commit, counts: map<Key, nat>, scope: Scope, c: Commit) {
    && c == planned.(doomed := c.doomed) && Ready(names, d, c)
    && Elements(c.doomed) == Dead(Moved(d, planned, 3), counts, scope)
  }

  /** The disk is exactly `done` effects into the commit; all of them when it went well. */
  ghost predicate Stops(d: Disk, c: Commit, done: nat, ok: bool, e: Disk) {
    done <= |Plan(d, c)| && (ok ==> done == |Plan(d, c)|) && e == DoAll(Plan(d, c)[..done], d)
  }

  /** A commit stopped at `stopped` ends at `e`: there when it went well, otherwise with its handlers run, or raising. */
  ghost predicate EndsFrom(d: Disk, c: Commit, done: nat, ok: bool, stopped: Disk, e: Disk) {
    Stops(d, c, done, ok, stopped) && if ok then e == stopped else Abandoned(stopped, c, e)
  }

  ghost predicate EndsAt(d: Disk, c: Commit, done: nat, ok: bool, e: Disk) {
    exists stopped :: EndsFrom(d, c, done, ok, stopped, e)
  }

  lemma {:induction false} HandlersAbandon(stopped: Disk, c: Commit, unlinked: Disk, e: Disk)
    requires unlinked == stopped || unlinked == Do(DropTemporary(c.temporary), stopped)
    requires OnlyStages(unlinked, c.token, e)
    ensures Abandoned(stopped, c, e)
  {
    assert stopped.temporaries - {c.temporary} - {c.temporary} == stopped.temporaries - {c.temporary};
  }

  /** However far staging got, only its own directory changed. */
  lemma {:induction false} StagedSoFar(t: Token, items: seq<Document>, ms: seq<Mutation>, d: Disk, done: nat)
    requires done <= |Writes(t, items) + Mutates(t, ms)|
    ensures var writes := Writes(t, items) + Mutates(t, ms);
            && OnlyStages(d, t, DoAll(writes[..done], Do(MakeStaging(t), d)))
            && DoAll(writes, Do(MakeStaging(t), d)) == DoAll(Staging(t, items, ms), d)
  {
    var writes := Writes(t, items) + Mutates(t, ms);
    var plan := Staging(t, items, ms);
    assert plan == [MakeStaging(t)] + writes;
    assert plan[..done + 1] == [MakeStaging(t)] + writes[..done];
    assert plan[1..] == writes && plan[..done + 1][1..] == writes[..done];
    StagingTouches(t, items, ms, done + 1);
    TouchingStages(t, plan[..done + 1], d);
  }

  /** A random name that is not in use. */
  method FreshToken(used: set<Token>) returns (t: Token)
    ensures t !in used
  {
    t := 0;
    var above := used;
    while t in above
      invariant forall x :: x in used && t <= x ==> x in above
      decreases |above|
    {
      above, t := above - {t}, t + 1;
    }
  }

  /** The commit a checked staging directory leads to, with its dead generations in some order. */
  ghost function PlannedCommit(names: Names, d: Disk, items: seq<Document>, ms: seq<Mutation>, token: Token, g: Generation,
                               temporary: Token, counts: map<Key, nat>, scope: Scope): (c: Commit)
    requires Injective(names) && Intact(names, d) && token !in d.staging && temporary !in d.temporaries
    requires Lists(items, Current(d)) && names(g, Updated(Current(d), ms))
    ensures c.items == items && c.mutations == ms && c.token == token && c.generation == g && c.temporary == temporary
    ensures Ready(names, d, c)
    ensures Elements(c.doomed) == Dead(DoAll(Publishing(c.temporary, g), Named(d, c)), counts, scope)
  {
    var c := Commit(items, ms, g, token, temporary, []);
    NewIsNotDead(names, d, c, counts, scope);
    var dead := Dead(DoAll(Publishing(temporary, g), Named(d, c)), counts, scope);
    assert g !in Elements(Enumeration(dead));
    c.(doomed := Enumeration(dead))
  }

  /** The disk `moved` effects after staging. */
  function Moved(d: Disk, c: Commit, moved: nat): Disk {
    if moved == 0 then DoAll(Staging(c.token, c.items, c.mutations), d)
    else if moved == 1 then DoAll(Publishing(c.temporary, c.generation)[..0], Named(d, c))
    else if moved == 2 then DoAll(Publishing(c.temporary, c.generation)[..1], Named(d, c))
    else DoAll(Publishing(c.temporary, c.generation), Named(d, c))
  }

  lemma {:induction false} AtMove(d: Disk, c: Commit, moved: nat)
    requires moved <= 3
    ensures var k := |Staging(c.token, c.items, c.mutations)| + moved;
            k <= |Plan(d, c)| && DoAll(Plan(d, c)[..k], d) == Moved(d, c, moved)
  {
    if moved == 0 { AtStaging(d, c); } else { AtPublishing(d, c, moved - 1); }
  }

  /** The same commit with its dead generations in the order cleanup met them. */
  ghost function Rescheduled(names: Names, d: Disk, c: Commit, counts: map<Key, nat>, scope: Scope, doomed: seq<Generation>): (r: Commit)
    requires Ready(names, d, c)
    requires Elements(doomed) == Dead(Moved(d, c, 3), counts, scope)
    ensures r == c.(doomed := doomed) && Ready(names, d, r) && Named(d, r) == Named(d, c)
  {
    NewIsNotDead(names, d, c, counts, scope);
    assert c.generation !in Elements(doomed);
    c.(doomed := doomed)
  }

  // Where each phase of the plan stands, effect by effect.

  lemma {:induction false} AtStaging(d: Disk, c: Commit)
    ensures var stage := |Staging(c.token, c.items, c.mutations)|;
            stage <= |Plan(d, c)| && DoAll(Plan(d, c)[..stage], d) == DoAll(Staging(c.token, c.items, c.mutations), d)
  {
    var staging := Staging(c.token, c.items, c.mutations);
    assert Plan(d, c)[..|staging|] == staging;
  }

  lemma {:induction false} AtNaming(d: Disk, c: Commit)
    ensures |Naming(d, c.token, c.generation)| == 1
    ensures Naming(d, c.token, c.generation)[..1] == Naming(d, c.token, c.generation)
    ensures DoAll(Naming(d, c.token, c.generation), DoAll(Staging(c.token, c.items, c.mutations), d)) == Named(d, c)
  {
    DoAllSplit(Staging(c.token, c.items, c.mutations), Naming(d, c.token, c.generation), d);
  }

  lemma {:induction false} AtPublishing(d: Disk, c: Commit, j: nat)
    requires j <= 2
    ensures var k := |Staging(c.token, c.items, c.mutations)| + 1 + j;
            k <= |Plan(d, c)| && DoAll(Plan(d, c)[..k], d) == DoAll(Publishing(c.temporary, c.generation)[..j], Named(d, c))
    ensures j == 2 ==> Publishing(c.temporary, c.generation)[..j] == Publishing(c.temporary, c.generation)
  {
    var head := Staging(c.token, c.items, c.mutations) + Naming(d, c.token, c.generation);
    var publishing := Publishing(c.temporary, c.generation);
    assert Plan(d, c)[..|head| + j] == head + publishing[..j];
    DoAllSplit(head, publishing[..j], d);
  }

  lemma {:induction false} AtRemovals(d: Disk, c: Commit, j: nat)
    requires j <= |c.doomed|
    ensures |Plan(d, c)| == Published(c) + |c.doomed|
    ensures DoAll(Plan(d, c)[..Published(c) + j], d)
            == Swept(DoAll(Publishing(c.temporary, c.generation), Named(d, c)), Elements(c.doomed[..j]))
  {
    var head := Staging(c.token, c.items, c.mutations) + Naming(d, c.token, c.generation);
    var publishing := Publishing(c.temporary, c.generation);
    assert Plan(d, c)[..Published(c) + j] == head + publishing + Removals(c.doomed[..j]);
    DoAllSplit(head + publishing, Removals(c.doomed[..j]), d);
    DoAllSplit(head, publishing, d);
    RemovalsRemove(c.doomed[..j], DoAll(publishing, Named(d, c)));
  }

  lemma {:induction false} SweptAt(d: Disk, planned: Commit, c: Commit, swept: nat, ok: bool)
    requires c == planned.(doomed := c.doomed) && swept <= |c.doomed| && (ok ==> swept == |c.doomed|)
    ensures Stops(d, c, Published(planned) + swept, ok, Swept(Moved(d, planned, 3), Elements(c.doomed[..swept])))
  {
    AtRemovals(d, c, swept);
  }

  lemma {:induction false} NewIsNotDead(names: Names, d: Disk, c: Commit, counts: map<Key, nat>, scope: Scope)
    requires Ready(names, d, c)
    ensures c.generation !in Dead(DoAll(Publishing(c.temporary, c.generation), Named(d, c)), counts, scope)
  {
    PublishedDisk(names, d, c);
  }

  lemma {:induction false} AddressedAfterPublication(names: Names, d: Disk, c: Commit)
    requires Ready(names, d, c)
    ensures Addressed(names, DoAll(Publishing(c.temporary, c.generation), Named(d, c)))
  {
    NamedDisk(names, d, c);
    PublishedDisk(names, d, c);
  }

  lemma {:induction false} SweptOneMore(d: Disk, gone: seq<Generation>, g: Generation)
    ensures Do(RemoveGeneration(g), Swept(d, Elements(gone))) == Swept(d, Elements(gone + [g]))
  {
    assert Elements(gone + [g]) == Elements(gone) + {g};
    assert d.generations - Elements(gone) - {g} == d.generations - Elements(gone + [g]);
  }

  lemma {:induction false} Completed(gone: seq<Generation>, dead: set<Generation>)
    requires Elements(gone) <= dead
    ensures var doomed := gone + Enumeration(dead - Elements(gone));
            Elements(doomed) == dead && doomed[..|gone|] == gone
  {
    var rest := Enumeration(dead - Elements(gone));
    assert Elements(gone + rest) == Elements(gone) + Elements(rest);
  }

  /** The dead ones among the first i directories, in listing order. */
  ghost function DeadAmong(listing: seq<Generation>, i: nat, d: Disk, counts: map<Key, nat>, scope: Scope): seq<Generation>
    requires i <= |listing|
  {
    if i == 0 then []
    else
      var g := listing[i - 1];
      DeadAmong(listing, i - 1, d, counts, scope) + if Some(g) != d.current && Held(counts, Key(scope, g)) == 0 then [g] else []
  }

  lemma {:induction false} DeadAmongIs(listing: seq<Generation>, i: nat, d: Disk, counts: map<Key, nat>, scope: Scope, g: Generation)
    requires Elements(listing) == d.generations.Keys && i <= |listing|
    ensures g in DeadAmong(listing, i, d, counts, scope) <==> g in listing[..i] && g in Dead(d, counts, scope)
  {
    if i > 0 {
      DeadAmongIs(listing, i - 1, d, counts, scope, g);
      assert listing[i - 1] in Elements(listing);
      assert listing[..i] == listing[..i - 1] + [listing[i - 1]];
    }
  }

  /** A dead directory that is met was not removed before, and the removed ones with it are all dead. */
  lemma {:induction false} NextDead(listing: seq<Generation>, i: nat, d: Disk, counts: map<Key, nat>, scope: Scope)
    requires Elements(listing) == d.generations.Keys && Distinct(listing) && i < |listing|
    requires Some(listing[i]) != d.current && Held(counts, Key(scope, listing[i])) == 0
    ensures var gone, dead := DeadAmong(listing, i, d, counts, scope), Dead(d, counts, scope);
            && listing[i] in d.generations && listing[i] !in gone
            && Elements(gone) <= dead && Elements(gone + [listing[i]]) <= dead
  {
    var gone, dead := DeadAmong(listing, i, d, counts, scope), Dead(d, counts, scope);
    assert listing[i] in Elements(listing);
    forall g | g in gone ensures g in dead && g != listing[i] { DeadAmongIs(listing, i, d, counts, scope, g); }
  }

  lemma {:induction false} AllDead(listing: seq<Generation>, d: Disk, counts: map<Key, nat>, scope: Scope)
    requires Elements(listing) == d.generations.Keys
    ensures Elements(DeadAmong(listing, |listing|, d, counts, scope)) == Dead(d, counts, scope)
  {
    forall g ensures g in DeadAmong(listing, |listing|, d, counts, scope) <==> g in Dead(d, counts, scope) {
      DeadAmongIs(listing, |listing|, d, counts, scope, g);
      assert listing[..|listing|] == listing;
      assert g in Elements(listing) <==> g in d.generations;
    }
  }

  lemma {:induction false} RemovedDead(names: Names, d: Disk, counts: map<Key, nat>, scope: Scope, doomed: seq<Generation>, done: nat)
    requires Intact(names, d) && Elements(doomed) == Dead(d, counts, scope) && done <= |doomed|
    ensures var removed := Elements(doomed[..done]);
            && removed <= Dead(d, counts, scope)
            && (done == |doomed| ==> removed == Dead(d, counts, scope))
            && Intact(names, Swept(d, removed))
  {
    forall g | g in doomed[..done] ensures g in Dead(d, counts, scope) { assert g in Elements(doomed); }
    if done == |doomed| { assert doomed[..done] == doomed; }
  }
}
