/** One scope of the generational catalog store, as its disk and the atomic effects on it.

    A commit is a list of effects: stage the base, apply the mutations, give the staged
    directory its generation name, replace CURRENT, remove dead generations. A crash or an
    exception is a prefix of that list.
 */
module CatalogStore {
  import opened Ordering
  import opened Wrappers
  import opened CatalogRefs
  import opened Utf8
  import opened GenerationStream
  import opened CatalogClosure

  /** The random part of a staging directory's or temporary file's name. */
  type Token = nat

  datatype Disk = Disk(
    generations: map<Generation, Docs>,
    staging: map<Token, Docs>,
    temporaries: map<Token, Generation>,
    current: Option<Generation>)

  datatype Effect =
    | MakeStaging(token: Token)
    | WriteStaged(token: Token, ref: Ref, bytes: Bytes)
    | UnlinkStaged(token: Token, ref: Ref)
    | NameGeneration(token: Token, generation: Generation)
    | DropStaging(token: Token)
    | MakeTemporary(token: Token, generation: Generation)
    | ReplaceCurrent(token: Token)
    | DropTemporary(token: Token)
    | RemoveGeneration(generation: Generation)

  function Staged(d: Disk, t: Token): Docs {
    if t in d.staging then d.staging[t] else map[]
  }

  function Do(e: Effect, d: Disk): Disk {
    match e
    case MakeStaging(t) => d.(staging := d.staging[t := map[]])
    case WriteStaged(t, r, b) => d.(staging := d.staging[t := Staged(d, t)[r := b]])
    case UnlinkStaged(t, r) => d.(staging := d.staging[t := Staged(d, t) - {r}])
    case NameGeneration(t, g) => d.(generations := d.generations[g := Staged(d, t)], staging := d.staging - {t})
    case DropStaging(t) => d.(staging := d.staging - {t})
    case MakeTemporary(t, g) => d.(temporaries := d.temporaries[t := g])
    case ReplaceCurrent(t) =>
      if t in d.temporaries then d.(current := Some(d.temporaries[t]), temporaries := d.temporaries - {t}) else d
    case DropTemporary(t) => d.(temporaries := d.temporaries - {t})
    case RemoveGeneration(g) => d.(generations := d.generations - {g})
  }

  function DoAll(es: seq<Effect>, d: Disk): Disk {
    if es == [] then d else DoAll(es[1..], Do(es[0], d))
  }

  lemma {:induction false} DoAllSplit(es: seq<Effect>, fs: seq<Effect>, d: Disk)
    ensures DoAll(es + fs, d) == DoAll(fs, DoAll(es, d))
    decreases |es|
  {
    if es == [] {
      assert es + fs == fs;
    } else {
      assert (es + fs)[1..] == es[1..] + fs;
      DoAllSplit(es[1..], fs, Do(es[0], d));
    }
  }

  lemma {:induction false} DoAllLast(es: seq<Effect>, e: Effect, d: Disk)
    ensures DoAll(es + [e], d) == Do(e, DoAll(es, d))
  {
    DoAllSplit(es, [e], d);
    assert DoAll([e], DoAll(es, d)) == DoAll([], Do(e, DoAll(es, d)));
  }

  // Mutations

  datatype Mutation = Mutation(ref: Ref, content: Option<Bytes>, expected: Option<Digest>)

  predicate IsSessionPublication(m: Mutation) {
    Family(m.ref) == "sessions" && m.content.Some?
  }

  /** `_apply_mutations` orders by (is session publication, reference). */
  predicate MutationLt(a: Mutation, b: Mutation) {
    if IsSessionPublication(a) == IsSessionPublication(b) then RefLt(a.ref, b.ref)
    else IsSessionPublication(b)
  }

  /** One mutation per reference, none of them shipped; a delete always names a revision. */
  ghost predicate WellFormed(ms: seq<Mutation>) {
    && (forall i, j :: 0 <= i < j < |ms| ==> ms[i].ref != ms[j].ref)
    && (forall i :: 0 <= i < |ms| ==> ms[i].ref.namespace.User? && (ms[i].content.None? ==> ms[i].expected.Some?))
  }

  function Revision(b: Bytes): Digest {
    Sha256(Plain, b)
  }

  /** `_check_preconditions` for one mutation against the base catalog. */
  predicate Matches(docs: Docs, m: Mutation) {
    if m.content.Some? && m.expected.None? then m.ref !in docs
    else m.ref in docs && m.expected == Some(Revision(docs[m.ref]))
  }

  predicate AllMatch(docs: Docs, ms: seq<Mutation>) {
    forall i :: 0 <= i < |ms| ==> Matches(docs, ms[i])
  }

  /** All mutations at once: each reference ends with its own mutation's content, the rest are kept. */
  ghost predicate IsUpdate(docs: Docs, ms: seq<Mutation>, result: Docs) {
    && (forall i :: 0 <= i < |ms| ==>
          if ms[i].content.Some? then ms[i].ref in result && result[ms[i].ref] == ms[i].content.value
          else ms[i].ref !in result)
    && (forall r :: (forall i :: 0 <= i < |ms| ==> ms[i].ref != r) ==>
          (r in result <==> r in docs) && (r in docs ==> result[r] == docs[r]))
  }

  /** One reference's document after the mutations. */
  function Amended(docs: Docs, m: Mutation): Docs {
    match m.content
    case Some(b) => docs[m.ref := b]
    case None => docs - {m.ref}
  }

  function Updated(docs: Docs, ms: seq<Mutation>): Docs {
    if ms == [] then docs else Amended(Updated(docs, ms[..|ms| - 1]), ms[|ms| - 1])
  }

  lemma {:induction false} UpdateStep(docs: Docs, front: seq<Mutation>, last: Mutation, mid: Docs)
    requires IsUpdate(docs, front, mid)
    requires forall i :: 0 <= i < |front| ==> front[i].ref != last.ref
    ensures IsUpdate(docs, front + [last], Amended(mid, last))
  {
    var ms := front + [last];
    var after := Amended(mid, last);
    assert ms[|front|] == last;
    forall i | 0 <= i < |ms|
      ensures if ms[i].content.Some? then ms[i].ref in after && after[ms[i].ref] == ms[i].content.value
              else ms[i].ref !in after
    {
      if i < |front| { assert ms[i] == front[i]; }
    }
    forall r | forall i :: 0 <= i < |ms| ==> ms[i].ref != r
      ensures (r in after <==> r in docs) && (r in docs ==> after[r] == docs[r])
    {
      assert ms[|front|].ref != r;
      forall i | 0 <= i < |front| ensures front[i].ref != r { assert ms[i].ref != r; }
    }
  }

  lemma {:induction false} UpdatedIsUpdate(docs: Docs, ms: seq<Mutation>)
    requires forall i, j :: 0 <= i < j < |ms| ==> ms[i].ref != ms[j].ref
    ensures IsUpdate(docs, ms, Updated(docs, ms))
  {
    if ms != [] {
      var front, last := ms[..|ms| - 1], ms[|ms| - 1];
      UpdatedIsUpdate(docs, front);
      UpdateStep(docs, front, last, Updated(docs, front));
      assert ms == front + [last];
    }
  }

  lemma {:induction false} UpdateUnique(docs: Docs, ms: seq<Mutation>, ns: seq<Mutation>, a: Docs, b: Docs)
    requires Elements(ms) == Elements(ns)
    requires IsUpdate(docs, ms, a) && IsUpdate(docs, ns, b)
    ensures a == b
  {
    forall r ensures (r in a <==> r in b) && (r in a ==> a[r] == b[r]) {
      if i :| 0 <= i < |ms| && ms[i].ref == r {
        assert ms[i] in Elements(ns);
        var j :| 0 <= j < |ns| && ns[j] == ms[i];
      } else {
        forall j | 0 <= j < |ns| ensures ns[j].ref != r { assert ns[j] in Elements(ms); }
      }
    }
  }

  /** The catalog a set of mutations produces does not depend on the order they were added in. */
  lemma {:induction false} UpdateOrderFree(docs: Docs, ms: seq<Mutation>, ns: seq<Mutation>)
    requires WellFormed(ms) && multiset(ms) == multiset(ns)
    ensures Updated(docs, ms) == Updated(docs, ns)
  {
    SameElements(ms, ns);
    MutationsDistinct(ms, ns);
    UpdatedIsUpdate(docs, ms);
    UpdatedIsUpdate(docs, ns);
    UpdateUnique(docs, ms, ns, Updated(docs, ms), Updated(docs, ns));
  }

  lemma {:induction false} MutationsDistinct(ms: seq<Mutation>, ns: seq<Mutation>)
    requires WellFormed(ms) && multiset(ms) == multiset(ns)
    ensures WellFormed(ns)
  {
    SameElements(ms, ns);
    assert Distinct(ms);
    DistinctPermutation(ms, ns);
    forall i | 0 <= i < |ns| ensures ns[i] in ms { assert ns[i] in Elements(ns); }
  }

  // The commit plan

  function Writes(t: Token, items: seq<Document>): (es: seq<Effect>)
    ensures |es| == |items|
    ensures forall i :: 0 <= i < |items| ==> es[i] == WriteStaged(t, items[i].0, items[i].1)
  {
    seq(|items|, i requires 0 <= i < |items| => WriteStaged(t, items[i].0, items[i].1))
  }

  function MutationEffect(t: Token, m: Mutation): Effect {
    match m.content
    case Some(b) => WriteStaged(t, m.ref, b)
    case None => UnlinkStaged(t, m.ref)
  }

  function Mutates(t: Token, ms: seq<Mutation>): (es: seq<Effect>)
    ensures |es| == |ms|
    ensures forall i :: 0 <= i < |ms| ==> es[i] == MutationEffect(t, ms[i])
  {
    seq(|ms|, i requires 0 <= i < |ms| => MutationEffect(t, ms[i]))
  }

  function Staging(t: Token, items: seq<Document>, ms: seq<Mutation>): seq<Effect> {
    [MakeStaging(t)] + Writes(t, items) + Mutates(t, ms)
  }

  /** A generation that already exists is reused, not overwritten. */
  function Naming(d: Disk, t: Token, g: Generation): seq<Effect> {
    if g in d.generations then [DropStaging(t)] else [NameGeneration(t, g)]
  }

  function Publishing(t: Token, g: Generation): seq<Effect> {
    [MakeTemporary(t, g), ReplaceCurrent(t)]
  }

  function Removals(doomed: seq<Generation>): (es: seq<Effect>)
    ensures |es| == |doomed|
    ensures forall i :: 0 <= i < |doomed| ==> es[i] == RemoveGeneration(doomed[i])
  {
    seq(|doomed|, i requires 0 <= i < |doomed| => RemoveGeneration(doomed[i]))
  }

  /** Only this staging directory changes. */
  ghost predicate OnlyStages(d: Disk, t: Token, after: Disk) {
    && after.generations == d.generations && after.temporaries == d.temporaries && after.current == d.current
    && after.staging - {t} == d.staging - {t}
  }

  lemma {:induction false} WritesStage(t: Token, items: seq<Document>, d: Disk)
    requires t in d.staging
    ensures OnlyStages(d, t, DoAll(Writes(t, items), d))
    ensures t in DoAll(Writes(t, items), d).staging
    ensures DoAll(Writes(t, items), d).staging[t] == WriteAll(d.staging[t], items)
    decreases |items|
  {
    if items != [] {
      var front, last := items[..|items| - 1], items[|items| - 1];
      assert Writes(t, items) == Writes(t, front) + [WriteStaged(t, last.0, last.1)];
      WritesStage(t, front, d);
      DoAllLast(Writes(t, front), WriteStaged(t, last.0, last.1), d);
    }
  }

  function WriteAll(docs: Docs, items: seq<Document>): Docs {
    if items == [] then docs else WriteAll(docs, items[..|items| - 1])[items[|items| - 1].0 := items[|items| - 1].1]
  }

  lemma {:induction false} MutatesStage(t: Token, ms: seq<Mutation>, d: Disk)
    requires t in d.staging
    ensures OnlyStages(d, t, DoAll(Mutates(t, ms), d))
    ensures t in DoAll(Mutates(t, ms), d).staging
    ensures DoAll(Mutates(t, ms), d).staging[t] == Updated(d.staging[t], ms)
    decreases |ms|
  {
    if ms != [] {
      var front, last := ms[..|ms| - 1], ms[|ms| - 1];
      assert Mutates(t, ms) == Mutates(t, front) + [MutationEffect(t, last)];
      MutatesStage(t, front, d);
      DoAllLast(Mutates(t, front), MutationEffect(t, last), d);
    }
  }

  /** Writing any listing of a catalog into an empty directory reproduces the catalog. */
  lemma {:induction false} WriteAllListing(items: seq<Document>, docs: Docs)
    requires Lists(items, docs)
    ensures WriteAll(map[], items) == docs
  {
    forall i | 0 <= i < |items| ensures items[i].0 in docs && items[i].1 == docs[items[i].0] { assert items[i] in items; }
    WriteAllKeeps(items, docs);
    var got := WriteAll(map[], items);
    forall r ensures r in docs <==> r in got {
      if r in docs { assert (r, docs[r]) in items; }
    }
  }

  lemma {:induction false} WriteAllKeeps(items: seq<Document>, docs: Docs)
    requires forall i :: 0 <= i < |items| ==> items[i].0 in docs && items[i].1 == docs[items[i].0]
    ensures forall r :: r in WriteAll(map[], items) <==> exists i :: 0 <= i < |items| && items[i].0 == r
    ensures forall r :: r in WriteAll(map[], items) ==> r in docs && WriteAll(map[], items)[r] == docs[r]
  {
    if items != [] {
      var front := items[..|items| - 1];
      WriteAllKeeps(front, docs);
      forall r ensures r in WriteAll(map[], items) <==> exists i :: 0 <= i < |items| && items[i].0 == r {
        if i :| 0 <= i < |items| && items[i].0 == r {
          if i < |front| { assert front[i].0 == r; }
        }
        if r in WriteAll(map[], front) {
          var i :| 0 <= i < |front| && front[i].0 == r;
          assert items[i].0 == r;
        } else if r in WriteAll(map[], items) {
          assert items[|items| - 1].0 == r;
        }
      }
    }
  }

  /** Copying the base and applying the mutations in any order stages exactly the update. */
  lemma {:induction false} StagingStages(t: Token, items: seq<Document>, docs: Docs, ms: seq<Mutation>, d: Disk)
    requires Lists(items, docs)
    ensures OnlyStages(d, t, DoAll(Staging(t, items, ms), d))
    ensures t in DoAll(Staging(t, items, ms), d).staging
    ensures DoAll(Staging(t, items, ms), d).staging[t] == Updated(docs, ms)
  {
    var d1 := Do(MakeStaging(t), d);
    var copies := Writes(t, items);
    assert DoAll([MakeStaging(t)], d) == DoAll([], d1);
    DoAllSplit([MakeStaging(t)] + copies, Mutates(t, ms), d);
    DoAllSplit([MakeStaging(t)], copies, d);
    WritesStage(t, items, d1);
    WriteAllListing(items, docs);
    MutatesStage(t, ms, DoAll(copies, d1));
  }

  lemma {:induction false} RemovalsRemove(doomed: seq<Generation>, d: Disk)
    ensures DoAll(Removals(doomed), d) == d.(generations := d.generations - Elements(doomed))
    decreases |doomed|
  {
    if doomed == [] {
      assert d.generations - Elements(doomed) == d.generations;
    } else {
      var front, last := doomed[..|doomed| - 1], doomed[|doomed| - 1];
      assert Removals(doomed) == Removals(front) + [RemoveGeneration(last)];
      RemovalsRemove(front, d);
      DoAllLast(Removals(front), RemoveGeneration(last), d);
      assert d.generations - Elements(front) - {last} == d.generations - Elements(doomed);
    }
  }

  // What the store promises of a disk

  /** Schema validation and the shipped catalog. */
  datatype Env = Env(shipped: map<Ref, Bytes>, validate: (Ref, Bytes) -> Model)

  /** A catalog `_validate_catalog_root` accepts. */
  ghost predicate Storable(env: Env, docs: Docs) {
    && Encodable(docs)
    && (forall r :: r in docs ==> r.namespace.User? && env.validate(r, docs[r]).Valid?)
  }

  /** The directory's content is what its name says. */
  ghost predicate NamedBy(env: Env, g: Generation, docs: Docs) {
    Storable(env, docs) && GenerationOf(docs) == g
  }

  /** Which catalogs a generation name stands for. */
  type Names = (Generation, Docs) -> bool

  ghost function NamesOf(env: Env): Names {
    (g, docs) => NamedBy(env, g, docs)
  }

  /** A name stands for at most one catalog. */
  ghost predicate Injective(names: Names) {
    forall g, a, b :: names(g, a) && names(g, b) ==> a == b
  }

  lemma {:induction false} NamesInjective(env: Env)
    ensures Injective(NamesOf(env))
  {
    forall g, a, b | NamesOf(env)(g, a) && NamesOf(env)(g, b) ensures a == b { GenerationInjective(a, b); }
  }

  ghost predicate Addressed(names: Names, d: Disk) {
    forall g :: g in d.generations ==> names(g, d.generations[g])
  }

  predicate HasCurrent(d: Disk) {
    d.current.Some? && d.current.value in d.generations
  }

  /** Everything recovery checks: CURRENT names a present generation and every directory is sound. */
  ghost predicate Intact(names: Names, d: Disk) {
    Addressed(names, d) && HasCurrent(d)
  }

  function Current(d: Disk): Docs
    requires HasCurrent(d)
  {
    d.generations[d.current.value]
  }

  /** A commit that passed every check, ready to act on the disk. */
  datatype Commit = Commit(items: seq<Document>, mutations: seq<Mutation>, generation: Generation,
                           token: Token, temporary: Token, doomed: seq<Generation>)

  /** The names of a commit's staging directory and temporary file are new: neither belongs to a leftover. */
  ghost predicate Fresh(d: Disk, c: Commit) {
    c.token !in d.staging && c.temporary !in d.temporaries
  }

  ghost predicate Ready(names: Names, d: Disk, c: Commit) {
    && Injective(names)
    && Intact(names, d) && Fresh(d, c)
    && Lists(c.items, Current(d))
    && names(c.generation, Updated(Current(d), c.mutations))
    && c.generation !in c.doomed
  }

  function Plan(d: Disk, c: Commit): seq<Effect> {
    Staging(c.token, c.items, c.mutations) + Naming(d, c.token, c.generation)
    + Publishing(c.temporary, c.generation) + Removals(c.doomed)
  }

  /** How many effects it takes until CURRENT has moved. */
  function Published(c: Commit): nat {
    |Staging(c.token, c.items, c.mutations)| + 3
  }

  /** The disk with everything temporary and every other generation gone. */
  function Recovered(d: Disk): Disk
    requires HasCurrent(d)
  {
    Disk(map[d.current.value := d.generations[d.current.value]], map[], map[], d.current)
  }

  // Prefixes of a commit

  predicate TouchesOnly(t: Token, e: Effect) {
    (e.MakeStaging? || e.WriteStaged? || e.UnlinkStaged?) && e.token == t
  }

  lemma {:induction false} TouchingStages(t: Token, es: seq<Effect>, d: Disk)
    requires forall i :: 0 <= i < |es| ==> TouchesOnly(t, es[i])
    ensures OnlyStages(d, t, DoAll(es, d))
    decreases |es|
  {
    if es != [] { TouchingStages(t, es[1..], Do(es[0], d)); }
  }

  lemma {:induction false} StagingTouches(t: Token, items: seq<Document>, ms: seq<Mutation>, k: nat)
    requires k <= |Staging(t, items, ms)|
    ensures forall i :: 0 <= i < k ==> TouchesOnly(t, Staging(t, items, ms)[..k][i])
  {}

  /** The disk once the new generation has its name. */
  function Named(d: Disk, c: Commit): Disk {
    DoAll(Staging(c.token, c.items, c.mutations) + Naming(d, c.token, c.generation), d)
  }

  lemma {:induction false} NamedDisk(names: Names, d: Disk, c: Commit)
    requires Ready(names, d, c)
    ensures Named(d, c) == d.(generations := d.generations[c.generation := Updated(Current(d), c.mutations)])
  {
    var staged := DoAll(Staging(c.token, c.items, c.mutations), d);
    StagingStages(c.token, c.items, Current(d), c.mutations, d);
    assert Naming(d, c.token, c.generation) == [Naming(d, c.token, c.generation)[0]];
    DoAllLast(Staging(c.token, c.items, c.mutations), Naming(d, c.token, c.generation)[0], d);
    assert d.staging - {c.token} == d.staging;
    if c.generation in d.generations {
      assert names(c.generation, d.generations[c.generation]);
      assert d.generations == d.generations[c.generation := Updated(Current(d), c.mutations)];
    }
  }

  lemma {:induction false} PublishedDisk(names: Names, d: Disk, c: Commit)
    requires Ready(names, d, c)
    ensures var e := Named(d, c);
            && Do(MakeTemporary(c.temporary, c.generation), e) == e.(temporaries := d.temporaries[c.temporary := c.generation])
            && DoAll(Publishing(c.temporary, c.generation), e) == e.(current := Some(c.generation))
  {
    NamedDisk(names, d, c);
    var e := Named(d, c);
    var tmp := MakeTemporary(c.temporary, c.generation);
    assert Publishing(c.temporary, c.generation) == [tmp] + [ReplaceCurrent(c.temporary)];
    DoAllLast([tmp], ReplaceCurrent(c.temporary), e);
    assert DoAll([tmp], e) == DoAll([], Do(tmp, e));
    assert d.temporaries[c.temporary := c.generation] - {c.temporary} == d.temporaries;
  }

  /** The whole commit: the old generations minus the dead ones, the new one, CURRENT moved. */
  lemma {:induction false} CommittedDisk(names: Names, d: Disk, c: Commit)
    requires Ready(names, d, c)
    ensures DoAll(Plan(d, c), d)
            == Disk(d.generations[c.generation := Updated(Current(d), c.mutations)] - Elements(c.doomed),
                    d.staging, d.temporaries, Some(c.generation))
  {
    PrefixAfterPublication(names, d, c, |Plan(d, c)|);
    assert c.doomed[..|c.doomed|] == c.doomed;
    assert Plan(d, c)[..|Plan(d, c)|] == Plan(d, c);
  }

  lemma {:induction false} PrefixAfterPublication(names: Names, d: Disk, c: Commit, k: nat)
    requires Ready(names, d, c) && Published(c) <= k <= |Plan(d, c)|
    ensures k - Published(c) <= |c.doomed|
    ensures DoAll(Plan(d, c)[..k], d)
            == Disk(d.generations[c.generation := Updated(Current(d), c.mutations)] - Elements(c.doomed[..k - Published(c)]),
                    d.staging, d.temporaries, Some(c.generation))
  {
    var head := Staging(c.token, c.items, c.mutations) + Naming(d, c.token, c.generation);
    var pub := Publishing(c.temporary, c.generation);
    var gone := c.doomed[..k - Published(c)];
    assert Plan(d, c)[..k] == (head + pub) + Removals(gone);
    DoAllSplit(head + pub, Removals(gone), d);
    DoAllSplit(head, pub, d);
    NamedDisk(names, d, c);
    PublishedDisk(names, d, c);
    RemovalsRemove(gone, DoAll(pub, Named(d, c)));
  }

  /** Before CURRENT is replaced, nothing a reader can see has changed. */
  lemma {:induction false} PrefixBeforePublication(names: Names, d: Disk, c: Commit, k: nat)
    requires Ready(names, d, c) && k < Published(c)
    ensures k <= |Plan(d, c)|
    ensures var e := DoAll(Plan(d, c)[..k], d);
            && e.current == d.current
            && (e.generations == d.generations
                || e.generations == d.generations[c.generation := Updated(Current(d), c.mutations)])
            && e.staging - {c.token} == d.staging && e.temporaries - {c.temporary} == d.temporaries
  {
    var stage := Staging(c.token, c.items, c.mutations);
    var head := stage + Naming(d, c.token, c.generation);
    if k <= |stage| {
      StagingPrefix(d, c, k);
      assert d.staging - {c.token} == d.staging && d.temporaries - {c.temporary} == d.temporaries;
    } else if k == |stage| + 1 {
      assert Plan(d, c)[..k] == head;
      NamedDisk(names, d, c);
    } else {
      var tmp := MakeTemporary(c.temporary, c.generation);
      assert Plan(d, c)[..k] == head + [tmp];
      DoAllLast(head, tmp, d);
      NamedDisk(names, d, c);
      PublishedDisk(names, d, c);
    }
  }

  /** A crash keeps complete effects; whatever was being written may be torn. */
  ghost predicate Torn(d: Disk, after: Disk) {
    after.generations == d.generations && after.current == d.current
  }

  ghost predicate HoldsOnly(d: Disk, g: Generation, docs: Docs) {
    d == Disk(map[g := docs], map[], map[], Some(g))
  }

  lemma {:induction false} AddressedUpdate(names: Names, d: Disk, g: Generation, docs: Docs, gone: set<Generation>)
    requires Addressed(names, d) && names(g, docs)
    ensures Addressed(names, d.(generations := d.generations[g := docs] - gone))
  {}

  /** A commit as far as it may have got: staging comes before every check on what is staged, and nothing
      after staging runs unless they all pass. */
  ghost predicate Underway(names: Names, d: Disk, c: Commit, k: nat) {
    && Intact(names, d) && k <= |Plan(d, c)|
    && (k > |Staging(c.token, c.items, c.mutations)| ==> Ready(names, d, c))
  }

  /** Stop a commit after any number of effects, whether or not it would have passed its checks, tear what was
      in flight, recover: the scope holds exactly the base catalog, or exactly the committed one, and nothing else. */
  lemma {:induction false} CrashRecovery(names: Names, d: Disk, c: Commit, k: nat, crashed: Disk)
    requires Underway(names, d, c, k) && Torn(DoAll(Plan(d, c)[..k], d), crashed)
    ensures Intact(names, crashed)
    ensures k < Published(c) ==> HoldsOnly(Recovered(crashed), d.current.value, Current(d))
    ensures Published(c) <= k ==> HoldsOnly(Recovered(crashed), c.generation, Updated(Current(d), c.mutations))
  {
    if k <= |Staging(c.token, c.items, c.mutations)| {
      StagingPrefix(d, c, k);
    } else {
      CheckedCrash(names, d, c, k, crashed);
    }
  }

  // Directories removed part way

  /** What is on the disk under each generation's name: the documents of its `catalog` directory, or no such directory. */
  type Directories = map<Generation, Option<Docs>>

  ghost function Whole(d: Disk): Directories {
    map g | g in d.generations :: Some(d.generations[g])
  }

  /** What recovery demands: every directory hashes to its name, and CURRENT's is among them. */
  ghost predicate Accepted(names: Names, dirs: Directories, current: Option<Generation>) {
    && (forall g :: g in dirs ==> dirs[g].Some? && names(g, dirs[g].value))
    && current.Some? && current.value in dirs
  }

  lemma {:induction false} IntactIsAccepted(names: Names, d: Disk)
    ensures Intact(names, d) <==> Accepted(names, Whole(d), d.current)
  {
    if Accepted(names, Whole(d), d.current) {
      forall g | g in d.generations ensures names(g, d.generations[g]) { assert g in Whole(d); }
    }
  }

  /** A directory left as `rest` passes recovery exactly when none of its documents is gone. */
  lemma {:induction false} PartlyRemoved(names: Names, d: Disk, g: Generation, rest: Option<Docs>)
    requires Injective(names) && Intact(names, d) && g in d.generations
    ensures Accepted(names, Whole(d)[g := rest], d.current) <==> rest == Some(d.generations[g])
  {
    var torn := Whole(d)[g := rest];
    if Accepted(names, torn, d.current) {
      assert g in torn;
      assert names(g, rest.value) && names(g, d.generations[g]);
    }
    if rest == Some(d.generations[g]) {
      forall h | h in torn ensures torn[h].Some? && names(h, torn[h].value) { assert h in d.generations; }
    }
  }

  /** `RemoveGeneration` is one effect, in the source a recursive removal: a process that dies inside the removal of the
      j-th dead directory of a commit, leaving `rest` of it, can be recovered exactly when none of its documents is gone. */
  lemma {:induction false} CrashInRemoval(names: Names, d: Disk, c: Commit, j: nat, rest: Option<Docs>)
    requires Ready(names, d, c) && j < |c.doomed|
    requires c.doomed[j] in DoAll(Plan(d, c)[..Published(c) + j], d).generations
    ensures var stopped := DoAll(Plan(d, c)[..Published(c) + j], d);
            Accepted(names, Whole(stopped)[c.doomed[j] := rest], stopped.current) <==> rest == Some(stopped.generations[c.doomed[j]])
  {
    var stopped := DoAll(Plan(d, c)[..Published(c) + j], d);
    CheckedCrash(names, d, c, Published(c) + j, stopped);
    PartlyRemoved(names, stopped, c.doomed[j], rest);
  }

  /** A scope whose current catalog is `docs`, and the empty generation it started from, dead by now. */
  ghost function Begun(empty: Generation, g: Generation, docs: Docs): Disk {
    Disk(map[empty := map[], g := docs], map[], map[], Some(g))
  }

  /** A process that dies when it has removed the empty generation's `catalog` directory, which held nothing, and not
      yet the directory around it, leaves a scope that recovery refuses. */
  lemma {:induction false} EmptiedDirectory(names: Names, empty: Generation, g: Generation, docs: Docs)
    requires Injective(names) && names(empty, map[]) && names(g, docs) && docs != map[]
    ensures Intact(names, Begun(empty, g, docs))
    ensures !Accepted(names, Whole(Begun(empty, g, docs))[empty := None], Some(g))
  {
    assert empty != g;
    PartlyRemoved(names, Begun(empty, g, docs), empty, None);
  }

  lemma {:induction false} OneDocument() returns (env: Env, docs: Docs)
    ensures docs == map[Ref(User, "sites/a.yaml") := [97]] && Storable(env, docs)
  {
    var ref := Ref(User, "sites/a.yaml");
    env, docs := Env(map[], (r, b) => Valid([])), map[ref := [97]];
    EncodedLength(Text(ref));
  }

  lemma {:induction false} StorableIsNamed(env: Env, names: Names, docs: Docs) returns (g: Generation)
    requires Storable(env, docs) && names == NamesOf(env)
    ensures names(g, docs)
  {
    g := GenerationOf(docs);
  }

  /** One such scope: a single document, and a validator that accepts it. */
  lemma {:induction false} EmptiedScope() returns (env: Env, names: Names, empty: Generation, g: Generation, docs: Docs)
    ensures docs == map[Ref(User, "sites/a.yaml") := [97]] && names == NamesOf(env) && names(empty, map[]) && names(g, docs)
    ensures Intact(names, Begun(empty, g, docs))
    ensures !Accepted(names, Whole(Begun(empty, g, docs))[empty := None], Some(g))
  {
    env, docs := OneDocument();
    names := NamesOf(env);
    NamesInjective(env);
    empty := StorableIsNamed(env, names, map[]);
    g := StorableIsNamed(env, names, docs);
    assert Ref(User, "sites/a.yaml") in docs;
    EmptiedDirectory(names, empty, g, docs);
  }

  /** While a catalog is being staged, only the staging directory changes. */
  lemma {:induction false} StagingPrefix(d: Disk, c: Commit, k: nat)
    requires k <= |Staging(c.token, c.items, c.mutations)|
    ensures k <= |Plan(d, c)| && OnlyStages(d, c.token, DoAll(Plan(d, c)[..k], d))
  {
    var stage := Staging(c.token, c.items, c.mutations);
    assert Plan(d, c)[..k] == stage[..k];
    StagingTouches(c.token, c.items, c.mutations, k);
    TouchingStages(c.token, stage[..k], d);
  }

  /** The rest of a commit, once the staged catalog has passed every check. */
  lemma {:induction false} CheckedCrash(names: Names, d: Disk, c: Commit, k: nat, crashed: Disk)
    requires Ready(names, d, c) && k <= |Plan(d, c)|
    requires Torn(DoAll(Plan(d, c)[..k], d), crashed)
    ensures Intact(names, crashed)
    ensures k < Published(c) ==> HoldsOnly(Recovered(crashed), d.current.value, Current(d))
    ensures Published(c) <= k ==> HoldsOnly(Recovered(crashed), c.generation, Updated(Current(d), c.mutations))
  {
    var docs := Updated(Current(d), c.mutations);
    if k < Published(c) {
      PrefixBeforePublication(names, d, c, k);
      AddressedUpdate(names, d, c.generation, docs, {});
      assert d.generations[c.generation := docs] - {} == d.generations[c.generation := docs];
      if d.current.value == c.generation { assert names(c.generation, docs); }
    } else {
      PrefixAfterPublication(names, d, c, k);
      var gone := c.doomed[..k - Published(c)];
      AddressedUpdate(names, d, c.generation, docs, Elements(gone));
    }
  }

  // Recovery, itself interruptible

  predicate Cleans(d: Disk, e: Effect) {
    e.DropTemporary? || e.DropStaging? || (e.RemoveGeneration? && Some(e.generation) != d.current)
  }

  /** However far a recovery got, a second one ends at the same disk. */
  lemma {:induction false} InterruptedRecovery(names: Names, d: Disk, es: seq<Effect>)
    requires Intact(names, d)
    requires forall i :: 0 <= i < |es| ==> Cleans(d, es[i])
    ensures Intact(names, DoAll(es, d)) && Recovered(DoAll(es, d)) == Recovered(d)
    decreases |es|
  {
    if es != [] {
      assert Cleans(d, es[0]);
      var next := Do(es[0], d);
      assert Intact(names, next) && Recovered(next) == Recovered(d);
      forall i | 0 <= i < |es[1..]| ensures Cleans(next, es[1..][i]) { assert Cleans(d, es[i + 1]); }
      InterruptedRecovery(names, next, es[1..]);
    }
  }

  // Exceptions

  /** What the handlers of `_commit` and `_publish_current` may leave of a commit that stopped at `d`: they remove its
      staging directory and its temporary file, and each may itself raise, before or after part of its work. */
  ghost predicate Abandoned(d: Disk, c: Commit, after: Disk) {
    && after.generations == d.generations && after.current == d.current
    && after.staging - {c.token} == d.staging - {c.token}
    && after.temporaries - {c.temporary} == d.temporaries - {c.temporary}
  }

  /** An exception after any number of effects leaves an intact disk, whether or not the handlers succeed: CURRENT
      where it was, or, once it has been replaced, on the whole new catalog. Generations other than the doomed ones
      all survive, and no other leftover is touched. */
  lemma {:induction false} RaisedCommit(names: Names, d: Disk, c: Commit, k: nat, after: Disk)
    requires Ready(names, d, c) && k <= |Plan(d, c)| && Abandoned(DoAll(Plan(d, c)[..k], d), c, after)
    ensures Intact(names, after)
    ensures k < Published(c) ==> after.current == d.current && Current(after) == Current(d)
    ensures Published(c) <= k ==> after.current == Some(c.generation) && Current(after) == Updated(Current(d), c.mutations)
    ensures forall g :: g in d.generations && g !in c.doomed ==> g in after.generations && after.generations[g] == d.generations[g]
    ensures forall g :: g in after.generations ==> g in d.generations || g == c.generation
    ensures after.staging - {c.token} == d.staging && after.temporaries - {c.temporary} == d.temporaries
  {
    CheckedCrash(names, d, c, k, after);
    if c.generation in d.generations { assert names(c.generation, Updated(Current(d), c.mutations)); }
    if k < Published(c) {
      PrefixBeforePublication(names, d, c, k);
    } else {
      PrefixAfterPublication(names, d, c, k);
      forall g | g in c.doomed[..k - Published(c)] ensures g in c.doomed {}
      assert d.staging - {c.token} == d.staging && d.temporaries - {c.temporary} == d.temporaries;
    }
  }
}
