/** Transitive collection of catalog documents.

    A read view is any finite set of documents together with a total validation function;
    references form a graph over it. The collector is the depth-first search of
    `_CollectionState.visit`; reachability and cycles are defined by paths, independently of it.
 */
module CatalogClosure {
  import opened Ordering
  import opened Wrappers
  import opened CatalogRefs
  import opened Utf8
  import opened GenerationStream
  import opened Digraph

  datatype Code =
    | InvalidRootYaml
    | InvalidSessionRoot
    | InvalidReference
    | ReferencePathRejected
    | ReferenceFamilyMismatch
    | DanglingReference
    | ReadFailed
    | ReadViewContract
    | InvalidDependencyYaml
    | InvalidDependencyDocument
    | FamilyWrapperMismatch
    | ReferenceCycle
    | PreservedPathCollision

  /** What a read view answers for a reference it knows; any other reference is not found. */
  datatype Read =
    | Found(family: string, preservedPath: string, bytes: Bytes)
    | NotFound
    | Rejected
    | Failed

  /** Why a parsed document is refused, in the precedence order of `_validation_error_code`. */
  datatype Fault = WrongWrapper | WrongReferenceFamily | BadReferencePath | NotReference | BadSchema

  /** YAML decoding and schema validation: a refusal, or the references the model contains. */
  datatype Model =
    | BadYaml
    | Refused(fault: Fault)
    | Valid(references: seq<Ref>)

  datatype View = View(documents: map<Ref, Read>, validate: (Ref, Bytes) -> Model)

  datatype Inspection = Accepts(references: seq<Ref>) | Refuses(code: Code)

  /** A whole view reduced to what it says of each reference. */
  type Judge = Ref -> Inspection

  datatype Entry = Entry(ref: Ref, family: string, preservedPath: string, bytes: Bytes, digest: Digest, size: nat)

  datatype Error = Error(code: Code, ref: Ref, chain: seq<Ref>)

  function FaultCode(f: Fault): Code {
    match f
    case WrongWrapper => FamilyWrapperMismatch
    case WrongReferenceFamily => ReferenceFamilyMismatch
    case BadReferencePath => ReferencePathRejected
    case NotReference => InvalidReference
    case BadSchema => InvalidDependencyDocument
  }

  function ReadView(v: View, ref: Ref): Read {
    if ref in v.documents then v.documents[ref] else NotFound
  }

  /** The family directory of a reference; references are parsed, so one is always registered. */
  function Family(ref: Ref): string {
    match FamilyOf(ref.path)
    case None => ""
    case Some(family) => family
  }

  /** The entry an accepted document is recorded as. */
  function Canonical(ref: Ref, bytes: Bytes): Entry {
    Entry(ref, Family(ref), PreservedPath(ref), bytes, Sha256(Plain, bytes), |bytes|)
  }

  /** Everything that can refuse one reference on its own, first refusal first. */
  function Inspect(v: View, ref: Ref): Inspection {
    if Family(ref) !in FAMILIES then Refuses(ReferenceFamilyMismatch)
    else
      match ReadView(v, ref)
      case NotFound => Refuses(DanglingReference)
      case Rejected => Refuses(ReferencePathRejected)
      case Failed => Refuses(ReadFailed)
      case Found(family, path, bytes) =>
        if family != Family(ref) then Refuses(ReferenceFamilyMismatch)
        else if path != PreservedPath(ref) then Refuses(ReadViewContract)
        else
          match v.validate(ref, bytes)
          case BadYaml => Refuses(InvalidDependencyYaml)
          case Refused(fault) => Refuses(FaultCode(fault))
          case Valid(references) => Accepts(references)
  }

  // Reference graph

  ghost function JudgeOf(v: View): Judge {
    r => Inspect(v, r)
  }

  ghost predicate Faithful(judge: Judge, v: View) {
    forall r {:trigger Inspect(v, r)} :: judge(r) == Inspect(v, r)
  }

  /** a's document references b. */
  ghost function Cites(judge: Judge): (Ref, Ref) -> bool {
    (a, b) => judge(a).Accepts? && b in judge(a).references
  }

  ghost predicate Reachable(judge: Judge, roots: set<Ref>, b: Ref) {
    exists a :: a in roots && Reaches(Cites(judge), a, b)
  }

  /** The declarative condition: everything reachable is readable and valid, and nothing is circular. */
  ghost predicate Collectable(judge: Judge, roots: set<Ref>) {
    forall b :: Reachable(judge, roots, b) ==> judge(b).Accepts? && !OnCycle(Cites(judge), b)
  }

  // Collection state

  /** The entry map (a Python dict, so `order` is its insertion order) is a dependencies-first record. */
  ghost predicate Recorded(judge: Judge, docs: map<Ref, Read>, entries: map<Ref, Entry>, order: seq<Ref>) {
    && entries.Keys == Elements(order)
    && Distinct(order)
    && DependenciesFirst(Cites(judge), order)
    && (forall k :: k in entries ==> Carries(judge, docs, k, entries[k]))
  }

  ghost predicate Carries(judge: Judge, docs: map<Ref, Read>, k: Ref, e: Entry) {
    judge(k).Accepts? && k in docs && docs[k].Found? && e == Canonical(k, docs[k].bytes)
  }

  /** The stack of documents being visited: a simple path of references, none recorded yet. */
  ghost predicate Stacked(judge: Judge, docs: map<Ref, Read>, active: seq<Ref>, order: seq<Ref>) {
    && Distinct(active)
    && (active != [] ==> IsPath(Cites(judge), active))
    && Elements(active) <= docs.Keys
    && Elements(active) !! Elements(order)
  }

  ghost predicate Owned(owners: map<string, Ref>) {
    forall p :: p in owners ==> p == PreservedPath(owners[p])
  }

  /** A refusal that tells the truth: the reference it names is reached, and is at fault as claimed. */
  ghost predicate Blames(judge: Judge, ref: Ref, e: Error) {
    && Reaches(Cites(judge), ref, e.ref)
    && IsPath(Cites(judge), e.chain)
    && e.chain[|e.chain| - 1] == e.ref
    && if e.code == ReferenceCycle then |e.chain| >= 2 && e.chain[0] == e.ref
       else judge(e.ref) == Refuses(e.code)
  }

  /** The evidence of every refusal but a cycle is the whole way from the root. */
  ghost predicate Traced(way: seq<Ref>, e: Error) {
    e.code != ReferenceCycle ==> way <= e.chain
  }

  /** One call's effect on what is recorded: only additions, all reached from `ref`. */
  ghost predicate Grows(judge: Judge, ref: Ref, before: seq<Ref>, after: seq<Ref>) {
    && before <= after
    && (forall k :: k in after[|before|..] ==> Reaches(Cites(judge), ref, k))
  }

  lemma {:induction false} GrowsFurther(judge: Judge, ref: Ref, dep: Ref, a: seq<Ref>, b: seq<Ref>, c: seq<Ref>)
    requires Cites(judge)(ref, dep)
    requires Grows(judge, ref, a, b) && Grows(judge, dep, b, c)
    ensures Grows(judge, ref, a, c)
  {
    forall k | k in c[|a|..] ensures Reaches(Cites(judge), ref, k) {
      var i :| 0 <= i < |c[|a|..]| && c[|a|..][i] == k;
      if |a| + i < |b| {
        assert b[|a|..][i] == k;
      } else {
        assert c[|b|..][|a| + i - |b|] == k;
        ReachesStep(Cites(judge), ref, dep, k);
      }
    }
  }

  lemma {:induction false} GrowByOne(judge: Judge, ref: Ref, before: seq<Ref>, after: seq<Ref>)
    requires Grows(judge, ref, before, after)
    ensures Grows(judge, ref, before, after + [ref])
  {
    ReachesSelf(Cites(judge), ref);
    assert (after + [ref])[|before|..] == after[|before|..] + [ref];
  }

  lemma {:induction false} RecordStep(judge: Judge, docs: map<Ref, Read>, entries: map<Ref, Entry>, order: seq<Ref>,
                                      ref: Ref, e: Entry)
    requires Recorded(judge, docs, entries, order)
    requires ref !in order && Carries(judge, docs, ref, e)
    requires forall d :: d in judge(ref).references ==> d in order
    ensures Recorded(judge, docs, entries[ref := e], order + [ref])
  {
    var next := order + [ref];
    assert Elements(next) == Elements(order) + {ref};
    forall i, d | 0 <= i < |next| && Cites(judge)(next[i], d) ensures d in next[..i] {
      if i < |order| {
        assert next[..i] == order[..i];
      } else {
        assert next[..i] == order;
      }
    }
  }

  lemma {:induction false} CycleFound(judge: Judge, active: seq<Ref>, ref: Ref, start: nat)
    requires active != [] && IsPath(Cites(judge), active) && Cites(judge)(active[|active| - 1], ref)
    requires start < |active| && active[start] == ref
    ensures Blames(judge, ref, Error(ReferenceCycle, ref, active[start..] + [ref]))
  {
    var cycle := active[start..] + [ref];
    forall i, j | 0 <= i && j == i + 1 && j < |cycle| ensures Cites(judge)(cycle[i], cycle[j]) {
      if j < |cycle| - 1 {
        assert cycle[i] == active[start + i] && cycle[j] == active[start + j];
      } else {
        assert cycle[i] == active[|active| - 1];
      }
    }
    ReachesSelf(Cites(judge), ref);
  }

  lemma {:induction false} StackPush(judge: Judge, docs: map<Ref, Read>, active: seq<Ref>, order: seq<Ref>, ref: Ref)
    requires Stacked(judge, docs, active, order)
    requires active == [] || Cites(judge)(active[|active| - 1], ref)
    requires ref !in active && ref !in order && ref in docs
    ensures Stacked(judge, docs, active + [ref], order)
    ensures docs.Keys - Elements(active + [ref]) < docs.Keys - Elements(active)
  {
    if active != [] { PathAppend(Cites(judge), active, ref); }
    assert Elements(active + [ref]) == Elements(active) + {ref};
    assert ref in docs.Keys - Elements(active);
  }

  lemma {:induction false} StackPop(judge: Judge, docs: map<Ref, Read>, active: seq<Ref>, before: seq<Ref>,
                                    order: seq<Ref>, ref: Ref)
    requires Stacked(judge, docs, active, before) && Stacked(judge, docs, active + [ref], order)
    ensures Stacked(judge, docs, active, order) && Stacked(judge, docs, active, order + [ref])
  {
    var pushed := active + [ref];
    assert pushed[|active|] == ref;
    assert Elements(pushed) == Elements(active) + {ref};
    forall i | 0 <= i < |active| ensures active[i] != ref { assert pushed[i] == active[i]; }
    assert Elements(order + [ref]) == Elements(order) + {ref};
  }

  lemma {:induction false} ChainIsPath(judge: Judge, active: seq<Ref>, ref: Ref)
    requires active == [] || (IsPath(Cites(judge), active) && Cites(judge)(active[|active| - 1], ref))
    ensures IsPath(Cites(judge), active + [ref]) && Reaches(Cites(judge), ref, ref)
  {
    if active != [] { PathAppend(Cites(judge), active, ref); }
    ReachesSelf(Cites(judge), ref);
  }

  function IndexOf(s: seq<Ref>, x: Ref): (i: nat)
    requires x in s
    ensures i < |s| && s[i] == x
    ensures forall j :: 0 <= j < i ==> s[j] != x
  {
    if s[0] == x then 0 else 1 + IndexOf(s[1..], x)
  }

  class CollectionState {
    const view: View
    ghost const judge: Judge
    var entries: map<Ref, Entry>
    var order: seq<Ref>
    var owners: map<string, Ref>
    var active: seq<Ref>

    ghost predicate Consistent()
      reads this
    {
      && Faithful(judge, view)
      && Recorded(judge, view.documents, entries, order)
      && Stacked(judge, view.documents, active, order)
      && Owned(owners)
    }

    constructor (view: View)
      ensures this.view == view && judge == JudgeOf(view) && Consistent() && active == [] && order == []
    {
      this.view := view;
      judge := JudgeOf(view);
      entries, order, owners, active := map[], [], map[], [];
    }

    /** `_CollectionState.visit`. */
    method Visit(ref: Ref) returns (failure: Option<Error>)
      requires Consistent()
      requires active == [] || Cites(judge)(active[|active| - 1], ref)
      modifies this
      decreases view.documents.Keys - Elements(active), 1
      ensures Consistent() && active == old(active)
      ensures Grows(judge, ref, old(order), order)
      ensures failure.None? ==> ref in order
      ensures failure.Some? ==> Blames(judge, ref, failure.value) && Traced(old(active) + [ref], failure.value)
    {
      if ref in active {
        var start := IndexOf(active, ref);
        CycleFound(judge, active, ref, start);
        return Some(Error(ReferenceCycle, ref, active[start..] + [ref]));
      }
      if ref in entries {
        assert ref in Elements(order);
        return None;
      }
      ChainIsPath(judge, active, ref);
      var inspected := Admit(ref);
      if inspected.Refuses? {
        return Some(Error(inspected.code, ref, active + [ref]));
      }
      assert ref !in Elements(order);
      failure := Descend(ref, inspected.references);
    }

    /** Visit an admitted document's references and record it once they all are. */
    method Descend(ref: Ref, references: seq<Ref>) returns (failure: Option<Error>)
      requires Consistent()
      requires active == [] || Cites(judge)(active[|active| - 1], ref)
      requires ref !in active && ref !in order && ref in view.documents && view.documents[ref].Found?
      requires judge(ref) == Accepts(references)
      modifies this
      decreases view.documents.Keys - Elements(active), 0
      ensures Consistent() && active == old(active)
      ensures Grows(judge, ref, old(order), order)
      ensures failure.None? ==> ref in order
      ensures failure.Some? ==> Blames(judge, ref, failure.value) && Traced(old(active) + [ref], failure.value)
    {
      ghost var stack, before := active, order;
      StackPush(judge, view.documents, active, order, ref);
      active := active + [ref];
      SameElements(Sort(RefLt, references), references);
      failure := VisitAll(ref, Sort(RefLt, references));
      StackPop(judge, view.documents, stack, before, order, ref);
      if failure.None? {
        assert active[|stack|] in Elements(active);
        assert ref !in Elements(order);
        var entry := Canonical(ref, view.documents[ref].bytes);
        RecordStep(judge, view.documents, entries, order, ref, entry);
        GrowByOne(judge, ref, before, order);
        entries := entries[ref := entry];
        order := order + [ref];
      }
      active := active[..|active| - 1];
      assert active == stack;
    }

    /** Everything between meeting a new reference and following its references. */
    method Admit(ref: Ref) returns (r: Inspection)
      requires Owned(owners) && Faithful(judge, view)
      modifies this`owners
      ensures Owned(owners)
      ensures r == judge(ref) && r != Refuses(ReferenceCycle)
      ensures r.Accepts? ==> ref in view.documents && view.documents[ref].Found?
    {
      assert judge(ref) == Inspect(view, ref);
      if Family(ref) !in FAMILIES { return Refuses(ReferenceFamilyMismatch); }
      var document := ReadView(view, ref);
      if document.NotFound? { return Refuses(DanglingReference); }
      if document.Rejected? { return Refuses(ReferencePathRejected); }
      if document.Failed? { return Refuses(ReadFailed); }
      var expected := PreservedPath(ref);
      if document.family != Family(ref) { return Refuses(ReferenceFamilyMismatch); }
      if document.preservedPath != expected { return Refuses(ReadViewContract); }
      if expected in owners && owners[expected] != ref {
        // PRESERVED_PATH_COLLISION: two references never share a deployment path.
        PreservedPathInjective(owners[expected], ref);
        assert false;
      }
      owners := owners[expected := ref];
      match view.validate(ref, document.bytes)
      case BadYaml => r := Refuses(InvalidDependencyYaml);
      case Refused(fault) => r := Refuses(FaultCode(fault));
      case Valid(references) => r := Accepts(references);
    }

    /** The loop over one document's references, in reference order, repeats included. */
    method VisitAll(ref: Ref, deps: seq<Ref>) returns (failure: Option<Error>)
      requires Consistent()
      requires active != [] && active[|active| - 1] == ref
      requires judge(ref).Accepts? && Elements(deps) == Elements(judge(ref).references)
      modifies this
      decreases view.documents.Keys - Elements(active), 2
      ensures Consistent() && active == old(active)
      ensures Grows(judge, ref, old(order), order)
      ensures failure.None? ==> forall d :: d in judge(ref).references ==> d in order
      ensures failure.Some? ==> Blames(judge, ref, failure.value) && Traced(old(active), failure.value)
    {
      var i := 0;
      while i < |deps|
        invariant 0 <= i <= |deps|
        invariant Consistent() && active == old(active)
        invariant Grows(judge, ref, old(order), order)
        invariant forall j :: 0 <= j < i ==> deps[j] in order
      {
        ghost var before := order;
        assert deps[i] in Elements(deps);
        failure := Visit(deps[i]);
        GrowsFurther(judge, ref, deps[i], old(order), before, order);
        if failure.Some? {
          ReachesStep(Cites(judge), ref, deps[i], failure.value.ref);
          return;
        }
        i := i + 1;
      }
      failure := None;
      forall d | d in judge(ref).references ensures d in order {
        assert d in Elements(deps);
      }
    }
  }

  // Whole collections

  /** One inventory line of the closure digest. */
  datatype Inventory = Inventory(ref: string, family: string, preservedPath: string, digest: Digest, size: nat)

  /** The SHA-256 of the canonical inventory text, named by the inventory. */
  datatype ClosureDigest = ClosureDigest(inventory: seq<Inventory>)

  datatype Graph = Graph(entries: seq<Entry>, digest: ClosureDigest, fileCount: nat, totalBytes: nat)

  function InventoryOf(e: Entry): Inventory {
    Inventory(Text(e.ref), e.family, e.preservedPath, e.digest, e.size)
  }

  function DigestOf(entries: seq<Entry>): (d: ClosureDigest)
    ensures |d.inventory| == |entries|
    ensures forall i :: 0 <= i < |entries| ==> d.inventory[i] == InventoryOf(entries[i])
  {
    ClosureDigest(seq(|entries|, i requires 0 <= i < |entries| => InventoryOf(entries[i])))
  }

  function TotalSize(entries: seq<Entry>): nat {
    if entries == [] then 0 else entries[0].size + TotalSize(entries[1..])
  }

  function GraphOf(entries: seq<Entry>): Graph {
    Graph(entries, DigestOf(entries), |entries|, TotalSize(entries))
  }

  predicate EntryLt(a: Entry, b: Entry) {
    RefLt(a.ref, b.ref)
  }

  /** `entries` are the documents at `refs`, in reference order, each as its canonical entry. */
  ghost predicate Captures(docs: map<Ref, Read>, refs: set<Ref>, entries: seq<Entry>) {
    && Increasing(EntryLt, entries)
    && (forall i :: 0 <= i < |entries| ==>
          entries[i].ref in refs && entries[i].ref in docs && docs[entries[i].ref].Found?
          && entries[i] == Canonical(entries[i].ref, docs[entries[i].ref].bytes))
    && (forall r :: r in refs ==> exists i :: 0 <= i < |entries| && entries[i].ref == r)
  }

  /** What a collection must return. */
  ghost predicate IsClosure(v: View, roots: set<Ref>, g: Graph) {
    exists reached: set<Ref> :: IsReachableSet(JudgeOf(v), roots, reached) && Captures(v.documents, reached, g.entries)
                                && g == GraphOf(g.entries)
  }

  ghost predicate IsReachableSet(judge: Judge, roots: set<Ref>, reached: set<Ref>) {
    forall b {:trigger Reachable(judge, roots, b)} :: b in reached <==> Reachable(judge, roots, b)
  }

  lemma {:induction false} EntryWeak()
    ensures StrictWeak(EntryLt)
  {
    RefTotal();
    TotalIsWeak(RefLt);
    forall x, y, z | EntryLt(x, z) ensures EntryLt(x, y) || EntryLt(y, z) {
      assert RefLt(x.ref, y.ref) || RefLt(y.ref, z.ref);
    }
  }

  /** One view and root set have one closure: entries, bytes, digest and counts. */
  lemma {:induction false} ClosureUnique(v: View, roots: set<Ref>, g: Graph, h: Graph)
    requires IsClosure(v, roots, g) && IsClosure(v, roots, h)
    ensures g == h
  {
    var r :| IsReachableSet(JudgeOf(v), roots, r) && Captures(v.documents, r, g.entries) && g == GraphOf(g.entries);
    var s :| IsReachableSet(JudgeOf(v), roots, s) && Captures(v.documents, s, h.entries) && h == GraphOf(h.entries);
    forall b ensures b in r <==> b in s {
      assert Reachable(JudgeOf(v), roots, b) <==> b in r;
    }
    CapturesUnique(v.documents, r, g.entries, h.entries);
  }

  lemma {:induction false} CapturesUnique(docs: map<Ref, Read>, refs: set<Ref>, a: seq<Entry>, b: seq<Entry>)
    requires Captures(docs, refs, a) && Captures(docs, refs, b)
    ensures a == b
  {
    CapturesSubset(docs, refs, a, b);
    CapturesSubset(docs, refs, b, a);
    EntryWeak();
    assert Elements(a) == Elements(b);
    IncreasingUnique(EntryLt, a, b);
  }

  lemma {:induction false} CapturesSubset(docs: map<Ref, Read>, refs: set<Ref>, a: seq<Entry>, b: seq<Entry>)
    requires Captures(docs, refs, a) && Captures(docs, refs, b)
    ensures forall e :: e in a ==> e in b
  {
    forall e | e in a ensures e in b {
      var i :| 0 <= i < |a| && a[i] == e;
      var j :| 0 <= j < |b| && b[j].ref == e.ref;
      assert b[j] == e;
    }
  }

  /** A finished search has recorded exactly what is reachable, and all of it is in order. */
  lemma {:induction false} RecordedIsReachable(judge: Judge, docs: map<Ref, Read>, roots: set<Ref>,
                                               entries: map<Ref, Entry>, order: seq<Ref>)
    requires Recorded(judge, docs, entries, order)
    requires roots <= Elements(order)
    requires forall k :: k in order ==> Reachable(judge, roots, k)
    ensures Collectable(judge, roots)
    ensures IsReachableSet(judge, roots, Elements(order))
  {
    OrderedMeansClosed(Cites(judge), order);
    forall b | Reachable(judge, roots, b)
      ensures b in order && judge(b).Accepts? && !OnCycle(Cites(judge), b)
    {
      var a :| a in roots && Reaches(Cites(judge), a, b);
      ReachesInside(Cites(judge), Elements(order), a, b);
      assert Carries(judge, docs, b, entries[b]);
      OrderedMeansAcyclic(Cites(judge), order, b);
    }
  }

  lemma {:induction false} BlamedIsNotCollectable(judge: Judge, roots: set<Ref>, root: Ref, e: Error)
    requires root in roots && Blames(judge, root, e)
    ensures !Collectable(judge, roots)
  {
    assert Reachable(judge, roots, e.ref);
    if e.code == ReferenceCycle { assert Connects(Cites(judge), e.chain, e.ref, e.ref); }
  }

  function Values(entries: map<Ref, Entry>, order: seq<Ref>): (values: seq<Entry>)
    requires Elements(order) <= entries.Keys
    ensures |values| == |order|
    ensures forall i :: 0 <= i < |order| ==> order[i] in entries && values[i] == entries[order[i]]
  {
    seq(|order|, i requires 0 <= i < |order| => assert order[i] in Elements(order); entries[order[i]])
  }

  lemma {:induction false} RefsSeparate(values: seq<Entry>)
    requires forall x, y :: x in values && y in values && x != y ==> x.ref != y.ref
    ensures Separates(EntryLt, values)
  {
    RefTotal();
    forall x, y | x in values && y in values && x != y ensures EntryLt(x, y) || EntryLt(y, x) {
      assert RefLt(x.ref, y.ref) || RefLt(y.ref, x.ref);
    }
  }

  lemma {:induction false} SortByRef(values: seq<Entry>)
    requires Distinct(values)
    requires forall x, y :: x in values && y in values && x != y ==> x.ref != y.ref
    ensures Increasing(EntryLt, Sort(EntryLt, values))
    ensures Elements(Sort(EntryLt, values)) == Elements(values)
  {
    EntryWeak();
    RefsSeparate(values);
    SortIncreasing(EntryLt, values);
  }

  lemma {:induction false} Rearranged(values: seq<Entry>, sorted: seq<Entry>, refs: seq<Ref>)
    requires Elements(sorted) == Elements(values)
    requires |values| == |refs| && forall i :: 0 <= i < |values| ==> values[i].ref == refs[i]
    ensures forall i :: 0 <= i < |sorted| ==> sorted[i] in values
    ensures forall r :: r in Elements(refs) ==> exists i :: 0 <= i < |sorted| && sorted[i].ref == r
  {
    forall i | 0 <= i < |sorted| ensures sorted[i] in values { assert sorted[i] in Elements(sorted); }
    forall r | r in Elements(refs) ensures exists i :: 0 <= i < |sorted| && sorted[i].ref == r {
      var k :| 0 <= k < |refs| && refs[k] == r;
      assert values[k] in Elements(sorted);
    }
  }

  /** Sorting the recorded entries by reference gives the canonical arrangement. */
  lemma {:induction false} SortedEntries(judge: Judge, docs: map<Ref, Read>, entries: map<Ref, Entry>, order: seq<Ref>)
    requires Recorded(judge, docs, entries, order)
    ensures Captures(docs, Elements(order), Sort(EntryLt, Values(entries, order)))
  {
    var values := Values(entries, order);
    ValuesAre(judge, docs, entries, order, values);
    SortByRef(values);
    Rearranged(values, Sort(EntryLt, values), order);
  }

  lemma {:induction false} ValuesAre(judge: Judge, docs: map<Ref, Read>, entries: map<Ref, Entry>, order: seq<Ref>,
                                     values: seq<Entry>)
    requires Recorded(judge, docs, entries, order) && values == Values(entries, order)
    ensures forall i :: 0 <= i < |values| ==> values[i].ref == order[i]
    ensures forall e :: e in values ==> e.ref in order && e.ref in docs && docs[e.ref].Found? && e == Canonical(e.ref, docs[e.ref].bytes)
    ensures Distinct(values) && forall x, y :: x in values && y in values && x != y ==> x.ref != y.ref
  {
    forall i | 0 <= i < |values| ensures values[i].ref == order[i] && Carries(judge, docs, order[i], values[i]) {
      assert order[i] in Elements(order);
    }
  }

  /** Visit every root in turn. */
  method VisitRoots(state: CollectionState, roots: seq<Ref>) returns (failure: Option<Error>)
    requires state.Consistent() && state.active == [] && state.order == []
    modifies state
    ensures state.Consistent()
    ensures failure.None? ==> Elements(roots) <= Elements(state.order)
    ensures failure.None? ==> forall k :: k in state.order ==> Reachable(state.judge, Elements(roots), k)
    ensures failure.Some? ==> exists root :: root in Elements(roots) && Blames(state.judge, root, failure.value) && Traced([root], failure.value)
  {
    var i := 0;
    while i < |roots|
      invariant 0 <= i <= |roots|
      invariant state.Consistent() && state.active == []
      invariant forall j :: 0 <= j < i ==> roots[j] in state.order
      invariant forall k :: k in state.order ==> Reachable(state.judge, Elements(roots), k)
    {
      assert roots[i] in Elements(roots);
      ghost var before := state.order;
      failure := state.Visit(roots[i]);
      if failure.Some? {
        assert [] + [roots[i]] == [roots[i]];
        return;
      }
      assert state.order == before + state.order[|before|..];
      i := i + 1;
    }
    failure := None;
  }

  /** `CatalogClosureCollector.collect_references`: exact acceptance, one answer per root set, honest refusals. */
  method CollectReferences(roots: seq<Ref>, view: View) returns (r: Result<Graph, Error>)
    ensures r.Ok? <==> Collectable(JudgeOf(view), Elements(roots))
    ensures r.Ok? ==> IsClosure(view, Elements(roots), r.value)
    ensures r.Err? ==> exists root :: root in Elements(roots) && Blames(JudgeOf(view), root, r.error) && Traced([root], r.error)
  {
    var state := new CollectionState(view);
    ghost var judge := state.judge;
    SameElements(Sort(RefLt, roots), roots);
    var failure := VisitRoots(state, Sort(RefLt, roots));
    if failure.Some? {
      ghost var root :| root in Elements(roots) && Blames(judge, root, failure.value) && Traced([root], failure.value);
      BlamedIsNotCollectable(judge, Elements(roots), root, failure.value);
      return Err(failure.value);
    }
    RecordedIsReachable(judge, view.documents, Elements(roots), state.entries, state.order);
    SortedEntries(judge, view.documents, state.entries, state.order);
    r := Ok(GraphOf(Sort(EntryLt, Values(state.entries, state.order))));
  }

  /** Why the tokens of a graph were refused: one that is no reference, or what collecting them found. */
  datatype Failure = Unparsed(token: string) | Blamed(error: Error)

  /** `collect_references` from tokens: they are all parsed before the first is visited. */
  method CollectTokens(tokens: seq<string>, view: View) returns (r: Result<Graph, Failure>, ghost roots: seq<Ref>)
    ensures r.Err? && r.error.Unparsed? <==> exists i :: 0 <= i < |tokens| && !Parse(tokens[i], Some(FAMILIES)).Parsed?
    ensures r.Err? && r.error.Unparsed? ==>
              exists i: nat :: IsFirstBad(tokens, i) && tokens[i] == r.error.token
    ensures !(r.Err? && r.error.Unparsed?) ==>
              |roots| == |tokens| && forall i :: 0 <= i < |tokens| ==> Parse(tokens[i], Some(FAMILIES)) == Parsed(roots[i])
    ensures r.Ok? ==> Collectable(JudgeOf(view), Elements(roots)) && IsClosure(view, Elements(roots), r.value)
    ensures r.Err? && r.error.Blamed? ==> !Collectable(JudgeOf(view), Elements(roots))
    ensures r.Err? && r.error.Blamed? ==> Faults(JudgeOf(view), Elements(roots), r.error.error.code)
  {
    var parsed: seq<Ref> := [];
    roots := [];
    for i := 0 to |tokens|
      invariant |parsed| == i && forall k :: 0 <= k < i ==> Parse(tokens[k], Some(FAMILIES)) == Parsed(parsed[k])
    {
      var one := Parse(tokens[i], Some(FAMILIES));
      if !one.Parsed? {
        assert IsFirstBad(tokens, i);
        return Err(Unparsed(tokens[i])), [];
      }
      parsed := parsed + [one.ref];
    }
    roots := parsed;
    var graph := CollectReferences(parsed, view);
    r := if graph.Ok? then Ok(graph.value) else Err(Blamed(graph.error));
    if graph.Err? { assert Faults(JudgeOf(view), Elements(roots), graph.error.code); }
  }

  ghost predicate IsFirstBad(tokens: seq<string>, i: nat) {
    i < |tokens| && !Parse(tokens[i], Some(FAMILIES)).Parsed? && forall k :: 0 <= k < i ==> Parse(tokens[k], Some(FAMILIES)).Parsed?
  }

  /** A code the roots call for: something they reach is at fault in that way, and the way there is known. */
  ghost predicate Faults(judge: Judge, roots: set<Ref>, code: Code) {
    exists root, e: Error :: root in roots && Blames(judge, root, e) && Traced([root], e) && e.code == code
  }

  /** A session root: refused, or the references its model contains. */
  datatype Root = RootYaml | RootRefused(fault: Fault) | RootValid(references: seq<Ref>)

  datatype Closure = Closure(root: Bytes, graph: Graph, rootDigest: Digest)

  function RootCode(f: Fault): Code {
    if f == BadSchema then InvalidSessionRoot else FaultCode(f)
  }

  /** `CatalogClosureCollector.collect` for root bytes already validated to `model`. */
  method Collect(root: Bytes, model: Root, view: View) returns (r: Result<Closure, Code>)
    ensures r.Ok? <==> model.RootValid? && Collectable(JudgeOf(view), Elements(model.references))
    ensures r.Ok? ==> r.value.root == root && r.value.rootDigest == Sha256(Plain, root)
    ensures r.Ok? ==> IsClosure(view, Elements(model.references), r.value.graph)
    ensures model.RootYaml? ==> r == Err(InvalidRootYaml)
    ensures model.RootRefused? ==> r == Err(RootCode(model.fault))
    ensures model.RootValid? && r.Err? ==> Faults(JudgeOf(view), Elements(model.references), r.error)
  {
    match model
    case RootYaml => r := Err(InvalidRootYaml);
    case RootRefused(fault) => r := Err(RootCode(fault));
    case RootValid(references) =>
      var graph := CollectReferences(references, view);
      match graph
      case Err(e) => r := Err(e.code);
      case Ok(g) => r := Ok(Closure(root, g, Sha256(Plain, root)));
  }

  // Re-reading a captured closure

  /** `ClosureReadView.of`: a view over exactly the entries a closure captured. */
  function CapturedView(entries: seq<Entry>, validate: (Ref, Bytes) -> Model): View {
    View(CapturedReads(entries), validate)
  }

  /** A later entry for the same reference replaces an earlier one. */
  function CapturedReads(entries: seq<Entry>): (docs: map<Ref, Read>)
    ensures forall r :: r in docs <==> exists i :: 0 <= i < |entries| && entries[i].ref == r
  {
    if entries == [] then map[]
    else
      var last := entries[|entries| - 1];
      CapturedReads(entries[..|entries| - 1])[last.ref := Found(last.family, last.preservedPath, last.bytes)]
  }

  lemma {:induction false} CapturedAt(entries: seq<Entry>, i: nat)
    requires i < |entries|
    requires forall j, k :: 0 <= j < k < |entries| ==> entries[j].ref != entries[k].ref
    ensures entries[i].ref in CapturedReads(entries)
    ensures CapturedReads(entries)[entries[i].ref] == Found(entries[i].family, entries[i].preservedPath, entries[i].bytes)
  {
    if i < |entries| - 1 { CapturedAt(entries[..|entries| - 1], i); }
  }

  lemma {:induction false} SameInspection(v: View, w: View, r: Ref)
    requires w.validate == v.validate && Inspect(v, r).Accepts?
    requires r in v.documents && r in w.documents && v.documents[r].Found?
    requires w.documents[r] == Found(Family(r), PreservedPath(r), v.documents[r].bytes)
    ensures Inspect(w, r) == Inspect(v, r)
  {}

  lemma {:induction false} ReachedIsClosed(judge: Judge, roots: set<Ref>, reached: set<Ref>)
    requires IsReachableSet(judge, roots, reached)
    ensures roots <= reached && Closed(Cites(judge), reached)
  {
    forall a, b | a in reached && Cites(judge)(a, b) ensures b in reached {
      assert Reachable(judge, roots, a);
      var root :| root in roots && Reaches(Cites(judge), root, a);
      ReachesEdge(Cites(judge), root, a, b);
      assert Reachable(judge, roots, b);
    }
    forall root | root in roots ensures root in reached {
      ReachesSelf(Cites(judge), root);
      assert Reachable(judge, roots, root);
    }
  }

  lemma {:induction false} SameReached(v: Judge, w: Judge, roots: set<Ref>, reached: set<Ref>)
    requires IsReachableSet(v, roots, reached) && roots <= reached && Closed(Cites(v), reached)
    requires forall a, b :: a in reached ==> Cites(v)(a, b) == Cites(w)(a, b)
    ensures IsReachableSet(w, roots, reached)
  {
    forall b ensures b in reached <==> Reachable(w, roots, b) {
      if b in reached {
        assert Reachable(v, roots, b);
        var a :| a in roots && Reaches(Cites(v), a, b);
        SameReach(Cites(v), Cites(w), reached, a, b);
      }
      if Reachable(w, roots, b) {
        var a :| a in roots && Reaches(Cites(w), a, b);
        SameReach(Cites(v), Cites(w), reached, a, b);
        assert Reachable(v, roots, b);
      }
    }
  }

  lemma {:induction false} SameVerdict(v: Judge, w: Judge, roots: set<Ref>, reached: set<Ref>, b: Ref)
    requires IsReachableSet(v, roots, reached) && Collectable(v, roots) && Closed(Cites(v), reached) && b in reached
    requires forall r :: r in reached ==> w(r) == v(r)
    ensures w(b).Accepts? && !OnCycle(Cites(w), b)
  {
    SameCycles(Cites(v), Cites(w), reached, b);
    assert Reachable(v, roots, b);
  }

  /** Judges that agree on a reachable set reach the same documents. */
  lemma {:induction false} SameCollection(v: Judge, w: Judge, roots: set<Ref>, reached: set<Ref>)
    requires IsReachableSet(v, roots, reached) && Collectable(v, roots)
    requires forall r :: r in reached ==> w(r) == v(r)
    ensures IsReachableSet(w, roots, reached) && Collectable(w, roots)
  {
    ReachedIsClosed(v, roots, reached);
    assert IsReachableSet(w, roots, reached) by { SameReached(v, w, roots, reached); }
    forall b | Reachable(w, roots, b) ensures w(b).Accepts? && !OnCycle(Cites(w), b) {
      SameVerdict(v, w, roots, reached, b);
    }
  }

  /** Collecting again over the captured bytes succeeds with the same entries, bytes and digest. */
  lemma {:induction false} Recollection(v: View, roots: set<Ref>, g: Graph)
    requires Collectable(JudgeOf(v), roots) && IsClosure(v, roots, g)
    ensures Collectable(JudgeOf(CapturedView(g.entries, v.validate)), roots)
    ensures IsClosure(CapturedView(g.entries, v.validate), roots, g)
  {
    var w := CapturedView(g.entries, v.validate);
    var reached :| IsReachableSet(JudgeOf(v), roots, reached) && Captures(v.documents, reached, g.entries);
    CapturedAgrees(v, roots, reached, g.entries);
    SameCollection(JudgeOf(v), JudgeOf(w), roots, reached);
    assert Captures(w.documents, reached, g.entries);
  }

  lemma {:induction false} CapturedAgrees(v: View, roots: set<Ref>, reached: set<Ref>, entries: seq<Entry>)
    requires Collectable(JudgeOf(v), roots)
    requires IsReachableSet(JudgeOf(v), roots, reached) && Captures(v.documents, reached, entries)
    ensures var w := CapturedView(entries, v.validate);
            Captures(w.documents, reached, entries) && forall r :: r in reached ==> JudgeOf(w)(r) == JudgeOf(v)(r)
  {
    var w := CapturedView(entries, v.validate);
    EntryWeak();
    forall i | 0 <= i < |entries| ensures
      entries[i].ref in w.documents && w.documents[entries[i].ref] == Found(entries[i].family, entries[i].preservedPath, entries[i].bytes)
    {
      CapturedAt(entries, i);
    }
    forall r | r in reached ensures JudgeOf(w)(r) == JudgeOf(v)(r) {
      var i :| 0 <= i < |entries| && entries[i].ref == r;
      assert JudgeOf(v)(r).Accepts?;
      SameInspection(v, w, r);
    }
  }
}
