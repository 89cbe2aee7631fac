/** Bounded uploads of a session root and the catalog files it needs. */
module CatalogUploads {
  import opened Ordering
  import opened Wrappers
  import opened CatalogRefs
  import opened Utf8
  import opened GenerationStream
  import opened CatalogClosure

  datatype Limits = Limits(maxRoot: nat, maxFile: nat, maxCount: nat, maxAggregate: nat)

  datatype Selection = Selection(uploadId: string, digest: ClosureDigest, fileCount: nat)

  datatype Upload = Upload(selection: Selection, root: Bytes, files: seq<Entry>)

  datatype UploadError = LimitExceeded | InvalidUpload | ClosureMismatch | EmptyRoot

  /** The session and document models, as functions of their bytes. */
  datatype Models = Models(root: Bytes -> Root, document: (Ref, Bytes) -> Model)

  // ---- bounds ----

  ghost predicate WithinBounds(root: Bytes, files: seq<Entry>, limits: Limits) {
    && |root| <= limits.maxRoot && |files| <= limits.maxCount && |root| + TotalSize(files) <= limits.maxAggregate
    && forall i :: 0 <= i < |files| ==> files[i].size == |files[i].bytes| && files[i].size <= limits.maxFile
  }

  method SumSizes(files: seq<Entry>) returns (total: nat)
    ensures total == TotalSize(files)
  {
    total := 0;
    for i := |files| downto 0
      invariant total == TotalSize(files[i..])
    {
      assert files[i..][1..] == files[i + 1..];
      total := files[i].size + total;
    }
    assert files[0..] == files;
  }

  /** `_check_bounds`. */
  method CheckBounds(root: Bytes, files: seq<Entry>, limits: Limits) returns (r: Option<UploadError>)
    ensures r.None? <==> WithinBounds(root, files, limits)
    ensures r.Some? ==> r.value == LimitExceeded || r.value == InvalidUpload
    ensures r == Some(InvalidUpload) ==> exists i :: 0 <= i < |files| && files[i].size != |files[i].bytes|
  {
    if |root| > limits.maxRoot || |files| > limits.maxCount { return Some(LimitExceeded); }
    var total := SumSizes(files);
    if |root| + total > limits.maxAggregate { return Some(LimitExceeded); }
    for i := 0 to |files|
      invariant forall k :: 0 <= k < i ==> files[k].size == |files[k].bytes| && files[k].size <= limits.maxFile
    {
      if files[i].size != |files[i].bytes| { return Some(InvalidUpload); }
      if files[i].size > limits.maxFile { return Some(LimitExceeded); }
    }
    r := None;
  }

  // ---- verification ----

  function RefsOf(files: seq<Entry>): set<Ref> {
    set i | 0 <= i < |files| :: files[i].ref
  }

  ghost predicate DistinctRefs(files: seq<Entry>) {
    forall i, j :: 0 <= i < j < |files| ==> files[i].ref != files[j].ref
  }

  /** Sizes and document digests are those of the bytes. */
  ghost predicate Measured(files: seq<Entry>) {
    forall i :: 0 <= i < |files| ==> files[i].size == |files[i].bytes| && files[i].digest == Sha256(Plain, files[i].bytes)
  }

  ghost function JudgeFiles(files: seq<Entry>, models: Models): Judge {
    JudgeOf(CapturedView(files, models.document))
  }

  /** The files are one duplicate-free, digest-correct document per reference the root reaches. */
  ghost predicate IsRootClosure(root: Bytes, files: seq<Entry>, models: Models) {
    && DistinctRefs(files) && Measured(files)
    && models.root(root).RootValid?
    && Collectable(JudgeFiles(files, models), Elements(models.root(root).references))
    && IsReachableSet(JudgeFiles(files, models), Elements(models.root(root).references), RefsOf(files))
  }

  /** What verification accepts. */
  ghost predicate Acceptable(u: Upload, limits: Limits, models: Models) {
    && WithinBounds(u.root, u.files, limits)
    && IsRootClosure(u.root, u.files, models)
    && u.selection.digest == DigestOf(Sort(EntryLt, u.files))
    && u.selection.fileCount == |u.files|
  }

  /** The loop over the files: the references so far, refused at a repeat or a wrong digest. */
  method CheckFiles(files: seq<Entry>) returns (r: Option<UploadError>)
    ensures r.None? <==> DistinctRefs(files) && forall i :: 0 <= i < |files| ==> files[i].digest == Sha256(Plain, files[i].bytes)
    ensures r.Some? ==> r.value == ClosureMismatch || r.value == InvalidUpload
  {
    var seen: set<Ref> := {};
    for i := 0 to |files|
      invariant forall k :: 0 <= k < i ==> files[k].ref in seen && files[k].digest == Sha256(Plain, files[k].bytes)
      invariant forall x :: x in seen ==> exists k :: 0 <= k < i && files[k].ref == x
      invariant forall j, k :: 0 <= j < k < i ==> files[j].ref != files[k].ref
    {
      if files[i].ref in seen { return Some(ClosureMismatch); }
      if files[i].digest != Sha256(Plain, files[i].bytes) { return Some(InvalidUpload); }
      seen := seen + {files[i].ref};
    }
    r := None;
  }

  /** A document the collector accepted is carried as its canonical entry. */
  lemma {:induction false} AcceptedIsCanonical(files: seq<Entry>, models: Models, i: nat)
    requires i < |files| && DistinctRefs(files) && Measured(files)
    requires Inspect(CapturedView(files, models.document), files[i].ref).Accepts?
    ensures var docs := CapturedReads(files); var e := files[i];
            e.ref in docs && docs[e.ref] == Found(e.family, e.preservedPath, e.bytes) && e == Canonical(e.ref, e.bytes)
  {
    CapturedAt(files, i);
  }

  lemma {:induction false} FilesSeparate(files: seq<Entry>)
    requires DistinctRefs(files)
    ensures Increasing(EntryLt, Sort(EntryLt, files)) && Elements(Sort(EntryLt, files)) == Elements(files)
  {
    forall x, y | x in files && y in files && x != y ensures x.ref != y.ref {
      var i :| 0 <= i < |files| && files[i] == x;
      var j :| 0 <= j < |files| && files[j] == y;
      assert i != j;
    }
    SortByRef(files);
  }

  /** When the reached references are those of the files, sorting the files gives the closure. */
  lemma {:induction false} FilesAreCaptured(files: seq<Entry>, models: Models, roots: set<Ref>)
    requires DistinctRefs(files) && Measured(files)
    requires Collectable(JudgeFiles(files, models), roots) && IsReachableSet(JudgeFiles(files, models), roots, RefsOf(files))
    ensures Captures(CapturedReads(files), RefsOf(files), Sort(EntryLt, files))
  {
    FilesSeparate(files);
    forall i | 0 <= i < |files| ensures Carried(CapturedReads(files), files[i]) { FileIsCarried(files, models, roots, i); }
    SortedCaptures(CapturedReads(files), files, Sort(EntryLt, files));
  }

  /** The documents hold the entry's bytes, and it is their canonical entry. */
  ghost predicate Carried(docs: map<Ref, Read>, e: Entry) {
    e.ref in docs && docs[e.ref].Found? && e == Canonical(e.ref, docs[e.ref].bytes)
  }

  lemma {:induction false} FileIsCarried(files: seq<Entry>, models: Models, roots: set<Ref>, i: nat)
    requires DistinctRefs(files) && Measured(files) && i < |files|
    requires Collectable(JudgeFiles(files, models), roots) && IsReachableSet(JudgeFiles(files, models), roots, RefsOf(files))
    ensures Carried(CapturedReads(files), files[i])
  {
    assert files[i].ref in RefsOf(files);
    assert Reachable(JudgeFiles(files, models), roots, files[i].ref);
    AcceptedIsCanonical(files, models, i);
  }

  lemma {:induction false} SortedCaptures(docs: map<Ref, Read>, files: seq<Entry>, sorted: seq<Entry>)
    requires Increasing(EntryLt, sorted) && Elements(sorted) == Elements(files)
    requires forall i :: 0 <= i < |files| ==> Carried(docs, files[i])
    ensures Captures(docs, RefsOf(files), sorted)
  {
    forall k | 0 <= k < |sorted| ensures sorted[k] in files { assert sorted[k] in Elements(sorted); }
    forall r | r in RefsOf(files) ensures exists k :: 0 <= k < |sorted| && sorted[k].ref == r {
      var i :| 0 <= i < |files| && files[i].ref == r;
      assert files[i] in Elements(sorted);
    }
  }

  /** The references of a closure are the reachable ones. */
  lemma {:induction false} ClosureRefs(v: View, roots: set<Ref>, g: Graph)
    requires IsClosure(v, roots, g)
    ensures IsReachableSet(JudgeOf(v), roots, RefsOf(g.entries))
    ensures Captures(v.documents, RefsOf(g.entries), g.entries) && g == GraphOf(g.entries)
  {
    var reached :| IsReachableSet(JudgeOf(v), roots, reached) && Captures(v.documents, reached, g.entries) && g == GraphOf(g.entries);
    assert reached == RefsOf(g.entries);
  }

  lemma {:induction false} ReachableSetUnique(judge: Judge, roots: set<Ref>, a: set<Ref>, b: set<Ref>)
    requires IsReachableSet(judge, roots, a) && IsReachableSet(judge, roots, b)
    ensures a == b
  {
    forall x ensures x in a <==> x in b { assert Reachable(judge, roots, x) <==> x in a; }
  }

  /** Collecting the files and comparing references decides whether they are the closure. */
  lemma {:induction false} CollectionDecides(files: seq<Entry>, models: Models, roots: set<Ref>, g: Graph)
    requires DistinctRefs(files) && Measured(files)
    requires Collectable(JudgeFiles(files, models), roots) && IsClosure(CapturedView(files, models.document), roots, g)
    ensures RefsOf(g.entries) == RefsOf(files) <==> IsReachableSet(JudgeFiles(files, models), roots, RefsOf(files))
    ensures RefsOf(g.entries) == RefsOf(files) ==> g == GraphOf(Sort(EntryLt, files))
  {
    var v := CapturedView(files, models.document);
    ClosureRefs(v, roots, g);
    if IsReachableSet(JudgeFiles(files, models), roots, RefsOf(files)) {
      ReachableSetUnique(JudgeOf(v), roots, RefsOf(g.entries), RefsOf(files));
      FilesAreCaptured(files, models, roots);
      CapturesUnique(v.documents, RefsOf(files), g.entries, Sort(EntryLt, files));
    }
  }

  /** `verify_catalog_upload`: accepts exactly the acceptable uploads. */
  method Verify(u: Upload, limits: Limits, models: Models) returns (r: Option<UploadError>)
    ensures r.None? <==> Acceptable(u, limits, models)
  {
    var bounds := CheckBounds(u.root, u.files, limits);
    if bounds.Some? { return bounds; }
    var files := CheckFiles(u.files);
    if files.Some? { return files; }
    assert Measured(u.files);
    var model := models.root(u.root);
    var closure := Collect(u.root, model, CapturedView(u.files, models.document));
    if closure.Err? { return Some(ClosureMismatch); }
    var g := closure.value.graph;
    CollectionDecides(u.files, models, Elements(model.references), g);
    if RefsOf(g.entries) != RefsOf(u.files) { return Some(ClosureMismatch); }
    if g.digest != u.selection.digest || |g.entries| != u.selection.fileCount { return Some(ClosureMismatch); }
    r := None;
  }

  /** What a session preparation hands over: the root and its collected closure. */
  datatype Prepared = Prepared(root: Bytes, files: seq<Entry>, digest: ClosureDigest)

  /** `encode_catalog_upload` under a given id. */
  method EncodeUpload(p: Prepared, uploadId: string, limits: Limits, models: Models) returns (r: Result<Upload, UploadError>)
    ensures var u := Upload(Selection(uploadId, p.digest, |p.files|), p.root, p.files);
            if p.root != [] && p.digest == DigestOf(p.files) && Acceptable(u, limits, models) then r == Ok(u) else r.Err?
  {
    var bounds := CheckBounds(p.root, p.files, limits);
    if bounds.Some? { return Err(bounds.value); }
    if DigestOf(p.files) != p.digest { return Err(ClosureMismatch); }
    if p.root == [] { return Err(EmptyRoot); }
    var u := Upload(Selection(uploadId, p.digest, |p.files|), p.root, p.files);
    var refused := Verify(u, limits, models);
    r := if refused.Some? then Err(refused.value) else Ok(u);
  }

  /** A closure collected from any view is accepted, within the limits, from its own bytes alone. */
  lemma {:induction false} CollectedIsAcceptable(v: View, root: Bytes, g: Graph, uploadId: string, limits: Limits, models: Models)
    requires v.validate == models.document && models.root(root).RootValid?
    requires var roots := Elements(models.root(root).references); Collectable(JudgeOf(v), roots) && IsClosure(v, roots, g)
    requires WithinBounds(root, g.entries, limits)
    ensures Acceptable(Upload(Selection(uploadId, g.digest, |g.entries|), root, g.entries), limits, models)
  {
    var roots := Elements(models.root(root).references);
    Recollection(v, roots, g);
    ClosureRefs(CapturedView(g.entries, models.document), roots, g);
    EntriesDistinct(g.entries);
    CollectionDecides(g.entries, models, roots, g);
  }

  lemma {:induction false} EntriesDistinct(entries: seq<Entry>)
    requires Increasing(EntryLt, entries)
    ensures DistinctRefs(entries)
  {
    RefTotal();
    forall i, j | 0 <= i < j < |entries| ensures entries[i].ref != entries[j].ref { assert EntryLt(entries[i], entries[j]); }
  }
}
