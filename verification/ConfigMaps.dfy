/** The ConfigMap codec of catalog uploads: one ConfigMap per file, decoded back from any listing order. */
module ConfigMaps {
  import opened Ordering
  import opened Wrappers
  import opened CatalogRefs
  import opened Utf8
  import opened CatalogClosure
  import opened CatalogUploads

  const LABEL := "nodalarc.io/catalog-upload"
  const REF_ANNOTATION := "nodalarc.io/catalog-ref"
  const DOCUMENT_KEY := "document.yaml"
  const NAME_LIMIT := 63
  const ORDER_WIDTH := 6

  /** A ConfigMap as the API server holds it; an absent field is None or empty. */
  datatype ConfigMap = ConfigMap(
    name: string, namespace: string, uid: string, apiVersion: Option<string>, kind: Option<string>,
    immutable: bool, binaryData: map<string, string>, owners: seq<string>,
    labels: map<string, string>, annotations: map<string, string>, data: map<string, string>)

  datatype Resource = Resource(name: string, uid: string, entry: Entry)

  datatype CodecError = InvalidConfigMap | NotUtf8 | NoRoot

  // ---- names ----

  function Digit(d: nat): (c: char)
    requires d < 10
    ensures DigitValue(c) == d && c != '-'
  {
    (('0' as int) + d) as char
  }

  /** Decimal digits, at least `width` of them. */
  function Decimal(n: nat, width: nat): string
    decreases n, width
  {
    if n == 0 && width == 0 then ""
    else Decimal(n / 10, if width == 0 then 0 else width - 1) + [Digit(n % 10)]
  }

  function DigitValue(c: char): nat {
    if '0' <= c <= '9' then (c as int) - ('0' as int) else 0
  }

  function ValueOf(digits: string): nat {
    if digits == "" then 0 else 10 * ValueOf(digits[..|digits| - 1]) + DigitValue(digits[|digits| - 1])
  }

  lemma {:induction false} DecimalValue(n: nat, width: nat)
    ensures ValueOf(Decimal(n, width)) == n && '-' !in Decimal(n, width)
    decreases n, width
  {
    if n > 0 || width > 0 {
      var less := if width == 0 then 0 else width - 1;
      DecimalValue(n / 10, less);
      LastDigit(Decimal(n / 10, less), Digit(n % 10));
    }
  }

  lemma {:induction false} LastDigit(rest: string, c: char)
    ensures ValueOf(rest + [c]) == 10 * ValueOf(rest) + DigitValue(c)
  {
    assert (rest + [c])[..|rest|] == rest;
  }

  /** Python's `s[:n]`. */
  function Take(s: string, n: int): string {
    if n >= |s| then s else if n >= 0 then s[..n] else if |s| + n > 0 then s[..|s| + n] else ""
  }

  function StripDashes(s: string): (r: string)
    ensures r <= s && (r != "" ==> r[|r| - 1] != '-')
  {
    if s != "" && s[|s| - 1] == '-' then StripDashes(s[..|s| - 1]) else s
  }

  /** `catalog_upload_config_map_name`. */
  function NameOf(uploadId: string, order: nat): string {
    var suffix := "-" + Decimal(order, ORDER_WIDTH);
    StripDashes(Take(uploadId, NAME_LIMIT - |suffix|)) + suffix
  }

  /** Text cut at a later dash has one in its tail. */
  lemma {:induction false} DashInTail(a: string, d: string, b: string, e: string)
    requires a + ("-" + d) == b + ("-" + e)
    ensures |a| < |b| ==> '-' in d
    ensures |a| == |b| ==> d == e
  {
    var s, t := a + ("-" + d), b + ("-" + e);
    if |a| < |b| {
      assert d[|b| - |a| - 1] == s[|b|] == t[|b|] == '-';
    } else if |a| == |b| {
      assert d == s[|a| + 1..] && e == t[|b| + 1..];
    }
  }

  lemma {:induction false} NameEnds(uploadId: string, order: nat) returns (prefix: string)
    ensures NameOf(uploadId, order) == prefix + ("-" + Decimal(order, ORDER_WIDTH))
    ensures |prefix| + 1 + |Decimal(order, ORDER_WIDTH)| <= NAME_LIMIT || |Decimal(order, ORDER_WIDTH)| >= NAME_LIMIT
  {
    prefix := StripDashes(Take(uploadId, NAME_LIMIT - |"-" + Decimal(order, ORDER_WIDTH)|));
  }

  /** The files of one upload have different ConfigMap names. */
  lemma {:induction false} NamesDiffer(uploadId: string, i: nat, j: nat)
    requires NameOf(uploadId, i) == NameOf(uploadId, j)
    ensures i == j
  {
    var d, e := Decimal(i, ORDER_WIDTH), Decimal(j, ORDER_WIDTH);
    var a := NameEnds(uploadId, i);
    var b := NameEnds(uploadId, j);
    DashInTail(a, d, b, e);
    DashInTail(b, e, a, d);
    DecimalValue(i, ORDER_WIDTH);
    DecimalValue(j, ORDER_WIDTH);
  }

  /** A name fits the Kubernetes limit whenever its number does. */
  lemma {:induction false} NameFits(uploadId: string, order: nat)
    requires |Decimal(order, ORDER_WIDTH)| < NAME_LIMIT
    ensures 0 < |NameOf(uploadId, order)| <= NAME_LIMIT
  {
    var prefix := NameEnds(uploadId, order);
  }

  // ---- one ConfigMap ----

  /** `encode_catalog_upload_config_map`: refused exactly when the document is not UTF-8. */
  function EncodeMap(namespace: string, uploadId: string, order: nat, e: Entry): Result<ConfigMap, CodecError> {
    match Decode(e.bytes)
    case None => Err(NotUtf8)
    case Some(document) =>
      Ok(ConfigMap(NameOf(uploadId, order), namespace, "", Some("v1"), Some("ConfigMap"), false, map[], [],
                   map[LABEL := uploadId], map[REF_ANNOTATION := Text(e.ref)], map[DOCUMENT_KEY := document]))
  }

  /** What the API server stores: the same object with a uid of its own. */
  function Persist(m: ConfigMap, uid: string): ConfigMap {
    m.(uid := uid)
  }

  /** The rule every runtime applies to one listed object. */
  predicate WellFormed(m: ConfigMap, namespace: string, uploadId: string) {
    && m.name != "" && m.namespace != "" && m.uid != "" && m.namespace == namespace
    && (m.apiVersion.None? || m.apiVersion.value == "v1") && (m.kind.None? || m.kind.value == "ConfigMap")
    && !m.immutable && m.binaryData == map[] && m.owners == []
    && LABEL in m.labels && m.labels[LABEL] != "" && m.labels == map[LABEL := uploadId]
    && m.annotations.Keys == {REF_ANNOTATION} && Parse(m.annotations[REF_ANNOTATION], Some(FAMILIES)).Parsed?
    && m.data.Keys == {DOCUMENT_KEY}
  }

  /** `decode_catalog_upload_config_map`. */
  function DecodeMap(m: ConfigMap, namespace: string, uploadId: string): Result<Resource, CodecError> {
    if !WellFormed(m, namespace, uploadId) then Err(InvalidConfigMap)
    else Ok(Resource(m.name, m.uid, Canonical(Parse(m.annotations[REF_ANNOTATION], Some(FAMILIES)).ref, Encode(m.data[DOCUMENT_KEY]))))
  }

  /** An entry as the collector records it, for a reference the loader produced, with a UTF-8 document. */
  ghost predicate Portable(e: Entry) {
    ValidRef(e.ref) && e == Canonical(e.ref, e.bytes) && Decode(e.bytes).Some?
  }

  /** One file survives encoding, storage and decoding, bytes and all. */
  lemma {:induction false} MapRoundTrip(namespace: string, uploadId: string, order: nat, e: Entry, uid: string)
    requires Portable(e) && namespace != "" && uploadId != "" && uid != ""
    ensures var m := EncodeMap(namespace, uploadId, order, e);
            && m.Ok? && DecodeMap(Persist(m.value, uid), namespace, uploadId) == Ok(Resource(NameOf(uploadId, order), uid, e))
            && (|Decimal(order, ORDER_WIDTH)| < NAME_LIMIT ==> 0 < |m.value.name| <= NAME_LIMIT)
  {
    var m := EncodeMap(namespace, uploadId, order, e).value;
    EncodeDecode(e.bytes);
    assert m.annotations.Keys == {REF_ANNOTATION};
    assert m.data.Keys == {DOCUMENT_KEY};
    NameNotEmpty(uploadId, order);
    if |Decimal(order, ORDER_WIDTH)| < NAME_LIMIT { NameFits(uploadId, order); }
  }

  lemma {:induction false} NameNotEmpty(uploadId: string, order: nat)
    ensures NameOf(uploadId, order) != ""
  {
    var prefix := NameEnds(uploadId, order);
  }

  // ---- a whole upload ----

  /** Every listed object decodes, and no two share a name or a reference. */
  ghost predicate Readable(items: seq<ConfigMap>, namespace: string, uploadId: string) {
    && (forall i :: 0 <= i < |items| ==> DecodeMap(items[i], namespace, uploadId).Ok?)
    && forall i, j :: 0 <= i < j < |items| ==> Apart(items[i], items[j], namespace, uploadId)
  }

  ghost predicate Apart(a: ConfigMap, b: ConfigMap, namespace: string, uploadId: string) {
    var x, y := DecodeMap(a, namespace, uploadId), DecodeMap(b, namespace, uploadId);
    x.Ok? && y.Ok? && x.value.name != y.value.name && x.value.entry.ref != y.value.entry.ref
  }

  ghost predicate Yields(m: ConfigMap, namespace: string, uploadId: string, e: Entry) {
    DecodeMap(m, namespace, uploadId).Ok? && DecodeMap(m, namespace, uploadId).value.entry == e
  }

  /** The entry a readable object carries. */
  ghost predicate CarriedBy(items: seq<ConfigMap>, namespace: string, uploadId: string, e: Entry) {
    exists i :: 0 <= i < |items| && Yields(items[i], namespace, uploadId, e)
  }

  /** The objects decoded one by one; no result when one is refused. */
  method DecodeEach(items: seq<ConfigMap>, namespace: string, uploadId: string) returns (r: Option<seq<Resource>>)
    ensures r.Some? <==> forall i :: 0 <= i < |items| ==> DecodeMap(items[i], namespace, uploadId).Ok?
    ensures r.Some? ==> |r.value| == |items| && forall i :: 0 <= i < |items| ==> DecodeMap(items[i], namespace, uploadId) == Ok(r.value[i])
  {
    r := Each(items, (m: ConfigMap) => DecodeMap(m, namespace, uploadId));
  }

  /** A comprehension over a function that may refuse. */
  method Each<T, R, E>(items: seq<T>, f: T -> Result<R, E>) returns (r: Option<seq<R>>)
    ensures r.Some? <==> forall i :: 0 <= i < |items| ==> f(items[i]).Ok?
    ensures r.Some? ==> |r.value| == |items| && forall i :: 0 <= i < |items| ==> f(items[i]) == Ok(r.value[i])
  {
    var found: seq<R> := [];
    for k := 0 to |items|
      invariant |found| == k && forall i :: 0 <= i < k ==> f(items[i]) == Ok(found[i])
    {
      var one := f(items[k]);
      if one.Err? { return None; }
      found := found + [one.value];
    }
    r := Some(found);
  }

  /** A duplicate check: a set of what was seen. */
  method NoRepeats<T(!new, ==)>(s: seq<T>) returns (ok: bool)
    ensures ok <==> Distinct(s)
  {
    var seen: set<T> := {};
    for k := 0 to |s|
      invariant forall x :: x in seen <==> exists i :: 0 <= i < k && s[i] == x
      invariant forall i, j :: 0 <= i < j < k ==> s[i] != s[j]
    {
      if s[k] in seen { return false; }
      seen := seen + {s[k]};
    }
    ok := true;
  }

  /** The duplicate checks on names and on references. */
  method AllDistinct(found: seq<Resource>) returns (ok: bool)
    ensures ok <==> forall i, j :: 0 <= i < j < |found| ==> found[i].name != found[j].name && found[i].entry.ref != found[j].entry.ref
  {
    var names := seq(|found|, i requires 0 <= i < |found| => found[i].name);
    var refs := seq(|found|, i requires 0 <= i < |found| => found[i].entry.ref);
    var one := NoRepeats(names);
    var two := NoRepeats(refs);
    assert forall i :: 0 <= i < |found| ==> names[i] == found[i].name && refs[i] == found[i].entry.ref;
    ok := one && two;
  }

  lemma {:induction false} ReadableIs(items: seq<ConfigMap>, namespace: string, uploadId: string, found: seq<Resource>)
    requires |found| == |items| && forall i :: 0 <= i < |items| ==> DecodeMap(items[i], namespace, uploadId) == Ok(found[i])
    ensures Readable(items, namespace, uploadId)
       <==> forall i, j :: 0 <= i < j < |found| ==> found[i].name != found[j].name && found[i].entry.ref != found[j].entry.ref
  {
    if Readable(items, namespace, uploadId) {
      forall i, j | 0 <= i < j < |found| ensures found[i].name != found[j].name && found[i].entry.ref != found[j].entry.ref {
        assert Apart(items[i], items[j], namespace, uploadId);
      }
    }
  }

  /** The carried entries, refused exactly when the listing is not readable. */
  method DecodeItems(items: seq<ConfigMap>, namespace: string, uploadId: string) returns (r: Option<seq<Entry>>)
    ensures r.Some? <==> Readable(items, namespace, uploadId)
    ensures r.Some? ==> |r.value| == |items| && forall i :: 0 <= i < |items| ==> Yields(items[i], namespace, uploadId, r.value[i])
  {
    var found := DecodeEach(items, namespace, uploadId);
    if found.None? { return None; }
    ReadableIs(items, namespace, uploadId, found.value);
    var ok := AllDistinct(found.value);
    if !ok { return None; }
    r := Some(seq(|items|, i requires 0 <= i < |items| => found.value[i].entry));
  }

  /** `decode_catalog_upload_config_maps`: the carried files in reference order. */
  method DecodeUpload(items: seq<ConfigMap>, namespace: string, root: Bytes, selection: Selection) returns (r: Result<Upload, CodecError>)
    ensures r.Ok? <==> Readable(items, namespace, selection.uploadId) && root != []
    ensures r.Ok? ==> r.value.selection == selection && r.value.root == root && Increasing(EntryLt, r.value.files)
    ensures r.Ok? ==> forall e :: e in r.value.files <==> CarriedBy(items, namespace, selection.uploadId, e)
  {
    var found := DecodeItems(items, namespace, selection.uploadId);
    if found.None? { return Err(InvalidConfigMap); }
    if root == [] { return Err(NoRoot); }
    FoundDistinct(items, namespace, selection.uploadId, found.value);
    FilesSeparate(found.value);
    var files := Sort(EntryLt, found.value);
    assert forall e :: e in files <==> e in Elements(files);
    assert forall e :: e in found.value <==> e in Elements(found.value);
    FoundAreCarried(items, namespace, selection.uploadId, found.value);
    r := Ok(Upload(selection, root, files));
  }

  lemma {:induction false} FoundDistinct(items: seq<ConfigMap>, namespace: string, uploadId: string, found: seq<Entry>)
    requires Readable(items, namespace, uploadId) && |found| == |items|
    requires forall i :: 0 <= i < |items| ==> Yields(items[i], namespace, uploadId, found[i])
    ensures DistinctRefs(found)
  {
    forall i, j | 0 <= i < j < |found| ensures found[i].ref != found[j].ref {
      assert Apart(items[i], items[j], namespace, uploadId);
      assert Yields(items[i], namespace, uploadId, found[i]) && Yields(items[j], namespace, uploadId, found[j]);
    }
  }

  lemma {:induction false} FoundAreCarried(items: seq<ConfigMap>, namespace: string, uploadId: string, found: seq<Entry>)
    requires |found| == |items| && forall i :: 0 <= i < |items| ==> Yields(items[i], namespace, uploadId, found[i])
    ensures forall e :: e in found <==> CarriedBy(items, namespace, uploadId, e)
  {
    forall e | CarriedBy(items, namespace, uploadId, e) ensures e in found {
      var i :| 0 <= i < |items| && Yields(items[i], namespace, uploadId, e);
      assert found[i] == e;
    }
  }

  /** The stored objects of an upload, in file order. */
  ghost predicate Stored(namespace: string, uploadId: string, files: seq<Entry>, uids: seq<string>, stored: seq<ConfigMap>) {
    && |uids| == |files| == |stored|
    && forall i :: 0 <= i < |files| ==> IsStored(namespace, uploadId, i, files[i], uids[i], stored[i])
  }

  ghost predicate IsStored(namespace: string, uploadId: string, order: nat, e: Entry, uid: string, m: ConfigMap) {
    EncodeMap(namespace, uploadId, order, e).Ok? && m == Persist(EncodeMap(namespace, uploadId, order, e).value, uid)
  }

  lemma {:induction false} StoredDecodes(namespace: string, uploadId: string, files: seq<Entry>, uids: seq<string>, stored: seq<ConfigMap>, i: nat)
    requires namespace != "" && uploadId != "" && Stored(namespace, uploadId, files, uids, stored) && i < |files| && Portable(files[i]) && uids[i] != ""
    ensures DecodeMap(stored[i], namespace, uploadId) == Ok(Resource(NameOf(uploadId, i), uids[i], files[i]))
  {
    assert IsStored(namespace, uploadId, i, files[i], uids[i], stored[i]);
    MapRoundTrip(namespace, uploadId, i, files[i], uids[i]);
  }

  /** A listing is a rearrangement of what was stored. */
  ghost predicate Rearranges(listed: seq<ConfigMap>, stored: seq<ConfigMap>, at: seq<nat>) {
    && |listed| == |stored| == |at| && Distinct(at)
    && forall k :: 0 <= k < |at| ==> at[k] < |stored| && listed[k] == stored[at[k]]
  }

  /** Listed in any order, the stored objects are readable and carry exactly the files. */
  lemma {:induction false} ListingReadable(namespace: string, uploadId: string, files: seq<Entry>, uids: seq<string>,
                                           stored: seq<ConfigMap>, listed: seq<ConfigMap>, at: seq<nat>)
    requires namespace != "" && uploadId != "" && DistinctRefs(files) && Stored(namespace, uploadId, files, uids, stored)
    requires forall i :: 0 <= i < |files| ==> Portable(files[i]) && uids[i] != ""
    requires Rearranges(listed, stored, at)
    ensures Readable(listed, namespace, uploadId)
    ensures forall k :: 0 <= k < |at| ==> at[k] < |files| && Yields(listed[k], namespace, uploadId, files[at[k]])
  {
    forall k | 0 <= k < |at|
      ensures at[k] < |files| && DecodeMap(listed[k], namespace, uploadId) == Ok(Resource(NameOf(uploadId, at[k]), uids[at[k]], files[at[k]]))
    {
      StoredDecodes(namespace, uploadId, files, uids, stored, at[k]);
    }
    forall j, k | 0 <= j < k < |listed| ensures Apart(listed[j], listed[k], namespace, uploadId) {
      if NameOf(uploadId, at[j]) == NameOf(uploadId, at[k]) { NamesDiffer(uploadId, at[j], at[k]); }
      assert at[j] != at[k];
    }
  }

  /** Every position is listed. */
  lemma {:induction false} AllListed(at: seq<nat>, n: nat, i: nat)
    requires |at| == n && Distinct(at) && (forall k :: 0 <= k < n ==> at[k] < n) && i < n
    ensures i in at
  {
    DistinctSize(at);
    assert Elements(at) <= Range(n);
    FullSubset(Elements(at), Range(n));
    assert i in Elements(at);
  }

  function Range(n: nat): (r: set<nat>)
    ensures |r| == n && forall k: nat :: k in r <==> k < n
  {
    if n == 0 then {} else Range(n - 1) + {n - 1}
  }

  lemma {:induction false} FullSubset<T>(a: set<T>, b: set<T>)
    requires a <= b && |a| == |b|
    ensures a == b
  {
    assert b == a + (b - a);
    assert |b - a| == 0;
  }

  /** The files of an accepted upload come back unchanged from its stored ConfigMaps, in whatever order they are listed. */
  lemma {:induction false} UploadRoundTrip(namespace: string, selection: Selection, root: Bytes, files: seq<Entry>, uids: seq<string>,
                                           stored: seq<ConfigMap>, listed: seq<ConfigMap>, at: seq<nat>, got: seq<Entry>)
    requires namespace != "" && selection.uploadId != "" && Increasing(EntryLt, files) && Stored(namespace, selection.uploadId, files, uids, stored)
    requires forall i :: 0 <= i < |files| ==> Portable(files[i]) && uids[i] != ""
    requires Rearranges(listed, stored, at)
    requires Increasing(EntryLt, got) && forall e :: e in got <==> CarriedBy(listed, namespace, selection.uploadId, e)
    ensures Readable(listed, namespace, selection.uploadId) && got == files
  {
    EntriesDistinct(files);
    ListingReadable(namespace, selection.uploadId, files, uids, stored, listed, at);
    forall e ensures e in files <==> e in got { CarriedIffFile(namespace, selection.uploadId, files, listed, at, e); }
    EntryWeak();
    assert Elements(files) == Elements(got);
    IncreasingUnique(EntryLt, files, got);
  }

  lemma {:induction false} CarriedIffFile(namespace: string, uploadId: string, files: seq<Entry>, listed: seq<ConfigMap>, at: seq<nat>, e: Entry)
    requires |listed| == |at| == |files| && Distinct(at)
    requires forall k :: 0 <= k < |at| ==> at[k] < |files| && Yields(listed[k], namespace, uploadId, files[at[k]])
    ensures e in files <==> CarriedBy(listed, namespace, uploadId, e)
  {
    if e in files {
      var i :| 0 <= i < |files| && files[i] == e;
      AllListed(at, |files|, i);
      var k :| 0 <= k < |at| && at[k] == i;
      assert Yields(listed[k], namespace, uploadId, files[at[k]]);
    }
    if CarriedBy(listed, namespace, uploadId, e) {
      var k :| 0 <= k < |listed| && Yields(listed[k], namespace, uploadId, e);
      assert Yields(listed[k], namespace, uploadId, files[at[k]]);
      assert files[at[k]] == e;
    }
  }

  /** Reading back a stored upload gives the upload itself. */
  method ReadBack(listed: seq<ConfigMap>, namespace: string, root: Bytes, selection: Selection, ghost files: seq<Entry>, ghost uids: seq<string>,
                  ghost stored: seq<ConfigMap>, ghost at: seq<nat>) returns (r: Result<Upload, CodecError>)
    requires namespace != "" && selection.uploadId != "" && Increasing(EntryLt, files) && Stored(namespace, selection.uploadId, files, uids, stored)
    requires (forall i :: 0 <= i < |files| ==> Portable(files[i]) && uids[i] != "") && Rearranges(listed, stored, at) && root != []
    ensures r == Ok(Upload(selection, root, files))
  {
    EntriesDistinct(files);
    ListingReadable(namespace, selection.uploadId, files, uids, stored, listed, at);
    r := DecodeUpload(listed, namespace, root, selection);
    UploadRoundTrip(namespace, selection, root, files, uids, stored, listed, at, r.value.files);
  }
}
