/** The byte stream a catalog generation is named by.

    A generation is the SHA-256 of a domain tag and, in reference order, each document as a
    length-prefixed reference followed by its length-prefixed bytes. The digest is modelled as
    injective; everything about the stream itself is proved.
 */
module GenerationStream {
  import opened Ordering
  import opened Wrappers
  import opened CatalogRefs
  import opened Utf8

  /** A scope's documents. */
  type Docs = map<Ref, Bytes>

  /** What separates the uses of SHA-256: a generation stream starts with its own domain tag. */
  datatype Domain = Plain | GenerationV1

  /** A SHA-256 digest, named by what was hashed. */
  datatype Digest = Sha256(domain: Domain, hashed: Bytes)

  type Generation = Digest

  const WORD: int := 0x1_0000_0000_0000_0000

  function Power256(k: nat): (r: int)
    ensures r >= 1
  {
    if k == 0 then 1 else 256 * Power256(k - 1)
  }

  /** `n.to_bytes(width, "big")`. */
  function BigEndian(n: nat, width: nat): (r: Bytes)
    requires n < Power256(width)
    ensures |r| == width
  {
    if width == 0 then [] else BigEndian(n / 256, width - 1) + [n % 256]
  }

  function FromBigEndian(b: Bytes): nat {
    if b == [] then 0 else FromBigEndian(b[..|b| - 1]) * 256 + b[|b| - 1]
  }

  lemma {:induction false} BigEndianValue(n: nat, width: nat)
    requires n < Power256(width)
    ensures FromBigEndian(BigEndian(n, width)) == n
  {
    if width > 0 {
      BigEndianValue(n / 256, width - 1);
      var b := BigEndian(n, width);
      assert b[..|b| - 1] == BigEndian(n / 256, width - 1);
    }
  }

  lemma {:induction false} WordIsEightBytes()
    ensures Power256(8) == WORD
  {
    assert Power256(4) == 0x1_0000_0000;
    assert Power256(8) == 256 * (256 * (256 * (256 * Power256(4))));
  }

  function LengthPrefix(n: nat): (r: Bytes)
    requires n < WORD
    ensures |r| == 8
  {
    WordIsEightBytes();
    BigEndian(n, 8)
  }

  /** What `_catalog_generation` feeds the digest for one field. */
  function Field(b: Bytes): Bytes
    requires |b| < WORD
  {
    LengthPrefix(|b|) + b
  }

  type Document = (Ref, Bytes)

  /** A field whose length does not fit eight bytes makes `to_bytes` raise. */
  predicate Fits(d: Document) {
    |Encode(Text(d.0))| < WORD && |d.1| < WORD
  }

  function Record(d: Document): Bytes
    requires Fits(d)
  {
    Field(Encode(Text(d.0))) + Field(d.1)
  }

  function Stream(docs: seq<Document>): Bytes
    requires forall i :: 0 <= i < |docs| ==> Fits(docs[i])
  {
    if docs == [] then [] else Record(docs[0]) + Stream(docs[1..])
  }

  /** Reads one field back: its bytes and what follows it. */
  function ReadField(b: Bytes): Option<(Bytes, Bytes)> {
    if |b| < 8 then None
    else
      var n := FromBigEndian(b[..8]);
      if |b| < 8 + n then None else Some((b[8..8 + n], b[8 + n..]))
  }

  function Unstream(b: Bytes): Option<seq<(Bytes, Bytes)>>
    decreases |b|
  {
    if b == [] then Some([])
    else
      match ReadField(b)
      case None => None
      case Some((ref, afterRef)) =>
        match ReadField(afterRef)
        case None => None
        case Some((content, rest)) =>
          match Unstream(rest)
          case None => None
          case Some(tail) => Some([(ref, content)] + tail)
  }

  function Raw(docs: seq<Document>): (r: seq<(Bytes, Bytes)>)
    ensures |r| == |docs|
    ensures forall i :: 0 <= i < |docs| ==> r[i] == (Encode(Text(docs[i].0)), docs[i].1)
  {
    if docs == [] then [] else [(Encode(Text(docs[0].0)), docs[0].1)] + Raw(docs[1..])
  }

  lemma {:induction false} ReadBackField(b: Bytes, rest: Bytes)
    requires |b| < WORD
    ensures ReadField(Field(b) + rest) == Some((b, rest))
  {
    WordIsEightBytes();
    BigEndianValue(|b|, 8);
    var s := Field(b) + rest;
    assert s[..8] == LengthPrefix(|b|);
    assert s[8..8 + |b|] == b;
    assert s[8 + |b|..] == rest;
  }

  /** The stream decodes, without separators, to exactly the records written. */
  lemma {:induction false} UnstreamStream(docs: seq<Document>)
    requires forall i :: 0 <= i < |docs| ==> Fits(docs[i])
    ensures Unstream(Stream(docs)) == Some(Raw(docs))
  {
    if docs != [] {
      var ref, content, rest := Encode(Text(docs[0].0)), docs[0].1, Stream(docs[1..]);
      assert Stream(docs) == Field(ref) + (Field(content) + rest);
      ReadBackField(ref, Field(content) + rest);
      ReadBackField(content, rest);
      UnstreamStream(docs[1..]);
    }
  }

  lemma {:induction false} RawInjective(a: seq<Document>, b: seq<Document>)
    requires Raw(a) == Raw(b)
    ensures a == b
  {
    forall i | 0 <= i < |a| ensures a[i] == b[i] {
      assert Raw(a)[i] == Raw(b)[i];
      DecodeEncode(Text(a[i].0));
      DecodeEncode(Text(b[i].0));
      TextInjective(a[i].0, b[i].0);
    }
  }

  lemma {:induction false} StreamInjective(a: seq<Document>, b: seq<Document>)
    requires forall i :: 0 <= i < |a| ==> Fits(a[i])
    requires forall i :: 0 <= i < |b| ==> Fits(b[i])
    requires Stream(a) == Stream(b)
    ensures a == b
  {
    UnstreamStream(a);
    UnstreamStream(b);
    RawInjective(a, b);
  }

  predicate DocLt(a: Document, b: Document) {
    RefLt(a.0, b.0)
  }

  ghost predicate Encodable(docs: Docs) {
    forall r :: r in docs ==> Fits((r, docs[r]))
  }

  /** Any listing of a document map, each reference once. */
  ghost predicate Lists(items: seq<Document>, docs: Docs) {
    && Distinct(items)
    && (forall d :: d in items <==> d.0 in docs && d.1 == docs[d.0])
  }

  /** The listing in reference order. */
  ghost function Listing(docs: Docs): (items: seq<Document>)
    ensures Lists(items, docs)
  {
    var items := ListAt(docs, SortedRefs(docs.Keys));
    RefTotal();
    ListingLists(docs, SortedRefs(docs.Keys), items);
    items
  }

  ghost function SortedRefs(refs: set<Ref>): (r: seq<Ref>)
    ensures Elements(r) == refs
  {
    RefTotal();
    Sorted(RefLt, refs)
  }

  ghost function ListAt(docs: Docs, refs: seq<Ref>): (items: seq<Document>)
    requires Elements(refs) <= docs.Keys
    ensures |items| == |refs|
    ensures forall i :: 0 <= i < |refs| ==> refs[i] in docs && items[i] == (refs[i], docs[refs[i]])
  {
    seq(|refs|, i requires 0 <= i < |refs| => assert refs[i] in Elements(refs); (refs[i], docs[refs[i]]))
  }

  lemma {:induction false} ListingIncreasing(docs: Docs)
    ensures Increasing(DocLt, Listing(docs))
  {
    RefTotal();
    ListingLists(docs, SortedRefs(docs.Keys), Listing(docs));
  }

  lemma {:induction false} ListingLists(docs: Docs, refs: seq<Ref>, items: seq<Document>)
    requires Increasing(RefLt, refs) && Elements(refs) == docs.Keys
    requires |items| == |refs| && forall i :: 0 <= i < |refs| ==> refs[i] in docs && items[i] == (refs[i], docs[refs[i]])
    ensures Increasing(DocLt, items) && Lists(items, docs)
  {
    RefTotal();
    IncreasingDistinct(RefLt, refs);
    forall d ensures d in items <==> d.0 in docs && d.1 == docs[d.0] {
      if d.0 in docs && d.1 == docs[d.0] {
        assert d.0 in Elements(refs);
        var i :| 0 <= i < |refs| && refs[i] == d.0;
        assert items[i] == d;
      }
    }
  }

  /** The name of a document map. */
  ghost function GenerationOf(docs: Docs): Generation
    requires Encodable(docs)
  {
    Sha256(GenerationV1, Stream(Listing(docs)))
  }

  lemma {:induction false} ListsInjective(items: seq<Document>, a: Docs, b: Docs)
    requires Lists(items, a) && Lists(items, b)
    ensures a == b
  {
    forall r ensures r in a <==> r in b {
      if r in a { assert (r, a[r]) in items; }
      if r in b { assert (r, b[r]) in items; }
    }
    forall r | r in a ensures a[r] == b[r] { assert (r, a[r]) in items; }
  }

  lemma {:induction false} SameStream(la: seq<Document>, a: Docs, lb: seq<Document>, b: Docs)
    requires Lists(la, a) && Lists(lb, b) && Encodable(a) && Encodable(b)
    requires (forall i :: 0 <= i < |la| ==> Fits(la[i])) && (forall i :: 0 <= i < |lb| ==> Fits(lb[i])) && Stream(la) == Stream(lb)
    ensures a == b
  {
    StreamInjective(la, lb);
    ListsInjective(la, a, b);
  }

  /** Two catalogs with one name are one catalog. */
  lemma {:induction false} GenerationInjective(a: Docs, b: Docs)
    requires Encodable(a) && Encodable(b)
    requires GenerationOf(a) == GenerationOf(b)
    ensures a == b
  {
    ListingFits(a, Listing(a));
    ListingFits(b, Listing(b));
    SameStream(Listing(a), a, Listing(b), b);
  }

  lemma {:induction false} ListingFits(docs: Docs, items: seq<Document>)
    requires Encodable(docs) && Lists(items, docs)
    ensures forall i :: 0 <= i < |items| ==> Fits(items[i])
  {
    forall i | 0 <= i < |items| ensures Fits(items[i]) { assert items[i] in items; }
  }

  lemma {:induction false} DocWeak()
    ensures StrictWeak(DocLt)
  {
    RefTotal();
    TotalIsWeak(RefLt);
    forall x, y, z | DocLt(x, z) ensures DocLt(x, y) || DocLt(y, z) {
      assert RefLt(x.0, y.0) || RefLt(y.0, z.0);
    }
  }

  /** Sorting any listing of the documents gives the one ascending listing. */
  lemma {:induction false} SortedListing(items: seq<Document>, docs: Docs)
    requires Lists(items, docs)
    ensures Sort(DocLt, items) == Listing(docs)
  {
    DocWeak();
    RefTotal();
    assert Separates(DocLt, items);
    SortIncreasing(DocLt, items);
    ListingIncreasing(docs);
    assert Elements(items) == Elements(Listing(docs));
    IncreasingUnique(DocLt, Sort(DocLt, items), Listing(docs));
  }

  lemma {:induction false} StreamAppend(docs: seq<Document>, d: Document)
    requires forall i :: 0 <= i < |docs| ==> Fits(docs[i])
    requires Fits(d)
    ensures Stream(docs + [d]) == Stream(docs) + Record(d)
  {
    if docs == [] {
      assert Stream([d]) == Record(d) + Stream([]);
    } else {
      StreamAppend(docs[1..], d);
      assert (docs + [d])[1..] == docs[1..] + [d];
    }
  }

  /** The loop that feeds the digest. */
  method Feed(ordered: seq<Document>) returns (hashed: Bytes)
    requires forall k :: 0 <= k < |ordered| ==> Fits(ordered[k])
    ensures hashed == Stream(ordered)
  {
    hashed := [];
    var i := 0;
    while i < |ordered|
      invariant 0 <= i <= |ordered|
      invariant hashed == Stream(ordered[..i])
    {
      StreamAppend(ordered[..i], ordered[i]);
      assert ordered[..i + 1] == ordered[..i] + [ordered[i]];
      hashed := hashed + Record(ordered[i]);
      i := i + 1;
    }
    assert ordered[..i] == ordered;
  }

  /** `_catalog_generation`: one name, whatever order the documents are listed in. */
  method CatalogGeneration(items: seq<Document>, ghost docs: Docs) returns (g: Generation)
    requires Lists(items, docs) && Encodable(docs)
    ensures g == GenerationOf(docs)
  {
    SortedListing(items, docs);
    var hashed := Feed(Sort(DocLt, items));
    g := Sha256(GenerationV1, hashed);
  }
}
