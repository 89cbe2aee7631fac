/** Strict total orders and the one sorted arrangement they give a finite collection.

    Every deterministic step of the system (hashing a generation, staging mutations,
    collecting a closure, ranking link pairs) goes through a sort, so "the result does
    not depend on enumeration order" always reduces to a lemma of this module.
 */
module Ordering {

  ghost predicate StrictTotal<T(!new)>(lt: (T, T) -> bool) {
    && (forall x :: !lt(x, x))
    && (forall x, y, z :: lt(x, y) && lt(y, z) ==> lt(x, z))
    && (forall x, y :: lt(x, y) || lt(y, x) || x == y)
  }

  /** Comparing by a sort key: ties are allowed, and being tied is transitive. */
  ghost predicate StrictWeak<T(!new)>(lt: (T, T) -> bool) {
    && (forall x :: !lt(x, x))
    && (forall x, y, z :: lt(x, y) && lt(y, z) ==> lt(x, z))
    && (forall x, y, z :: lt(x, z) ==> lt(x, y) || lt(y, z))
  }

  lemma {:induction false} TotalIsWeak<T(!new)>(lt: (T, T) -> bool)
    requires StrictTotal(lt)
    ensures StrictWeak(lt)
  {
    forall x, y, z | lt(x, z) ensures lt(x, y) || lt(y, z) {
      assert lt(x, y) || lt(y, x) || x == y;
    }
  }

  /** No two different elements of s are tied. */
  ghost predicate Separates<T>(lt: (T, T) -> bool, s: seq<T>) {
    forall x, y :: x in s && y in s && x != y ==> lt(x, y) || lt(y, x)
  }

  /** Sorted with possible repeats. */
  ghost predicate Ascending<T>(lt: (T, T) -> bool, s: seq<T>) {
    forall i, j :: 0 <= i < j < |s| ==> !lt(s[j], s[i])
  }

  /** Sorted without repeats. */
  ghost predicate Increasing<T>(lt: (T, T) -> bool, s: seq<T>) {
    forall i, j :: 0 <= i < j < |s| ==> lt(s[i], s[j])
  }

  ghost predicate Distinct<T>(s: seq<T>) {
    forall i, j :: 0 <= i < j < |s| ==> s[i] != s[j]
  }

  function Elements<T>(s: seq<T>): set<T> {
    set x | x in s
  }

  /** The stable insertion step: x goes before the first element it does not exceed. */
  function Insert<T>(lt: (T, T) -> bool, x: T, s: seq<T>): (r: seq<T>)
    ensures multiset(r) == multiset(s) + multiset{x}
    ensures |r| == |s| + 1
  {
    if s == [] || !lt(s[0], x) then
      [x] + s
    else
      assert s == [s[0]] + s[1..];
      [s[0]] + Insert(lt, x, s[1..])
  }

  /** Python's stable `sorted`, with `lt` comparing sort keys. */
  function Sort<T>(lt: (T, T) -> bool, s: seq<T>): (r: seq<T>)
    ensures multiset(r) == multiset(s)
    ensures |r| == |s|
  {
    if s == [] then
      []
    else
      assert s == [s[0]] + s[1..];
      Insert(lt, s[0], Sort(lt, s[1..]))
  }

  lemma {:induction false} EmptyElements<T>(s: seq<T>)
    ensures s == [] <==> Elements(s) == {}
  {
    if s != [] { assert s[0] in Elements(s); }
  }

  lemma {:induction false} SameElements<T>(s: seq<T>, t: seq<T>)
    requires multiset(s) == multiset(t)
    ensures Elements(s) == Elements(t)
    ensures |s| == |t|
  {
    assert |multiset(s)| == |multiset(t)|;
    forall x ensures x in s <==> x in t {
      assert x in s <==> x in multiset(s);
      assert x in t <==> x in multiset(t);
    }
  }

  lemma {:induction false} InsertAscending<T(!new)>(lt: (T, T) -> bool, x: T, s: seq<T>)
    requires StrictWeak(lt)
    requires Ascending(lt, s)
    ensures Ascending(lt, Insert(lt, x, s))
  {
    if s != [] && lt(s[0], x) {
      var rest := Insert(lt, x, s[1..]);
      InsertAscending(lt, x, s[1..]);
      assert s == [s[0]] + s[1..];
      forall j | 0 <= j < |rest| ensures !lt(rest[j], s[0]) {
        assert rest[j] in multiset(rest);
        assert rest[j] == x || rest[j] in s[1..];
      }
      ConsAscending(lt, s[0], rest);
    }
  }

  lemma {:induction false} IncreasingIndex<T(!new)>(lt: (T, T) -> bool, s: seq<T>, i: nat, j: nat)
    requires StrictTotal(lt) && Increasing(lt, s) && i < |s| && j < |s| && lt(s[i], s[j])
    ensures i < j
  {}

  lemma {:induction false} ConsAscending<T>(lt: (T, T) -> bool, x: T, s: seq<T>)
    requires Ascending(lt, s) && forall j :: 0 <= j < |s| ==> !lt(s[j], x)
    ensures Ascending(lt, [x] + s)
  {}

  lemma {:induction false} SortAscending<T(!new)>(lt: (T, T) -> bool, s: seq<T>)
    requires StrictWeak(lt)
    ensures Ascending(lt, Sort(lt, s))
    ensures Elements(Sort(lt, s)) == Elements(s)
  {
    SameElements(Sort(lt, s), s);
    if s != [] {
      SortAscending(lt, s[1..]);
      InsertAscending(lt, s[0], Sort(lt, s[1..]));
    }
  }

  lemma {:induction false} DistinctMultiplicity<T>(s: seq<T>, x: T)
    requires Distinct(s)
    ensures multiset(s)[x] == if x in s then 1 else 0
  {
    if s != [] {
      assert s == s[..|s| - 1] + [s[|s| - 1]];
      DistinctMultiplicity(s[..|s| - 1], x);
    }
  }

  lemma {:induction false} MultiplicityDistinct<T(!new)>(s: seq<T>)
    requires forall x :: multiset(s)[x] <= 1
    ensures Distinct(s)
  {
    if s != [] {
      var front, last := s[..|s| - 1], s[|s| - 1];
      assert s == front + [last];
      assert multiset(s) == multiset(front) + multiset{last};
      forall x ensures multiset(front)[x] <= 1 {
        assert multiset(front)[x] <= multiset(s)[x];
      }
      MultiplicityDistinct(front);
      assert multiset(s)[last] == multiset(front)[last] + 1;
      assert last !in multiset(front);
      assert last !in front;
    }
  }

  lemma {:induction false} DistinctPermutation<T(!new)>(s: seq<T>, t: seq<T>)
    requires multiset(s) == multiset(t)
    requires Distinct(s)
    ensures Distinct(t)
  {
    forall x ensures multiset(t)[x] <= 1 { DistinctMultiplicity(s, x); }
    MultiplicityDistinct(t);
  }

  lemma {:induction false} AscendingDistinctIncreasing<T(!new)>(lt: (T, T) -> bool, s: seq<T>)
    requires StrictWeak(lt)
    requires Ascending(lt, s) && Distinct(s) && Separates(lt, s)
    ensures Increasing(lt, s)
  {}

  lemma {:induction false} SortIncreasing<T(!new)>(lt: (T, T) -> bool, s: seq<T>)
    requires StrictWeak(lt)
    requires Distinct(s) && Separates(lt, s)
    ensures Increasing(lt, Sort(lt, s))
    ensures Elements(Sort(lt, s)) == Elements(s)
  {
    SortAscending(lt, s);
    DistinctPermutation(s, Sort(lt, s));
    assert forall x :: x in Sort(lt, s) <==> x in Elements(Sort(lt, s));
    AscendingDistinctIncreasing(lt, Sort(lt, s));
  }

  /** A set has only one increasing arrangement. */
  lemma {:induction false} IncreasingUnique<T(!new)>(lt: (T, T) -> bool, s: seq<T>, t: seq<T>)
    requires StrictWeak(lt)
    requires Increasing(lt, s) && Increasing(lt, t)
    requires Elements(s) == Elements(t)
    ensures s == t
  {
    EmptyElements(s);
    EmptyElements(t);
    if s != [] {
      assert s[0] in Elements(t) && t[0] in Elements(s);
      assert s[0] == t[0];
      assert s == [s[0]] + s[1..] && t == [t[0]] + t[1..];
      forall x ensures x in s[1..] <==> x in t[1..] {
        assert x in s <==> x in t by { assert x in Elements(s) <==> x in Elements(t); }
        if x in s[1..] { assert lt(s[0], x); }
        if x in t[1..] { assert lt(t[0], x); }
      }
      IncreasingUnique(lt, s[1..], t[1..]);
    }
  }

  /** The sorted enumeration of a finite set: whatever order the set is walked in. */
  ghost function Sorted<T(!new)>(lt: (T, T) -> bool, s: set<T>): (r: seq<T>)
    requires StrictTotal(lt)
    ensures Increasing(lt, r)
    ensures Elements(r) == s
    ensures |r| == |s|
  {
    if s == {} then [] else
      var x :| x in s;
      var rest := Sorted(lt, s - {x});
      var r := Insert(lt, x, rest);
      assert Increasing(lt, r) && Elements(r) == s by {
        SortedStep(lt, x, rest);
        assert s == (s - {x}) + {x};
      }
      assert |s - {x}| == |s| - 1;
      r
  }

  /** Some listing of a finite set. */
  ghost function Enumeration<T>(s: set<T>): (r: seq<T>)
    ensures Elements(r) == s
  {
    if s == {} then [] else
      var x :| x in s;
      var rest := Enumeration(s - {x});
      assert Elements(rest + [x]) == Elements(rest) + {x};
      rest + [x]
  }

  lemma {:induction false} IncreasingDistinct<T(!new)>(lt: (T, T) -> bool, s: seq<T>)
    requires StrictWeak(lt) && Increasing(lt, s)
    ensures Distinct(s) && Ascending(lt, s)
  {}

  lemma {:induction false} SortedStep<T(!new)>(lt: (T, T) -> bool, x: T, rest: seq<T>)
    requires StrictTotal(lt)
    requires Increasing(lt, rest)
    requires x !in rest
    ensures Increasing(lt, Insert(lt, x, rest))
    ensures Elements(Insert(lt, x, rest)) == Elements(rest) + {x}
  {
    var r := Insert(lt, x, rest);
    TotalIsWeak(lt);
    InsertAscending(lt, x, rest);
    SameElements(r, [x] + rest);
    assert Elements([x] + rest) == Elements(rest) + {x};
    assert Distinct([x] + rest);
    DistinctPermutation([x] + rest, r);
    AscendingDistinctIncreasing(lt, r);
  }

  lemma {:induction false} SortedIs<T(!new)>(lt: (T, T) -> bool, s: set<T>, r: seq<T>)
    requires StrictTotal(lt)
    requires Increasing(lt, r) && Elements(r) == s
    ensures r == Sorted(lt, s)
  {
    TotalIsWeak(lt);
    IncreasingUnique(lt, r, Sorted(lt, s));
  }

  lemma {:induction false} DistinctSize<T>(s: seq<T>)
    requires Distinct(s)
    ensures |Elements(s)| == |s|
  {
    if s == [] {
      assert Elements(s) == {};
    } else {
      var front, last := s[..|s| - 1], s[|s| - 1];
      DistinctSize(front);
      assert Elements(s) == Elements(front) + {last};
      assert last !in Elements(front);
    }
  }

  lemma {:induction false} SubsetSize<T>(a: set<T>, b: set<T>)
    requires a <= b
    ensures |a| <= |b|
  {
    assert b == a + (b - a);
    assert |b| == |a| + |b - a|;
  }

  /** Python's `str` comparison: by code point, a proper prefix first. */
  predicate StringLt(a: string, b: string) {
    b != [] && (a == [] || a[0] < b[0] || (a[0] == b[0] && StringLt(a[1..], b[1..])))
  }

  lemma {:induction false} StringIrreflexive(a: string)
    ensures !StringLt(a, a)
  {
    if a != [] { StringIrreflexive(a[1..]); }
  }

  lemma {:induction false} StringTransitive(a: string, b: string, c: string)
    requires StringLt(a, b) && StringLt(b, c)
    ensures StringLt(a, c)
  {
    if a != [] && a[0] == b[0] == c[0] { StringTransitive(a[1..], b[1..], c[1..]); }
  }

  lemma {:induction false} StringConnected(a: string, b: string)
    ensures StringLt(a, b) || StringLt(b, a) || a == b
  {
    if a != [] && b != [] && a[0] == b[0] {
      StringConnected(a[1..], b[1..]);
      assert a == [a[0]] + a[1..] && b == [b[0]] + b[1..];
    }
  }

  lemma {:induction false} StringTotal()
    ensures StrictTotal(StringLt)
  {
    forall a ensures !StringLt(a, a) { StringIrreflexive(a); }
    forall a, b, c | StringLt(a, b) && StringLt(b, c) ensures StringLt(a, c) { StringTransitive(a, b, c); }
    forall a, b ensures StringLt(a, b) || StringLt(b, a) || a == b { StringConnected(a, b); }
  }

  /** Compare by a key. */
  function By<T, K>(key: T -> K, lt: (K, K) -> bool): (T, T) -> bool {
    (x, y) => lt(key(x), key(y))
  }

  /** Compare by one order, ties by another: the tuple keys of Python's `sorted`. */
  function Then<T>(first: (T, T) -> bool, second: (T, T) -> bool): (T, T) -> bool {
    (x, y) => first(x, y) || (!first(y, x) && second(x, y))
  }

  lemma {:induction false} ByWeak<T(!new), K(!new)>(key: T -> K, lt: (K, K) -> bool)
    requires StrictWeak(lt)
    ensures StrictWeak(By(key, lt))
  {
    var f := By(key, lt);
    forall x, y, z | f(x, z) ensures f(x, y) || f(y, z) { assert lt(key(x), key(y)) || lt(key(y), key(z)); }
    forall x, y, z | f(x, y) && f(y, z) ensures f(x, z) { assert lt(key(x), key(z)); }
  }

  lemma {:induction false} ThenWeak<T(!new)>(first: (T, T) -> bool, second: (T, T) -> bool)
    requires StrictWeak(first) && StrictWeak(second)
    ensures StrictWeak(Then(first, second))
  {
    var f := Then(first, second);
    forall x, y, z | f(x, z) ensures f(x, y) || f(y, z) {
      assert first(x, z) ==> first(x, y) || first(y, z);
      assert first(y, x) ==> first(y, z) || first(z, x);
      assert first(z, y) ==> first(z, x) || first(x, y);
      assert second(x, z) ==> second(x, y) || second(y, z);
    }
    forall x, y, z | f(x, y) && f(y, z) ensures f(x, z) {
      assert first(x, y) ==> first(x, z) || first(z, y);
      assert first(y, z) ==> first(y, x) || first(x, z);
      assert first(z, x) ==> first(z, y) || first(y, x);
      assert second(x, y) && second(y, z) ==> second(x, z);
    }
  }

  lemma {:induction false} ThenTotal<T(!new)>(first: (T, T) -> bool, second: (T, T) -> bool)
    requires StrictWeak(first) && StrictTotal(second)
    ensures StrictTotal(Then(first, second))
  {
    TotalIsWeak(second);
    ThenWeak(first, second);
    var f := Then(first, second);
    forall x, y ensures f(x, y) || f(y, x) || x == y { assert second(x, y) || second(y, x) || x == y; }
  }
}
