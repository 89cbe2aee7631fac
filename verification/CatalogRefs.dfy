/** Catalog references: `nodalarc:<path>` and `user:<path>` tokens.

    The parser walks the token in the order the loader does; the grammar is the pattern
    the schema publishes. They are shown to accept the same tokens, and a token that is
    accepted is already in canonical form.
 */
module CatalogRefs {
  import opened Ordering
  import opened Wrappers

  datatype Namespace = Shipped | User

  datatype Ref = Ref(namespace: Namespace, path: string)

  datatype ParseResult =
    | Parsed(ref: Ref)
    | NotAReference
    | PathRejected
    | FamilyMismatch

  const FAMILIES: set<string> :=
    {"bodies", "terminals", "payloads", "profiles", "orbits", "nodes", "sites", "site-sets",
     "constellations", "space-node-sets", "sessions"}

  const SUFFIXES: seq<string> := [".yaml", ".yml"]

  function NamespaceName(n: Namespace): string {
    match n
    case Shipped => "nodalarc"
    case User => "user"
  }

  /** The token's text, which is also its sort key. */
  function Text(r: Ref): string {
    NamespaceName(r.namespace) + ":" + r.path
  }

  predicate RefLt(a: Ref, b: Ref) {
    StringLt(Text(a), Text(b))
  }

  /** Where a document lands in a deployment: the namespace is kept as a directory. */
  function PreservedPath(r: Ref): string {
    "catalog/" + NamespaceName(r.namespace) + "/" + r.path
  }

  predicate StartsWith(s: string, prefix: string) {
    |prefix| <= |s| && s[..|prefix|] == prefix
  }

  predicate EndsWith(s: string, suffix: string) {
    |suffix| <= |s| && s[|s| - |suffix|..] == suffix
  }

  /** Components of a slash-separated path; never empty. */
  function Split(s: string): (parts: seq<string>)
    ensures |parts| > 0
  {
    if s == [] then [""]
    else if s[0] == '/' then [""] + Split(s[1..])
    else
      var rest := Split(s[1..]);
      [[s[0]] + rest[0]] + rest[1..]
  }

  function Join(parts: seq<string>): string
    requires |parts| > 0
  {
    if |parts| == 1 then parts[0] else parts[0] + "/" + Join(parts[1..])
  }

  predicate NameHead(c: char) { 'a' <= c <= 'z' || '0' <= c <= '9' }

  predicate NameTail(c: char) { NameHead(c) || c == '_' || c == '-' }

  /** One accepted path component: `[a-z0-9][a-z0-9_-]*`. */
  predicate SafeName(s: string) {
    s != [] && NameHead(s[0]) && forall i :: 0 < i < |s| ==> NameTail(s[i])
  }

  /** The YAML suffix of a filename, if it has one. */
  function Suffix(name: string): Option<string> {
    if EndsWith(name, SUFFIXES[0]) then Some(SUFFIXES[0])
    else if EndsWith(name, SUFFIXES[1]) then Some(SUFFIXES[1])
    else None
  }

  /** The family directory a path starts with, if it has a directory at all. */
  function FamilyOf(path: string): Option<string> {
    var parts := Split(path);
    if |parts| == 1 then None else Some(parts[0])
  }

  function Parse(raw: string, families: Option<set<string>>): ParseResult {
    if StartsWith(raw, "nodalarc:") then ParsePath(Shipped, raw[9..], families)
    else if StartsWith(raw, "user:") then ParsePath(User, raw[5..], families)
    else NotAReference
  }

  predicate DotFree(parts: seq<string>) {
    forall i :: 0 <= i < |parts| ==> parts[i] != "" && parts[i] != "." && parts[i] != ".."
  }

  predicate SafeNames(parts: seq<string>) {
    forall i :: 0 <= i < |parts| ==> SafeName(parts[i])
  }

  /** Directories safe, stem safe, suffix YAML. */
  predicate SafeParts(parts: seq<string>)
    requires |parts| > 0
  {
    var filename := parts[|parts| - 1];
    var suffix := Suffix(filename);
    && DotFree(parts)
    && suffix.Some?
    && SafeNames(parts[..|parts| - 1])
    && SafeName(filename[..|filename| - |suffix.value|])
  }

  function ParsePath(ns: Namespace, path: string, families: Option<set<string>>): ParseResult {
    if path == "" || '\\' in path || !SafeParts(Split(path)) then PathRejected
    else if families.Some? && (FamilyOf(path).None? || FamilyOf(path).value !in families.value) then FamilyMismatch
    else Parsed(Ref(ns, path))
  }

  /** The published pattern: namespace, safe directories, a safe stem and a YAML suffix. */
  ghost predicate InGrammar(raw: string, families: Option<set<string>>) {
    exists ns, dirs, stem, suffix :: Spells(raw, ns, dirs, stem, suffix) && Admits(families, dirs)
  }

  ghost predicate Spells(raw: string, ns: Namespace, dirs: seq<string>, stem: string, suffix: string) {
    && (forall i :: 0 <= i < |dirs| ==> SafeName(dirs[i]))
    && SafeName(stem)
    && suffix in SUFFIXES
    && raw == NamespaceName(ns) + ":" + Join(dirs + [stem + suffix])
  }

  ghost predicate Admits(families: Option<set<string>>, dirs: seq<string>) {
    families.Some? ==> dirs != [] && dirs[0] in families.value
  }

  lemma {:induction false} JoinSplit(s: string)
    ensures Join(Split(s)) == s
    ensures forall i :: 0 <= i < |Split(s)| ==> '/' !in Split(s)[i]
  {
    if s != [] {
      JoinSplit(s[1..]);
      var rest := Split(s[1..]);
      assert s == [s[0]] + s[1..];
      if s[0] == '/' {
        assert ([""] + rest)[1..] == rest;
      } else {
        var parts := [[s[0]] + rest[0]] + rest[1..];
        assert parts[1..] == rest[1..];
        if |rest| > 1 {
          assert Join(parts) == [s[0]] + (rest[0] + "/" + Join(rest[1..]));
        }
      }
    }
  }

  lemma {:induction false} SplitPart(s: string)
    requires '/' !in s
    ensures Split(s) == [s]
  {
    if s != [] {
      SplitPart(s[1..]);
      assert s == [s[0]] + s[1..];
    }
  }

  lemma {:induction false} SplitFirst(s: string, rest: string)
    requires '/' !in s
    ensures Split(s + "/" + rest) == [s] + Split(rest)
  {
    var whole := s + "/" + rest;
    if s == [] {
      assert whole[1..] == rest;
    } else {
      SplitFirst(s[1..], rest);
      assert whole[1..] == s[1..] + "/" + rest;
      assert s == [s[0]] + s[1..];
      var tail := Split(whole[1..]);
      assert tail[0] == s[1..] && tail[1..] == Split(rest);
    }
  }

  lemma {:induction false} SplitJoin(parts: seq<string>)
    requires |parts| > 0
    requires forall i :: 0 <= i < |parts| ==> '/' !in parts[i]
    ensures Split(Join(parts)) == parts
  {
    if |parts| == 1 {
      SplitPart(parts[0]);
      assert parts == [parts[0]];
    } else {
      SplitJoin(parts[1..]);
      SplitFirst(parts[0], Join(parts[1..]));
      assert parts == [parts[0]] + parts[1..];
    }
  }

  lemma {:induction false} TextInjective(a: Ref, b: Ref)
    requires Text(a) == Text(b)
    ensures a == b
  {
    assert Text(a)[0] == NamespaceName(a.namespace)[0];
    assert Text(b)[0] == NamespaceName(b.namespace)[0];
    var n := |NamespaceName(a.namespace)| + 1;
    assert Text(a)[n..] == a.path && Text(b)[n..] == b.path;
  }

  lemma {:induction false} RefTotal()
    ensures StrictTotal(RefLt)
  {
    StringTotal();
    forall a, b ensures RefLt(a, b) || RefLt(b, a) || a == b {
      if Text(a) == Text(b) { TextInjective(a, b); }
    }
  }

  /** No two references share a deployment path. */
  lemma {:induction false} PreservedPathInjective(a: Ref, b: Ref)
    requires PreservedPath(a) == PreservedPath(b)
    ensures a == b
  {
    assert PreservedPath(a)[8] == NamespaceName(a.namespace)[0];
    assert PreservedPath(b)[8] == NamespaceName(b.namespace)[0];
    var n := 8 + |NamespaceName(a.namespace)| + 1;
    assert PreservedPath(a)[n..] == a.path && PreservedPath(b)[n..] == b.path;
  }

  /** An accepted token is its own canonical spelling. */
  lemma {:induction false} ParseCanonical(raw: string, families: Option<set<string>>)
    requires Parse(raw, families).Parsed?
    ensures Text(Parse(raw, families).ref) == raw
    ensures var ref := Parse(raw, families).ref; ParsePath(ref.namespace, ref.path, families) == Parsed(ref)
  {
    if StartsWith(raw, "nodalarc:") {
      assert raw == "nodalarc:" + raw[9..];
    } else {
      assert raw == "user:" + raw[5..];
    }
  }

  lemma {:induction false} SafeNameChars(s: string)
    requires SafeName(s)
    ensures '/' !in s && '\\' !in s && '.' !in s
  {}

  lemma {:induction false} JoinChars(parts: seq<string>, c: char)
    requires |parts| > 0 && c != '/'
    requires forall i :: 0 <= i < |parts| ==> c !in parts[i]
    ensures c !in Join(parts)
  {
    if |parts| > 1 { JoinChars(parts[1..], c); }
  }

  lemma {:induction false} FilenameSuffix(stem: string, suffix: string)
    requires SafeName(stem) && suffix in SUFFIXES
    ensures Suffix(stem + suffix) == Some(suffix)
    ensures (stem + suffix)[..|stem + suffix| - |suffix|] == stem
    ensures '/' !in stem + suffix && '\\' !in stem + suffix && stem + suffix != ""
    ensures stem + suffix != "." && stem + suffix != ".."
  {
    SafeNameChars(stem);
    var name := stem + suffix;
    assert name[|name| - |suffix|..] == suffix;
    assert name[..|name| - |suffix|] == stem;
    assert suffix == ".yml" ==> name[|name| - 4] == '.';
    assert name[0] == stem[0];
  }

  lemma {:induction false} GrammarPath(dirs: seq<string>, stem: string, suffix: string)
    requires forall i :: 0 <= i < |dirs| ==> SafeName(dirs[i])
    requires SafeName(stem) && suffix in SUFFIXES
    ensures Split(Join(dirs + [stem + suffix])) == dirs + [stem + suffix]
    ensures '\\' !in Join(dirs + [stem + suffix]) && Join(dirs + [stem + suffix]) != ""
    ensures forall i :: 0 <= i < |dirs| ==> dirs[i] != "" && dirs[i] != "." && dirs[i] != ".."
  {
    var parts := dirs + [stem + suffix];
    FilenameSuffix(stem, suffix);
    forall i | 0 <= i < |dirs|
      ensures '/' !in dirs[i] && '\\' !in dirs[i] && dirs[i] != "" && dirs[i] != "." && dirs[i] != ".."
    {
      SafeNameChars(dirs[i]);
      assert dirs[i][0] != '.';
    }
    SplitJoin(parts);
    JoinChars(parts, '\\');
    assert Split("") == [""] && parts[0] != "";
  }

  lemma {:induction false} SpelledPartsSafe(dirs: seq<string>, stem: string, suffix: string)
    requires forall i :: 0 <= i < |dirs| ==> SafeName(dirs[i])
    requires forall i :: 0 <= i < |dirs| ==> dirs[i] != "" && dirs[i] != "." && dirs[i] != ".."
    requires SafeName(stem) && suffix in SUFFIXES
    ensures SafeParts(dirs + [stem + suffix])
  {
    FilenameSuffix(stem, suffix);
    var parts := dirs + [stem + suffix];
    assert parts[..|parts| - 1] == dirs;
  }

  lemma {:induction false} PathParses(ns: Namespace, families: Option<set<string>>, dirs: seq<string>, stem: string, suffix: string)
    requires forall i :: 0 <= i < |dirs| ==> SafeName(dirs[i])
    requires SafeName(stem) && suffix in SUFFIXES
    requires Admits(families, dirs)
    ensures var path := Join(dirs + [stem + suffix]); ParsePath(ns, path, families) == Parsed(Ref(ns, path))
  {
    GrammarPath(dirs, stem, suffix);
    FilenameSuffix(stem, suffix);
    SpelledPartsSafe(dirs, stem, suffix);
    var parts := dirs + [stem + suffix];
    assert Split(Join(parts)) == parts;
    assert parts[|parts| - 1] == stem + suffix && parts[..|parts| - 1] == dirs;
  }

  /** Every spelling the published pattern admits parses, to the reference it spells. */
  lemma {:induction false} GrammarParses(raw: string, families: Option<set<string>>, ns: Namespace, dirs: seq<string>, stem: string,
                      suffix: string)
    requires Spells(raw, ns, dirs, stem, suffix) && Admits(families, dirs)
    ensures Parse(raw, families) == Parsed(Ref(ns, Join(dirs + [stem + suffix])))
  {
    PathParses(ns, families, dirs, stem, suffix);
    NamespacePrefix(raw, ns, Join(dirs + [stem + suffix]));
  }

  lemma {:induction false} NamespacePrefix(raw: string, ns: Namespace, path: string)
    requires raw == NamespaceName(ns) + ":" + path
    ensures ns == Shipped ==> StartsWith(raw, "nodalarc:") && raw[9..] == path
    ensures ns == User ==> !StartsWith(raw, "nodalarc:") && StartsWith(raw, "user:") && raw[5..] == path
  {
    assert raw[0] == NamespaceName(ns)[0];
    assert ns == User && |raw| >= 9 ==> raw[..9][0] == 'u';
  }

  lemma {:induction false} ParsedPath(ns: Namespace, path: string, families: Option<set<string>>)
    returns (dirs: seq<string>, stem: string, suffix: string)
    requires ParsePath(ns, path, families).Parsed?
    ensures forall i :: 0 <= i < |dirs| ==> SafeName(dirs[i])
    ensures SafeName(stem) && suffix in SUFFIXES && path == Join(dirs + [stem + suffix])
    ensures Admits(families, dirs)
    ensures ParsePath(ns, path, families).ref == Ref(ns, path)
  {
    JoinSplit(path);
    dirs, stem, suffix := SpelledParts(Split(path));
  }

  lemma {:induction false} SpelledParts(parts: seq<string>) returns (dirs: seq<string>, stem: string, suffix: string)
    requires |parts| > 0 && SafeParts(parts)
    ensures SafeName(stem) && suffix in SUFFIXES && parts == dirs + [stem + suffix]
    ensures forall i :: 0 <= i < |dirs| ==> SafeName(dirs[i])
  {
    var filename := parts[|parts| - 1];
    suffix := Suffix(filename).value;
    stem := filename[..|filename| - |suffix|];
    dirs := parts[..|parts| - 1];
    assert filename == stem + suffix;
  }

  /** The loader accepts exactly the tokens of the published pattern. */
  lemma {:induction false} ParseIffGrammar(raw: string, families: Option<set<string>>)
    ensures Parse(raw, families).Parsed? <==> InGrammar(raw, families)
  {
    if Parse(raw, families).Parsed? {
      ParseCanonical(raw, families);
      var ref := Parse(raw, families).ref;
      var dirs, stem, suffix := ParsedPath(ref.namespace, ref.path, families);
      assert Spells(raw, ref.namespace, dirs, stem, suffix);
    }
    if InGrammar(raw, families) {
      var ns, dirs, stem, suffix :| Spells(raw, ns, dirs, stem, suffix) && Admits(families, dirs);
      GrammarParses(raw, families, ns, dirs, stem, suffix);
    }
  }

  /** A reference the loader produced parses back to itself. */
  predicate ValidRef(r: Ref) {
    Parse(Text(r), Some(FAMILIES)) == Parsed(r)
  }
}
