/** The LIST-then-WATCH reader: a set kept current by events, against the API server's history. */
module KubeReader {

  datatype Kind = Added | Modified | Deleted | Other

  datatype Event<O> = Event(kind: Kind, subject: O)

  /** How a WATCH ended; only a refusal other than HTTP 410 raises. */
  datatype Ending = TimedOut | HistoryGone | Silent | Broken | Refused

  /** One LIST and the WATCH that followed it. */
  datatype Round<O> = Round(version: nat, items: seq<O>, events: seq<Event<O>>, ending: Ending)

  datatype Outcome = Running | Stopped | Raised

  // ---- the server ----

  function Apply<O>(key: O -> string, s: map<string, O>, e: Event<O>): map<string, O> {
    match e.kind
    case Added => s[key(e.subject) := e.subject]
    case Modified => s[key(e.subject) := e.subject]
    case Deleted => s - {key(e.subject)}
    case Other => s
  }

  /** The server's changes, and its set before the first and after each of them. */
  datatype Server<O> = Server(log: seq<Event<O>>, history: seq<map<string, O>>)

  ghost predicate Consistent<O>(key: O -> string, server: Server<O>) {
    && |server.history| == |server.log| + 1
    && forall v, w :: 0 <= v < |server.log| && w == v + 1 ==> server.history[w] == Apply(key, server.history[v], server.log[v])
  }

  /** A listing holds every object of the set once, in any order. */
  ghost predicate Lists<O(!new)>(key: O -> string, items: seq<O>, s: map<string, O>) {
    && (forall i, j :: 0 <= i < j < |items| ==> key(items[i]) != key(items[j]))
    && (forall i :: 0 <= i < |items| ==> key(items[i]) in s && s[key(items[i])] == items[i])
    && (forall name :: name in s ==> exists i :: 0 <= i < |items| && key(items[i]) == name)
  }

  /** Events other than bookmarks among the first k. */
  function Changes<O>(events: seq<Event<O>>, k: nat): (r: nat)
    requires k <= |events|
    ensures r <= k
  {
    if k == 0 then 0 else Changes(events, k - 1) + if events[k - 1].kind.Other? then 0 else 1
  }

  lemma {:induction false} ChangesGrow<O>(events: seq<Event<O>>, j: nat, k: nat)
    requires j <= k <= |events|
    ensures Changes(events, j) <= Changes(events, k)
    decreases k - j
  {
    if j < k { ChangesGrow(events, j, k - 1); }
  }

  /** The version a round ends at. */
  function Last<O>(r: Round<O>): nat {
    r.version + Changes(r.events, |r.events|)
  }

  /** A round as the server answers it: the set at the listed version, then the changes from there in order. */
  ghost predicate Served<O(!new)>(key: O -> string, server: Server<O>, r: Round<O>) {
    && Consistent(key, server) && Last(r) <= |server.log|
    && Lists(key, r.items, server.history[r.version])
    && forall i {:trigger InOrder(server.log, r, i)} :: 0 <= i < |r.events| ==> InOrder(server.log, r, i)
  }

  /** The i-th event is a bookmark, or the change that comes next. */
  ghost predicate InOrder<O>(log: seq<Event<O>>, r: Round<O>, i: nat)
    requires i < |r.events|
  {
    var v := r.version + Changes(r.events, i);
    r.events[i].kind.Other? || (v < |log| && r.events[i] == log[v])
  }

  /** What the reader assumes of the server: served rounds, and no LIST older than the last event seen. */
  ghost predicate Answers<O(!new)>(key: O -> string, server: Server<O>, rounds: seq<Round<O>>) {
    && (forall k :: 0 <= k < |rounds| ==> Served(key, server, rounds[k]))
    && (forall j, k :: 0 <= j && k == j + 1 && k < |rounds| ==> Last(rounds[j]) <= rounds[k].version)
  }

  // ---- what the reader should yield ----

  /** The listed version and then each later one, up to n changes. */
  function Stretch(v: nat, n: nat): (r: seq<nat>)
    ensures |r| == n + 1 && forall i :: 0 <= i <= n ==> r[i] == v + i
  {
    if n == 0 then [v] else Stretch(v, n - 1) + [v + n]
  }

  /** The versions of the first k rounds. */
  function Versions<O>(rounds: seq<Round<O>>, k: nat): seq<nat>
    requires k <= |rounds|
  {
    if k == 0 then [] else Versions(rounds, k - 1) + Stretch(rounds[k - 1].version, Changes(rounds[k - 1].events, |rounds[k - 1].events|))
  }

  ghost predicate NonDecreasing(s: seq<nat>) {
    forall i, j :: 0 <= i < j < |s| ==> s[i] <= s[j]
  }

  /** Every set yielded is the server's at the version beside it. */
  ghost predicate Tracks<O>(history: seq<map<string, O>>, sets: seq<map<string, O>>, versions: seq<nat>) {
    && |sets| == |versions|
    && forall i :: 0 <= i < |sets| ==> versions[i] < |history| && sets[i] == history[versions[i]]
  }

  /** Versions never go backwards, across any number of lists and watches. */
  lemma {:induction false} VersionsNeverGoBack<O(!new)>(key: O -> string, server: Server<O>, rounds: seq<Round<O>>, k: nat)
    requires Answers(key, server, rounds) && k <= |rounds|
    ensures NonDecreasing(Versions(rounds, k))
    ensures k > 0 ==> forall v :: v in Versions(rounds, k) ==> v <= Last(rounds[k - 1])
  {
    if k > 0 {
      VersionsNeverGoBack(key, server, rounds, k - 1);
      var before, r := Versions(rounds, k - 1), rounds[k - 1];
      var stretch := Stretch(r.version, Changes(r.events, |r.events|));
      assert k > 1 ==> Last(rounds[k - 2]) <= r.version;
      assert forall v :: v in before ==> v <= r.version;
      assert forall i :: 0 <= i < |stretch| ==> stretch[i] == r.version + i;
      assert forall i :: 0 <= i < |before| ==> before[i] in before;
    }
  }

  lemma {:induction false} VersionsPrefix<O>(rounds: seq<Round<O>>, j: nat, k: nat)
    requires j <= k <= |rounds|
    ensures Versions(rounds, j) <= Versions(rounds, k)
    decreases k - j
  {
    if j < k { VersionsPrefix(rounds, j, k - 1); }
  }

  // ---- the reader ----

  /** The dictionary built from a listing. */
  method Index<O(!new)>(key: O -> string, items: seq<O>, ghost s: map<string, O>) returns (objects: map<string, O>)
    requires Lists(key, items, s)
    ensures objects == s
  {
    objects := map[];
    for i := 0 to |items|
      invariant forall name :: name in objects <==> exists m :: 0 <= m < i && key(items[m]) == name
      invariant forall m :: 0 <= m < i ==> objects[key(items[m])] == items[m]
    {
      objects := objects[key(items[i]) := items[i]];
    }
    assert forall name :: name in s <==> name in objects;
  }

  lemma {:induction false} NextSet<O(!new)>(key: O -> string, server: Server<O>, r: Round<O>, i: nat)
    requires Served(key, server, r) && i < |r.events| && !r.events[i].kind.Other?
    ensures var v := r.version + Changes(r.events, i);
            v < |server.log| && Apply(key, server.history[v], r.events[i]) == server.history[v + 1]
  {
    assert InOrder(server.log, r, i);
  }

  /** Applies the events of one WATCH in place, yielding after each change, until a stop check ends it. */
  method Follow<O(!new)>(key: O -> string, r: Round<O>, objects: map<string, O>, stopped: nat -> bool, check: nat, ghost server: Server<O>)
    returns (sets: seq<map<string, O>>, check': nat, done: bool)
    requires Served(key, server, r) && objects == server.history[r.version]
    ensures |sets| <= Changes(r.events, |r.events|) && (!done ==> |sets| == Changes(r.events, |r.events|))
    ensures forall i :: 0 <= i < |sets| ==> r.version + 1 + i <= |server.log| && sets[i] == server.history[r.version + 1 + i]
  {
    var current := objects;
    sets, check', done := [], check, false;
    for i := 0 to |r.events|
      invariant |sets| == Changes(r.events, i) && r.version + |sets| <= |server.log| && current == server.history[r.version + |sets|]
      invariant forall k :: 0 <= k < |sets| ==> sets[k] == server.history[r.version + 1 + k]
    {
      ChangesGrow(r.events, i, |r.events|);
      if stopped(check') { return sets, check', true; }
      check' := check' + 1;
      var e := r.events[i];
      if !e.kind.Other? {
        NextSet(key, server, r, i);
        if e.kind.Deleted? {
          current := current - {key(e.subject)};
        } else {
          current := current[key(e.subject) := e.subject];
        }
        sets := sets + [current];
      }
    }
  }

  /** One LIST and its WATCH: the listed set and then one set per change. */
  method ReadRound<O(!new)>(key: O -> string, r: Round<O>, stopped: nat -> bool, check: nat, ghost server: Server<O>)
    returns (sets: seq<map<string, O>>, check': nat, outcome: Outcome)
    requires Served(key, server, r)
    ensures 1 <= |sets| <= Changes(r.events, |r.events|) + 1 && (outcome.Running? ==> |sets| == Changes(r.events, |r.events|) + 1)
    ensures Tracks(server.history, sets, Stretch(r.version, |sets| - 1))
  {
    var objects := Index(key, r.items, server.history[r.version]);
    if stopped(check) { return [objects], check, Stopped; }
    var more, next, done := Follow(key, r, objects, stopped, check + 1, server);
    sets, check' := [objects] + more, next;
    if done { return sets, check', Stopped; }
    if r.ending.Refused? { return sets, check', Raised; }
    outcome := if stopped(next) then Stopped else Running;
    check' := next + 1;
  }

  lemma {:induction false} TracksMore<O>(history: seq<map<string, O>>, sets: seq<map<string, O>>, versions: seq<nat>, more: seq<map<string, O>>, later: seq<nat>)
    requires Tracks(history, sets, versions) && Tracks(history, more, later)
    ensures Tracks(history, sets + more, versions + later)
  {}

  /** A list and n of its changes are the start of their round's versions. */
  lemma {:induction false} StretchStarts<O>(rounds: seq<Round<O>>, k: nat, n: nat)
    requires k < |rounds| && n <= Changes(rounds[k].events, |rounds[k].events|)
    ensures Versions(rounds, k) + Stretch(rounds[k].version, n) <= Versions(rounds, k + 1) <= Versions(rounds, |rounds|)
  {
    assert Stretch(rounds[k].version, n) <= Stretch(rounds[k].version, Changes(rounds[k].events, |rounds[k].events|));
    VersionsPrefix(rounds, k + 1, |rounds|);
  }

  lemma {:induction false} Advance<O>(history: seq<map<string, O>>, rounds: seq<Round<O>>, k: nat, sets: seq<map<string, O>>, more: seq<map<string, O>>)
    requires k < |rounds| && Tracks(history, sets, Versions(rounds, k))
    requires 1 <= |more| <= Changes(rounds[k].events, |rounds[k].events|) + 1 && Tracks(history, more, Stretch(rounds[k].version, |more| - 1))
    ensures Tracks(history, sets + more, Versions(rounds, k) + Stretch(rounds[k].version, |more| - 1))
    ensures Versions(rounds, k) + Stretch(rounds[k].version, |more| - 1) <= Versions(rounds, |rounds|)
    ensures |more| == Changes(rounds[k].events, |rounds[k].events|) + 1 ==>
              Versions(rounds, k) + Stretch(rounds[k].version, |more| - 1) == Versions(rounds, k + 1)
  {
    StretchStarts(rounds, k, |more| - 1);
    TracksMore(history, sets, Versions(rounds, k), more, Stretch(rounds[k].version, |more| - 1));
  }

  /** `list_then_watch` over a prefix of a run: each set is the server's at its version, and no version is skipped or repeated within a watch. */
  method ListThenWatch<O(!new)>(key: O -> string, rounds: seq<Round<O>>, stopped: nat -> bool, ghost server: Server<O>)
    returns (sets: seq<map<string, O>>, outcome: Outcome, ghost versions: seq<nat>)
    requires Answers(key, server, rounds)
    ensures Tracks(server.history, sets, versions) && NonDecreasing(versions)
    ensures versions <= Versions(rounds, |rounds|)
    ensures outcome.Running? ==> versions == Versions(rounds, |rounds|)
    ensures rounds != [] ==> sets != []
  {
    sets, outcome, versions := ReadRounds(key, rounds, stopped, server);
    PrefixNeverGoesBack(key, server, rounds, versions);
  }

  /** The outer loop: rounds until a stop check or a refusal. */
  method ReadRounds<O(!new)>(key: O -> string, rounds: seq<Round<O>>, stopped: nat -> bool, ghost server: Server<O>)
    returns (sets: seq<map<string, O>>, outcome: Outcome, ghost versions: seq<nat>)
    requires forall k :: 0 <= k < |rounds| ==> Served(key, server, rounds[k])
    ensures Tracks(server.history, sets, versions) && versions <= Versions(rounds, |rounds|)
    ensures outcome.Running? ==> versions == Versions(rounds, |rounds|)
    ensures rounds != [] ==> sets != []
  {
    sets, versions, outcome := [], [], Running;
    var check := 0;
    for k := 0 to |rounds|
      invariant Tracks(server.history, sets, versions) && versions == Versions(rounds, k)
      invariant k > 0 ==> sets != []
    {
      var more;
      more, check, outcome := ReadRound(key, rounds[k], stopped, check, server);
      Advance(server.history, rounds, k, sets, more);
      sets, versions := sets + more, Versions(rounds, k) + Stretch(rounds[k].version, |more| - 1);
      if !outcome.Running? { return; }
    }
  }

  lemma {:induction false} PrefixNeverGoesBack<O(!new)>(key: O -> string, server: Server<O>, rounds: seq<Round<O>>, versions: seq<nat>)
    requires Answers(key, server, rounds) && versions <= Versions(rounds, |rounds|)
    ensures NonDecreasing(versions)
  {
    VersionsNeverGoBack(key, server, rounds, |rounds|);
    var all := Versions(rounds, |rounds|);
    assert forall i :: 0 <= i < |versions| ==> versions[i] == all[i];
  }
}
