/**
 The reverse-component path trie on values: positions, the lists of paths stored at them, and
 what inserts and lookups make of them. Lookups are not read-only: they may extend a list.
 */
module PathTrie {
  import opened Basics

  // ---------------------------------------------------------------------------------------------
  // Paths

  /** `s.split("/")` */
  function Split(s: string): (parts: seq<string>)
    ensures parts != []
  {
    if s == [] then [""]
    else if s[0] == '/' then [""] + Split(s[1..])
    else
      var rest := Split(s[1..]);
      [[s[0]] + rest[0]] + rest[1..]
  }

  function JoinedBySlash(parts: seq<string>): string {
    if parts == [] then "" else if |parts| == 1 then parts[0] else parts[0] + "/" + JoinedBySlash(parts[1..])
  }

  /** The parts are slash-free and joined by slashes they are the string. */
  lemma {:induction false} SplitJoins(s: string)
    ensures JoinedBySlash(Split(s)) == s && forall i :: 0 <= i < |Split(s)| ==> '/' !in Split(s)[i]
  {
    if s != [] {
      SplitJoins(s[1..]);
      var rest := Split(s[1..]);
      if s[0] == '/' {
        assert Split(s)[1..] == rest;
        assert s == "" + "/" + s[1..];
      } else {
        assert s == [s[0]] + s[1..] && Split(s)[1..] == rest[1..];
        if |rest| > 1 {
          assert [s[0]] + (rest[0] + "/" + JoinedBySlash(rest[1..])) == ([s[0]] + rest[0]) + "/" + JoinedBySlash(rest[1..]);
        }
      }
    }
  }

  /** Path components from the last to the first, in lower case. */
  type Position = seq<string>

  function Key(lower: string -> string, path: string): (key: Position)
    ensures key != []
  {
    var parts := Split(path);
    seq(|parts|, i requires 0 <= i < |parts| => lower(parts[|parts| - 1 - i]))
  }

  /** Two paths share a key exactly when their components agree in lower case. */
  lemma SameKeyExactlyWhen(lower: string -> string, x: string, y: string)
    ensures Key(lower, x) == Key(lower, y)
            <==> && |Split(x)| == |Split(y)|
                 && forall i :: 0 <= i < |Split(x)| ==> lower(Split(x)[i]) == lower(Split(y)[i])
  {
    hide Split;
    var p, q, k, l := Split(x), Split(y), Key(lower, x), Key(lower, y);
    assert |k| == |p| && |l| == |q|;
    if k == l {
      forall i | 0 <= i < |p| ensures lower(p[i]) == lower(q[i]) {
        assert k[|p| - 1 - i] == l[|p| - 1 - i];
      }
    } else if |p| == |q| {
      var i :| 0 <= i < |k| && k[i] != l[i];
      assert lower(p[|p| - 1 - i]) != lower(q[|p| - 1 - i]);
    }
  }

  /** The key begins with the last component. */
  lemma KeyBeginsWithLast(lower: string -> string, x: string)
    ensures Key(lower, x)[0] == lower(Split(x)[|Split(x)| - 1])
  {
  }

  /** The list kept at each node of the tree. */
  type Trie = map<Position, seq<string>>

  const EMPTY: Trie := map[[] := []]

  function Parent(p: Position): Position {
    if p == [] then [] else p[..|p| - 1]
  }

  ghost predicate PrefixClosed(t: Trie) {
    [] in t && forall p {:trigger Parent(p)} :: p in t ==> Parent(p) in t
  }

  // ---------------------------------------------------------------------------------------------
  // Insert

  /** Makes nodes for the first `i` components of `key`. */
  function Planted(t: Trie, key: Position, i: nat): Trie
    requires i <= |key|
  {
    if i == 0 then t
    else
      var u := Planted(t, key, i - 1);
      if key[..i] in u then u else u[key[..i] := []]
  }

  lemma {:induction false} PlantedNodes(t: Trie, key: Position, i: nat)
    requires i <= |key| && PrefixClosed(t)
    ensures var u := Planted(t, key, i);
            && PrefixClosed(u)
            && (forall p :: p in u <==> p in t || (|p| <= i && p <= key))
            && (forall p :: p in u ==> u[p] == if p in t then t[p] else [])
  {
    if i > 0 {
      PlantedNodes(t, key, i - 1);
      OneMoreNode(t, Planted(t, key, i - 1), key, i);
    }
  }

  lemma OneMoreNode(t: Trie, u: Trie, key: Position, i: nat)
    requires 0 < i <= |key| && PrefixClosed(u)
    requires forall p :: p in u <==> p in t || (|p| <= i - 1 && p <= key)
    requires forall p :: p in u ==> u[p] == if p in t then t[p] else []
    ensures var w := if key[..i] in u then u else u[key[..i] := []];
            && PrefixClosed(w)
            && (forall p :: p in w <==> p in t || (|p| <= i && p <= key))
            && (forall p :: p in w ==> w[p] == if p in t then t[p] else [])
  {
    var at := key[..i];
    var w := if at in u then u else u[at := []];
    assert Parent(at) == key[..i - 1];
    assert key[..i - 1] <= key && at <= key && key[..i - 1] in u;
    forall p ensures p in w <==> p in t || (|p| <= i && p <= key) {
      assert p in w <==> p in u || p == at;
      assert |p| == i && p <= key ==> p == at;
    }
    forall p | p in w ensures Parent(p) in w {
    }
  }

  function Inserted(lower: string -> string, t: Trie, path: string): Trie
    requires PrefixClosed(t)
  {
    var key := Key(lower, path);
    PlantedNodes(t, key, |key|);
    var u := Planted(t, key, |key|);
    assert key[..|key|] == key;
    u[key := u[key] + [path]]
  }

  // ---------------------------------------------------------------------------------------------
  // Lookup

  /** The components that lead on from a node. */
  ghost function Branches(t: Trie, p: Position): set<string> {
    set q | q in t && |q| == |p| + 1 && q[..|p|] == p :: q[|p|]
  }

  lemma BranchesLeadOn(t: Trie, p: Position, c: string)
    ensures c in Branches(t, p) <==> p + [c] in t
  {
    if p + [c] in t {
      assert (p + [c])[..|p|] == p && (p + [c])[|p|] == c;
    }
    if q :| q in t && |q| == |p| + 1 && q[..|p|] == p && q[|p|] == c {
      assert q == p + [c];
    }
  }

  ghost function Below(t: Trie, p: Position): set<Position> {
    set q | q in t && p < q
  }

  ghost function Only(s: set<string>): string
    requires |s| == 1
  {
    var c :| c in s; c
  }

  lemma OnlyIs(s: set<string>, c: string)
    requires |s| == 1 && c in s
    ensures Only(s) == c
  {
    assert |s - {c}| == 0;
    assert Only(s) !in s - {c};
  }

  lemma BelowShrinks(t: Trie, p: Position, c: string)
    requires p + [c] in t
    ensures Below(t, p + [c]) < Below(t, p)
  {
    assert p + [c] in Below(t, p) && p + [c] !in Below(t, p + [c]);
  }

  /** The first node with paths down a straight branch below `p`. */
  ghost function Drilled(t: Trie, p: Position): Option<Position>
    decreases Below(t, p)
  {
    if |Branches(t, p)| != 1 then None
    else
      var c := Only(Branches(t, p));
      BranchesLeadOn(t, p, c);
      BelowShrinks(t, p, c);
      if t[p + [c]] != [] then Some(p + [c]) else Drilled(t, p + [c])
  }

  ghost function Held(t: Trie, key: Position, holder: Option<nat>): seq<string> {
    if holder.Some? && holder.value <= |key| && key[..holder.value] in t then t[key[..holder.value]] else []
  }

  /**
   The lookup from node `key[..i]` on. `holder` is the node whose list the results are, if any:
   drilled-down paths are appended to that very list. `end` says that the node itself has paths.
   */
  ghost function FoundFrom(t: Trie, key: Position, i: nat, holder: Option<nat>, end: bool): (Trie, seq<string>)
    requires i <= |key|
    decreases |key| - i
  {
    if i < |key| && key[..i + 1] in t then
      var isEnd := t[key[..i + 1]] != [];
      FoundFrom(t, key, i + 1, if isEnd then Some(i + 1) else holder, isEnd)
    else
      var drilled := if !end && i > 0 then Drilled(t, key[..i]) else None;
      if drilled.Some? && drilled.value in t then
        var results := Held(t, key, holder) + t[drilled.value];
        (if holder.Some? && holder.value <= |key| then t[key[..holder.value] := results] else t, results)
      else
        (t, Held(t, key, holder))
  }

  ghost function Found(t: Trie, key: Position): (Trie, seq<string>) {
    FoundFrom(t, key, 0, None, false)
  }

  // ---------------------------------------------------------------------------------------------
  // Choosing among the results

  /** Similarity of two strings; only its extreme values matter. */
  ghost predicate Similarity(ratio: (string, string) -> real) {
    forall a, b :: 0.0 <= ratio(a, b) <= 1.0 && (ratio(a, b) == 1.0 <==> a == b)
  }

  /** The most similar possibility so far, with its ratio; the first one wins a tie. */
  function Best(ratio: (string, string) -> real, path: string, possibilities: seq<string>): (real, string) {
    if possibilities == [] then (-1.0, "")
    else
      var best := Best(ratio, path, possibilities[..|possibilities| - 1]);
      var p := possibilities[|possibilities| - 1];
      if ratio(path, p) > best.0 then (ratio(path, p), p) else best
  }

  lemma {:induction false} BestIsMostSimilar(ratio: (string, string) -> real, path: string, possibilities: seq<string>)
    requires Similarity(ratio) && possibilities != []
    ensures var best := Best(ratio, path, possibilities);
            && best.1 in possibilities && best.0 == ratio(path, best.1)
            && forall p :: p in possibilities ==> ratio(path, p) <= best.0
  {
    var k := BestIsFirst(ratio, path, possibilities);
    forall p | p in possibilities ensures ratio(path, p) <= ratio(path, possibilities[k]) {
      var j :| 0 <= j < |possibilities| && possibilities[j] == p;
    }
  }

  /** No possibility is more similar than the best one, and none before it as similar. */
  lemma {:induction false} BestIsFirst(ratio: (string, string) -> real, path: string, possibilities: seq<string>) returns (k: nat)
    requires Similarity(ratio) && possibilities != []
    ensures k < |possibilities| && Best(ratio, path, possibilities) == (ratio(path, possibilities[k]), possibilities[k])
    ensures forall j :: 0 <= j < |possibilities| ==> ratio(path, possibilities[j]) <= ratio(path, possibilities[k])
    ensures forall j :: 0 <= j < k ==> ratio(path, possibilities[j]) < ratio(path, possibilities[k])
  {
    var last := |possibilities| - 1;
    var init := possibilities[..last];
    if init == [] {
      k := 0;
    } else {
      k := BestIsFirst(ratio, path, init);
      assert forall j :: 0 <= j < last ==> init[j] == possibilities[j];
      if ratio(path, possibilities[last]) > ratio(path, possibilities[k]) {
        k := last;
      }
    }
  }

  function Distance(s: string, length: int): nat {
    if |s| < length then length - |s| else |s| - length
  }

  /** The first of the paths whose length is closest to `length`. */
  function Closest(paths: seq<string>, length: int): (closest: string)
    requires paths != []
  {
    if |paths| == 1 then paths[0]
    else
      var c := Closest(paths[..|paths| - 1], length);
      var p := paths[|paths| - 1];
      if Distance(p, length) < Distance(c, length) then p else c
  }

  /** No length differs less from the given one than that of the chosen path, and none before it as little. */
  lemma {:induction false} ClosestIsClosest(paths: seq<string>, length: int) returns (k: nat)
    requires paths != []
    ensures k < |paths| && Closest(paths, length) == paths[k]
    ensures var d := Max(|paths[k]| - length, length - |paths[k]|);
            && (forall j :: 0 <= j < |paths| ==> d <= Max(|paths[j]| - length, length - |paths[j]|))
            && (forall j :: 0 <= j < k ==> d < Max(|paths[j]| - length, length - |paths[j]|))
  {
    var last := |paths| - 1;
    if last == 0 {
      k := 0;
    } else {
      var init := paths[..last];
      k := ClosestIsClosest(init, length);
      assert forall j :: 0 <= j < last ==> init[j] == paths[j];
      if Distance(paths[last], length) < Distance(paths[k], length) {
        k := last;
      }
    }
  }

  function WithoutDots(s: string): string {
    if s == [] then [] else (if s[0] == '.' then [] else [s[0]]) + WithoutDots(s[1..])
  }

  /** `path.replace(".", "").startswith("/")` */
  predicate Rooted(path: string) {
    var s := WithoutDots(path);
    s != [] && s[0] == '/'
  }

  /** A path is rooted exactly when it has a slash with nothing but dots before it. */
  lemma {:induction false} RootedExactlyWhen(path: string)
    ensures Rooted(path) <==> exists i :: 0 <= i < |path| && path[i] == '/' && forall j :: 0 <= j < i ==> path[j] == '.'
  {
    if path != [] {
      RootedExactlyWhen(path[1..]);
      if path[0] == '.' {
        if i :| 0 <= i < |path[1..]| && path[1..][i] == '/' && forall j :: 0 <= j < i ==> path[1..][j] == '.' {
          assert path[i + 1] == '/' && forall j :: 0 < j < i + 1 ==> path[j] == path[1..][j - 1];
        }
        if i :| 0 <= i < |path| && path[i] == '/' && forall j :: 0 <= j < i ==> path[j] == '.' {
          assert path[1..][i - 1] == '/' && forall j :: 0 <= j < i - 1 ==> path[1..][j] == path[j + 1];
        }
      }
    }
  }

  function Reversed(s: seq<string>): seq<string> {
    seq(|s|, i requires 0 <= i < |s| => s[|s| - 1 - i])
  }

  /** `ancestors` 0 stands for none given. */
  function Chosen(ratio: (string, string) -> real, path: string, results: seq<string>, ancestors: int): Option<string> {
    if results == [] then None
    else if |results| == 1 then Some(results[0])
    else if Rooted(path) && ancestors != 0 then Some(Closest(results, ancestors))
    else Some(Best(ratio, path, Reversed(results)).1)
  }

  lemma ReversedMembers(s: seq<string>, x: string)
    ensures x in Reversed(s) <==> x in s
  {
    if x in s {
      var i :| 0 <= i < |s| && s[i] == x;
      assert Reversed(s)[|s| - 1 - i] == x;
    }
  }

  lemma ChosenIsResult(ratio: (string, string) -> real, path: string, results: seq<string>, ancestors: int)
    requires Similarity(ratio) && results != []
    ensures var c := Chosen(ratio, path, results, ancestors); c.Some? && c.value in results
    ensures path in results && (ancestors == 0 || !Rooted(path)) ==> Chosen(ratio, path, results, ancestors) == Some(path)
  {
    var r := Reversed(results);
    if |results| > 1 && Rooted(path) && ancestors != 0 {
      var k := ClosestIsClosest(results, ancestors);
    } else if |results| > 1 {
      BestIsMostSimilar(ratio, path, r);
      ReversedMembers(results, Best(ratio, path, r).1);
      ReversedMembers(results, path);
    }
  }

  /**
   Among several results, a path that begins with a slash, dots aside, goes to the one whose length is
   closest to the number of ancestors, if one is given; any other to the most similar one, the last
   of those in a tie.
   */
  lemma ChoiceAmongSeveral(ratio: (string, string) -> real, path: string, results: seq<string>, ancestors: int) returns (k: nat)
    requires Similarity(ratio) && |results| > 1
    ensures k < |results| && Chosen(ratio, path, results, ancestors) == Some(results[k])
    ensures if ancestors != 0 && exists i :: 0 <= i < |path| && path[i] == '/' && forall j :: 0 <= j < i ==> path[j] == '.'
            then
              var d := Max(|results[k]| - ancestors, ancestors - |results[k]|);
              && (forall j :: 0 <= j < |results| ==> d <= Max(|results[j]| - ancestors, ancestors - |results[j]|))
              && (forall j :: 0 <= j < k ==> d < Max(|results[j]| - ancestors, ancestors - |results[j]|))
            else
              && (forall j :: 0 <= j < |results| ==> ratio(path, results[j]) <= ratio(path, results[k]))
              && (forall j :: k < j < |results| ==> ratio(path, results[j]) < ratio(path, results[k]))
  {
    RootedExactlyWhen(path);
    hide Rooted;
    if Rooted(path) && ancestors != 0 {
      k := ClosestIsClosest(results, ancestors);
    } else {
      var r, n := Reversed(results), |results|;
      var l := BestIsFirst(ratio, path, r);
      k := n - 1 - l;
      assert forall j :: 0 <= j < n ==> results[j] == r[n - 1 - j];
    }
  }

  ghost function Answer(lower: string -> string, ratio: (string, string) -> real, t: Trie, path: string, ancestors: int): Option<string> {
    Chosen(ratio, path, Found(t, Key(lower, path)).1, ancestors)
  }

  // ---------------------------------------------------------------------------------------------
  // Runs of inserts and lookups

  datatype Op = Insert(path: string) | Lookup(path: string)

  function InsertedPaths(ops: seq<Op>): set<string> {
    set op | op in ops && op.Insert? :: op.path
  }

  /** What every reachable tree satisfies, `paths` being the inserted ones. */
  ghost predicate Inv(lower: string -> string, t: Trie, paths: set<string>) {
    && PrefixClosed(t)
    && Sound(lower, t, paths) && Complete(lower, t, paths)
    && (forall p {:trigger Leads(lower, p, paths)} :: p in t && p != [] ==> Leads(lower, p, paths))
  }

  /** Whatever a node lists was inserted, and its key goes through the node. */
  ghost predicate Sound(lower: string -> string, t: Trie, paths: set<string>) {
    forall p, x :: p in t && x in t[p] ==> x in paths && p <= Key(lower, x)
  }

  /** Every inserted path is listed where its key ends. */
  ghost predicate Complete(lower: string -> string, t: Trie, paths: set<string>) {
    forall x :: x in paths ==> Key(lower, x) in t && x in t[Key(lower, x)]
  }

  ghost predicate Leads(lower: string -> string, p: Position, paths: set<string>) {
    exists x :: x in paths && p <= Key(lower, x)
  }

  lemma InsertKeepsInv(lower: string -> string, t: Trie, paths: set<string>, path: string)
    requires Inv(lower, t, paths)
    ensures Inv(lower, Inserted(lower, t, path), paths + {path})
  {
    var u, all := Inserted(lower, t, path), paths + {path};
    InsertedNodes(lower, t, path);
    InsertKeepsSound(lower, t, u, paths, path);
    InsertKeepsComplete(lower, t, u, paths, path);
    hide Key, Inserted, Sound, Complete;
    forall p | p in u && p != [] ensures Leads(lower, p, all) {
      if p in t {
        assert Leads(lower, p, paths);
        var x :| x in paths && p <= Key(lower, x);
        assert x in all;
      } else {
        assert path in all && p <= Key(lower, path);
      }
    }
  }

  /** `u` is `t` with one more path. */
  ghost predicate Gains(lower: string -> string, t: Trie, u: Trie, path: string) {
    var key := Key(lower, path);
    && key in u && (forall p :: p in t ==> p in u)
    && (forall p :: p in u ==> u[p] == (if p in t then t[p] else []) + if p == key then [path] else [])
  }

  lemma InsertKeepsSound(lower: string -> string, t: Trie, u: Trie, paths: set<string>, path: string)
    requires Gains(lower, t, u, path) && Sound(lower, t, paths)
    ensures Sound(lower, u, paths + {path})
  {
    hide Key;
  }

  lemma InsertKeepsComplete(lower: string -> string, t: Trie, u: Trie, paths: set<string>, path: string)
    requires Gains(lower, t, u, path) && Complete(lower, t, paths)
    ensures Complete(lower, u, paths + {path})
  {
    hide Key;
    forall x | x in paths + {path} ensures Key(lower, x) in u && x in u[Key(lower, x)] {
      if x in paths {
        assert Key(lower, x) in t && x in t[Key(lower, x)];
      }
    }
  }

  /** An insert adds the nodes on the way and one entry at the end of the list of the last node. */
  lemma InsertedNodes(lower: string -> string, t: Trie, path: string)
    requires PrefixClosed(t)
    ensures var u, key := Inserted(lower, t, path), Key(lower, path);
            PrefixClosed(u) && Gains(lower, t, u, path) && forall p :: p in u <==> p in t || p <= key
  {
    var key := Key(lower, path);
    PlantedNodes(t, key, |key|);
  }

  lemma {:induction false} DrilledIsBelow(t: Trie, p: Position)
    ensures Drilled(t, p).Some? ==> Drilled(t, p).value in t && p < Drilled(t, p).value && t[Drilled(t, p).value] != []
    decreases Below(t, p)
  {
    if |Branches(t, p)| == 1 {
      var c := Only(Branches(t, p));
      BranchesLeadOn(t, p, c);
      BelowShrinks(t, p, c);
      DrilledIsBelow(t, p + [c]);
    }
  }

  /** What is known of the lookup at node `key[..i]`. */
  ghost predicate Midway(t: Trie, key: Position, i: nat, holder: Option<nat>, end: bool) {
    && i <= |key| && key[..i] in t
    && (holder.Some? ==> 0 < holder.value <= i && key[..holder.value] in t && t[key[..holder.value]] != [])
    && (end <==> holder == Some(i))
    && (i > 0 ==> (end <==> t[key[..i]] != []))
  }

  /**
   A lookup leaves the shape of the tree alone, changes at most one list, on the path of the key,
   and only by appending the list of a node further down.
   */
  ghost predicate Appends(t: Trie, u: Trie, key: Position) {
    && u.Keys == t.Keys
    && (u == t || exists i, p :: 0 < i <= |key| && key[..i] in t && p in t && key[..i] < p
                                 && u == t[key[..i] := t[key[..i]] + t[p]])
  }

  lemma {:induction false} FoundAppends(t: Trie, key: Position, i: nat, holder: Option<nat>, end: bool)
    requires Midway(t, key, i, holder, end)
    ensures Appends(t, FoundFrom(t, key, i, holder, end).0, key)
    decreases |key| - i
  {
    if i < |key| && key[..i + 1] in t {
      var isEnd := t[key[..i + 1]] != [];
      FoundAppends(t, key, i + 1, if isEnd then Some(i + 1) else holder, isEnd);
    } else if !end && i > 0 {
      DrilledIsBelow(t, key[..i]);
      var drilled := Drilled(t, key[..i]);
      if drilled.Some? && holder.Some? {
        assert key[..holder.value] <= key[..i];
        assert 0 < holder.value <= |key| && key[..holder.value] in t && drilled.value in t && key[..holder.value] < drilled.value;
      }
    }
  }

  lemma AppendsKeepsInv(lower: string -> string, t: Trie, u: Trie, key: Position, paths: set<string>)
    requires Inv(lower, t, paths) && Appends(t, u, key)
    ensures Inv(lower, u, paths)
  {
    if u != t {
      var i, p :| 0 < i <= |key| && key[..i] in t && p in t && key[..i] < p && u == t[key[..i] := t[key[..i]] + t[p]];
      forall q, x | q in u && x in u[q] ensures x in paths && q <= Key(lower, x) {
        if q == key[..i] && x in t[p] {
          assert p <= Key(lower, x);
        }
      }
    }
  }

  ghost function Step(lower: string -> string, t: Trie, op: Op): Trie
    requires PrefixClosed(t)
  {
    match op
    case Insert(path) => Inserted(lower, t, path)
    case Lookup(path) => Found(t, Key(lower, path)).0
  }

  lemma StartsMidway(t: Trie, key: Position)
    requires [] in t
    ensures Midway(t, key, 0, None, false)
  {
    assert key[..0] == [];
  }

  lemma StepKeepsInv(lower: string -> string, t: Trie, paths: set<string>, op: Op)
    requires Inv(lower, t, paths)
    ensures Inv(lower, Step(lower, t, op), paths + InsertedPaths([op]))
  {
    match op
    case Insert(path) =>
      InsertKeepsInv(lower, t, paths, path);
      assert op in [op];
      assert InsertedPaths([op]) == {path};
    case Lookup(path) =>
      StartsMidway(t, Key(lower, path));
      FoundAppends(t, Key(lower, path), 0, None, false);
      AppendsKeepsInv(lower, t, Found(t, Key(lower, path)).0, Key(lower, path), paths);
      assert InsertedPaths([op]) == {};
      assert paths + {} == paths;
  }

  /** The tree after a run, from the empty tree. */
  ghost function Run(lower: string -> string, ops: seq<Op>): (t: Trie)
    ensures PrefixClosed(t)
  {
    if ops == [] then EMPTY
    else
      var t := Run(lower, ops[..|ops| - 1]);
      StepKeepsClosed(lower, t, ops[|ops| - 1]);
      Step(lower, t, ops[|ops| - 1])
  }

  lemma StepKeepsClosed(lower: string -> string, t: Trie, op: Op)
    requires PrefixClosed(t)
    ensures PrefixClosed(Step(lower, t, op))
  {
    match op
    case Insert(path) => InsertedNodes(lower, t, path);
    case Lookup(path) =>
      StartsMidway(t, Key(lower, path));
      FoundAppends(t, Key(lower, path), 0, None, false);
  }

  /** Every run, of inserts and lookups in any order, keeps the invariant. */
  lemma {:induction false} RunsKeepInv(lower: string -> string, ops: seq<Op>)
    ensures Inv(lower, Run(lower, ops), InsertedPaths(ops))
  {
    hide Inv, Step, Key;
    if ops == [] {
      EmptyInv(lower);
      assert InsertedPaths(ops) == {};
    } else {
      var init, op := ops[..|ops| - 1], ops[|ops| - 1];
      RunsKeepInv(lower, init);
      StepKeepsInv(lower, Run(lower, init), InsertedPaths(init), op);
      assert ops == init + [op];
      assert InsertedPaths(ops) == InsertedPaths(init) + InsertedPaths([op]);
    }
  }

  lemma EmptyInv(lower: string -> string)
    ensures Inv(lower, EMPTY, {})
  {
  }

  lemma RunStep(lower: string -> string, ops: seq<Op>, op: Op)
    ensures Run(lower, ops + [op]) == Step(lower, Run(lower, ops), op)
  {
    hide Inv, PrefixClosed, Inserted, Found, Key, InsertedPaths;
    assert (ops + [op])[..|ops|] == ops;
  }
}
