/** What lookups in the path trie promise after any run of inserts and lookups, and what they change. */
module PathLookups {
  import opened Basics
  import opened PathTrie

  /** A key with a node leads the lookup to that node's own list. */
  lemma {:induction false} FoundAtNode(t: Trie, key: Position, i: nat, holder: Option<nat>, end: bool)
    requires PrefixClosed(t) && key in t && t[key] != [] && Midway(t, key, i, holder, end)
    requires key != []
    ensures FoundFrom(t, key, i, holder, end) == (t, t[key])
    decreases |key| - i
  {
    if i < |key| {
      PrefixesIn(t, key, i + 1);
      var isEnd := t[key[..i + 1]] != [];
      FoundAtNode(t, key, i + 1, if isEnd then Some(i + 1) else holder, isEnd);
    } else {
      assert key[..i] == key;
    }
  }

  lemma {:induction false} PrefixesIn(t: Trie, key: Position, i: nat)
    requires PrefixClosed(t) && key in t && i <= |key|
    ensures key[..i] in t
    decreases |key| - i
  {
    if i < |key| {
      PrefixesIn(t, key, i + 1);
      assert Parent(key[..i + 1]) == key[..i];
    } else {
      assert key[..i] == key;
    }
  }

  /**
   After any inserts and lookups, looking up an inserted path returns exactly that path, also
   next to paths that differ in case only, and such a lookup changes nothing.
   */
  lemma InsertedPathIsItsOwnAnswer(lower: string -> string, ratio: (string, string) -> real, ops: seq<Op>, path: string, ancestors: int)
    requires Similarity(ratio) && path in InsertedPaths(ops)
    requires ancestors == 0 || !exists i :: 0 <= i < |path| && path[i] == '/' && forall j :: 0 <= j < i ==> path[j] == '.'
    ensures var t := Run(lower, ops);
            Answer(lower, ratio, t, path, ancestors) == Some(path) && Step(lower, t, Lookup(path)) == t
  {
    RunsKeepInv(lower, ops);
    RootedExactlyWhen(path);
    var t, key := Run(lower, ops), Key(lower, path);
    StartsMidway(t, key);
    FoundAtNode(t, key, 0, None, false);
    ChosenIsResult(ratio, path, t[key], ancestors);
  }

  lemma {:induction false} ResultsShareComponent(lower: string -> string, t: Trie, paths: set<string>, key: Position, i: nat, holder: Option<nat>, end: bool)
    requires Inv(lower, t, paths) && Midway(t, key, i, holder, end)
    ensures forall x :: x in FoundFrom(t, key, i, holder, end).1 ==> x in paths && |key| > 0 && Key(lower, x)[0] == key[0]
    decreases |key| - i
  {
    if i < |key| && key[..i + 1] in t {
      var isEnd := t[key[..i + 1]] != [];
      ResultsShareComponent(lower, t, paths, key, i + 1, if isEnd then Some(i + 1) else holder, isEnd);
    } else if !end && i > 0 {
      DrilledIsBelow(t, key[..i]);
    }
  }

  lemma AnswerSharesComponent(lower: string -> string, ratio: (string, string) -> real, ops: seq<Op>, query: string, ancestors: int)
    requires Similarity(ratio)
    ensures var answer := Answer(lower, ratio, Run(lower, ops), query, ancestors);
            answer.Some? ==> answer.value in InsertedPaths(ops) && Key(lower, answer.value)[0] == Key(lower, query)[0]
  {
    RunsKeepInv(lower, ops);
    var t, key := Run(lower, ops), Key(lower, query);
    StartsMidway(t, key);
    ResultsShareComponent(lower, t, InsertedPaths(ops), key, 0, None, false);
    var results := Found(t, key).1;
    if results != [] {
      ChosenIsResult(ratio, query, results, ancestors);
    }
  }

  /** Every answer is an inserted path whose last component is that of the query, up to case. */
  lemma AnswersAreInserted(lower: string -> string, ratio: (string, string) -> real, ops: seq<Op>, query: string, ancestors: int)
    requires Similarity(ratio)
    ensures var answer := Answer(lower, ratio, Run(lower, ops), query, ancestors);
            answer.Some? ==>
              && answer.value in InsertedPaths(ops)
              && var p, q := Split(answer.value), Split(query); lower(p[|p| - 1]) == lower(q[|q| - 1])
  {
    hide *;
    AnswerSharesComponent(lower, ratio, ops, query, ancestors);
    KeyBeginsWithLast(lower, query);
    var answer := Answer(lower, ratio, Run(lower, ops), query, ancestors);
    if answer.Some? {
      KeyBeginsWithLast(lower, answer.value);
    }
  }

  /** Lookups keep the nodes of the tree and change at most one list, by appending to it. */
  lemma LookupsKeepShape(lower: string -> string, ops: seq<Op>, query: string)
    ensures var t := Run(lower, ops);
            Appends(t, Step(lower, t, Lookup(query)), Key(lower, query))
  {
    RunsKeepInv(lower, ops);
    var t, key := Run(lower, ops), Key(lower, query);
    StartsMidway(t, key);
    FoundAppends(t, key, 0, None, false);
  }

  // ---------------------------------------------------------------------------------------------
  // When a lookup changes the tree

  /** How far the nodes go along the key, from `key[..i]` on. */
  function Reach(t: Trie, key: Position, i: nat): nat
    requires i <= |key|
    decreases |key| - i
  {
    if i < |key| && key[..i + 1] in t then Reach(t, key, i + 1) else i
  }

  predicate ListsOn(t: Trie, key: Position, j: nat) {
    j <= |key| && key[..j] in t && t[key[..j]] != []
  }

  /** Some node on the way to `key[..d]`, below the root, has paths. */
  ghost predicate PassesPaths(t: Trie, key: Position, d: nat) {
    exists j :: 0 < j < d && ListsOn(t, key, j)
  }

  /** The lookup ends at a node without paths from which a straight branch leads to some. */
  ghost predicate DrillsAt(t: Trie, key: Position, d: nat) {
    0 < d && !ListsOn(t, key, d) && d <= |key| && Drilled(t, key[..d]).Some?
  }

  lemma {:induction false} FoundChangesExactlyWhen(t: Trie, key: Position, i: nat, holder: Option<nat>, end: bool)
    requires Midway(t, key, i, holder, end)
    requires holder.None? ==> forall j :: 0 < j <= i ==> !ListsOn(t, key, j)
    ensures var d := Reach(t, key, i);
            FoundFrom(t, key, i, holder, end).0 != t <==> DrillsAt(t, key, d) && PassesPaths(t, key, d)
    decreases |key| - i
  {
    if i < |key| && key[..i + 1] in t {
      var isEnd := t[key[..i + 1]] != [];
      FoundChangesExactlyWhen(t, key, i + 1, if isEnd then Some(i + 1) else holder, isEnd);
    } else if DrillsAt(t, key, i) {
      DrilledIsBelow(t, key[..i]);
      if holder.Some? {
        assert ListsOn(t, key, holder.value);
        Grows(t, key[..holder.value], t[Drilled(t, key[..i]).value]);
      }
    }
  }

  lemma Grows(t: Trie, p: Position, more: seq<string>)
    requires p in t && more != []
    ensures t[p := t[p] + more] != t
  {
    assert |t[p := t[p] + more][p]| > |t[p]|;
  }

  /**
   A lookup changes the tree exactly when it ends at a node without paths, passed a node with paths
   on its way there, and a straight branch leads from its end to paths further down.
   */
  lemma LookupChangesTreeExactlyWhen(lower: string -> string, ops: seq<Op>, query: string)
    ensures var t, key := Run(lower, ops), Key(lower, query);
            var d := Reach(t, key, 0);
            Step(lower, t, Lookup(query)) != t <==> DrillsAt(t, key, d) && PassesPaths(t, key, d)
  {
    RunsKeepInv(lower, ops);
    var t, key := Run(lower, ops), Key(lower, query);
    StartsMidway(t, key);
    FoundChangesExactlyWhen(t, key, 0, None, false);
  }

  lemma {:induction false} ReachIs(t: Trie, key: Position, i: nat)
    requires i <= |key| && key[..i] in t
    ensures var d := Reach(t, key, i);
            && i <= d <= |key| && (forall j :: i <= j <= d ==> key[..j] in t)
            && (d < |key| ==> key[..d + 1] !in t)
    decreases |key| - i
  {
    if i < |key| && key[..i + 1] in t {
      ReachIs(t, key, i + 1);
    }
  }

  /** The node of the last list met, or 0 for none. */
  ghost predicate LastList(t: Trie, key: Position, d: nat, j: nat) {
    j <= d <= |key| && (j > 0 ==> ListsOn(t, key, j)) && forall l :: j < l <= d ==> !ListsOn(t, key, l)
  }

  lemma {:induction false} FoundResults(t: Trie, key: Position, i: nat, holder: Option<nat>, end: bool) returns (j: nat)
    requires Midway(t, key, i, holder, end) && LastList(t, key, i, if holder.Some? then holder.value else 0)
    ensures var d := Reach(t, key, i);
            && LastList(t, key, d, j)
            && (DrillsAt(t, key, d) ==> Drilled(t, key[..d]).value in t)
            && FoundFrom(t, key, i, holder, end).1
               == (if j > 0 then t[key[..j]] else []) + (if DrillsAt(t, key, d) then t[Drilled(t, key[..d]).value] else [])
    decreases |key| - i
  {
    hide Drilled;
    if i < |key| && key[..i + 1] in t {
      var isEnd := t[key[..i + 1]] != [];
      j := FoundResults(t, key, i + 1, if isEnd then Some(i + 1) else holder, isEnd);
    } else {
      j := if holder.Some? then holder.value else 0;
      DrilledIsBelow(t, key[..i]);
    }
  }

  /**
   What a lookup returns, after any run: it follows the key as far as there are nodes. The results are
   the list met last on the way, and when the walk ends at a node without paths, behind it the list
   that a straight branch leads to.
   */
  lemma LookupReturnsExactly(lower: string -> string, ops: seq<Op>, query: string) returns (d: nat, j: nat)
    ensures var t, key := Run(lower, ops), Key(lower, query);
            && d <= |key| && (forall i :: 0 <= i <= d ==> key[..i] in t) && (d < |key| ==> key[..d + 1] !in t)
            && j <= d && (j > 0 ==> t[key[..j]] != []) && (forall i :: j < i <= d ==> t[key[..i]] == [])
            && var drilled := if 0 < d && t[key[..d]] == [] then Drilled(t, key[..d]) else None;
            && (drilled.Some? ==> drilled.value in t)
            && Found(t, key).1 == (if j > 0 then t[key[..j]] else []) + (if drilled.Some? then t[drilled.value] else [])
  {
    RunsKeepInv(lower, ops);
    var t, key := Run(lower, ops), Key(lower, query);
    assert key[..0] == [] && [] in t;
    StartsMidway(t, key);
    ReachIs(t, key, 0);
    d := Reach(t, key, 0);
    j := FoundResults(t, key, 0, None, false);
    DrilledIsBelow(t, key[..d]);
    hide Drilled, Run, Key, Inv, FoundFrom, Reach;
    forall i | j < i <= d ensures t[key[..i]] == [] {
      assert !ListsOn(t, key, i);
    }
  }

  /** `q` is below `p` and has paths; each node from `p` on up to it has one child only and, behind `p`, no paths. */
  ghost predicate StraightTo(t: Trie, p: Position, q: Position) {
    && p < q && q in t && t[q] != []
    && (forall i :: |p| <= i < |q| ==> Branches(t, q[..i]) == {q[i]})
    && (forall i :: |p| < i < |q| ==> q[..i] in t && t[q[..i]] == [])
  }

  /** A lookup drills down from `p` to `q` exactly when a straight branch leads there, and its first paths are at `q`. */
  lemma {:induction false} DrilledExactlyWhen(t: Trie, p: Position, q: Position)
    ensures Drilled(t, p) == Some(q)
            <==> StraightTo(t, p, q)
    decreases Below(t, p)
  {
    if c :| Branches(t, p) == {c} {
      BranchesLeadOn(t, p, c);
      BelowShrinks(t, p, c);
      DrillStep(t, p, c);
      DrilledExactlyWhen(t, p + [c], q);
      BranchStep(t, p, c, q);
    } else {
      NoStraightBranch(t, p);
      assert p < q ==> q[..|p|] == p;
    }
  }

  lemma NoStraightBranch(t: Trie, p: Position)
    requires forall c :: Branches(t, p) != {c}
    ensures Drilled(t, p) == None
  {
    if |Branches(t, p)| == 1 {
      Singleton(Branches(t, p), Only(Branches(t, p)));
      assert false;
    }
  }

  lemma Singleton(s: set<string>, c: string)
    requires |s| == 1 && c in s
    ensures s == {c}
  {
    assert |s - {c}| == 0;
  }

  lemma BranchStep(t: Trie, p: Position, c: string, q: Position)
    requires Branches(t, p) == {c} && p + [c] in t
    ensures StraightTo(t, p, q) <==> if t[p + [c]] != [] then q == p + [c] else StraightTo(t, p + [c], q)
  {
    if StraightTo(t, p, q) {
      StraightDown(t, p, c, q);
    }
    if if t[p + [c]] != [] then q == p + [c] else StraightTo(t, p + [c], q) {
      StraightUp(t, p, c, q);
    }
  }

  lemma StraightDown(t: Trie, p: Position, c: string, q: Position)
    requires Branches(t, p) == {c} && p + [c] in t && StraightTo(t, p, q)
    ensures if t[p + [c]] != [] then q == p + [c] else StraightTo(t, p + [c], q)
  {
    hide Branches;
    assert q[..|p|] == p && q[|p|] == c && q[..|p| + 1] == p + [c];
    if |q| == |p| + 1 {
      assert q == p + [c];
    } else {
      assert t[q[..|p| + 1]] == [] && p + [c] < q;
    }
  }

  lemma StraightUp(t: Trie, p: Position, c: string, q: Position)
    requires Branches(t, p) == {c} && p + [c] in t
    requires if t[p + [c]] != [] then q == p + [c] else StraightTo(t, p + [c], q)
    ensures StraightTo(t, p, q)
  {
    hide Branches;
    assert q[..|p|] == p && q[|p|] == c && q[..|p| + 1] == p + [c];
    forall i | |p| <= i < |q| ensures Branches(t, q[..i]) == {q[i]} && (i > |p| ==> q[..i] in t && t[q[..i]] == []) {
      assert i == |p| || i == |p| + 1 || |p + [c]| < i;
    }
  }

  /** Any other lookup could as well not have happened: every later tree, and answer, is the same. */
  lemma {:induction false} OtherLookupsDoNotMatter(lower: string -> string, ops: seq<Op>, query: string, later: seq<Op>)
    requires var t, key := Run(lower, ops), Key(lower, query);
             var d := Reach(t, key, 0);
             !DrillsAt(t, key, d) || !PassesPaths(t, key, d)
    ensures Run(lower, ops + [Lookup(query)] + later) == Run(lower, ops + later)
  {
    hide *;
    if later == [] {
      LookupChangesTreeExactlyWhen(lower, ops, query);
      RunStep(lower, ops, Lookup(query));
      assert ops + [Lookup(query)] + later == ops + [Lookup(query)] && ops + later == ops;
    } else {
      var init, op := later[..|later| - 1], later[|later| - 1];
      OtherLookupsDoNotMatter(lower, ops, query, init);
      RunStep(lower, ops + [Lookup(query)] + init, op);
      RunStep(lower, ops + init, op);
      assert ops + [Lookup(query)] + later == ops + [Lookup(query)] + init + [op];
      assert ops + later == ops + init + [op];
    }
  }

  /** All inserted paths with the component `c` in last place have the same key. */
  ghost predicate Lone(lower: string -> string, paths: set<string>, key: Position) {
    && (exists x :: x in paths && Key(lower, x) == key)
    && forall x :: x in paths && |key| > 0 && Key(lower, x)[0] == key[0] ==> Key(lower, x) == key
  }

  lemma {:induction false} LoneDrills(lower: string -> string, t: Trie, paths: set<string>, key: Position, i: nat)
    requires Inv(lower, t, paths) && Lone(lower, paths, key) && 0 < i < |key|
    ensures Drilled(t, key[..i]).Some?
    decreases |key| - i
  {
    LoneHasPaths(lower, t, paths, key);
    PrefixesIn(t, key, i + 1);
    LoneBranch(lower, t, paths, key, i);
    hide Inv, Lone;
    assert key[..i + 1] == key[..i] + [key[i]];
    DrillStep(t, key[..i], key[i]);
    hide Drilled;
    if i + 1 == |key| {
      assert key[..i + 1] == key;
    } else if t[key[..i + 1]] == [] {
      LoneDrills(lower, t, paths, key, i + 1);
    }
  }

  lemma LoneHasPaths(lower: string -> string, t: Trie, paths: set<string>, key: Position)
    requires Inv(lower, t, paths) && Lone(lower, paths, key)
    ensures PrefixClosed(t) && key in t && t[key] != []
  {
    var x :| x in paths && Key(lower, x) == key;
    hide Lone, Leads, Key, PrefixClosed, Sound;
    assert Key(lower, x) in t;
  }

  lemma DrillStep(t: Trie, p: Position, c: string)
    requires Branches(t, p) == {c} && p + [c] in t
    ensures Drilled(t, p) == if t[p + [c]] != [] then Some(p + [c]) else Drilled(t, p + [c])
  {
    OnlyIs(Branches(t, p), c);
    hide Branches, Below;
  }

  lemma LoneBranch(lower: string -> string, t: Trie, paths: set<string>, key: Position, i: nat)
    requires Inv(lower, t, paths) && Lone(lower, paths, key) && 0 < i < |key| && key[..i + 1] in t
    ensures Branches(t, key[..i]) == {key[i]}
  {
    var p, c := key[..i], key[i];
    assert key[..i + 1] == p + [c];
    BranchesLeadOn(t, p, c);
    forall d | d in Branches(t, p) ensures d == c {
      BranchesLeadOn(t, p, d);
      assert Leads(lower, p + [d], paths);
      var y :| y in paths && p + [d] <= Key(lower, y);
      assert Key(lower, y)[0] == (p + [d])[0] == key[0];
      assert key[i] == (p + [d])[i];
    }
  }

  lemma {:induction false} LoneFound(lower: string -> string, t: Trie, paths: set<string>, key: Position, query: Position, i: nat, holder: Option<nat>, end: bool)
    requires Inv(lower, t, paths) && Lone(lower, paths, key) && Midway(t, query, i, holder, end)
    requires i > 0 && query[0] == key[0]
    ensures FoundFrom(t, query, i, holder, end).1 != []
    decreases |query| - i
  {
    if i < |query| && query[..i + 1] in t {
      var isEnd := t[query[..i + 1]] != [];
      LoneFound(lower, t, paths, key, query, i + 1, if isEnd then Some(i + 1) else holder, isEnd);
    } else if !end {
      LoneAhead(lower, t, paths, key, query, i);
    }
  }

  /** A node that a query for the lone file reaches has its paths, or leads straight to them. */
  lemma LoneAhead(lower: string -> string, t: Trie, paths: set<string>, key: Position, query: Position, i: nat)
    requires Inv(lower, t, paths) && Lone(lower, paths, key) && 0 < i <= |query| && query[0] == key[0]
    requires query[..i] in t && t[query[..i]] == []
    ensures var drilled := Drilled(t, query[..i]); drilled.Some? && drilled.value in t && t[drilled.value] != []
  {
    assert Leads(lower, query[..i], paths);
    var x :| x in paths && query[..i] <= Key(lower, x);
    assert Key(lower, x)[0] == query[..i][0] == key[0];
    LoneHasPaths(lower, t, paths, key);
    hide Inv, Lone, Leads, Key, Drilled;
    assert query[..i] == key[..i] && key[..|key|] == key;
    LoneDrills(lower, t, paths, key, i);
    DrilledIsBelow(t, query[..i]);
  }

  /**
   A file whose name occurs once is found from anywhere: any query that ends in its name is
   answered with it, whatever directories the query names and whatever was looked up before.
   */
  lemma LoneFileIsFound(lower: string -> string, ratio: (string, string) -> real, ops: seq<Op>, key: Position, query: string, ancestors: int)
    requires Similarity(ratio) && key != [] && Lone(lower, InsertedPaths(ops), key)
    requires Key(lower, query)[0] == key[0]
    ensures var answer := Answer(lower, ratio, Run(lower, ops), query, ancestors);
            answer.Some? && answer.value in InsertedPaths(ops) && Key(lower, answer.value) == key
  {
    RunsKeepInv(lower, ops);
    var t, paths, q := Run(lower, ops), InsertedPaths(ops), Key(lower, query);
    var x :| x in paths && Key(lower, x) == key;
    PrefixesIn(t, key, 1);
    assert q[..1] == key[..1];
    StartsMidway(t, q);
    var isEnd := t[q[..1]] != [];
    LoneFound(lower, t, paths, key, q, 1, if isEnd then Some(1) else None, isEnd);
    ChosenIsResult(ratio, query, Found(t, q).1, ancestors);
    AnswerSharesComponent(lower, ratio, ops, query, ancestors);
  }
}
