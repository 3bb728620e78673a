/**
 The path tree on the heap. Lists are objects of their own, because a lookup passes a node's own
 list on as its result and may extend it in place.
 */
module PathMap {
  import opened Basics
  import opened PathTrie

  class PathList {
    var items: seq<string>

    constructor ()
      ensures items == []
    {
      items := [];
    }
  }

  class Node {
    const fullPaths: PathList
    var children: map<string, Node>

    constructor ()
      ensures fresh(fullPaths) && fullPaths.items == [] && children == map[]
    {
      fullPaths := new PathList();
      children := map[];
    }
  }

  class Tree {
    const root: Node
    const lower: string -> string
    const ratio: (string, string) -> real
    ghost var nodes: map<Position, Node>

    ghost function Lists(): set<PathList>
      reads this
    {
      set p | p in nodes :: nodes[p].fullPaths
    }

    ghost predicate Shape()
      reads this, nodes.Values
    {
      && [] in nodes && nodes[[]] == root
      && (forall p {:trigger Parent(p)} :: p in nodes ==> Parent(p) in nodes)
      && (forall p, c {:trigger Linked(p, c)} :: p in nodes ==> Linked(p, c))
    }

    /** The child of the node at `p` for component `c` is the node at `p + [c]`, if there is one. */
    ghost predicate Linked(p: Position, c: string)
      requires p in nodes
      reads this, nodes[p]
    {
      var node := nodes[p];
      && (c in node.children <==> p + [c] in nodes)
      && (c in node.children ==> node.children[c] == nodes[p + [c]])
    }

    /** No two nodes share a node object or a list. */
    ghost predicate Separate()
      reads this
    {
      forall p, q :: p in nodes && q in nodes && p != q ==>
        nodes[p] != nodes[q] && nodes[p].fullPaths != nodes[q].fullPaths
    }

    ghost predicate Valid()
      reads this, nodes.Values
    {
      Shape() && Separate()
    }

    /** The nodes so far are still the same ones, and all others are new. */
    twostate predicate Grows(new now: map<Position, Node>)
      reads this
    {
      && (forall q :: q in old(nodes) ==> q in now && now[q] == old(nodes)[q])
      && (forall q :: q in now && q !in old(nodes) ==> fresh(now[q]) && fresh(now[q].fullPaths))
    }

    twostate lemma GrowsMeans(new now: map<Position, Node>)
      requires Grows(now)
      ensures forall q :: q in old(nodes) ==> q in now && now[q] == old(nodes)[q]
      ensures forall q :: q in now && q !in old(nodes) ==> fresh(now[q]) && fresh(now[q].fullPaths)
    {
    }

    twostate lemma GrowsFurther(new mid: map<Position, Node>, new now: map<Position, Node>)
      requires forall q :: q in old(nodes) ==> q in mid && mid[q] == old(nodes)[q]
      requires forall q :: q in mid && q !in old(nodes) ==> fresh(mid[q]) && fresh(mid[q].fullPaths)
      requires forall q :: q in mid ==> q in now && now[q] == mid[q]
      requires forall q :: q in now && q !in mid ==> fresh(now[q]) && fresh(now[q].fullPaths)
      ensures Grows(now)
    {
    }

    /** All nodes and lists are old ones or new. */
    twostate lemma KeptOrFresh()
      requires Grows(nodes)
      ensures forall o :: o in nodes.Values ==> o in old(nodes.Values) || fresh(o)
      ensures forall l :: l in Lists() ==> l in old(Lists()) || fresh(l)
    {
      forall q | q in nodes && q in old(nodes) ensures nodes[q] in old(nodes.Values) && nodes[q].fullPaths in old(Lists()) {
        assert old(nodes)[q] in old(nodes.Values);
      }
    }

    /** The tree as a value. */
    ghost function Contents(): Trie
      reads this, Lists()
    {
      map p | p in nodes :: nodes[p].fullPaths.items
    }

    constructor (lower: string -> string, ratio: (string, string) -> real, paths: seq<string>)
      ensures Valid() && Contents() == Run(lower, Inserts(paths))
      ensures this.lower == lower && this.ratio == ratio
      ensures forall q :: q in nodes ==> fresh(nodes[q]) && fresh(nodes[q].fullPaths)
    {
      this.lower, this.ratio := lower, ratio;
      var node := new Node();
      root := node;
      nodes := map[[] := node];
      new;
      OnlyRoot();
      hide Shape, Separate, Contents, Lists, Run, Inserts;
      InsertAll(paths);
    }

    lemma OnlyRoot()
      requires nodes == map[[] := root] && root.children == map[] && root.fullPaths.items == []
      ensures Valid() && Contents() == EMPTY
      ensures nodes.Values == {root} && Lists() == {root.fullPaths}
    {
      assert Parent([]) == [];
    }

    method InsertAll(paths: seq<string>)
      requires Valid() && Contents() == EMPTY
      modifies this`nodes, nodes.Values, Lists()
      ensures Valid() && Contents() == Run(lower, Inserts(paths))
      ensures Grows(nodes)
    {
      assert Run(lower, Inserts(paths[..0])) == EMPTY && Grows(nodes);
      hide *;
      for i := 0 to |paths|
        invariant Valid() && Contents() == Run(lower, Inserts(paths[..i]))
        invariant Grows(nodes)
      {
        InsertsStep(lower, paths[..i], paths[i]);
        assert paths[..i + 1] == paths[..i] + [paths[i]];
        KeptOrFresh();
        GrowsMeans(nodes);
        ghost var mid := nodes;
        label Before:
        Insert(paths[i]);
        GrowsMeans@Before(nodes);
        GrowsFurther(mid, nodes);
      }
      assert paths[..|paths|] == paths;
    }

    /** The child of `node` for `component`, created when missing. */
    method ChildFor(node: Node, component: string, ghost p: Position) returns (child: Node)
      requires Valid() && p in nodes && nodes[p] == node
      modifies this`nodes, node
      ensures Valid() && p + [component] in nodes && nodes[p + [component]] == child
      ensures nodes.Keys == old(nodes.Keys) + {p + [component]}
      ensures Grows(nodes)
      ensures Contents() == WithNode(old(Contents()), p + [component])
    {
      assert Linked(p, component);
      if component !in node.children {
        child := AddChild(node, component, p);
      } else {
        child := node.children[component];
      }
    }

    method AddChild(node: Node, component: string, ghost p: Position) returns (child: Node)
      requires Valid() && p in nodes && nodes[p] == node && p + [component] !in nodes
      modifies this`nodes, node
      ensures Valid() && nodes == old(nodes)[p + [component] := child]
      ensures fresh(child) && fresh(child.fullPaths)
      ensures Contents() == old(Contents())[p + [component] := []]
    {
      child := new Node();
      label Before:
      ghost var at := p + [component];
      node.children := node.children[component := child];
      nodes := nodes[at := child];
      assert Parent(at) == p;
      forall q, c | q in nodes ensures Linked(q, c) {
        if q == at {
          assert Parent(at + [c]) == at;
        } else {
          assert old@Before(Linked(q, c));
          assert q + [c] == at ==> q == Parent(at) && c == component;
        }
      }
      AddedNode(at, child);
      hide Contents;
    }

    twostate lemma AddedNode(at: Position, new child: Node)
      requires nodes == old(nodes)[at := child] && at !in old(nodes) && child.fullPaths.items == []
      requires forall q :: q in old(nodes) ==> old(nodes[q].fullPaths.items) == nodes[q].fullPaths.items
      ensures Contents() == old(Contents())[at := []]
    {
    }

    method Insert(path: string)
      requires Valid()
      modifies this`nodes, nodes.Values, Lists()
      ensures Valid() && PrefixClosed(old(Contents()))
      ensures Contents() == Inserted(lower, old(Contents()), path)
      ensures Grows(nodes)
    {
      ContentsPrefixClosed();
      ghost var key := Key(lower, path);
      var node := NodeFor(Split(path), key);
      assert key[..|key|] == key;
      Append(node, path, key);
    }

    /** The node for the components, in reverse order; missing nodes are created. */
    method NodeFor(parts: seq<string>, ghost key: Position) returns (node: Node)
      requires Valid() && |key| == |parts| && forall i :: 0 <= i < |parts| ==> key[i] == lower(parts[|parts| - 1 - i])
      modifies this`nodes, nodes.Values
      ensures Valid() && Contents() == Planted(old(Contents()), key, |key|)
      ensures key in nodes && nodes[key] == node
      ensures Grows(nodes)
    {
      node := root;
      var i := 0;
      assert key[..0] == [];
      while i < |parts|
        invariant 0 <= i <= |parts|
        invariant Valid() && key[..i] in nodes && nodes[key[..i]] == node
        invariant Contents() == Planted(old(Contents()), key, i)
        invariant Grows(nodes)
      {
        assert key[..i + 1] == key[..i] + [key[i]];
        PlantedStep(old(Contents()), key, i);
        node := ChildFor(node, lower(parts[|parts| - 1 - i]), key[..i]);
        i := i + 1;
      }
      assert key[..|key|] == key;
    }

    method Append(node: Node, path: string, ghost p: Position)
      requires Valid() && p in nodes && nodes[p] == node
      modifies node.fullPaths
      ensures Valid() && Contents() == old(Contents())[p := old(Contents())[p] + [path]]
    {
      node.fullPaths.items := node.fullPaths.items + [path];
    }

    lemma ContentsPrefixClosed()
      requires Valid()
      ensures PrefixClosed(Contents())
    {
    }

    /** Follows only children from the node on, to the first of them that has paths. */
    method Drill(node: Node, ghost p: Position) returns (found: PathList?)
      requires Valid() && p in nodes && nodes[p] == node
      ensures var at := Drilled(Contents(), p);
              (found == null <==> at.None?) && (at.Some? ==> at.value in nodes && nodes[at.value].fullPaths == found)
    {
      var current := node;
      ghost var q := p;
      while |current.children| == 1
        invariant q in nodes && nodes[q] == current
        invariant Drilled(Contents(), p) == Drilled(Contents(), q)
        decreases Below(Contents(), q)
      {
        BranchesAreChildren(q);
        var key :| key in current.children;
        OnlyIs(current.children.Keys, key);
        BranchesLeadOn(Contents(), q, key);
        BelowShrinks(Contents(), q, key);
        assert Linked(q, key);
        current := current.children[key];
        q := q + [key];
        if |current.fullPaths.items| > 0 {
          return current.fullPaths;
        }
      }
      BranchesAreChildren(q);
      found := null;
    }

    lemma BranchesAreChildren(p: Position)
      requires Valid() && p in nodes
      ensures Branches(Contents(), p) == nodes[p].children.Keys
    {
      forall c ensures c in Branches(Contents(), p) <==> c in nodes[p].children {
        BranchesLeadOn(Contents(), p, c);
        assert Linked(p, c);
      }
    }

    /** The list that the results so far are: a node's own list, or one that no node has. */
    ghost predicate Holds(results: PathList, key: Position, i: nat, holder: Option<nat>)
      reads this, results
    {
      match holder
      case None => results !in Lists() && results.items == []
      case Some(j) => j <= i && j <= |key| && key[..j] in nodes && results == nodes[key[..j]].fullPaths
    }

    method RecursiveLookup(node: Node, components: seq<string>, results: PathList, i: nat, end: bool, matched: bool,
                           ghost key: Position, ghost holder: Option<nat>)
      returns (found: PathList)
      requires Valid() && key == seq(|components|, j requires 0 <= j < |components| => lower(components[j]))
      requires i <= |key| && key[..i] in nodes && nodes[key[..i]] == node
      requires Holds(results, key, i, holder) && matched == (i > 0)
      modifies Lists(), results
      ensures Valid()
      ensures (Contents(), found.items) == FoundFrom(old(Contents()), key, i, holder, end)
      decreases |components| - i
    {
      FoundFurther(key, i, holder, end);
      hide Shape, Separate, FoundFrom, Drilled, Branches, Below, Key;
      if i < |components| && lower(components[i]) in node.children {
        var childNode := node.children[lower(components[i])];
        var isEnd := |childNode.fullPaths.items| > 0;
        found := RecursiveLookup(childNode, components, if isEnd then childNode.fullPaths else results, i + 1, isEnd, true,
                                 key, if isEnd then Some(i + 1) else holder);
      } else {
        found := DrillForMore(node, results, i, end, matched, key, holder);
      }
    }

    /** The lookup goes on exactly when the node has the child. */
    lemma FoundFurther(key: Position, i: nat, holder: Option<nat>, end: bool)
      requires Valid() && i <= |key| && key[..i] in nodes
      ensures i < |key| ==> (key[i] in nodes[key[..i]].children <==> key[..i + 1] in nodes)
      ensures i < |key| && key[..i + 1] in nodes ==>
                var child := nodes[key[..i]].children[key[i]];
                var isEnd := child.fullPaths.items != [];
                && nodes[key[..i + 1]] == child
                && FoundFrom(Contents(), key, i, holder, end)
                   == FoundFrom(Contents(), key, i + 1, if isEnd then Some(i + 1) else holder, isEnd)
    {
      if i < |key| {
        assert key[..i + 1] == key[..i] + [key[i]] && Linked(key[..i], key[i]);
      }
    }

    /** The end of a lookup: without paths at the node, those down a straight branch are added. */
    method DrillForMore(node: Node, results: PathList, i: nat, end: bool, matched: bool, ghost key: Position, ghost holder: Option<nat>)
      returns (found: PathList)
      requires Valid() && i <= |key| && key[..i] in nodes && nodes[key[..i]] == node
      requires i < |key| ==> key[..i + 1] !in nodes
      requires Holds(results, key, i, holder) && matched == (i > 0)
      modifies Lists(), results
      ensures Valid()
      ensures (Contents(), found.items) == FoundFrom(old(Contents()), key, i, holder, end)
    {
      hide Shape, Separate, Drilled, Branches, Below, Key;
      if !end && matched {
        var nextPath := Drill(node, key[..i]);
        if nextPath != null {
          DrilledIsBelow(Contents(), key[..i]);
          Extend(results, nextPath, key, i, holder);
        }
      }
      found := results;
    }

    /** `results.extend(more)`: when the results are a node's list, that list grows. */
    method Extend(results: PathList, more: PathList, ghost key: Position, ghost i: nat, ghost holder: Option<nat>)
      requires Valid() && Holds(results, key, i, holder)
      modifies results
      ensures Valid() && results.items == old(results.items) + old(more.items)
      ensures Contents() == if holder.Some? then old(Contents())[key[..holder.value] := results.items] else old(Contents())
    {
      results.items := results.items + more.items;
    }

    /** `ancestors` 0 stands for none given. */
    method Lookup(path: string, ancestors: int) returns (hit: Option<string>)
      requires Valid()
      modifies Lists()
      ensures Valid()
      ensures Contents() == Found(old(Contents()), Key(lower, path)).0
      ensures hit == Answer(lower, ratio, old(Contents()), path, ancestors)
    {
      ghost var key := Key(lower, path);
      var components := Reversed(Split(path));
      assert key == seq(|components|, j requires 0 <= j < |components| => lower(components[j]));
      var empty := new PathList();
      assert key[..0] == [];
      var list := RecursiveLookup(root, components, empty, 0, false, false, key, None);
      var results := list.items;
      if results == [] {
        return None;
      }
      if |results| == 1 {
        hit := Some(results[0]);
      } else if Rooted(path) && ancestors != 0 {
        hit := Some(Closest(results, ancestors));
      } else {
        var best := GetBestMatch(ratio, path, Reversed(results));
        hit := Some(best);
      }
    }
  }

  /** The run that inserts the paths one after the other. */
  function Inserts(paths: seq<string>): seq<Op> {
    seq(|paths|, i requires 0 <= i < |paths| => Op.Insert(paths[i]))
  }

  lemma InsertsStep(lower: string -> string, paths: seq<string>, path: string)
    ensures PrefixClosed(Run(lower, Inserts(paths)))
    ensures Run(lower, Inserts(paths + [path])) == Inserted(lower, Run(lower, Inserts(paths)), path)
  {
    hide Run, Inserted;
    RunStep(lower, Inserts(paths), Op.Insert(path));
    assert Inserts(paths + [path]) == Inserts(paths) + [Op.Insert(path)];
  }

  function WithNode(t: Trie, p: Position): Trie {
    if p in t then t else t[p := []]
  }

  lemma PlantedStep(t: Trie, key: Position, i: nat)
    requires i < |key|
    ensures Planted(t, key, i + 1) == WithNode(Planted(t, key, i), key[..i + 1])
  {
  }

  /** The first of the possibilities that no other exceeds in similarity. */
  method GetBestMatch(ratio: (string, string) -> real, path: string, possibilities: seq<string>) returns (best: string)
    ensures best == Best(ratio, path, possibilities).1
  {
    var bestMatch := (-1.0, "");
    for i := 0 to |possibilities|
      invariant bestMatch == Best(ratio, path, possibilities[..i])
    {
      assert possibilities[..i + 1][..i] == possibilities[..i];
      var similarity := ratio(path, possibilities[i]);
      if similarity > bestMatch.0 {
        bestMatch := (similarity, possibilities[i]);
      }
    }
    assert possibilities[..|possibilities|] == possibilities;
    best := bestMatch.1;
  }
}
