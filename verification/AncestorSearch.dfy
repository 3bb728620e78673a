/** The search for the parent of a commit: level by level through the tree of its ancestors. */
module AncestorSearch {
  import opened Basics

  datatype Ancestor = Ancestor(commitid: string, parents: seq<Ancestor>)

  /** A stored commit; the rows of a query come in the order of the table. */
  datatype Row = Row(commitid: string, repoid: int, branch: Option<string>, hasMessage: bool, deleted: bool)

  /** The commit whose parent is wanted. */
  datatype Child = Child(commitid: string, repoid: int, branch: Option<string>)

  function Query(rows: seq<Row>, ids: seq<string>, repoid: int, withMessage: bool): seq<Row> {
    if rows == [] then []
    else
      var r := rows[|rows| - 1];
      Query(rows[..|rows| - 1], ids, repoid, withMessage)
      + if r.commitid in ids && r.repoid == repoid && (withMessage ==> r.hasMessage) && !r.deleted then [r] else []
  }

  /** The only candidate, or the first one on the branch. */
  function Pick(commits: seq<Row>, branch: Option<string>): Option<Row> {
    if |commits| == 1 then Some(commits[0]) else FirstOnBranch(commits, branch)
  }

  function FirstOnBranch(commits: seq<Row>, branch: Option<string>): Option<Row> {
    if commits == [] then None
    else if commits[0].branch == branch then Some(commits[0])
    else FirstOnBranch(commits[1..], branch)
  }

  method PossiblyFilterOutBranch(branch: Option<string>, commits: seq<Row>) returns (pick: Option<Row>)
    ensures pick == Pick(commits, branch)
  {
    if |commits| == 1 {
      return Some(commits[0]);
    }
    for i := 0 to |commits|
      invariant FirstOnBranch(commits, branch) == FirstOnBranch(commits[i..], branch)
    {
      if commits[i].branch == branch {
        return Some(commits[i]);
      }
      assert commits[i..][1..] == commits[i + 1..];
    }
    return None;
  }

  /** Nothing is picked exactly when no candidate is on the branch and there is not just one. */
  lemma {:induction false} PickIsSound(commits: seq<Row>, branch: Option<string>)
    ensures var pick := Pick(commits, branch);
            && (pick.Some? ==> pick.value in commits && (|commits| == 1 || pick.value.branch == branch))
            && (pick.None? <==> |commits| != 1 && forall i :: 0 <= i < |commits| ==> commits[i].branch != branch)
            && (pick.Some? && |commits| != 1 ==>
                  exists k :: 0 <= k < |commits| && pick.value == commits[k] && forall i :: 0 <= i < k ==> commits[i].branch != branch)
  {
    OnBranchIsFirst(commits, branch);
  }

  lemma {:induction false} OnBranchIsFirst(commits: seq<Row>, branch: Option<string>)
    ensures var pick := FirstOnBranch(commits, branch);
            && (pick.Some? ==> pick.value in commits && pick.value.branch == branch)
            && (pick.None? <==> forall i :: 0 <= i < |commits| ==> commits[i].branch != branch)
            && (pick.Some? ==>
                  exists k :: 0 <= k < |commits| && pick.value == commits[k] && forall i :: 0 <= i < k ==> commits[i].branch != branch)
  {
    if commits != [] {
      var rest := commits[1..];
      OnBranchIsFirst(rest, branch);
      assert forall i :: 1 <= i < |commits| ==> commits[i] == rest[i - 1];
      if commits[0].branch != branch && FirstOnBranch(rest, branch).Some? {
        var k :| 0 <= k < |rest| && FirstOnBranch(rest, branch).value == rest[k] && forall i :: 0 <= i < k ==> rest[i].branch != branch;
        assert commits[k + 1] == rest[k];
      }
    }
  }

  // ---------------------------------------------------------------------------------------------
  // Levels

  function Parents(elements: seq<Ancestor>): seq<Ancestor> {
    if elements == [] then [] else Parents(elements[..|elements| - 1]) + elements[|elements| - 1].parents
  }

  function Ids(elements: seq<Ancestor>): seq<string> {
    seq(|elements|, i requires 0 <= i < |elements| => elements[i].commitid)
  }

  /** All commits of the trees, their roots included. */
  function Size(elements: seq<Ancestor>): nat
    decreases elements
  {
    if elements == [] then 0 else Size(elements[..|elements| - 1]) + SizeOf(elements[|elements| - 1])
  }

  function SizeOf(a: Ancestor): nat
    decreases a
  {
    1 + Size(a.parents)
  }

  lemma {:induction false} SizeAppend(s: seq<Ancestor>, t: seq<Ancestor>)
    ensures Size(s + t) == Size(s) + Size(t)
  {
    if t == [] {
      assert s + t == s;
    } else {
      assert (s + t)[..|s + t| - 1] == s + t[..|t| - 1];
      SizeAppend(s, t[..|t| - 1]);
    }
  }

  /** Going up a level leaves the roots behind. */
  lemma {:induction false} ParentsAreFewer(elements: seq<Ancestor>)
    ensures Size(Parents(elements)) + |elements| == Size(elements)
  {
    if elements != [] {
      var init, last := elements[..|elements| - 1], elements[|elements| - 1];
      ParentsAreFewer(init);
      SizeAppend(Parents(init), last.parents);
    }
  }

  function Candidates(rows: seq<Row>, child: Child, level: seq<Ancestor>, withMessage: bool): Option<string> {
    var pick := Pick(Query(rows, Ids(level), child.repoid, withMessage), child.branch);
    if pick.Some? then Some(pick.value.commitid) else None
  }

  /** The ancestors `k` levels above the elements. */
  function Level(elements: seq<Ancestor>, k: nat): seq<Ancestor>
    decreases k
  {
    if k == 0 then elements else Level(Parents(elements), k - 1)
  }

  /** The pick from the shallowest level above the elements that has one. */
  function Shallowest(rows: seq<Row>, child: Child, elements: seq<Ancestor>, withMessage: bool): Option<string>
    decreases Size(elements)
  {
    if elements == [] then None
    else
      ParentsAreFewer(elements);
      var parents := Parents(elements);
      var pick := Candidates(rows, child, parents, withMessage);
      if pick.Some? then pick else Shallowest(rows, child, parents, withMessage)
  }

  lemma {:induction false} NothingInEmptyLevel(rows: seq<Row>, child: Child, withMessage: bool)
    ensures Candidates(rows, child, [], withMessage) == None
  {
    EmptyQuery(rows, child.repoid, withMessage);
    assert Ids([]) == [];
  }

  lemma {:induction false} EmptyQuery(rows: seq<Row>, repoid: int, withMessage: bool)
    ensures Query(rows, [], repoid, withMessage) == []
  {
    if rows != [] {
      EmptyQuery(rows[..|rows| - 1], repoid, withMessage);
    }
  }

  lemma {:induction false} EmptyLevels(k: nat)
    ensures Level([], k) == []
    decreases k
  {
    if k > 0 {
      EmptyLevels(k - 1);
    }
  }

  /** A commit is found exactly when it is the pick of a level below which no level has a pick. */
  lemma {:induction false} ShallowestIsLeast(rows: seq<Row>, child: Child, elements: seq<Ancestor>, withMessage: bool)
    ensures var found := Shallowest(rows, child, elements, withMessage);
            && (found.Some? ==> exists k: nat :: k > 0 && PicksFirst(rows, child, elements, withMessage, k, found.value))
            && (found.None? ==> forall k: nat :: k > 0 ==> Candidates(rows, child, Level(elements, k), withMessage).None?)
    decreases Size(elements)
  {
    if elements == [] {
      forall k: nat | k > 0 ensures Candidates(rows, child, Level(elements, k), withMessage).None? {
        EmptyLevels(k);
        NothingInEmptyLevel(rows, child, withMessage);
      }
    } else {
      ParentsAreFewer(elements);
      var parents := Parents(elements);
      var pick := Candidates(rows, child, parents, withMessage);
      assert Level(elements, 1) == parents && Level(parents, 0) == parents;
      if pick.Some? {
        assert PicksFirst(rows, child, elements, withMessage, 1, pick.value);
      } else {
        ShallowestIsLeast(rows, child, parents, withMessage);
        var found := Shallowest(rows, child, parents, withMessage);
        if found.Some? {
          var k: nat :| k > 0 && PicksFirst(rows, child, parents, withMessage, k, found.value);
          assert Level(elements, k + 1) == Level(parents, k);
          forall j: nat | 0 < j < k + 1 ensures Candidates(rows, child, Level(elements, j), withMessage).None? {
            assert Level(elements, j) == Level(parents, j - 1);
          }
          assert PicksFirst(rows, child, elements, withMessage, k + 1, found.value);
        } else {
          forall k: nat | k > 0 ensures Candidates(rows, child, Level(elements, k), withMessage).None? {
            assert Level(elements, k) == Level(parents, k - 1);
          }
        }
      }
    }
  }

  ghost predicate PicksFirst(rows: seq<Row>, child: Child, elements: seq<Ancestor>, withMessage: bool, k: nat, id: string) {
    && Candidates(rows, child, Level(elements, k), withMessage) == Some(id)
    && forall j: nat :: 0 < j < k ==> Candidates(rows, child, Level(elements, j), withMessage).None?
  }

  // ---------------------------------------------------------------------------------------------
  // The search

  /**
   A direct parent of the commit as the provider knows it, or else the shallowest ancestor with a
   message, or else the shallowest ancestor at all.
   */
  method FetchAppropriateParent(rows: seq<Row>, child: Child, gitParents: Option<seq<string>>, ancestors: Ancestor)
    returns (parent: Option<string>)
    ensures var direct := if gitParents.Some? then Pick(Query(rows, gitParents.value, child.repoid, true), child.branch) else None;
            var withMessage := Shallowest(rows, child, [ancestors], true);
            parent == if direct.Some? then Some(direct.value.commitid)
                      else if withMessage.Some? then withMessage
                      else Shallowest(rows, child, [ancestors], false)
  {
    var closestWithoutMessage: Option<string> := None;
    if gitParents.Some? {
      var possible := PossiblyFilterOutBranch(child.branch, Query(rows, gitParents.value, child.repoid, true));
      if possible.Some? {
        return Some(possible.value.commitid);
      }
    }
    var elements := [ancestors];
    while elements != []
      invariant Shallowest(rows, child, [ancestors], true) == Shallowest(rows, child, elements, true)
      invariant Shallowest(rows, child, [ancestors], false)
                == if closestWithoutMessage.Some? then closestWithoutMessage else Shallowest(rows, child, elements, false)
      decreases Size(elements)
    {
      ParentsAreFewer(elements);
      var parents := Parents(elements);
      var closest := PossiblyFilterOutBranch(child.branch, Query(rows, Ids(parents), child.repoid, true));
      if closest.Some? {
        return Some(closest.value.commitid);
      }
      if closestWithoutMessage.None? {
        var any := PossiblyFilterOutBranch(child.branch, Query(rows, Ids(parents), child.repoid, false));
        if any.Some? {
          closestWithoutMessage := Some(any.value.commitid);
        }
      }
      elements := parents;
    }
    parent := closestWithoutMessage;
  }

  lemma {:induction false} QueryIsSound(rows: seq<Row>, ids: seq<string>, repoid: int, withMessage: bool, r: Row)
    ensures r in Query(rows, ids, repoid, withMessage)
            <==> r in rows && r.commitid in ids && r.repoid == repoid && (withMessage ==> r.hasMessage) && !r.deleted
  {
    if rows != [] {
      var init, last := rows[..|rows| - 1], rows[|rows| - 1];
      QueryIsSound(init, ids, repoid, withMessage, r);
      assert rows == init + [last];
    }
  }

  predicate IsAncestorRow(child: Child, elements: seq<Ancestor>, withMessage: bool, k: nat, r: Row) {
    && (exists i :: 0 <= i < |Level(elements, k)| && Level(elements, k)[i].commitid == r.commitid)
    && r.repoid == child.repoid && !r.deleted && (withMessage ==> r.hasMessage)
  }

  /** The commits one level up are the parents of some commit of this level. */
  lemma {:induction false} ParentsAreParents(elements: seq<Ancestor>, a: Ancestor)
    ensures a in Parents(elements) <==> exists i :: 0 <= i < |elements| && a in elements[i].parents
  {
    if elements != [] {
      var init := elements[..|elements| - 1];
      ParentsAreParents(init, a);
      if i :| 0 <= i < |init| && a in init[i].parents {
        assert a in elements[i].parents;
      }
    }
  }

  /** What the search finds is a stored, undeleted ancestor in the same repository. */
  lemma FoundParentIsAncestor(rows: seq<Row>, child: Child, elements: seq<Ancestor>, withMessage: bool)
    ensures var found := Shallowest(rows, child, elements, withMessage);
            found.Some? ==>
              exists k: nat, r :: k > 0 && r in rows && r.commitid == found.value && IsAncestorRow(child, elements, withMessage, k, r)
  {
    ShallowestIsLeast(rows, child, elements, withMessage);
    var found := Shallowest(rows, child, elements, withMessage);
    if found.Some? {
      var k: nat :| k > 0 && PicksFirst(rows, child, elements, withMessage, k, found.value);
      var ids := Ids(Level(elements, k));
      var commits := Query(rows, ids, child.repoid, withMessage);
      PickIsSound(commits, child.branch);
      var r := Pick(commits, child.branch).value;
      QueryIsSound(rows, ids, child.repoid, withMessage, r);
      assert IsAncestorRow(child, elements, withMessage, k, r);
    }
  }

  /** An ancestor on the commit's branch is never missed: something is found at its level or a shallower one. */
  lemma AncestorOnBranchIsFound(rows: seq<Row>, child: Child, elements: seq<Ancestor>, withMessage: bool, k: nat, r: Row)
    returns (l: nat)
    requires k > 0 && r in rows && IsAncestorRow(child, elements, withMessage, k, r) && r.branch == child.branch
    ensures 0 < l <= k
    ensures var found := Shallowest(rows, child, elements, withMessage);
            found.Some? && PicksFirst(rows, child, elements, withMessage, l, found.value)
  {
    ShallowestIsLeast(rows, child, elements, withMessage);
    var level := Level(elements, k);
    var i :| 0 <= i < |level| && level[i].commitid == r.commitid;
    assert Ids(level)[i] == r.commitid;
    var commits := Query(rows, Ids(level), child.repoid, withMessage);
    QueryIsSound(rows, Ids(level), child.repoid, withMessage, r);
    PickIsSound(commits, child.branch);
    hide Query, Pick, Shallowest, Level;
    assert Candidates(rows, child, level, withMessage).Some? by {
      var j :| 0 <= j < |commits| && commits[j] == r;
    }
    var found := Shallowest(rows, child, elements, withMessage);
    l :| l > 0 && PicksFirst(rows, child, elements, withMessage, l, found.value);
  }
}
