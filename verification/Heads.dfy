/** The heads of pull requests and branches, as the tasks that see new commits move them. */
module Heads {
  import opened Basics

  datatype Commit = Commit(timestamp: int, deleted: bool)

  /** The commits of one repository, by id. */
  type Commits = map<string, Commit>

  /** `CommitUpdateTask`: strictly newer commits, or any commit after a missing or deleted head. */
  function AfterCommitUpdate(commits: Commits, head: string, id: string): string
    requires id in commits
  {
    if head !in commits || commits[head].deleted || commits[head].timestamp < commits[id].timestamp then id else head
  }

  /** The other two tasks: commits that are not older, or any commit after a missing head. */
  function AfterSync(commits: Commits, head: string, id: string): string
    requires id in commits
  {
    if head !in commits || commits[head].timestamp <= commits[id].timestamp then id else head
  }

  /** No commit to compare with: there is none, or it is deleted. */
  predicate Lost(commits: Commits, head: string) {
    head !in commits || commits[head].deleted
  }

  class Pull {
    var head: string

    constructor (head: string)
      ensures this.head == head
    {
      this.head := head;
    }

    method CommitUpdate(commits: Commits, id: string)
      requires id in commits
      modifies this
      ensures head == old(head) || head == id
      ensures Lost(commits, old(head)) ==> head == id
      ensures !Lost(commits, old(head)) ==> commits[head].timestamp == Max(commits[old(head)].timestamp, commits[id].timestamp)
      ensures !Lost(commits, old(head)) && commits[id].timestamp == commits[old(head)].timestamp ==> head == old(head)
      ensures head == AfterCommitUpdate(commits, old(head), id)
    {
      var missing := head !in commits;
      if missing || commits[head].deleted || commits[head].timestamp < commits[id].timestamp {
        head := id;
      }
    }

    /** Both the manual trigger and the update of pull request information. */
    method Sync(commits: Commits, id: string)
      requires id in commits
      modifies this
      ensures head == old(head) || head == id
      ensures old(head) !in commits ==> head == id
      ensures old(head) in commits ==> commits[head].timestamp == Max(commits[old(head)].timestamp, commits[id].timestamp)
      ensures old(head) in commits && commits[id].timestamp == commits[old(head)].timestamp ==> head == id
      ensures head == AfterSync(commits, old(head), id)
    {
      var missing := head !in commits;
      if missing || commits[head].timestamp <= commits[id].timestamp {
        head := id;
      }
    }
  }

  class Branch {
    var head: string
    var authors: Option<seq<Option<int>>>

    /** A new branch has the commit's author, also when that is `None`. */
    constructor (id: string, author: Option<int>)
      ensures head == id && authors == Some([author])
    {
      head, authors := id, Some([author]);
    }

    method CommitUpdate(commits: Commits, id: string, author: Option<int>)
      requires id in commits
      modifies this
      ensures head == old(head) || head == id
      ensures Lost(commits, old(head)) ==> head == id
      ensures !Lost(commits, old(head)) ==> commits[head].timestamp == Max(commits[old(head)].timestamp, commits[id].timestamp)
      ensures !Lost(commits, old(head)) && commits[id].timestamp == commits[old(head)].timestamp ==> head == old(head)
      ensures author.Some? ==> authors.Some? && author in authors.value
      ensures old(authors).Some? ==> authors.Some? && old(authors).value <= authors.value <= old(authors).value + [author]
      ensures old(authors).Some? && Distinct(old(authors).value) ==> Distinct(authors.value)
      ensures head == AfterCommitUpdate(commits, old(head), id)
      ensures authors == WithAuthor(old(authors), author)
    {
      if author.Some? {
        if authors.None? {
          authors := Some([author]);
        } else if author !in authors.value {
          authors := Some(authors.value + [author]);
        }
      }
      var missing := head !in commits;
      if missing || commits[head].deleted || commits[head].timestamp < commits[id].timestamp {
        head := id;
      }
    }
  }

  function WithAuthor(authors: Option<seq<Option<int>>>, author: Option<int>): Option<seq<Option<int>>> {
    if author.None? then authors
    else if authors.None? then Some([author])
    else if author in authors.value then authors
    else Some(authors.value + [author])
  }

  predicate Distinct(s: seq<Option<int>>) {
    forall i, j :: 0 <= i < j < |s| ==> s[i] != s[j]
  }

  lemma AuthorsStayDistinct(authors: Option<seq<Option<int>>>, author: Option<int>)
    requires authors.Some? ==> Distinct(authors.value)
    ensures var a := WithAuthor(authors, author);
            && (a.Some? ==> Distinct(a.value))
            && (author.Some? ==> a.Some? && author in a.value)
            && (authors.Some? ==> a.Some? && authors.value <= a.value)
  {
  }

  // ---------------------------------------------------------------------------------------------
  // Runs

  /** One of the three tasks has looked at a commit. */
  datatype Op = CommitUpdate(id: string) | ManualTrigger(id: string) | PullSync(id: string)

  function Step(commits: Commits, head: string, op: Op): string
    requires op.id in commits
  {
    if op.CommitUpdate? then AfterCommitUpdate(commits, head, op.id) else AfterSync(commits, head, op.id)
  }

  predicate Known(commits: Commits, ops: seq<Op>) {
    forall i :: 0 <= i < |ops| ==> ops[i].id in commits
  }

  function Run(commits: Commits, head: string, ops: seq<Op>): string
    requires Known(commits, ops)
  {
    if ops == [] then head else Step(commits, Run(commits, head, ops[..|ops| - 1]), ops[|ops| - 1])
  }

  /** A step takes the head back in time exactly when it replaces a newer, deleted head. */
  lemma StepGoesBackExactlyWhen(commits: Commits, head: string, op: Op)
    requires head in commits && op.id in commits
    ensures commits[Step(commits, head, op)].timestamp < commits[head].timestamp
            <==> op.CommitUpdate? && commits[head].deleted && commits[op.id].timestamp < commits[head].timestamp
  {
  }

  /** Without deletions the head's timestamp never decreases, however the tasks interleave. */
  lemma {:induction false} HeadNeverGoesBack(commits: Commits, head: string, ops: seq<Op>)
    requires Known(commits, ops) && head in commits && forall id :: id in commits ==> !commits[id].deleted
    ensures Run(commits, head, ops) in commits
    ensures commits[head].timestamp <= commits[Run(commits, head, ops)].timestamp
    ensures forall i :: 0 <= i < |ops| ==> commits[ops[i].id].timestamp <= commits[Run(commits, head, ops)].timestamp
    ensures Run(commits, head, ops) == head || exists i :: 0 <= i < |ops| && ops[i].id == Run(commits, head, ops)
  {
    if ops != [] {
      var init, op := ops[..|ops| - 1], ops[|ops| - 1];
      HeadNeverGoesBack(commits, head, init);
      assert ops[|ops| - 1].id in commits;
      var before := Run(commits, head, init);
      if before != head {
        var i :| 0 <= i < |init| && init[i].id == before;
        assert ops[i].id == before;
      }
      forall i | 0 <= i < |ops| ensures commits[ops[i].id].timestamp <= commits[Run(commits, head, ops)].timestamp {
        if i < |init| {
          assert ops[i] == init[i];
        }
      }
    }
  }

  /** The final head has the greatest timestamp seen, so the order of the tasks does not matter for it. */
  lemma FinalTimestampIgnoresOrder(commits: Commits, head: string, ops: seq<Op>, other: seq<Op>)
    requires Known(commits, ops) && Known(commits, other) && head in commits
    requires forall id :: id in commits ==> !commits[id].deleted
    requires multiset(ops) == multiset(other)
    ensures commits[Run(commits, head, ops)].timestamp == commits[Run(commits, head, other)].timestamp
  {
    NoLaterThan(commits, head, ops, other);
    NoLaterThan(commits, head, other, ops);
  }

  lemma NoLaterThan(commits: Commits, head: string, ops: seq<Op>, other: seq<Op>)
    requires Known(commits, ops) && Known(commits, other) && head in commits
    requires forall id :: id in commits ==> !commits[id].deleted
    requires multiset(ops) == multiset(other)
    ensures commits[Run(commits, head, ops)].timestamp <= commits[Run(commits, head, other)].timestamp
  {
    HeadNeverGoesBack(commits, head, ops);
    HeadNeverGoesBack(commits, head, other);
    if Run(commits, head, ops) != head {
      var i :| 0 <= i < |ops| && ops[i].id == Run(commits, head, ops);
      assert ops[i] in multiset(other);
      var j :| 0 <= j < |other| && other[j] == ops[i];
    }
  }
}
