/**
 The list of commits that wait for flake processing: finishers push at its head, tasks pop
 batches from its head under a lock and process them one by one.
 */
module FlakeQueue {
  import opened Basics

  const BATCH := 10

  /** A pushed commit; `nth` tells repeated pushes of one commit apart. */
  datatype Entry = Entry(sha: string, nth: nat)

  /** `redis_client.lpop(key, 10)`, with an empty list for a missing key, and what stays behind. */
  function GetRedisVal(queue: seq<Entry>): (r: (seq<Entry>, seq<Entry>))
    ensures r.0 + r.1 == queue && |r.0| == if |queue| < 10 then |queue| else 10
    ensures r.0 == [] <==> queue == []
  {
    if |queue| <= BATCH then (queue, []) else (queue[..BATCH], queue[BATCH..])
  }

  datatype Phase = Waiting | Draining | Finished | Failed

  /** `hand` is the unprocessed rest of the last batch; `took` and `did` are the task's history. */
  datatype Task = Task(phase: Phase, hand: seq<Entry>, took: seq<Entry>, did: seq<Entry>)

  /**
   `taken` lists all entries in the order in which they were popped, `lost` those that a task gave
   up.
   */
  datatype State = State(queue: seq<Entry>, holder: Option<nat>, tasks: seq<Task>,
                         pushed: seq<Entry>, taken: seq<Entry>, processed: seq<Entry>, lost: seq<Entry>)

  const START := State([], None, [], [], [], [], [])

  /** `Fail` is an exception, which releases the lock; `Die` leaves it to its timeout. */
  datatype Op =
    | Push(sha: string)
    | Arrive
    | Acquire(t: nat)
    | GiveUp(t: nat)
    | Pop(t: nat)
    | Process(t: nat)
    | Fail(t: nat)
    | Die(t: nat)
    | Expire

  predicate InPhase(s: State, t: int, p: Phase) {
    0 <= t < |s.tasks| && s.tasks[t].phase == p
  }

  predicate Enabled(s: State, op: Op) {
    match op
    case Push(_) => true
    case Arrive => true
    case Acquire(t) => InPhase(s, t, Waiting) && s.holder.None?
    case GiveUp(t) => InPhase(s, t, Waiting)
    case Pop(t) => InPhase(s, t, Draining) && s.tasks[t].hand == []
    case Process(t) => InPhase(s, t, Draining) && s.tasks[t].hand != []
    case Fail(t) => InPhase(s, t, Draining)
    case Die(t) => InPhase(s, t, Draining)
    case Expire => s.holder.Some?
  }

  function Release(s: State, t: nat): State {
    s.(holder := if s.holder == Some(t) then None else s.holder)
  }

  function Put(s: State, t: nat, task: Task): State
    requires t < |s.tasks|
  {
    s.(tasks := s.tasks[t := task])
  }

  function Step(s: State, op: Op): State
    requires Enabled(s, op)
  {
    match op
    case Push(sha) =>
      var e := Entry(sha, |s.pushed|);
      s.(queue := [e] + s.queue, pushed := s.pushed + [e])
    case Arrive => s.(tasks := s.tasks + [Task(Waiting, [], [], [])])
    case Acquire(t) => Put(s, t, s.tasks[t].(phase := Draining)).(holder := Some(t))
    case GiveUp(t) => Put(s, t, s.tasks[t].(phase := Failed))
    case Pop(t) =>
      var (batch, rest) := GetRedisVal(s.queue);
      var task := s.tasks[t];
      if batch == [] then
        Release(Put(s, t, task.(phase := Finished)), t)
      else
        Put(s, t, task.(hand := batch, took := task.took + batch))
          .(queue := rest, taken := s.taken + batch)
    case Process(t) =>
      var task := s.tasks[t];
      var e := task.hand[0];
      Put(s, t, task.(hand := task.hand[1..], did := task.did + [e])).(processed := s.processed + [e])
    case Fail(t) => Release(Dropped(s, t), t)
    case Die(t) => Dropped(s, t)
    case Expire => s.(holder := None)
  }

  function Dropped(s: State, t: nat): State
    requires t < |s.tasks|
  {
    Put(s, t, s.tasks[t].(phase := Failed, hand := [])).(lost := s.lost + s.tasks[t].hand)
  }

  predicate Possible(ops: seq<Op>)
    decreases |ops|, 0
  {
    ops == [] || (Possible(ops[..|ops| - 1]) && Enabled(After(ops[..|ops| - 1]), ops[|ops| - 1]))
  }

  function After(ops: seq<Op>): State
    requires Possible(ops)
    decreases |ops|, 1
  {
    if ops == [] then START else Step(After(ops[..|ops| - 1]), ops[|ops| - 1])
  }

  // ---------------------------------------------------------------------------------------------
  // One task's drain, while others push

  /** The list at a pop; `incoming` says for this and each later pop what is pushed before it. */
  function Listed(entries: seq<Entry>, incoming: seq<seq<Entry>>): seq<Entry> {
    if incoming == [] then entries else incoming[0] + entries
  }

  function Later(incoming: seq<seq<Entry>>): seq<seq<Entry>> {
    if incoming == [] then [] else incoming[1..]
  }

  class RedisList {
    var entries: seq<Entry>
    var incoming: seq<seq<Entry>>

    /** Pops a batch from the head; empty for a missing key. */
    method PopBatch() returns (batch: seq<Entry>)
      modifies this
      ensures (batch, entries) == GetRedisVal(Listed(old(entries), old(incoming))) && incoming == Later(old(incoming))
    {
      var r := GetRedisVal(Listed(entries, incoming));
      batch, entries := r.0, r.1;
      incoming := Later(incoming);
    }
  }

  /** What a drain pops until it finds the list empty, when nothing stops it before. */
  function Popped(entries: seq<Entry>, incoming: seq<seq<Entry>>): seq<Entry>
    decreases |incoming|, |entries|
  {
    var (batch, rest) := GetRedisVal(Listed(entries, incoming));
    if batch == [] then [] else batch + Popped(rest, Later(incoming))
  }

  /** When nobody pushes, that is the list, from the head on. */
  lemma {:induction false} PoppedWithoutPushes(entries: seq<Entry>)
    ensures Popped(entries, []) == entries
    decreases |entries|
  {
    var (batch, rest) := GetRedisVal(entries);
    if batch != [] {
      PoppedWithoutPushes(rest);
    }
  }

  function Flatten(pushes: seq<seq<Entry>>): seq<Entry> {
    if pushes == [] then [] else pushes[0] + Flatten(pushes[1..])
  }

  /** It is what was in the list and all that came before the pop that found the list empty, each as often. */
  lemma {:induction false} PoppedConserves(entries: seq<Entry>, incoming: seq<seq<Entry>>) returns (m: nat)
    ensures m <= |incoming| && (m < |incoming| ==> incoming[m] == [])
    ensures multiset(Popped(entries, incoming)) == multiset(entries) + multiset(Flatten(incoming[..m]))
    decreases |incoming|, |entries|
  {
    PoppedOnce(entries, incoming);
    hide *;
    var (batch, rest) := GetRedisVal(Listed(entries, incoming));
    if batch == [] {
      m := 0;
    } else {
      var n := PoppedConserves(rest, Later(incoming));
      m := if incoming == [] then 0 else n + 1;
      PushesFirst(entries, incoming, m);
      BatchConserves(batch, rest, Popped(rest, Later(incoming)), Listed(entries, incoming));
    }
  }

  lemma PoppedOnce(entries: seq<Entry>, incoming: seq<seq<Entry>>)
    ensures var (batch, rest) := GetRedisVal(Listed(entries, incoming));
            if batch == [] then
              Popped(entries, incoming) == entries == [] == Flatten(incoming[..0]) && (incoming != [] ==> incoming[0] == [])
            else
              && Popped(entries, incoming) == batch + Popped(rest, Later(incoming))
              && (if incoming == [] then Later(incoming) == [] && |rest| < |entries| else Later(incoming) == incoming[1..])
  {
  }

  lemma BatchConserves(batch: seq<Entry>, rest: seq<Entry>, later: seq<Entry>, all: seq<Entry>)
    requires batch + rest == all
    ensures multiset(batch + later) + multiset(rest) == multiset(all) + multiset(later)
  {
    assert multiset(batch + rest) == multiset(batch) + multiset(rest);
    assert multiset(batch + later) == multiset(batch) + multiset(later);
  }

  lemma PushesFirst(entries: seq<Entry>, incoming: seq<seq<Entry>>, m: nat)
    requires m <= |incoming| && (m == 0 <==> incoming == [])
    ensures multiset(entries) + multiset(Flatten(incoming[..m]))
            == multiset(Listed(entries, incoming)) + multiset(Flatten(Later(incoming)[..if m == 0 then 0 else m - 1]))
  {
    if m > 0 {
      assert incoming[..m][1..] == incoming[1..][..m - 1];
    }
  }

  /** The first entry whose processing raises an exception, or the end. */
  function FirstRaising(entries: seq<Entry>, raises: Entry -> bool): (k: nat)
    ensures k <= |entries| && (k < |entries| ==> raises(entries[k]))
    ensures forall i :: 0 <= i < k ==> !raises(entries[i])
  {
    if entries == [] || raises(entries[0]) then 0 else 1 + FirstRaising(entries[1..], raises)
  }

  lemma FirstRaisingIs(entries: seq<Entry>, raises: Entry -> bool, k: nat)
    requires k <= |entries| && (k < |entries| ==> raises(entries[k]))
    requires forall i :: 0 <= i < k ==> !raises(entries[i])
    ensures FirstRaising(entries, raises) == k
  {
  }

  /**
   The drain loop: processes what it pops, in order, up to the first exception. Without one the list
   is empty afterwards; with one, no more than the batch in hand is lost, and all that would have
   been popped behind it still will be.
   */
  method Drain(redis: RedisList, raises: Entry -> bool) returns (processed: seq<Entry>, ok: bool)
    modifies redis
    ensures var popped := Popped(old(redis.entries), old(redis.incoming)); var k := FirstRaising(popped, raises);
            && processed == popped[..k]
            && (ok <==> k == |popped|)
            && (ok ==> redis.entries == [])
            && (!ok ==> exists n :: k < n <= |popped| && n <= k + 10 && Popped(redis.entries, redis.incoming) == popped[n..])
  {
    hide FirstRaising, GetRedisVal, Popped, Listed, Later;
    ghost var all := Popped(redis.entries, redis.incoming);
    processed := [];
    while true
      invariant |processed| <= |all| && processed == all[..|processed|]
      invariant Popped(redis.entries, redis.incoming) == all[|processed|..]
      invariant forall i :: 0 <= i < |processed| ==> !raises(all[i])
      decreases |redis.incoming|, |redis.entries|
    {
      ghost var done := |processed|;
      BatchOf(all, done, redis.entries, redis.incoming);
      var commits := redis.PopBatch();
      if commits == [] {
        FirstRaisingIs(all, raises, |all|);
        return processed, true;
      }
      for i := 0 to |commits|
        invariant |processed| == done + i && processed == all[..done + i]
        invariant forall j :: 0 <= j < done + i ==> !raises(all[j])
      {
        if raises(commits[i]) {
          FirstRaisingIs(all, raises, done + i);
          assert done + i < done + |commits| <= done + i + BATCH;
          return processed, false;
        }
        processed := processed + [commits[i]];
      }
    }
  }

  /** The next batch is the next part of what is popped, or the list is empty. */
  lemma BatchOf(all: seq<Entry>, done: nat, entries: seq<Entry>, incoming: seq<seq<Entry>>)
    requires done <= |all| && Popped(entries, incoming) == all[done..]
    ensures var (batch, rest) := GetRedisVal(Listed(entries, incoming));
            && done + |batch| <= |all| && |batch| <= BATCH
            && (forall i :: 0 <= i < |batch| ==> batch[i] == all[done + i])
            && (batch == [] ==> done == |all| && rest == [])
            && (batch != [] ==>
                  && Popped(rest, Later(incoming)) == all[done + |batch|..]
                  && (incoming == [] ==> Later(incoming) == [] && |rest| < |entries|)
                  && (incoming != [] ==> |Later(incoming)| < |incoming|))
  {
    var (batch, rest) := GetRedisVal(Listed(entries, incoming));
    if batch != [] {
      var later := Popped(rest, Later(incoming));
      assert all[done..] == batch + later;
      assert forall i :: 0 <= i < |batch| ==> all[done + i] == (batch + later)[i];
      assert all[done..][|batch|..] == later;
    }
  }

  // ---------------------------------------------------------------------------------------------
  // Conservation

  /** How often an entry occurs. */
  function Times(s: seq<Entry>, e: Entry): nat {
    if s == [] then 0 else Times(s[..|s| - 1], e) + if s[|s| - 1] == e then 1 else 0
  }

  lemma {:induction false} TimesAppend(s: seq<Entry>, t: seq<Entry>, e: Entry)
    ensures Times(s + t, e) == Times(s, e) + Times(t, e)
  {
    if t == [] {
      assert s + t == s;
    } else {
      assert (s + t)[..|s + t| - 1] == s + t[..|t| - 1];
      TimesAppend(s, t[..|t| - 1], e);
    }
  }

  function InHands(tasks: seq<Task>, e: Entry): nat {
    if tasks == [] then 0 else InHands(tasks[..|tasks| - 1], e) + Times(tasks[|tasks| - 1].hand, e)
  }

  lemma {:induction false} HandsChange(tasks: seq<Task>, t: nat, task: Task, e: Entry)
    requires t < |tasks|
    ensures InHands(tasks[t := task], e) + Times(tasks[t].hand, e) == InHands(tasks, e) + Times(task.hand, e)
  {
    var init, last := tasks[..|tasks| - 1], |tasks| - 1;
    if t == last {
      assert tasks[t := task][..last] == init;
    } else {
      assert tasks[t := task][..last] == init[t := task] && tasks[t := task][last] == tasks[last];
      HandsChange(init, t, task, e);
    }
  }

  /** As often as an entry was pushed, it is queued, in some hand, processed or given up. */
  predicate Conserved(s: State, e: Entry) {
    Times(s.pushed, e) == Times(s.queue, e) + InHands(s.tasks, e) + Times(s.processed, e) + Times(s.lost, e)
  }

  lemma StepConserves(s: State, op: Op, e: Entry)
    requires Conserved(s, e) && Enabled(s, op)
    ensures Conserved(Step(s, op), e)
  {
    hide InHands, Times;
    var u := Step(s, op);
    match op
    case Push(_) =>
      TimesAppend([u.queue[0]], s.queue, e);
      TimesAppend(s.pushed, [u.queue[0]], e);
    case Arrive => NewTask(s.tasks, u.tasks[|s.tasks|], e);
    case Expire =>
    case Acquire(t) => HandsChange(s.tasks, t, u.tasks[t], e);
    case GiveUp(t) => HandsChange(s.tasks, t, u.tasks[t], e);
    case Pop(t) =>
      HandsChange(s.tasks, t, u.tasks[t], e);
      TimesAppend(GetRedisVal(s.queue).0, GetRedisVal(s.queue).1, e);
      NoTimes(e);
    case Process(t) =>
      HandsChange(s.tasks, t, u.tasks[t], e);
      var hand := s.tasks[t].hand;
      assert hand == [hand[0]] + hand[1..];
      TimesAppend([hand[0]], hand[1..], e);
      TimesAppend(s.processed, [hand[0]], e);
    case Fail(t) => DropConserves(s, t, e);
    case Die(t) => DropConserves(s, t, e);
  }

  lemma NoTimes(e: Entry)
    ensures Times([], e) == 0
  {
  }

  lemma NewTask(tasks: seq<Task>, task: Task, e: Entry)
    ensures InHands(tasks + [task], e) == InHands(tasks, e) + Times(task.hand, e)
    ensures Times([], e) == 0
  {
    assert (tasks + [task])[..|tasks|] == tasks;
  }

  lemma DropConserves(s: State, t: nat, e: Entry)
    requires Conserved(s, e) && t < |s.tasks|
    ensures Conserved(Dropped(s, t), e)
  {
    hide InHands, Times;
    HandsChange(s.tasks, t, Dropped(s, t).tasks[t], e);
    TimesAppend(s.lost, s.tasks[t].hand, e);
    NoTimes(e);
  }

  predicate Numbered(pushed: seq<Entry>) {
    forall i :: 0 <= i < |pushed| ==> pushed[i].nth == i
  }

  lemma {:induction false} NumberedOnce(pushed: seq<Entry>, e: Entry)
    requires Numbered(pushed)
    ensures Times(pushed, e) <= 1 && (e.nth >= |pushed| ==> Times(pushed, e) == 0)
  {
    if pushed != [] {
      NumberedOnce(pushed[..|pushed| - 1], e);
    }
  }

  lemma {:induction false} PushesAreNumbered(ops: seq<Op>)
    requires Possible(ops)
    ensures Numbered(After(ops).pushed)
  {
    if ops != [] {
      PushesAreNumbered(ops[..|ops| - 1]);
    }
  }

  /** In every run, whatever happens to the lock, entries are conserved and processed at most once. */
  lemma {:induction false} NothingVanishesOrRepeats(ops: seq<Op>, e: Entry)
    requires Possible(ops)
    ensures Conserved(After(ops), e) && Times(After(ops).processed, e) <= 1
  {
    if ops != [] {
      var init := ops[..|ops| - 1];
      NothingVanishesOrRepeats(init, e);
      StepConserves(After(init), ops[|ops| - 1], e);
    }
    PushesAreNumbered(ops);
    NumberedOnce(After(ops).pushed, e);
  }

  /** A task has processed what it popped, up to what is in its hand or was given up. */
  ghost predicate KeepsHistory(task: Task) {
    && (task.phase.Waiting? || task.phase.Draining? ==> task.did + task.hand == task.took)
    && (!task.phase.Draining? ==> task.hand == [])
    && (task.phase.Finished? ==> task.did == task.took)
  }

  /** A task that ends its drain normally has processed all that it popped. */
  lemma {:induction false} FinishedTasksDidEverything(ops: seq<Op>)
    requires Possible(ops)
    ensures forall t :: 0 <= t < |After(ops).tasks| ==> KeepsHistory(After(ops).tasks[t])
  {
    if ops != [] {
      var s, op := After(ops[..|ops| - 1]), ops[|ops| - 1];
      FinishedTasksDidEverything(ops[..|ops| - 1]);
      if op.Process? {
        var task := s.tasks[op.t];
        assert task.did + task.hand == (task.did + [task.hand[0]]) + task.hand[1..];
      }
    }
  }

  // ---------------------------------------------------------------------------------------------
  // Under the lock

  /** The lock never times out while its holder still drains. */
  predicate LockOutlasts(ops: seq<Op>)
    requires Possible(ops)
  {
    ops == [] ||
    var init, op := ops[..|ops| - 1], ops[|ops| - 1];
    LockOutlasts(init) && (op.Expire? ==> forall t :: 0 <= t < |After(init).tasks| ==> !After(init).tasks[t].phase.Draining?)
  }

  ghost predicate Exclusive(s: State) {
    forall t :: InPhase(s, t, Draining) ==> s.holder == Some(t)
  }

  /** Whoever has the lock still drains, or has died: ends and exceptions give it back. */
  lemma {:induction false} LockIsGivenBack(ops: seq<Op>, t: nat)
    requires Possible(ops) && After(ops).holder == Some(t)
    ensures InPhase(After(ops), t, Draining) || exists i :: 0 <= i < |ops| && ops[i] == Die(t)
  {
    if ops != [] {
      var init, op := ops[..|ops| - 1], ops[|ops| - 1];
      if After(init).holder == Some(t) && op != Die(t) {
        LockIsGivenBack(init, t);
        if i :| 0 <= i < |init| && init[i] == Die(t) {
          assert ops[i] == Die(t);
        }
      }
    }
  }

  /** A task that dies keeps the lock, so nobody drains until it times out. */
  lemma DeadTaskKeepsLock(s: State, t: nat, q: nat)
    requires Enabled(s, Die(t)) && s.holder == Some(t)
    ensures !Enabled(Step(s, Die(t)), Acquire(q)) && Enabled(Step(s, Die(t)), Expire)
  {
  }

  /** `s` is `t` with some elements left out. */
  predicate Thinned(s: seq<Entry>, t: seq<Entry>) {
    if s == [] then true
    else t != [] && if s[|s| - 1] == t[|t| - 1] then Thinned(s[..|s| - 1], t[..|t| - 1]) else Thinned(s, t[..|t| - 1])
  }

  lemma {:induction false} ThinnedAppend(s: seq<Entry>, t: seq<Entry>, batch: seq<Entry>)
    requires Thinned(s, t)
    ensures Thinned(s + batch, t + batch)
  {
    if batch == [] {
      assert s + batch == s && t + batch == t;
    } else {
      var rest := batch[..|batch| - 1];
      ThinnedAppend(s, t, rest);
      assert (s + batch)[..|s + batch| - 1] == s + rest && (t + batch)[..|t + batch| - 1] == t + rest;
    }
  }

  lemma {:induction false} ThinnedPrefix(s: seq<Entry>, more: seq<Entry>, t: seq<Entry>)
    requires Thinned(s + more, t)
    ensures Thinned(s, t)
    decreases |t|, 0
  {
    var all := s + more;
    if s != [] {
      var t' := t[..|t| - 1];
      if all[|all| - 1] != t[|t| - 1] {
        ThinnedPrefix(s, more, t');
        ThinnedLonger(s, t', t[|t| - 1]);
      } else if more != [] {
        assert all[..|all| - 1] == s + more[..|more| - 1];
        ThinnedPrefix(s, more[..|more| - 1], t');
        ThinnedLonger(s, t', t[|t| - 1]);
      } else {
        assert all == s;
      }
      assert t == t' + [t[|t| - 1]];
    }
  }

  lemma {:induction false} ThinnedLonger(s: seq<Entry>, t: seq<Entry>, e: Entry)
    requires Thinned(s, t)
    ensures Thinned(s, t + [e])
    decreases |t|, 1
  {
    assert (t + [e])[..|t|] == t;
    if s != [] && s[|s| - 1] == e {
      assert s[..|s| - 1] + [e] == s;
      ThinnedPrefix(s[..|s| - 1], [e], t);
    }
  }

  /** Processing follows the order of the pops: with the hand of a draining task still to come. */
  ghost predicate InPopOrder(s: State) {
    && Thinned(s.processed, s.taken)
    && forall t :: InPhase(s, t, Draining) ==> Thinned(s.processed + s.tasks[t].hand, s.taken)
  }

  lemma StepKeepsOrder(s: State, op: Op)
    requires Enabled(s, op) && Exclusive(s) && InPopOrder(s)
    requires forall t :: 0 <= t < |s.tasks| && !s.tasks[t].phase.Draining? ==> s.tasks[t].hand == []
    requires op.Expire? ==> forall t :: 0 <= t < |s.tasks| ==> !s.tasks[t].phase.Draining?
    ensures Exclusive(Step(s, op)) && InPopOrder(Step(s, op))
  {
    var u := Step(s, op);
    forall t | InPhase(u, t, Draining) ensures u.holder == Some(t) {
      assert op.Acquire? && t != op.t ==> InPhase(s, t, Draining);
    }
    if op.Acquire? {
      assert s.processed + u.tasks[op.t].hand == s.processed;
    } else if op.Pop? && s.queue != [] {
      var (batch, rest) := GetRedisVal(s.queue);
      assert InPhase(s, op.t, Draining) && s.processed + s.tasks[op.t].hand == s.processed;
      ThinnedAppend(s.processed, s.taken, batch);
      ThinnedPrefix(s.processed, batch, u.taken);
    } else if op.Process? {
      var hand := s.tasks[op.t].hand;
      assert InPhase(s, op.t, Draining);
      assert s.processed + hand == (s.processed + [hand[0]]) + hand[1..];
      ThinnedPrefix(s.processed + [hand[0]], hand[1..], s.taken);
    }
  }

  /** Under the lock, one task drains at a time and processing follows the order of the pops. */
  lemma {:induction false} DrainsInPopOrder(ops: seq<Op>)
    requires Possible(ops) && LockOutlasts(ops)
    ensures Exclusive(After(ops)) && InPopOrder(After(ops))
  {
    if ops != [] {
      var init := ops[..|ops| - 1];
      DrainsInPopOrder(init);
      FinishedTasksDidEverything(init);
      StepKeepsOrder(After(init), ops[|ops| - 1]);
    }
  }

  /**
   When a task under the lock finds the list empty, everything pushed so far has been processed,
   except what earlier tasks gave up.
   */
  lemma EmptyListMeansAllProcessed(ops: seq<Op>, t: nat, e: Entry)
    requires Possible(ops) && LockOutlasts(ops)
    requires Enabled(After(ops), Pop(t)) && GetRedisVal(After(ops).queue).0 == []
    ensures var s := After(ops); Times(s.pushed, e) == Times(s.processed, e) + Times(s.lost, e)
  {
    var s := After(ops);
    NothingVanishesOrRepeats(ops, e);
    DrainsInPopOrder(ops);
    FinishedTasksDidEverything(ops);
    forall i | 0 <= i < |s.tasks| ensures s.tasks[i].hand == [] {
      assert InPhase(s, t, Draining) && (InPhase(s, i, Draining) ==> s.holder == Some(i));
    }
    EmptyHands(s.tasks, e);
  }

  lemma {:induction false} EmptyHands(tasks: seq<Task>, e: Entry)
    requires forall i :: 0 <= i < |tasks| ==> tasks[i].hand == []
    ensures InHands(tasks, e) == 0
  {
    if tasks != [] {
      EmptyHands(tasks[..|tasks| - 1], e);
    }
  }

  // ---------------------------------------------------------------------------------------------
  // Push order

  predicate InPushOrder(entries: seq<Entry>) {
    forall i, j :: 0 <= i < j < |entries| ==> entries[i].nth < entries[j].nth
  }

  predicate NewestFirst(entries: seq<Entry>) {
    forall i, j :: 0 <= i < j < |entries| ==> entries[i].nth > entries[j].nth
  }

  predicate AllBefore(entries: seq<Entry>, n: nat) {
    forall i :: 0 <= i < |entries| ==> entries[i].nth < n
  }

  predicate Precedes(s: seq<Entry>, t: seq<Entry>) {
    forall i, j :: 0 <= i < |s| && 0 <= j < |t| ==> s[i].nth < t[j].nth
  }

  /** No pop of the run finds more than one entry. */
  predicate ShortPops(ops: seq<Op>)
    requires Possible(ops)
  {
    ops == [] ||
    var init, op := ops[..|ops| - 1], ops[|ops| - 1];
    ShortPops(init) && (op.Pop? ==> |After(init).queue| <= 1)
  }

  /**
   Pushing and popping at the same end makes the list a stack: the newest entry comes first. `short`
   says that no pop has found more than one entry.
   */
  ghost predicate Stacked(s: State, short: bool) {
    && NewestFirst(s.queue) && AllBefore(s.queue, |s.pushed|) && AllBefore(s.taken, |s.pushed|)
    && if short then InPushOrder(s.taken) && Precedes(s.taken, s.queue) else !InPushOrder(s.taken)
  }

  lemma StepKeepsStacked(s: State, op: Op, short: bool)
    requires Enabled(s, op) && Stacked(s, short)
    ensures Stacked(Step(s, op), short && (op.Pop? ==> |s.queue| <= 1))
  {
    if op.Pop? && s.queue != [] {
      PopKeepsStacked(s, op.t, short);
    } else {
      assert Step(s, op).taken == s.taken;
    }
  }

  lemma PopKeepsStacked(s: State, t: nat, short: bool)
    requires Enabled(s, Pop(t)) && Stacked(s, short) && s.queue != []
    ensures Stacked(Step(s, Pop(t)), short && |s.queue| <= 1)
  {
    var batch, rest := GetRedisVal(s.queue).0, GetRedisVal(s.queue).1;
    var u := Step(s, Pop(t));
    assert u.queue == rest && u.taken == s.taken + batch && u.pushed == s.pushed;
    assert |s.queue| > 1 <==> |batch| > 1;
    PartsOf(s.queue, batch, rest, |s.pushed|);
    hide GetRedisVal, NewestFirst, AllBefore, InPushOrder, Precedes;
    JoinBefore(s.taken, batch, |s.pushed|);
    if !short {
      DisorderStays(s.taken, batch);
    } else if |batch| > 1 {
      LongBatchBreaksOrder(s.taken, batch);
    } else {
      ShortBatchKeepsOrder(s.taken, s.queue);
      assert batch == s.queue && rest == [];
    }
  }

  lemma PartsOf(queue: seq<Entry>, batch: seq<Entry>, rest: seq<Entry>, n: nat)
    requires queue == batch + rest && NewestFirst(queue) && AllBefore(queue, n)
    ensures NewestFirst(batch) && AllBefore(batch, n) && NewestFirst(rest) && AllBefore(rest, n)
  {
    assert batch == queue[..|batch|] && rest == queue[|batch|..];
  }

  lemma JoinBefore(s: seq<Entry>, t: seq<Entry>, n: nat)
    requires AllBefore(s, n) && AllBefore(t, n)
    ensures AllBefore(s + t, n)
  {
  }

  lemma DisorderStays(s: seq<Entry>, t: seq<Entry>)
    requires !InPushOrder(s)
    ensures !InPushOrder(s + t)
  {
    var i, j :| 0 <= i < j < |s| && s[i].nth >= s[j].nth;
    assert (s + t)[i] == s[i] && (s + t)[j] == s[j];
  }

  lemma LongBatchBreaksOrder(s: seq<Entry>, batch: seq<Entry>)
    requires NewestFirst(batch) && |batch| > 1
    ensures !InPushOrder(s + batch)
  {
    assert (s + batch)[|s|] == batch[0] && (s + batch)[|s| + 1] == batch[1];
  }

  lemma ShortBatchKeepsOrder(s: seq<Entry>, batch: seq<Entry>)
    requires InPushOrder(s) && Precedes(s, batch) && |batch| <= 1
    ensures InPushOrder(s + batch) && Precedes(s + batch, [])
  {
  }

  /** Commits are popped in push order exactly when no pop ever found more than one of them. */
  lemma {:induction false} PushOrderExactlyWhen(ops: seq<Op>)
    requires Possible(ops)
    ensures Stacked(After(ops), ShortPops(ops))
    ensures InPushOrder(After(ops).taken) <==> ShortPops(ops)
  {
    if ops != [] {
      var init := ops[..|ops| - 1];
      PushOrderExactlyWhen(init);
      StepKeepsStacked(After(init), ops[|ops| - 1], ShortPops(init));
    }
  }

  /** A run under the lock that leads to state `s`. */
  ghost predicate LeadsTo(ops: seq<Op>, s: State) {
    Possible(ops) && After(ops) == s && LockOutlasts(ops)
  }

  lemma Extend(ops: seq<Op>, op: Op, s: State) returns (more: seq<Op>, t: State)
    requires LeadsTo(ops, s) && Enabled(s, op) && !op.Expire?
    ensures LeadsTo(more, t) && t == Step(s, op)
  {
    more, t := ops + [op], Step(s, op);
    assert more[..|ops|] == ops;
  }

  lemma TwoQueued(a: Entry, b: Entry) returns (ops: seq<Op>)
    requires a == Entry("a", 0) && b == Entry("b", 1)
    ensures LeadsTo(ops, State([b, a], Some(0), [Task(Draining, [], [], [])], [a, b], [], [], []))
  {
    var s := START;
    ops := [];
    assert LeadsTo(ops, s);
    hide LeadsTo;
    ops, s := Extend(ops, Push("a"), s);
    assert s == START.(queue := [a], pushed := [a]);
    ops, s := Extend(ops, Push("b"), s);
    assert s == START.(queue := [b, a], pushed := [a, b]);
    ops, s := Extend(ops, Arrive, s);
    assert s == State([b, a], None, [Task(Waiting, [], [], [])], [a, b], [], [], []);
    ops, s := Extend(ops, Acquire(0), s);
    assert s == State([b, a], Some(0), [Task(Draining, [], [], [])], [a, b], [], [], []);
  }

  /** Two pushes before a drain: the second commit is processed first. */
  lemma NewestIsProcessedFirst(a: Entry, b: Entry) returns (ops: seq<Op>, s: State)
    requires a == Entry("a", 0) && b == Entry("b", 1)
    ensures LeadsTo(ops, s) && s.pushed == [a, b] && s.processed == [b, a]
  {
    s := State([b, a], Some(0), [Task(Draining, [], [], [])], [a, b], [], [], []);
    ops := TwoQueued(a, b);
    PairSteps(a, b);
    hide *;
    ops, s := Extend(ops, Pop(0), s);
    ops, s := Extend(ops, Process(0), s);
    ops, s := Extend(ops, Process(0), s);
  }

  /** A drain of the list with `b` and `a`, step by step. */
  lemma PairSteps(a: Entry, b: Entry)
    ensures var s := State([b, a], Some(0), [Task(Draining, [], [], [])], [a, b], [], [], []);
            var t := State([], Some(0), [Task(Draining, [b, a], [b, a], [])], [a, b], [b, a], [], []);
            var u := State([], Some(0), [Task(Draining, [a], [b, a], [b])], [a, b], [b, a], [b], []);
            && Enabled(s, Pop(0)) && Step(s, Pop(0)) == t
            && Enabled(t, Process(0)) && Step(t, Process(0)) == u
            && Enabled(u, Process(0)) && Step(u, Process(0)).pushed == [a, b] && Step(u, Process(0)).processed == [b, a]
  {
    assert [] + [b, a] == [b, a] && [b, a][1..] == [a] && [] + [b] == [b] && [b] + [a] == [b, a];
    assert [Task(Draining, [], [], [])][0 := Task(Draining, [b, a], [b, a], [])] == [Task(Draining, [b, a], [b, a], [])];
    assert [Task(Draining, [b, a], [b, a], [])][0 := Task(Draining, [a], [b, a], [b])] == [Task(Draining, [a], [b, a], [b])];
  }
}
