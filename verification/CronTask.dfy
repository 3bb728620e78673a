/**
 Cron tasks as a system of concurrent runs that share a Redis lock with a timeout and a key with
 a time to live. Times are in microseconds.
 */
module CronTask {
  import opened Basics

  const SECOND := 1_000_000

  /** `hardLimit` is the task's hard time limit, 0 for none; `interval` the minimum between executions. */
  datatype Config = Config(hardLimit: nat, interval: nat) {
    function LockTimeout(): nat {
      if hardLimit < 300 * SECOND then 300 * SECOND else hardLimit
    }
  }

  datatype Phase =
    | Waiting                    // for the lock
    | Locked                     // holds the lock, has not looked at the key
    | Cleared                    // has found that enough time has passed
    | Executing                  // has written the key
    | Leaving                    // executed very recently: skips
    | Done(executed: bool)
    | Raised                     // ended by an exception of its own work
    | Killed

  datatype CronRun = CronRun(phase: Phase, started: nat, acquired: nat, generation: nat) {
    predicate InLock() {
      phase.Locked? || phase.Cleared? || phase.Executing? || phase.Leaving?
    }

    predicate Active() {
      phase.Waiting? || InLock()
    }
  }

  datatype Lock = Lock(owner: nat, expiry: nat)

  /** The key holds a time in whole seconds and lives until `expiry`. */
  datatype LastExecution = LastExecution(seconds: nat, expiry: nat)

  datatype Execution = Execution(generation: nat, at: nat)

  datatype State = State(now: nat, lock: Option<Lock>, key: Option<LastExecution>, runs: map<nat, CronRun>, log: seq<Execution>)

  const START := State(0, None, None, map[], [])

  datatype Op =
    | Tick(d: nat)
    | Start(r: nat, generation: nat)
    | Acquire(r: nat)
    | GiveUp(r: nat)
    | Check(r: nat)
    | SetKey(r: nat)
    | Leave(r: nat)
    | Raise(r: nat)
    | Kill(r: nat)

  predicate At(s: State, r: nat, p: Phase) {
    r in s.runs && s.runs[r].phase == p
  }

  /** Time passes only while no active run has reached the hard limit: by then it has been killed. */
  ghost predicate Enabled(c: Config, s: State, op: Op) {
    match op
    case Tick(d) => c.hardLimit > 0 ==> forall r :: r in s.runs && s.runs[r].Active() ==> s.now + d < s.runs[r].started + c.hardLimit
    case Start(r, _) => r !in s.runs
    case Acquire(r) => At(s, r, Waiting) && (s.lock.None? || s.lock.value.expiry <= s.now)
    case GiveUp(r) => At(s, r, Waiting)
    case Check(r) => At(s, r, Locked)
    case SetKey(r) => At(s, r, Cleared)
    case Leave(r) => At(s, r, Executing) || At(s, r, Leaving)
    case Raise(r) => At(s, r, Executing)
    case Kill(r) => r in s.runs && s.runs[r].Active()
  }

  /** The key as Redis returns it: gone once its time to live is over. */
  function Read(s: State): Option<nat> {
    if s.key.Some? && s.now < s.key.value.expiry then Some(s.key.value.seconds) else None
  }

  predicate TooRecent(c: Config, s: State, generation: nat) {
    Read(s).Some? && generation - c.interval < Read(s).value * SECOND
  }

  /** The run can give its lock back; otherwise it gets an error, which counts as not executed. */
  predicate Holds(s: State, r: nat) {
    s.lock.Some? && s.lock.value.owner == r && s.now < s.lock.value.expiry
  }

  function Move(s: State, r: nat, p: Phase): State
    requires r in s.runs
  {
    s.(runs := s.runs[r := s.runs[r].(phase := p)])
  }

  ghost function Step(c: Config, s: State, op: Op): State
    requires Enabled(c, s, op)
  {
    match op
    case Tick(d) => s.(now := s.now + d)
    case Start(r, generation) => s.(runs := s.runs[r := CronRun(Waiting, s.now, s.now, generation)])
    case Acquire(r) =>
      s.(lock := Some(Lock(r, s.now + c.LockTimeout())),
         runs := s.runs[r := s.runs[r].(phase := Locked, acquired := s.now)])
    case GiveUp(r) => Move(s, r, Done(false))
    case Check(r) => Move(s, r, if TooRecent(c, s, s.runs[r].generation) then Leaving else Cleared)
    case SetKey(r) =>
      var g := s.runs[r].generation;
      Move(s, r, Executing).(key := Some(LastExecution(g / SECOND, s.now + c.interval)), log := s.log + [Execution(g, s.now)])
    case Leave(r) => Move(s, r, Done(s.runs[r].phase.Executing? && Holds(s, r))).(lock := if Holds(s, r) then None else s.lock)
    case Raise(r) => Move(s, r, if Holds(s, r) then Raised else Done(false)).(lock := if Holds(s, r) then None else s.lock)
    case Kill(r) => Move(s, r, Killed)
  }

  ghost predicate Possible(c: Config, ops: seq<Op>)
    decreases |ops|, 0
  {
    ops == [] || (Possible(c, ops[..|ops| - 1]) && Enabled(c, After(c, ops[..|ops| - 1]), ops[|ops| - 1]))
  }

  ghost function After(c: Config, ops: seq<Op>): State
    requires Possible(c, ops)
    decreases |ops|, 1
  {
    if ops == [] then START else Step(c, After(c, ops[..|ops| - 1]), ops[|ops| - 1])
  }

  // ---------------------------------------------------------------------------------------------
  // One run from start to end

  /** Nobody holds the lock any more at a time. */
  predicate Free(lock: Option<Lock>, at: nat) {
    lock.None? || lock.value.expiry <= at
  }

  /**
   The steps of run `r` when no other run comes in between. It waits for the lock for time `w`, and
   its own work takes time `d` and may raise an exception.
   */
  ghost function Undisturbed(c: Config, s: State, r: nat, generation: nat, w: nat, d: nat, raises: bool): State
    requires s.runs == map[] && (c.hardLimit > 0 ==> w + d < c.hardLimit)
  {
    var waiting := Step(c, Step(c, s, Start(r, generation)), Tick(w));
    if !Enabled(c, waiting, Acquire(r)) then Step(c, waiting, GiveUp(r))
    else
      var checked := Step(c, Step(c, waiting, Acquire(r)), Check(r));
      if checked.runs[r].phase.Leaving? then Step(c, checked, Leave(r))
      else Step(c, Step(c, Step(c, checked, SetKey(r)), Tick(d)), if raises then Raise(r) else Leave(r))
  }

  predicate Ordered(times: seq<nat>) {
    forall i, j :: 0 <= i < j < |times| ==> times[i] <= times[j]
  }

  /** When a caller looks at the lock: at once, and then later and later. */
  predicate Tries(tries: seq<nat>) {
    tries != [] && tries[0] == 0 && Ordered(tries)
  }

  /** The first of the tries at which the lock is free, or the last one. */
  function Waited(lock: Option<Lock>, start: nat, tries: seq<nat>): nat
    requires tries != []
  {
    if Free(lock, start + tries[0]) || |tries| == 1 then tries[0] else Waited(lock, start, tries[1..])
  }

  /** The wait ends at a try; the lock is free then if it is at any of them, and at none before. */
  lemma {:induction false} WaitedIsFirstFree(lock: Option<Lock>, start: nat, tries: seq<nat>)
    requires tries != [] && Ordered(tries)
    ensures var w := Waited(lock, start, tries);
            && w in tries
            && (Free(lock, start + w) <==> exists i :: 0 <= i < |tries| && Free(lock, start + tries[i]))
            && (forall i :: 0 <= i < |tries| && Free(lock, start + tries[i]) ==> w <= tries[i])
  {
    if !Free(lock, start + tries[0]) && |tries| > 1 {
      WaitedIsFirstFree(lock, start, tries[1..]);
      assert forall i :: 0 < i < |tries| ==> tries[i] == tries[1..][i - 1];
    }
  }

  /** What a cron task keeps in Redis. */
  class Redis {
    var now: nat
    var lock: Option<Lock>
    var lastExecution: Option<LastExecution>

    ghost function Shared(): State
      reads this
    {
      State(now, lock, lastExecution, map[], [])
    }

    /**
     Tries at the given times after the call, the last of them within the time that the caller is
     ready to wait, and takes the lock as soon as it is free.
     */
    method TryLock(owner: nat, timeout: nat, tries: seq<nat>) returns (granted: bool)
      requires Tries(tries)
      modifies this`lock, this`now
      ensures now == old(now) + Waited(old(lock), old(now), tries)
      ensures granted <==> old(lock).None? || old(lock).value.expiry <= now
      ensures lock == if granted then Some(Lock(owner, now + timeout)) else old(lock)
    {
      ghost var start := now;
      for i := 0 to |tries|
        invariant lock == old(lock) && now == start + if i == 0 then 0 else tries[i - 1]
        invariant forall j :: 0 <= j < i ==> !Free(lock, start + tries[j])
        invariant Waited(lock, start, tries) == if i == |tries| then tries[i - 1] else Waited(lock, start, tries[i..])
      {
        now := now + (tries[i] - if i == 0 then 0 else tries[i - 1]);
        if Free(lock, now) {
          lock := Some(Lock(owner, now + timeout));
          return true;
        }
        assert tries[i..][1..] == tries[i + 1..];
      }
      return false;
    }

    /** Releasing a lock that has timed out is an error. */
    method Unlock(owner: nat) returns (held: bool)
      modifies this`lock
      ensures held <==> old(lock).Some? && old(lock).value.owner == owner && now < old(lock).value.expiry
      ensures lock == if held then None else old(lock)
    {
      held := lock.Some? && lock.value.owner == owner && now < lock.value.expiry;
      if held {
        lock := None;
      }
    }

    method GetLastExecution() returns (seconds: Option<nat>)
      ensures seconds == Read(Shared())
    {
      seconds := if lastExecution.Some? && now < lastExecution.value.expiry then Some(lastExecution.value.seconds) else None;
    }

    /** The part of a run that is protected by the lock. */
    method RunLocked(c: Config, r: nat, generation: nat, d: nat, raises: bool) returns (executed: Option<bool>)
      requires lock == Some(Lock(r, now + c.LockTimeout()))
      modifies this
      ensures var key := old(lastExecution);
              var recent := key.Some? && old(now) < key.value.expiry && generation - c.interval < key.value.seconds * 1_000_000;
              var inTime := d < Max(300_000_000, c.hardLimit);
              && executed == (if recent || !inTime then Some(false) else if raises then None else Some(true))
              && now == (if recent then old(now) else old(now) + d)
              && lock == (if recent || inTime then None else old(lock))
              && lastExecution == (if recent then old(lastExecution) else Some(LastExecution(generation / 1_000_000, old(now) + c.interval)))
    {
      hide Undisturbed, Step, Enabled, Possible, After;
      var last := GetLastExecution();
      if last.Some? && generation - c.interval < last.value * SECOND {
        var _ := Unlock(r);
        return Some(false);
      }
      lastExecution := Some(LastExecution(generation / SECOND, now + c.interval));
      now := now + d;
      var held := Unlock(r);
      if !held {
        return Some(false);
      }
      executed := if raises then None else Some(true);
    }

    /** Whether the task reports that it has executed; none when an exception of its work gets through. */
    method RunImpl(c: Config, r: nat, generation: nat, tries: seq<nat>, d: nat, raises: bool) returns (executed: Option<bool>)
      requires Tries(tries) && (c.hardLimit > 0 ==> tries[|tries| - 1] + d < c.hardLimit)
      modifies this
      ensures Waited(old(lock), old(now), tries) <= tries[|tries| - 1]
      ensures var s := Undisturbed(c, old(Shared()), r, generation, Waited(old(lock), old(now), tries), d, raises);
              && (now, lock, lastExecution) == (s.now, s.lock, s.key)
              && (r in s.runs && s.runs[r].phase == if executed.Some? then Done(executed.value) else Raised)
    {
      hide Undisturbed, Step, Enabled, Waited, TooRecent, Possible, After;
      ghost var s, w := Shared(), Waited(lock, now, tries);
      WaitIsBounded(lock, now, tries);
      hide Tries;
      var granted := TryLock(r, c.LockTimeout(), tries);
      if !granted {
        RunGivesUp(c, s, r, generation, w, d, raises);
        return Some(false);
      }
      executed := RunLocked(c, r, generation, d, raises);
      RunsAlone(c, s, r, generation, w, d, raises);
    }
  }

  lemma WaitIsBounded(lock: Option<Lock>, start: nat, tries: seq<nat>)
    requires Tries(tries)
    ensures Waited(lock, start, tries) <= tries[|tries| - 1]
  {
    WaitedIsFirstFree(lock, start, tries);
  }

  /**
   An undisturbed run that waits for time `w` does its work exactly when the lock is free by then and
   the last execution is not too recent. It gives the lock back, and reports that it has executed or
   lets the exception of its work through, exactly when its work was faster than the timeout of the
   lock, as that of any task with a hard limit is.
   */
  lemma RunsAlone(c: Config, s: State, r: nat, generation: nat, w: nat, d: nat, raises: bool)
    requires s.runs == map[] && (c.hardLimit > 0 ==> w + d < c.hardLimit)
    ensures var t, at, timeout := Undisturbed(c, s, r, generation, w, d, raises), s.now + w, Max(300_000_000, c.hardLimit);
            var free := s.lock.None? || s.lock.value.expiry <= at;
            var recent := s.key.Some? && at < s.key.value.expiry && generation - c.interval < s.key.value.seconds * 1_000_000;
            var inTime := d < timeout;
            && r in t.runs
            && t.runs[r].phase == (if free && !recent && inTime && raises then Raised else Done(free && !recent && inTime))
            && t.log == (if free && !recent then s.log + [Execution(generation, at)] else s.log)
            && t.now == (if free && !recent then at + d else at)
            && t.key == (if free && !recent then Some(LastExecution(generation / 1_000_000, at + c.interval)) else s.key)
            && t.lock == (if !free then s.lock else if recent || inTime then None else Some(Lock(r, at + timeout)))
            && (c.hardLimit > 0 ==> inTime)
  {
    hide Undisturbed;
    if !Free(s.lock, s.now + w) {
      RunGivesUp(c, s, r, generation, w, d, raises);
    } else if TooRecent(c, s.(now := s.now + w), generation) {
      RunSkips(c, s, r, generation, w, d, raises);
    } else {
      RunExecutes(c, s, r, generation, w, d, raises);
    }
  }

  lemma RunGivesUp(c: Config, s: State, r: nat, generation: nat, w: nat, d: nat, raises: bool)
    requires s.runs == map[] && (c.hardLimit > 0 ==> w + d < c.hardLimit)
    requires !Free(s.lock, s.now + w)
    ensures var t := Undisturbed(c, s, r, generation, w, d, raises);
            && r in t.runs && t.runs[r].phase == Done(false)
            && t.log == s.log && t.now == s.now + w && t.key == s.key && t.lock == s.lock
  {
  }

  /** The run with the lock in its hands, before and after it looks at the key. */
  lemma RunLocks(c: Config, s: State, r: nat, generation: nat, w: nat) returns (locked: State, checked: State)
    requires s.runs == map[] && (c.hardLimit > 0 ==> w < c.hardLimit)
    requires Free(s.lock, s.now + w)
    ensures Enabled(c, s, Start(r, generation)) && Enabled(c, Step(c, s, Start(r, generation)), Tick(w))
    ensures var waiting := Step(c, Step(c, s, Start(r, generation)), Tick(w));
            && Enabled(c, waiting, Acquire(r)) && locked == Step(c, waiting, Acquire(r))
            && Enabled(c, locked, Check(r)) && checked == Step(c, locked, Check(r))
    ensures var run := CronRun(if TooRecent(c, s.(now := s.now + w), generation) then Leaving else Cleared, s.now, s.now + w, generation);
            checked == State(s.now + w, Some(Lock(r, s.now + w + c.LockTimeout())), s.key, map[r := run], s.log)
  {
    var waiting := Step(c, Step(c, s, Start(r, generation)), Tick(w));
    locked := Step(c, waiting, Acquire(r));
    checked := Step(c, locked, Check(r));
    assert TooRecent(c, locked, generation) == TooRecent(c, s.(now := s.now + w), generation);
  }

  lemma RunSkips(c: Config, s: State, r: nat, generation: nat, w: nat, d: nat, raises: bool)
    requires s.runs == map[] && (c.hardLimit > 0 ==> w + d < c.hardLimit)
    requires Free(s.lock, s.now + w) && TooRecent(c, s.(now := s.now + w), generation)
    ensures var t := Undisturbed(c, s, r, generation, w, d, raises);
            && r in t.runs && t.runs[r].phase == Done(false)
            && t.log == s.log && t.now == s.now + w && t.key == s.key && t.lock == None
  {
    var locked, checked := RunLocks(c, s, r, generation, w);
    hide TooRecent;
  }

  /** The work of a run that has just written the key, and what it does afterwards. */
  lemma RunWorks(c: Config, s: State, r: nat, d: nat, raises: bool)
    requires At(s, r, Executing) && s.runs.Keys == {r} && s.lock == Some(Lock(r, s.now + c.LockTimeout()))
    requires c.hardLimit > 0 ==> s.now + d < s.runs[r].started + c.hardLimit
    ensures Enabled(c, s, Tick(d))
    ensures var worked, last := Step(c, s, Tick(d)), if raises then Raise(r) else Leave(r);
            && Enabled(c, worked, last)
            && var t, inTime := Step(c, worked, last), d < c.LockTimeout();
               && At(t, r, if inTime && raises then Raised else Done(inTime))
               && t.log == s.log && t.now == s.now + d && t.key == s.key && t.lock == if inTime then None else s.lock
  {
  }

  lemma RunExecutes(c: Config, s: State, r: nat, generation: nat, w: nat, d: nat, raises: bool)
    requires s.runs == map[] && (c.hardLimit > 0 ==> w + d < c.hardLimit)
    requires Free(s.lock, s.now + w) && !TooRecent(c, s.(now := s.now + w), generation)
    ensures var t, at, inTime := Undisturbed(c, s, r, generation, w, d, raises), s.now + w, d < c.LockTimeout();
            && r in t.runs && t.runs[r].phase == (if inTime && raises then Raised else Done(inTime))
            && t.log == s.log + [Execution(generation, at)] && t.now == at + d
            && t.key == Some(LastExecution(generation / SECOND, at + c.interval))
            && t.lock == if inTime then None else Some(Lock(r, at + c.LockTimeout()))
  {
    var locked, checked := RunLocks(c, s, r, generation, w);
    RunSetsKey(c, checked, r);
    hide TooRecent, Holds, Step, Enabled;
    RunWorks(c, Step(c, checked, SetKey(r)), r, d, raises);
  }

  lemma RunSetsKey(c: Config, s: State, r: nat)
    requires At(s, r, Cleared)
    ensures Enabled(c, s, SetKey(r))
    ensures var run := s.runs[r].(phase := Executing);
            Step(c, s, SetKey(r)) == State(s.now, s.lock, Some(LastExecution(run.generation / SECOND, s.now + c.interval)),
                                           s.runs[r := run], s.log + [Execution(run.generation, s.now)])
  {
  }

  // ---------------------------------------------------------------------------------------------
  // Mutual exclusion

  /** A run inside the lock owns it until after its hard limit. */
  ghost predicate OwnsLock(c: Config, s: State, r: nat)
    requires r in s.runs
  {
    var run := s.runs[r];
    && s.now < run.started + c.hardLimit
    && (run.InLock() ==> run.started <= run.acquired <= s.now && s.lock == Some(Lock(r, run.acquired + c.LockTimeout())))
  }

  ghost predicate Exclusive(c: Config, s: State) {
    forall r :: r in s.runs && s.runs[r].Active() ==> s.runs[r].started <= s.now && OwnsLock(c, s, r)
  }

  lemma StepKeepsExclusive(c: Config, s: State, op: Op)
    requires c.hardLimit > 0 && Exclusive(c, s) && Enabled(c, s, op)
    ensures Exclusive(c, Step(c, s, op))
  {
    var t := Step(c, s, op);
    forall r | r in t.runs && t.runs[r].Active() ensures t.runs[r].started <= t.now && OwnsLock(c, t, r) {
      if r in s.runs && s.runs[r].Active() {
        assert OwnsLock(c, s, r);
      }
      if op.Leave? || op.Raise? {
        assert OwnsLock(c, s, op.r);
      }
    }
  }

  /** With a hard time limit, no two runs are ever inside the lock together. */
  lemma {:induction false} AtMostOneInLock(c: Config, ops: seq<Op>)
    requires c.hardLimit > 0 && Possible(c, ops)
    ensures Exclusive(c, After(c, ops))
    ensures var s := After(c, ops);
            forall q, r :: q in s.runs && r in s.runs && s.runs[q].InLock() && s.runs[r].InLock() ==> q == r
  {
    if ops != [] {
      AtMostOneInLock(c, ops[..|ops| - 1]);
      StepKeepsExclusive(c, After(c, ops[..|ops| - 1]), ops[|ops| - 1]);
    }
    var s := After(c, ops);
    forall q, r | q in s.runs && r in s.runs && s.runs[q].InLock() && s.runs[r].InLock() ensures q == r {
      assert OwnsLock(c, s, q) && OwnsLock(c, s, r);
    }
  }

  /** A killed run does not give its lock back: others get it when it times out, and not before. */
  lemma KilledRunKeepsLock(c: Config, s: State, r: nat, q: nat)
    requires Enabled(c, s, Kill(r)) && s.lock.Some? && s.lock.value.owner == r
    requires q != r && At(s, q, Waiting)
    ensures var t := Step(c, s, Kill(r)); Enabled(c, t, Acquire(q)) <==> s.lock.value.expiry <= s.now
  {
  }

  // ---------------------------------------------------------------------------------------------
  // The interval between executions

  /**
   Two executions are apart: by the times at which they were generated, the earlier one cut off to
   whole seconds as it is stored, or by the clock.
   */
  predicate Apart(c: Config, e: Execution, f: Execution) {
    f.generation >= e.generation / SECOND * SECOND + c.interval || f.at >= e.at + c.interval
  }

  ghost predicate Spaced(c: Config, s: State) {
    && (forall i :: 0 <= i < |s.log| - 1 ==> Apart(c, s.log[i], s.log[i + 1]))
    && (s.log == [] ==> s.key.None?)
    && (s.log != [] ==>
          var last := s.log[|s.log| - 1];
          s.key == Some(LastExecution(last.generation / SECOND, last.at + c.interval)))
    && (forall r :: At(s, r, Cleared) && s.log != [] ==> Apart(c, s.log[|s.log| - 1], Execution(s.runs[r].generation, s.now)))
  }

  lemma StepKeepsSpaced(c: Config, s: State, op: Op)
    requires c.hardLimit > 0 && Exclusive(c, s) && Spaced(c, s) && Enabled(c, s, op)
    ensures Spaced(c, Step(c, s, op))
  {
    var t := Step(c, s, op);
    if op.SetKey? {
      assert OwnsLock(c, s, op.r);
      forall r | At(s, r, Cleared) ensures r == op.r {
        assert OwnsLock(c, s, r);
      }
    }
  }

  /**
   With a hard limit, a run that looks at the key goes on to execute exactly when nothing was executed
   before, or the last execution was generated, cut off to the second, at least the interval before
   it, or started at least the interval before now. Otherwise it leaves without executing.
   */
  lemma CheckClearsExactlyWhen(c: Config, ops: seq<Op>, r: nat)
    requires c.hardLimit > 0 && Possible(c, ops) && Enabled(c, After(c, ops), Check(r))
    ensures var s := After(c, ops);
            var t := Step(c, s, Check(r));
            && r in s.runs && r in t.runs
            && (t.runs[r].phase.Cleared? || t.runs[r].phase.Leaving?)
            && (t.runs[r].phase.Cleared?
                <==> s.log == [] ||
                     var last := s.log[|s.log| - 1];
                     || s.runs[r].generation >= last.generation / 1_000_000 * 1_000_000 + c.interval
                     || s.now >= last.at + c.interval)
  {
    ExecutionsAreApart(c, ops);
    hide Possible, After, Apart;
  }

  /**
   Any two consecutive executions were generated at least the interval apart, up to the second cut
   off in the stored time, or start at least that far apart by the clock.
   */
  lemma {:induction false} ExecutionsAreApart(c: Config, ops: seq<Op>)
    requires c.hardLimit > 0 && Possible(c, ops)
    ensures Spaced(c, After(c, ops))
    ensures var log := After(c, ops).log;
            forall i :: 0 <= i < |log| - 1 ==>
              log[i + 1].generation - log[i].generation > c.interval - SECOND || log[i + 1].at - log[i].at >= c.interval
  {
    if ops != [] {
      var init := ops[..|ops| - 1];
      ExecutionsAreApart(c, init);
      AtMostOneInLock(c, init);
      StepKeepsSpaced(c, After(c, init), ops[|ops| - 1]);
    }
    var log := After(c, ops).log;
    forall i | 0 <= i < |log| - 1
      ensures log[i + 1].generation - log[i].generation > c.interval - SECOND || log[i + 1].at - log[i].at >= c.interval
    {
      assert Apart(c, log[i], log[i + 1]);
    }
  }

  // ---------------------------------------------------------------------------------------------
  // Without a hard limit

  lemma PossibleStep(c: Config, ops: seq<Op>, op: Op)
    requires Possible(c, ops) && Enabled(c, After(c, ops), op)
    ensures Possible(c, ops + [op]) && After(c, ops + [op]) == Step(c, After(c, ops), op)
  {
    assert (ops + [op])[..|ops|] == ops;
  }

  /** Without a hard limit the lock times out after five minutes, whether its owner is done or not. */
  lemma OverlapWithoutLimit(c: Config) returns (ops: seq<Op>)
    requires c.hardLimit == 0
    ensures Possible(c, ops)
    ensures var s := After(c, ops); 0 in s.runs && 1 in s.runs && s.runs[0].InLock() && s.runs[1].InLock()
  {
    ops := [];
    PossibleStep(c, ops, Start(0, 0));
    ops := ops + [Start(0, 0)];
    PossibleStep(c, ops, Acquire(0));
    ops := ops + [Acquire(0)];
    PossibleStep(c, ops, Tick(300 * SECOND));
    ops := ops + [Tick(300 * SECOND)];
    PossibleStep(c, ops, Start(1, 0));
    ops := ops + [Start(1, 0)];
    PossibleStep(c, ops, Acquire(1));
    ops := ops + [Acquire(1)];
  }

  ghost predicate CanOverlap(c: Config) {
    exists ops, q, r :: Possible(c, ops) && q != r && Overlapping(After(c, ops), q, r)
  }

  predicate Overlapping(s: State, q: nat, r: nat) {
    q in s.runs && r in s.runs && s.runs[q].InLock() && s.runs[r].InLock()
  }

  /** Two runs can be inside the lock together exactly when there is no hard time limit. */
  lemma OverlapExactlyWithoutLimit(c: Config)
    ensures CanOverlap(c) <==> c.hardLimit == 0
  {
    if c.hardLimit == 0 {
      var ops := OverlapWithoutLimit(c);
      assert Overlapping(After(c, ops), 0, 1);
    } else if CanOverlap(c) {
      var ops, q, r :| Possible(c, ops) && q != r && Overlapping(After(c, ops), q, r);
      AtMostOneInLock(c, ops);
    }
  }
}
