/** Daily rollups of test runs: running totals per batch, and the upsert that merges batches. */
module TestRollups {
  import opened Basics

  datatype Outcome = Pass | Failure | Error | Skip

  /** `test` is the id derived from repository, suite, name and flags. */
  datatype Testrun = Testrun(test: string, duration: Option<real>, outcome: Outcome)

  datatype DailyTotals = DailyTotals(
    lastDuration: real, avgDuration: real,
    passCount: nat, failCount: nat, skipCount: nat, flakyFailCount: nat, commitsWhereFail: seq<string>)

  /** What a batch of runs has in common. */
  datatype Upload = Upload(commit: string, flags: seq<int>, flaky: set<string>)

  predicate Failed(o: Outcome) {
    o == Failure || o == Error
  }

  function OrZero(d: Option<real>): real {
    if d.Some? then d.value else 0.0
  }

  function Created(up: Upload, run: Testrun): DailyTotals {
    DailyTotals(OrZero(run.duration), OrZero(run.duration),
                if run.outcome == Pass then 1 else 0,
                if Failed(run.outcome) then 1 else 0,
                if run.outcome == Skip then 1 else 0,
                if run.test in up.flaky && Failed(run.outcome) then 1 else 0,
                if Failed(run.outcome) then [up.commit] else [])
  }

  /** The average that `d` enters as one more value besides the passes and failures. */
  function Averaged(avg: real, weight: nat, d: real): real {
    (avg * weight as real + d) / (weight + 1) as real
  }

  function Updated(t: DailyTotals, run: Testrun): DailyTotals {
    var avg := if run.duration.Some? then Averaged(t.avgDuration, t.passCount + t.failCount, run.duration.value) else t.avgDuration;
    var u := t.(avgDuration := avg);
    match run.outcome
    case Pass => u.(passCount := t.passCount + 1)
    case Failure => u.(failCount := t.failCount + 1)
    case Error => u.(failCount := t.failCount + 1)
    case Skip => u.(skipCount := t.skipCount + 1)
  }

  /** The merge of a stored row with a new one, as the upsert does it. */
  function Merged(row: DailyTotals, t: DailyTotals): DailyTotals {
    DailyTotals(t.lastDuration, Averaged(row.avgDuration, row.passCount + row.failCount, t.avgDuration),
                row.passCount + t.passCount, row.failCount + t.failCount, row.skipCount + t.skipCount,
                row.flakyFailCount + t.flakyFailCount, row.commitsWhereFail + t.commitsWhereFail)
  }

  // ---------------------------------------------------------------------------------------------
  // Writing a batch

  /** The runs of one test, in order. */
  function RunsOf(runs: seq<Testrun>, test: string): seq<Testrun> {
    if runs == [] then []
    else
      var run := runs[|runs| - 1];
      RunsOf(runs[..|runs| - 1], test) + if run.test == test then [run] else []
  }

  /** The totals that one test's runs add up to. */
  function TotalsOf(up: Upload, runs: seq<Testrun>): DailyTotals
    requires runs != []
  {
    if |runs| == 1 then Created(up, runs[0]) else Updated(TotalsOf(up, runs[..|runs| - 1]), runs[|runs| - 1])
  }

  ghost predicate Summarizes(up: Upload, totals: map<string, DailyTotals>, runs: seq<Testrun>) {
    && (forall test :: test in totals <==> RunsOf(runs, test) != [])
    && (forall test :: test in totals ==> totals[test] == TotalsOf(up, RunsOf(runs, test)))
  }

  /** The structures that a batch fills before it is written. */
  class Structures {
    var testsToWrite: map<string, Testrun>
    var testInstances: seq<Testrun>
    var flagBridges: seq<(string, int)>
    var dailyTotals: map<string, DailyTotals>

    constructor ()
      ensures testsToWrite == map[] && testInstances == [] && flagBridges == [] && dailyTotals == map[]
    {
      testsToWrite, testInstances, flagBridges, dailyTotals := map[], [], [], map[];
    }

    /** The first run of a test: its totals then summarize that run, and the others what they did. */
    method CreateDailyTotals(up: Upload, run: Testrun, ghost runs: seq<Testrun>)
      requires Summarizes(up, dailyTotals, runs) && run.test !in dailyTotals
      modifies this`dailyTotals
      ensures Summarizes(up, dailyTotals, runs + [run])
    {
      var duration := if run.duration.Some? then run.duration.value else 0.0;
      var failed := run.outcome == Failure || run.outcome == Error;
      var t := DailyTotals(duration, duration,
                           if run.outcome == Pass then 1 else 0,
                           if failed then 1 else 0,
                           if run.outcome == Skip then 1 else 0,
                           if run.test in up.flaky && failed then 1 else 0,
                           if failed then [up.commit] else []);
      assert t == Created(up, run);
      hide *;
      SummarizesMore(up, dailyTotals, runs, run, t);
      dailyTotals := dailyTotals[run.test := t];
    }

    /** A further run of a test. */
    method UpdateDailyTotals(up: Upload, run: Testrun, ghost runs: seq<Testrun>)
      requires Summarizes(up, dailyTotals, runs) && run.test in dailyTotals
      modifies this`dailyTotals
      ensures Summarizes(up, dailyTotals, runs + [run])
    {
      hide Averaged, Summarizes;
      ghost var u := Updated(dailyTotals[run.test], run);
      var t := dailyTotals[run.test];
      if run.duration.Some? {
        t := t.(avgDuration := Averaged(t.avgDuration, t.passCount + t.failCount, run.duration.value));
      }
      if run.outcome == Pass {
        t := t.(passCount := t.passCount + 1);
      } else if run.outcome == Failure || run.outcome == Error {
        t := t.(failCount := t.failCount + 1);
      } else if run.outcome == Skip {
        t := t.(skipCount := t.skipCount + 1);
      }
      assert t == u;
      hide *;
      SummarizesMore(up, dailyTotals, runs, run, t);
      dailyTotals := dailyTotals[run.test := t];
    }

    method ModifyStructures(up: Upload, run: Testrun, ghost runs: seq<Testrun>)
      requires Summarizes(up, dailyTotals, runs)
      modifies this
      ensures Summarizes(up, dailyTotals, runs + [run])
      ensures testsToWrite == old(testsToWrite)[run.test := run] && testInstances == old(testInstances) + [run]
      ensures flagBridges == old(flagBridges) + seq(|up.flags|, i requires 0 <= i < |up.flags| => (run.test, up.flags[i]))
    {
      testsToWrite := testsToWrite[run.test := run];
      testInstances := testInstances + [run];
      flagBridges := flagBridges + seq(|up.flags|, i requires 0 <= i < |up.flags| => (run.test, up.flags[i]));
      hide Summarizes;
      if run.test in dailyTotals {
        UpdateDailyTotals(up, run, runs);
      } else {
        CreateDailyTotals(up, run, runs);
      }
    }
  }

  lemma SummarizesMore(up: Upload, totals: map<string, DailyTotals>, runs: seq<Testrun>, run: Testrun, t: DailyTotals)
    requires Summarizes(up, totals, runs)
    requires t == if run.test in totals then Updated(totals[run.test], run) else Created(up, run)
    ensures Summarizes(up, totals[run.test := t], runs + [run])
  {
    RunsAppend(up, runs, run);
    hide RunsOf, TotalsOf, Created, Updated;
  }

  lemma RunsAppend(up: Upload, runs: seq<Testrun>, run: Testrun)
    ensures forall test :: RunsOf(runs + [run], test) == if run.test == test then RunsOf(runs, test) + [run] else RunsOf(runs, test)
    ensures var mine := RunsOf(runs + [run], run.test);
            TotalsOf(up, mine) == if RunsOf(runs, run.test) == [] then Created(up, run)
                                  else Updated(TotalsOf(up, RunsOf(runs, run.test)), run)
  {
    assert (runs + [run])[..|runs|] == runs;
    var before := RunsOf(runs, run.test);
    assert (before + [run])[..|before|] == before;
  }

  /** The stored rows of one repository, branch and day, by test. */
  type Rows = map<string, DailyTotals>

  function Upserted(rows: Rows, totals: map<string, DailyTotals>): Rows {
    map test | test in rows.Keys + totals.Keys ::
      if test !in totals then rows[test] else if test in rows then Merged(rows[test], totals[test]) else totals[test]
  }

  class PGDriver {
    const flakyTests: set<string>
    var rollups: Rows
    var testInstances: seq<Testrun>

    method WriteTestruns(commit: string, flags: seq<int>, testruns: seq<Testrun>)
      modifies this
      ensures rollups == RowsAfter(old(rollups), Upload(commit, flags, flakyTests), testruns)
      ensures testInstances == old(testInstances) + testruns
    {
      var up := Upload(commit, flags, flakyTests);
      var s := FilledStructures(up, testruns);
      SummaryIsBatch(up, s.dailyTotals, testruns);
      NothingUpserted(rollups);
      hide BatchTotals, Summarizes, Upserted;
      if |s.dailyTotals| > 0 {
        rollups := Upserted(rollups, s.dailyTotals);
      }
      if |s.testInstances| > 0 {
        testInstances := testInstances + s.testInstances;
      }
    }
  }

  lemma NothingUpserted(rows: Rows)
    ensures forall totals: map<string, DailyTotals> :: |totals| == 0 ==> Upserted(rows, totals) == rows
  {
    forall totals: map<string, DailyTotals> | |totals| == 0 ensures Upserted(rows, totals) == rows {
      assert totals == map[];
    }
  }

  /** The structures with all runs of a batch in them. */
  method FilledStructures(up: Upload, testruns: seq<Testrun>) returns (s: Structures)
    ensures fresh(s) && Summarizes(up, s.dailyTotals, testruns) && s.testInstances == testruns
  {
    s := new Structures();
    assert Summarizes(up, s.dailyTotals, testruns[..0]);
    hide Summarizes;
    for i := 0 to |testruns|
      invariant fresh(s) && Summarizes(up, s.dailyTotals, testruns[..i]) && s.testInstances == testruns[..i]
    {
      s.ModifyStructures(up, testruns[i], testruns[..i]);
      assert testruns[..i + 1] == testruns[..i] + [testruns[i]];
    }
    assert testruns[..|testruns|] == testruns;
  }

  function Tests(runs: seq<Testrun>): set<string> {
    set run | run in runs :: run.test
  }

  lemma {:induction false} TestsHaveRuns(runs: seq<Testrun>, test: string)
    ensures test in Tests(runs) <==> RunsOf(runs, test) != []
  {
    if runs != [] {
      var init, run := runs[..|runs| - 1], runs[|runs| - 1];
      TestsHaveRuns(init, test);
      assert runs == init + [run];
    }
  }

  function BatchTotals(up: Upload, runs: seq<Testrun>): map<string, DailyTotals> {
    map test | test in Tests(runs) && RunsOf(runs, test) != [] :: TotalsOf(up, RunsOf(runs, test))
  }

  function RowsAfter(rows: Rows, up: Upload, runs: seq<Testrun>): Rows {
    Upserted(rows, BatchTotals(up, runs))
  }

  lemma SummaryIsBatch(up: Upload, totals: map<string, DailyTotals>, runs: seq<Testrun>)
    requires Summarizes(up, totals, runs)
    ensures totals == BatchTotals(up, runs)
  {
    forall test ensures test in totals <==> test in BatchTotals(up, runs) {
      TestsHaveRuns(runs, test);
    }
  }

  // ---------------------------------------------------------------------------------------------
  // Runs of batches

  datatype Batch = Batch(up: Upload, runs: seq<Testrun>)

  function Stored(batches: seq<Batch>): Rows {
    if batches == [] then map[]
    else
      var b := batches[|batches| - 1];
      RowsAfter(Stored(batches[..|batches| - 1]), b.up, b.runs)
  }

  function AllRuns(batches: seq<Batch>): seq<Testrun> {
    if batches == [] then [] else AllRuns(batches[..|batches| - 1]) + batches[|batches| - 1].runs
  }

  /** How an outcome counts: errors count as failures. */
  datatype Tally = Passes | Failures | Skips

  function TallyOf(o: Outcome): Tally {
    match o
    case Pass => Passes
    case Failure => Failures
    case Error => Failures
    case Skip => Skips
  }

  function Count(runs: seq<Testrun>, test: string, tally: Tally): nat {
    if runs == [] then 0
    else
      var run := runs[|runs| - 1];
      Count(runs[..|runs| - 1], test, tally) + if run.test == test && TallyOf(run.outcome) == tally then 1 else 0
  }

  function CountIn(t: DailyTotals, tally: Tally): nat {
    match tally
    case Passes => t.passCount
    case Failures => t.failCount
    case Skips => t.skipCount
  }

  lemma {:induction false} CountAppend(s: seq<Testrun>, t: seq<Testrun>, test: string, tally: Tally)
    ensures Count(s + t, test, tally) == Count(s, test, tally) + Count(t, test, tally)
  {
    if t == [] {
      assert s + t == s;
    } else {
      assert (s + t)[..|s + t| - 1] == s + t[..|t| - 1];
      CountAppend(s, t[..|t| - 1], test, tally);
    }
  }

  lemma BatchCountsStep(up: Upload, runs: seq<Testrun>, run: Testrun, test: string, tally: Tally)
    requires RunsOf(runs, test) == [] ==> Count(runs, test, tally) == 0
    requires RunsOf(runs, test) != [] ==> CountIn(TotalsOf(up, RunsOf(runs, test)), tally) == Count(runs, test, tally)
    ensures var all := runs + [run];
            && (RunsOf(all, test) == [] ==> Count(all, test, tally) == 0)
            && (RunsOf(all, test) != [] ==> CountIn(TotalsOf(up, RunsOf(all, test)), tally) == Count(all, test, tally))
  {
    RunsAppend(up, runs, run);
    assert (runs + [run])[..|runs|] == runs;
    assert Count(runs + [run], test, tally)
           == Count(runs, test, tally) + if run.test == test && TallyOf(run.outcome) == tally then 1 else 0;
    hide RunsOf, TotalsOf, Count, Updated, Averaged;
    if run.test == test && RunsOf(runs, test) != [] {
      UpdatedCounts(TotalsOf(up, RunsOf(runs, test)), run, tally);
    }
  }

  lemma UpdatedCounts(t: DailyTotals, run: Testrun, tally: Tally)
    ensures CountIn(Updated(t, run), tally) == CountIn(t, tally) + if TallyOf(run.outcome) == tally then 1 else 0
  {
  }

  lemma {:induction false} BatchCounts(up: Upload, runs: seq<Testrun>, test: string, tally: Tally)
    ensures RunsOf(runs, test) == [] ==> Count(runs, test, tally) == 0
    ensures RunsOf(runs, test) != [] ==> CountIn(TotalsOf(up, RunsOf(runs, test)), tally) == Count(runs, test, tally)
  {
    if runs != [] {
      var init, run := runs[..|runs| - 1], runs[|runs| - 1];
      BatchCounts(up, init, test, tally);
      assert runs == init + [run];
      BatchCountsStep(up, init, run, test, tally);
    }
  }

  /** How many of the runs are of the test and have one of the outcomes. */
  function RunsWith(runs: seq<Testrun>, test: string, outcomes: set<Outcome>): nat {
    |set i | 0 <= i < |runs| && runs[i].test == test && runs[i].outcome in outcomes|
  }

  lemma RunsWithOneMore(runs: seq<Testrun>, run: Testrun, test: string, outcomes: set<Outcome>)
    ensures RunsWith([], test, outcomes) == 0
    ensures RunsWith(runs + [run], test, outcomes)
            == RunsWith(runs, test, outcomes) + if run.test == test && run.outcome in outcomes then 1 else 0
  {
    var all, n := runs + [run], |runs|;
    var before := set i | 0 <= i < n && runs[i].test == test && runs[i].outcome in outcomes;
    var now := set i | 0 <= i < n + 1 && all[i].test == test && all[i].outcome in outcomes;
    assert now == if run.test == test && run.outcome in outcomes then before + {n} else before;
  }

  lemma {:induction false} CountIsRunsWith(runs: seq<Testrun>, test: string, tally: Tally)
    ensures Count(runs, test, tally)
            == RunsWith(runs, test, match tally case Passes => {Pass} case Failures => {Failure, Error} case Skips => {Skip})
  {
    hide RunsWith;
    var outcomes := match tally case Passes => {Pass} case Failures => {Failure, Error} case Skips => {Skip};
    if runs == [] {
      RunsWithOneMore([], Testrun(test, None, Pass), test, outcomes);
    } else {
      var init, run := runs[..|runs| - 1], runs[|runs| - 1];
      CountIsRunsWith(init, test, tally);
      RunsWithOneMore(init, run, test, outcomes);
      assert runs == init + [run];
    }
  }

  /**
   However the runs are split into batches, the stored counts are the numbers of passes, of failures
   and errors, and of skips among all the runs of the test; a test has a row exactly when it has run.
   */
  lemma StoredCounts(batches: seq<Batch>, test: string)
    ensures test in Stored(batches) <==> exists i :: 0 <= i < |AllRuns(batches)| && AllRuns(batches)[i].test == test
    ensures test in Stored(batches) ==>
              var row, runs := Stored(batches)[test], AllRuns(batches);
              && row.passCount == RunsWith(runs, test, {Pass})
              && row.failCount == RunsWith(runs, test, {Failure, Error})
              && row.skipCount == RunsWith(runs, test, {Skip})
  {
    hide RunsWith, Count, RunsOf, Stored, AllRuns;
    StoredTallies(batches, test, Passes);
    StoredTallies(batches, test, Failures);
    StoredTallies(batches, test, Skips);
    CountIsRunsWith(AllRuns(batches), test, Passes);
    CountIsRunsWith(AllRuns(batches), test, Failures);
    CountIsRunsWith(AllRuns(batches), test, Skips);
    RunsOfSome(AllRuns(batches), test);
  }

  lemma {:induction false} RunsOfSome(runs: seq<Testrun>, test: string)
    ensures RunsOf(runs, test) != [] <==> exists i :: 0 <= i < |runs| && runs[i].test == test
  {
    if runs != [] {
      var init := runs[..|runs| - 1];
      RunsOfSome(init, test);
      if i :| 0 <= i < |init| && init[i].test == test {
        assert runs[i].test == test;
      }
    }
  }

  lemma {:induction false} StoredTallies(batches: seq<Batch>, test: string, tally: Tally)
    ensures test in Stored(batches) <==> RunsOf(AllRuns(batches), test) != []
    ensures test in Stored(batches) ==> CountIn(Stored(batches)[test], tally) == Count(AllRuns(batches), test, tally)
    ensures test !in Stored(batches) ==> Count(AllRuns(batches), test, tally) == 0
  {
    if batches != [] {
      var init, b := batches[..|batches| - 1], batches[|batches| - 1];
      hide Count, RunsOf, RowsAfter;
      StoredTallies(init, test, tally);
      RowCounts(Stored(init), b.up, b.runs, test, tally);
      CountAppend(AllRuns(init), b.runs, test, tally);
      RunsOfAppend(AllRuns(init), b.runs, test);
    }
  }

  /** What one batch adds to the row of a test. */
  lemma RowCounts(rows: Rows, up: Upload, runs: seq<Testrun>, test: string, tally: Tally)
    ensures var after := RowsAfter(rows, up, runs);
            && (test in after <==> test in rows || RunsOf(runs, test) != [])
            && (test in after ==>
                  CountIn(after[test], tally) == (if test in rows then CountIn(rows[test], tally) else 0) + Count(runs, test, tally))
            && (RunsOf(runs, test) == [] ==> Count(runs, test, tally) == 0)
  {
    BatchCounts(up, runs, test, tally);
    TestsHaveRuns(runs, test);
    hide Count, RunsOf, TotalsOf, Averaged, Tests;
  }

  lemma {:induction false} RunsOfAppend(s: seq<Testrun>, t: seq<Testrun>, test: string)
    ensures RunsOf(s + t, test) == RunsOf(s, test) + RunsOf(t, test)
  {
    if t == [] {
      assert s + t == s;
    } else {
      assert (s + t)[..|s + t| - 1] == s + t[..|t| - 1];
      RunsOfAppend(s, t[..|t| - 1], test);
    }
  }

  // ---------------------------------------------------------------------------------------------
  // Averages

  lemma AveragedBetween(avg: real, weight: nat, d: real, lo: real, hi: real)
    requires lo <= avg <= hi && lo <= d <= hi
    ensures lo <= Averaged(avg, weight, d) <= hi
  {
    var w := weight as real;
    var n, m := avg * w + d, w + 1.0;
    assert Averaged(avg, weight, d) == n / m;
    AtLeastScaled(lo, avg, d, w);
    AtMostScaled(hi, avg, d, w);
    QuotientBetween(n, m, lo, hi);
  }

  lemma AtLeastScaled(lo: real, avg: real, d: real, w: real)
    requires lo <= avg && lo <= d && w >= 0.0
    ensures lo * (w + 1.0) <= avg * w + d
  {
    ScaledOrder(lo, avg, w);
    DistributesOne(lo, w);
  }

  lemma AtMostScaled(hi: real, avg: real, d: real, w: real)
    requires avg <= hi && d <= hi && w >= 0.0
    ensures avg * w + d <= hi * (w + 1.0)
  {
    ScaledOrder(avg, hi, w);
    DistributesOne(hi, w);
  }

  lemma DistributesOne(x: real, w: real)
    ensures x * (w + 1.0) == x * w + x
  {
  }

  lemma QuotientBetween(n: real, m: real, lo: real, hi: real)
    requires m > 0.0 && lo * m <= n <= hi * m
    ensures lo <= n / m <= hi
  {
    var q := n / m;
    assert q * m == n;
    if q < lo {
      ScaledStrict(q, lo, m);
    } else if hi < q {
      ScaledStrict(hi, q, m);
    }
  }

  lemma ScaledOrder(x: real, y: real, w: real)
    requires x <= y && w >= 0.0
    ensures x * w <= y * w
  {
    assert (y - x) * w >= 0.0;
  }

  lemma ScaledStrict(x: real, y: real, w: real)
    requires x < y && w > 0.0
    ensures x * w < y * w
  {
    assert (y - x) * w > 0.0;
  }

  /** All durations lie in the range; a missing one at the start of a batch counts as 0. */
  predicate DurationsIn(runs: seq<Testrun>, lo: real, hi: real) {
    && (runs != [] ==> lo <= OrZero(runs[0].duration) <= hi)
    && forall i :: 0 < i < |runs| && runs[i].duration.Some? ==> lo <= runs[i].duration.value <= hi
  }

  lemma {:induction false} BatchAverage(up: Upload, runs: seq<Testrun>, lo: real, hi: real)
    requires runs != [] && DurationsIn(runs, lo, hi)
    ensures lo <= TotalsOf(up, runs).avgDuration <= hi
  {
    if |runs| > 1 {
      var init, run := runs[..|runs| - 1], runs[|runs| - 1];
      BatchAverage(up, init, lo, hi);
      var t := TotalsOf(up, init);
      if run.duration.Some? {
        AveragedBetween(t.avgDuration, t.passCount + t.failCount, run.duration.value, lo, hi);
      }
    }
  }

  /** The stored average always lies between the smallest and the largest duration seen. */
  lemma {:induction false} StoredAverage(batches: seq<Batch>, test: string, lo: real, hi: real)
    requires forall i :: 0 <= i < |batches| ==> DurationsIn(RunsOf(batches[i].runs, test), lo, hi)
    ensures test in Stored(batches) ==> lo <= Stored(batches)[test].avgDuration <= hi
  {
    if batches != [] {
      var init, b := batches[..|batches| - 1], batches[|batches| - 1];
      StoredAverage(init, test, lo, hi);
      assert DurationsIn(RunsOf(b.runs, test), lo, hi);
      MergedAverage(Stored(init), b, test, lo, hi);
    }
  }

  lemma MergedAverage(rows: Rows, b: Batch, test: string, lo: real, hi: real)
    requires DurationsIn(RunsOf(b.runs, test), lo, hi)
    requires test in rows ==> lo <= rows[test].avgDuration <= hi
    ensures var after := RowsAfter(rows, b.up, b.runs);
            test in after ==> lo <= after[test].avgDuration <= hi
  {
    hide Averaged, RunsOf, TotalsOf, DurationsIn, Tests;
    var mine := RunsOf(b.runs, test);
    if mine != [] {
      BatchAverage(b.up, mine, lo, hi);
      if test in rows {
        AveragedBetween(rows[test].avgDuration, rows[test].passCount + rows[test].failCount,
                        TotalsOf(b.up, mine).avgDuration, lo, hi);
      }
    }
  }

  predicate AllTimed(runs: seq<Testrun>) {
    forall i :: 0 <= i < |runs| ==> runs[i].duration.Some?
  }

  function Sum(runs: seq<Testrun>): real {
    if runs == [] then 0.0 else Sum(runs[..|runs| - 1]) + OrZero(runs[|runs| - 1].duration)
  }

  predicate IsMean(avg: real, n: nat, sum: real) {
    avg * n as real == sum
  }

  /** No run before the last is skipped. */
  predicate SkipOnlyLast(outcomes: seq<Outcome>) {
    forall i :: 0 <= i < |outcomes| - 1 ==> outcomes[i] != Skip
  }

  function Outcomes(runs: seq<Testrun>): seq<Outcome> {
    seq(|runs|, i requires 0 <= i < |runs| => runs[i].outcome)
  }

  function Ran(outcomes: seq<Outcome>): nat {
    if outcomes == [] then 0 else Ran(outcomes[..|outcomes| - 1]) + if outcomes[|outcomes| - 1] == Skip then 0 else 1
  }

  lemma {:induction false} WeightIsRan(up: Upload, runs: seq<Testrun>)
    requires runs != []
    ensures var t := TotalsOf(up, runs); t.passCount + t.failCount == Ran(Outcomes(runs))
  {
    var init := runs[..|runs| - 1];
    assert Outcomes(runs)[..|runs| - 1] == Outcomes(init);
    if |runs| > 1 {
      WeightIsRan(up, init);
    } else {
      assert Outcomes(init) == [] && Ran(Outcomes(init)) == 0;
    }
  }

  lemma {:induction false} RanBound(outcomes: seq<Outcome>)
    ensures Ran(outcomes) <= |outcomes|
    ensures Ran(outcomes) == |outcomes| <==> Skip !in outcomes
  {
    if outcomes != [] {
      RanBound(outcomes[..|outcomes| - 1]);
      assert outcomes == outcomes[..|outcomes| - 1] + [outcomes[|outcomes| - 1]];
    }
  }

  /** The average is the mean while skips occur in the last place only. */
  lemma {:induction false} MeanWithoutSkips(up: Upload, runs: seq<Testrun>)
    requires runs != [] && AllTimed(runs) && SkipOnlyLast(Outcomes(runs))
    ensures IsMean(TotalsOf(up, runs).avgDuration, |runs|, Sum(runs))
  {
    var init, run := runs[..|runs| - 1], runs[|runs| - 1];
    if |runs| == 1 {
      assert Sum(init) == 0.0;
    } else {
      hide TotalsOf, Sum, IsMean, Ran;
      assert forall i :: 0 <= i < |init| ==> Outcomes(init)[i] == Outcomes(runs)[i];
      MeanWithoutSkips(up, init);
      WeightIsRan(up, init);
      RanBound(Outcomes(init));
      MeanOfOneMore(up, init, run);
      assert runs == init + [run];
    }
  }

  lemma MeanOfOneMore(up: Upload, runs: seq<Testrun>, run: Testrun)
    requires runs != [] && run.duration.Some?
    requires var t := TotalsOf(up, runs); t.passCount + t.failCount == |runs| && IsMean(t.avgDuration, |runs|, Sum(runs))
    ensures IsMean(TotalsOf(up, runs + [run]).avgDuration, |runs| + 1, Sum(runs + [run]))
  {
    hide IsMean, Averaged;
    var all, t := runs + [run], TotalsOf(up, runs);
    assert all[..|runs|] == runs;
    assert TotalsOf(up, all) == Updated(t, run) && Sum(all) == Sum(runs) + run.duration.value;
    hide TotalsOf, Sum;
    MeanStep(t.avgDuration, |runs|, Sum(runs), run.duration.value);
  }

  lemma MeanStep(avg: real, n: nat, sum: real, d: real)
    requires IsMean(avg, n, sum)
    ensures IsMean(Averaged(avg, n, d), n + 1, sum + d)
  {
    var m := (n + 1) as real;
    assert (avg * n as real + d) / m * m == avg * n as real + d;
  }

  /** Runs with the given outcomes that took no time, but for the last one, which took one second. */
  function Spike(outcomes: seq<Outcome>): seq<Testrun> {
    seq(|outcomes|, i requires 0 <= i < |outcomes| =>
      Testrun("t", Some(if i == |outcomes| - 1 then 1.0 else 0.0), outcomes[i]))
  }

  lemma {:induction false} NoTimeSum(runs: seq<Testrun>)
    requires forall i :: 0 <= i < |runs| ==> runs[i].duration == Some(0.0)
    ensures Sum(runs) == 0.0
  {
    if runs != [] {
      NoTimeSum(runs[..|runs| - 1]);
    }
  }

  lemma SpikeMissesMean(up: Upload, outcomes: seq<Outcome>)
    requires !SkipOnlyLast(outcomes)
    ensures var runs := Spike(outcomes);
            Outcomes(runs) == outcomes && AllTimed(runs) && !IsMean(TotalsOf(up, runs).avgDuration, |runs|, Sum(runs))
  {
    hide TotalsOf, Sum, Ran;
    var runs := Spike(outcomes);
    var init := runs[..|runs| - 1];
    assert Outcomes(init) == outcomes[..|outcomes| - 1];
    RanBound(Outcomes(init));
    SpikeValues(up, outcomes);
    var w, n := (Ran(Outcomes(init)) + 1) as real, |runs| as real;
    SpikeIsOff(w, n, TotalsOf(up, runs).avgDuration);
  }

  lemma SpikeIsOff(w: real, n: real, avg: real)
    requires 0.0 < w < n && avg == 1.0 / w
    ensures avg * n != 1.0
  {
    assert avg * w == 1.0;
    ScaledStrict(w, n, avg);
  }

  lemma SpikeValues(up: Upload, outcomes: seq<Outcome>)
    requires |outcomes| > 1
    ensures var runs := Spike(outcomes);
            && Sum(runs) == 1.0
            && TotalsOf(up, runs).avgDuration == 1.0 / (Ran(Outcomes(runs[..|runs| - 1])) + 1) as real
  {
    var runs := Spike(outcomes);
    var init := runs[..|runs| - 1];
    BatchAverage(up, init, 0.0, 0.0);
    NoTimeSum(init);
    WeightIsRan(up, init);
    hide Ran, Outcomes;
    var w := TotalsOf(up, init).passCount + TotalsOf(up, init).failCount;
    assert TotalsOf(up, runs).avgDuration == Averaged(0.0, w, 1.0);
    assert 0.0 * w as real == 0.0;
  }

  /**
   Within a batch, the average is the exact mean of the durations whatever they are, exactly when
   no run before the last one is skipped.
   */
  lemma MeanExactlyWhen(up: Upload, outcomes: seq<Outcome>)
    requires outcomes != []
    ensures SkipOnlyLast(outcomes) <==>
            forall runs :: Outcomes(runs) == outcomes && AllTimed(runs) ==>
              IsMean(TotalsOf(up, runs).avgDuration, |runs|, Sum(runs))
  {
    hide TotalsOf, Sum, AllTimed, Spike;
    if SkipOnlyLast(outcomes) {
      forall runs | Outcomes(runs) == outcomes && AllTimed(runs)
        ensures IsMean(TotalsOf(up, runs).avgDuration, |runs|, Sum(runs))
      {
        MeanWithoutSkips(up, runs);
      }
    } else {
      SpikeMissesMean(up, outcomes);
      var runs := Spike(outcomes);
      assert Outcomes(runs) == outcomes && AllTimed(runs);
    }
  }

  /** `(x * (n + m) - (a * n + b * m)) * (n + 1)` for the merged average `x`. */
  lemma MergeDefect(x: real, a: real, b: real, n: real, m: real)
    requires x * (n + 1.0) == a * n + b
    ensures (x * (n + m) - (a * n + b * m)) * (n + 1.0) == n * ((m - 1.0) * (a - b))
  {
    assert x * (n + m) * (n + 1.0) == x * (n + 1.0) * (n + m);
    assert (a * n + b) * (n + m) == a * n * n + a * n * m + b * n + b * m;
    assert (a * n + b * m) * (n + 1.0) == a * n * n + a * n + b * m * n + b * m;
    assert n * ((m - 1.0) * (a - b)) == a * n * m - a * n - b * m * n + b * n;
  }

  lemma ZeroProduct(x: real, y: real)
    ensures x * y == 0.0 <==> x == 0.0 || y == 0.0
  {
    if x * y == 0.0 && x != 0.0 {
      assert y == x * y / x;
    }
  }

  /**
   Merging gives the mean over the runs of both sides, weighted by their passes and failures,
   exactly when the stored row counts none, or the batch counts one, or their averages agree.
   */
  lemma MergeIsMeanExactlyWhen(row: DailyTotals, t: DailyTotals)
    ensures var n, m := (row.passCount + row.failCount) as real, (t.passCount + t.failCount) as real;
            Merged(row, t).avgDuration * (n + m) == row.avgDuration * n + t.avgDuration * m
            <==> n == 0.0 || m == 1.0 || row.avgDuration == t.avgDuration
  {
    var n, m := (row.passCount + row.failCount) as real, (t.passCount + t.failCount) as real;
    var a, b, x := row.avgDuration, t.avgDuration, Merged(row, t).avgDuration;
    assert x * (n + 1.0) == a * n + b;
    hide *;
    MergeDefect(x, a, b, n, m);
    ZeroProduct(x * (n + m) - (a * n + b * m), n + 1.0);
    ZeroProduct(n, (m - 1.0) * (a - b));
    ZeroProduct(m - 1.0, a - b);
  }

  /** A batch names its commit as failing, and counts a flaky failure, only for the test's first run. */
  lemma {:induction false} FirstRunDecides(up: Upload, runs: seq<Testrun>)
    requires runs != []
    ensures var t := TotalsOf(up, runs);
            && (t.commitsWhereFail == if runs[0].outcome in {Failure, Error} then [up.commit] else [])
            && (t.flakyFailCount == if runs[0].outcome in {Failure, Error} && runs[0].test in up.flaky then 1 else 0)
            && (t.lastDuration == if runs[0].duration.Some? then runs[0].duration.value else 0.0)
  {
    if |runs| > 1 {
      FirstRunDecides(up, runs[..|runs| - 1]);
    }
  }

  /** The first run of a test in a batch failed. */
  predicate BeginsFailing(b: Batch, test: string) {
    var mine := RunsOf(b.runs, test);
    mine != [] && mine[0].outcome in {Failure, Error}
  }

  /** The commits of the batches in which the first run of the test failed. */
  function FailingCommits(batches: seq<Batch>, test: string): seq<string> {
    if batches == [] then []
    else
      var b := batches[|batches| - 1];
      FailingCommits(batches[..|batches| - 1], test) + if BeginsFailing(b, test) then [b.up.commit] else []
  }

  function FlakyFailures(batches: seq<Batch>, test: string): nat {
    if batches == [] then 0
    else
      var b := batches[|batches| - 1];
      FlakyFailures(batches[..|batches| - 1], test) + if BeginsFailing(b, test) && test in b.up.flaky then 1 else 0
  }

  /** The duration of the first run in the last batch that ran the test. */
  function LastFirstDuration(batches: seq<Batch>, test: string): Option<real> {
    if batches == [] then None
    else
      var mine := RunsOf(batches[|batches| - 1].runs, test);
      if mine == [] then LastFirstDuration(batches[..|batches| - 1], test)
      else Some(if mine[0].duration.Some? then mine[0].duration.value else 0.0)
  }

  /**
   Over any batches, the row of a test names the commits whose batches begin with a failure of it, in
   order, counts those of them that are flaky, and has the duration that the last batch begins with.
   */
  lemma {:induction false} StoredFirsts(batches: seq<Batch>, test: string)
    ensures test in Stored(batches) ==>
              && Stored(batches)[test].commitsWhereFail == FailingCommits(batches, test)
              && Stored(batches)[test].flakyFailCount == FlakyFailures(batches, test)
              && Some(Stored(batches)[test].lastDuration) == LastFirstDuration(batches, test)
    ensures test !in Stored(batches) ==> FailingCommits(batches, test) == [] && FlakyFailures(batches, test) == 0
  {
    if batches != [] {
      var init, b := batches[..|batches| - 1], batches[|batches| - 1];
      StoredFirsts(init, test);
      var mine := RunsOf(b.runs, test);
      if mine != [] {
        FirstRunDecides(b.up, mine);
        RunsOfTest(b.runs, test, 0);
      }
      TestsHaveRuns(b.runs, test);
      hide RunsOf, TotalsOf, Averaged, Tests, BeginsFailing, FailingCommits, FlakyFailures, LastFirstDuration;
      assert BeginsFailing(b, test) <==> mine != [] && mine[0].outcome in {Failure, Error};
    }
  }

  lemma {:induction false} RunsOfTest(runs: seq<Testrun>, test: string, i: nat)
    requires i < |RunsOf(runs, test)|
    ensures RunsOf(runs, test)[i].test == test
  {
    var init := runs[..|runs| - 1];
    if i < |RunsOf(init, test)| {
      RunsOfTest(init, test, i);
    }
  }
}
