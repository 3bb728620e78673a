/**
 What the walk shows and records, line by line: which source line a visit has, and what the reports
 say about the lines of a comparison.
 */
module WalkedLines {
  import opened Basics
  import opened UnifiedDiff
  import opened Traversal
  import opened Visitors
  import opened Numbering

  // ---------------------------------------------------------------------------------------------
  // What visits show

  /** A visit outside the hunks shows the source line with its head number, or nothing without source. */
  ghost predicate ShowsSource(src: seq<string>, v: Visit) {
    && v.base.Some? && v.head.Some?
    && var m := v.head.value;
    && (src == [] ==> v.value == None)
    && (src != [] && m >= 1 ==> m <= |src| && v.value == Some(src[m - 1]))
    && (src != [] && m == 0 ==> v.value == Some(src[|src| - 1]))
  }

  /** A visit inside a hunk shows a line of it; an added one has no base number, a removed one no head number. */
  ghost predicate ShowsHunk(v: Visit) {
    && v.value.Some?
    && (v.base.None? <==> ['+'] <= v.value.value)
    && (v.head.None? <==> ['-'] <= v.value.value)
  }

  /** For any number of steps of any walk: what each visit shows. */
  lemma {:induction false} VisitsShowLines(f: FileInfo, s: State, n: nat)
    ensures forall i :: 0 <= i < |Visits(f, s, n)| ==>
              var v := Visits(f, s, n)[i]; if v.isDiff then ShowsHunk(v) else ShowsSource(f.src, v)
    decreases n
  {
    if n > 0 && !Finished(f, s) && CanPop(f, s) {
      var (v, t) := Step(f, s);
      VisitsShowLines(f, t, n - 1);
      StepShowsLine(f, s);
      hide ShowsHunk, ShowsSource, Step;
      assert Visits(f, s, n) == [v] + Visits(f, t, n - 1);
    }
  }

  lemma StepShowsLine(f: FileInfo, s: State)
    requires CanPop(f, s)
    ensures var v := Step(f, s).0; if v.isDiff then ShowsHunk(v) else ShowsSource(f.src, v)
  {
  }

  /** The head numbers of the visits outside the hunks. */
  function PlainHeads(visits: seq<Visit>): seq<nat> {
    if visits == [] then []
    else (if !visits[0].isDiff && visits[0].head.Some? then [visits[0].head.value] else []) + PlainHeads(visits[1..])
  }

  function PlainValues(visits: seq<Visit>): seq<Option<string>> {
    if visits == [] then []
    else (if !visits[0].isDiff && visits[0].head.Some? then [visits[0].value] else []) + PlainValues(visits[1..])
  }

  /** The values are the source lines at the numbers, which ascend from `low` on. */
  ghost predicate LinesInOrder(src: seq<string>, low: nat, numbers: seq<nat>, values: seq<Option<string>>)
    decreases |numbers|
  {
    if numbers == [] then values == []
    else
      && values != [] && 1 <= low <= numbers[0] <= |src| && values[0] == Some(src[numbers[0] - 1])
      && LinesInOrder(src, numbers[0] + 1, numbers[1..], values[1..])
  }

  /**
   With source, what is shown outside the hunks are the source lines at the head numbers, in
   ascending order.
   */
  lemma {:induction false} SourceIsShownInOrder(f: FileInfo, s: State, n: nat)
    requires f.src != [] && s.h >= 1
    ensures LinesInOrder(f.src, s.h, PlainHeads(Visits(f, s, n)), PlainValues(Visits(f, s, n)))
    decreases n
  {
    if n > 0 && !Finished(f, s) && CanPop(f, s) {
      var (v, t) := Step(f, s);
      StepShowsLine(f, s);
      HeadMoves(f, s);
      assert Visits(f, s, n) == [v] + Visits(f, t, n - 1);
      hide Step, CanPop, Finished, Visits, LinesInOrder;
      SourceIsShownInOrder(f, t, n - 1);
      PlainFirst(v, Visits(f, t, n - 1));
      OneMoreInOrder(f.src, s.h, v, t.h, PlainHeads(Visits(f, t, n - 1)), PlainValues(Visits(f, t, n - 1)));
    }
  }

  lemma PlainFirst(v: Visit, rest: seq<Visit>)
    ensures PlainHeads([v] + rest) == (if !v.isDiff && v.head.Some? then [v.head.value] else []) + PlainHeads(rest)
    ensures PlainValues([v] + rest) == (if !v.isDiff && v.head.Some? then [v.value] else []) + PlainValues(rest)
  {
    assert ([v] + rest)[1..] == rest;
  }

  lemma OneMoreInOrder(src: seq<string>, low: nat, v: Visit, next: nat, numbers: seq<nat>, values: seq<Option<string>>)
    requires src != [] && 1 <= low <= next && LinesInOrder(src, next, numbers, values)
    requires !v.isDiff ==> ShowsSource(src, v) && v.head == Some(low) && next == low + 1
    ensures var plain := !v.isDiff && v.head.Some?;
            LinesInOrder(src, low, (if plain then [v.head.value] else []) + numbers, (if plain then [v.value] else []) + values)
  {
    if v.isDiff {
      assert [] + numbers == numbers && [] + values == values;
    } else {
      assert ([low] + numbers)[1..] == numbers && ([v.value] + values)[1..] == values;
    }
  }

  lemma HeadMoves(f: FileInfo, s: State)
    requires CanPop(f, s)
    ensures var (v, t) := Step(f, s); s.h <= t.h && (!v.isDiff ==> v.head == Some(s.h) && t.h == s.h + 1)
  {
  }

  /** Behind the last hunk, the walk goes on to the end of the source, or else to the later one of both ends of file. */
  lemma {:induction false} LinesBehindHunks(f: FileInfo, s: State, n: nat)
    requires s.segs == [] && CompletesIn(f, s, n)
    ensures |Visits(f, s, n)| == if f.src != [] then Max(0, |f.src| + 1 - s.h)
                                 else Max(0, Max(f.headEof - s.h, f.baseEof - s.b))
    decreases n
  {
    if !Finished(f, s) {
      LinesBehindHunks(f, Step(f, s).1, n - 1);
    }
  }

  // ---------------------------------------------------------------------------------------------
  // What is recorded

  /** The visits that have code. */
  function WithCode(visits: seq<Visit>): seq<Visit> {
    if visits == [] then []
    else WithCode(visits[..|visits| - 1]) + if visits[|visits| - 1].value.Some? then [visits[|visits| - 1]] else []
  }

  /** One line is recorded for each visit with code, in order. */
  lemma {:induction false} LinesRecordVisits(files: Files, visits: seq<Visit>)
    ensures var lines, shown := ComparedAll(files, visits), WithCode(visits);
            |lines| == |shown| && forall i :: 0 <= i < |lines| ==> Records(files, shown[i], lines[i])
  {
    if visits != [] {
      var v := visits[|visits| - 1];
      LinesRecordVisits(files, visits[..|visits| - 1]);
      GetLineReports(files.base, v.base);
      GetLineReports(files.head, v.head);
      hide Reports, GetLine;
    }
  }

  /** What a report says about line `n`: nothing when it does not have the line. */
  ghost predicate Says(file: Option<ReportFile>, n: Option<nat>, coverage: Option<LineType>) {
    && (file.None? || n.None? ==> coverage == None)
    && (file.Some? && n.Some? && n.value >= 1 ==>
          coverage == if n.value <= |file.value.lines| && file.value.lines[n.value - 1].Some?
                      then file.value.lines[n.value - 1].value.kind else None)
  }

  /**
   For any number of steps of any walk: the coverage beside the base number of a line is what the
   base report says about that line, and the same holds of the head. A line without a number on a
   side has no coverage there.
   */
  lemma CoverageIsThatOfTheReports(f: FileInfo, files: Files, s: State, n: nat, i: nat)
    requires i < |ComparedAll(files, Visits(f, s, n))|
    ensures var line := ComparedAll(files, Visits(f, s, n))[i];
            && Says(files.base, line.BaseNumber(), line.BaseCoverage())
            && Says(files.head, line.HeadNumber(), line.HeadCoverage())
            && (line.BaseNumber().None? <==> line.isDiff && ['+'] <= line.value)
            && (line.HeadNumber().None? <==> line.isDiff && ['-'] <= line.value)
  {
    var visits := Visits(f, s, n);
    hide *;
    LinesRecordVisits(files, visits);
    var j := WithCodeIsPart(visits, i);
    VisitsShowLines(f, s, n);
    RecordedCoverage(f.src, files, visits[j], ComparedAll(files, visits)[i]);
  }

  lemma RecordedCoverage(src: seq<string>, files: Files, v: Visit, line: LineComparison)
    requires Records(files, v, line) && if v.isDiff then ShowsHunk(v) else ShowsSource(src, v)
    ensures Says(files.base, line.BaseNumber(), line.BaseCoverage()) && Says(files.head, line.HeadNumber(), line.HeadCoverage())
    ensures line.BaseNumber().None? <==> line.isDiff && ['+'] <= line.value
    ensures line.HeadNumber().None? <==> line.isDiff && ['-'] <= line.value
  {
  }

  lemma {:induction false} WithCodeIsPart(visits: seq<Visit>, i: nat) returns (j: nat)
    requires i < |WithCode(visits)|
    ensures j < |visits| && visits[j] == WithCode(visits)[i]
  {
    var init := visits[..|visits| - 1];
    if i < |WithCode(init)| {
      j := WithCodeIsPart(init, i);
    } else {
      j := |visits| - 1;
    }
  }
}
