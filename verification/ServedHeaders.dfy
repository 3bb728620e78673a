/**
 Headers of segments that do not show every line they span: without source, lines between hunks
 are left out, and a filter may take unintended changes away.
 */
module ServedHeaders {
  import opened Basics
  import opened UnifiedDiff
  import opened Traversal
  import opened Visitors
  import opened Numbering
  import opened Segments
  import opened RoundTrip

  // ---------------------------------------------------------------------------------------------
  // Numbers with gaps

  /** The numbers that are there. */
  function Present(numbers: seq<Option<nat>>): seq<nat> {
    if numbers == [] then []
    else
      var n := numbers[|numbers| - 1];
      Present(numbers[..|numbers| - 1]) + if n.Some? then [n.value] else []
  }

  /** The shifts of the numbers that are there. */
  function PresentShifts(numbers: seq<Option<nat>>, shifts: seq<nat>): seq<nat>
    requires |numbers| == |shifts|
  {
    if numbers == [] then []
    else
      var last := |numbers| - 1;
      PresentShifts(numbers[..last], shifts[..last]) + if numbers[last].Some? then [shifts[last]] else []
  }

  /** The numbers count on from `start`, each moved by its shift. */
  predicate Shifted(numbers: seq<Option<nat>>, shifts: seq<nat>, start: nat) {
    && |numbers| == |shifts|
    && forall i :: 0 <= i < |numbers| && numbers[i].Some? ==>
         numbers[i].value == start + |Present(numbers[..i])| + shifts[i]
  }

  predicate SameShift(numbers: seq<Option<nat>>, shifts: seq<nat>)
    requires |numbers| == |shifts|
  {
    forall i, j :: 0 <= i < j < |numbers| && numbers[i].Some? && numbers[j].Some? ==> shifts[i] == shifts[j]
  }

  lemma {:induction false} PresentValues(numbers: seq<Option<nat>>, shifts: seq<nat>, start: nat)
    requires Shifted(numbers, shifts, start)
    ensures |Present(numbers)| == |PresentShifts(numbers, shifts)|
    ensures forall k :: 0 <= k < |Present(numbers)| ==> Present(numbers)[k] == start + k + PresentShifts(numbers, shifts)[k]
  {
    if numbers != [] {
      var last := |numbers| - 1;
      var init := numbers[..last];
      forall i | 0 <= i < last && init[i].Some? ensures init[i].value == start + |Present(init[..i])| + shifts[..last][i] {
        assert init[..i] == numbers[..i];
      }
      PresentValues(init, shifts[..last], start);
    }
  }

  lemma {:induction false} ShiftIsPresent(numbers: seq<Option<nat>>, shifts: seq<nat>, i: nat) returns (k: nat)
    requires |numbers| == |shifts| && i < |numbers| && numbers[i].Some?
    ensures k < |PresentShifts(numbers, shifts)| && PresentShifts(numbers, shifts)[k] == shifts[i]
  {
    var last := |numbers| - 1;
    if i < last {
      k := ShiftIsPresent(numbers[..last], shifts[..last], i);
    } else {
      k := |PresentShifts(numbers[..last], shifts[..last])|;
    }
  }

  lemma {:induction false} PresentIsShift(numbers: seq<Option<nat>>, shifts: seq<nat>, k: nat) returns (i: nat)
    requires |numbers| == |shifts| && k < |PresentShifts(numbers, shifts)|
    ensures i < |numbers| && numbers[i].Some? && shifts[i] == PresentShifts(numbers, shifts)[k]
  {
    var last := |numbers| - 1;
    if k < |PresentShifts(numbers[..last], shifts[..last])| {
      i := PresentIsShift(numbers[..last], shifts[..last], k);
    } else {
      i := last;
    }
  }

  /** The numbers that are there follow one another without a gap. */
  predicate WithoutGap(numbers: seq<nat>) {
    numbers == [] || Consecutive(numbers, numbers[0])
  }

  lemma WithoutGapExactlyWhen(numbers: seq<Option<nat>>, shifts: seq<nat>, start: nat)
    requires Shifted(numbers, shifts, start)
    ensures WithoutGap(Present(numbers)) <==> SameShift(numbers, shifts)
  {
    PresentValues(numbers, shifts, start);
    hide Present, PresentShifts, Shifted;
    var values, moved := Present(numbers), PresentShifts(numbers, shifts);
    if WithoutGap(values) {
      forall i, j | 0 <= i < j < |numbers| && numbers[i].Some? && numbers[j].Some? ensures shifts[i] == shifts[j] {
        var k := ShiftIsPresent(numbers, shifts, i);
        var l := ShiftIsPresent(numbers, shifts, j);
        assert values[k] == values[0] + k && values[l] == values[0] + l;
      }
    }
    if SameShift(numbers, shifts) {
      forall k | 0 <= k < |values| ensures values[k] == values[0] + k {
        var i := PresentIsShift(numbers, shifts, k);
        var j := PresentIsShift(numbers, shifts, 0);
        assert moved[k] == moved[0];
      }
    }
  }

  // ---------------------------------------------------------------------------------------------
  // Headers of shifted lines

  /** The marks count on from `b` and `h`, each moved by its shift on both sides. */
  predicate ShiftedMarks(marks: seq<Mark>, shifts: seq<nat>, b: nat, h: nat) {
    && |marks| == |shifts|
    && forall i :: 0 <= i < |marks| ==>
         marks[i] == MarkAt(marks[i].kind, b + BaseCount(marks[..i]) + shifts[i], h + HeadCount(marks[..i]) + shifts[i])
  }

  function BaseSide(marks: seq<Mark>): seq<Option<nat>> {
    seq(|marks|, i requires 0 <= i < |marks| => marks[i].base)
  }

  function HeadSide(marks: seq<Mark>): seq<Option<nat>> {
    seq(|marks|, i requires 0 <= i < |marks| => marks[i].head)
  }

  lemma {:induction false} SidesArePresent(marks: seq<Mark>)
    requires forall i :: 0 <= i < |marks| ==>
               (marks[i].base.None? <==> marks[i].kind == Added) && (marks[i].head.None? <==> marks[i].kind == Removed)
    ensures BaseNumbers(marks) == Present(BaseSide(marks)) && |BaseNumbers(marks)| == BaseCount(marks)
    ensures HeadNumbers(marks) == Present(HeadSide(marks)) && |HeadNumbers(marks)| == HeadCount(marks)
  {
    if marks != [] {
      var init := marks[..|marks| - 1];
      SidesArePresent(init);
      assert BaseSide(marks)[..|init|] == BaseSide(init) && HeadSide(marks)[..|init|] == HeadSide(init);
    }
  }

  lemma ShiftedSides(marks: seq<Mark>, shifts: seq<nat>, b: nat, h: nat)
    requires ShiftedMarks(marks, shifts, b, h)
    ensures Shifted(BaseSide(marks), shifts, b) && Shifted(HeadSide(marks), shifts, h)
    ensures BaseNumbers(marks) == Present(BaseSide(marks)) && |BaseNumbers(marks)| == BaseCount(marks)
    ensures HeadNumbers(marks) == Present(HeadSide(marks)) && |HeadNumbers(marks)| == HeadCount(marks)
  {
    hide Present, BaseNumbers, HeadNumbers, BaseCount, HeadCount;
    SidesArePresent(marks);
    forall i | 0 <= i < |marks|
      ensures |Present(BaseSide(marks)[..i])| == BaseCount(marks[..i]) && |Present(HeadSide(marks)[..i])| == HeadCount(marks[..i])
    {
      PrefixesArePresent(marks, i);
    }
  }

  lemma PrefixesArePresent(marks: seq<Mark>, i: nat)
    requires i <= |marks|
    requires forall j :: 0 <= j < |marks| ==>
               (marks[j].base.None? <==> marks[j].kind == Added) && (marks[j].head.None? <==> marks[j].kind == Removed)
    ensures |Present(BaseSide(marks)[..i])| == BaseCount(marks[..i]) && |Present(HeadSide(marks)[..i])| == HeadCount(marks[..i])
  {
    hide Present, BaseNumbers, HeadNumbers, BaseCount, HeadCount;
    SidesArePresent(marks[..i]);
    assert BaseSide(marks)[..i] == BaseSide(marks[..i]) && HeadSide(marks)[..i] == HeadSide(marks[..i]);
  }

  /** On each side, the header claims exactly the numbers of the lines. */
  predicate BaseRight(lines: seq<LineComparison>) {
    Exactly(BaseNumbers(LineMarks(lines)), HeaderOf(lines).baseStart, HeaderOf(lines).baseCount)
  }

  predicate HeadRight(lines: seq<LineComparison>) {
    Exactly(HeadNumbers(LineMarks(lines)), HeaderOf(lines).headStart, HeaderOf(lines).headCount)
  }

  /** A header of shifted lines is right on a side exactly when all its lines on that side have one shift. */
  lemma ShiftedHeader(lines: seq<LineComparison>, shifts: seq<nat>, b: nat, h: nat)
    requires ShiftedMarks(LineMarks(lines), shifts, b, h)
    ensures BaseRight(lines) <==> SameShift(BaseSide(LineMarks(lines)), shifts)
    ensures HeadRight(lines) <==> SameShift(HeadSide(LineMarks(lines)), shifts)
  {
    var marks := LineMarks(lines);
    ShiftedSides(marks, shifts, b, h);
    hide Present, Shifted, SameShift, ShiftedMarks, BaseNumbers, HeadNumbers, BaseCount, HeadCount, LineMarks;
    WithoutGapExactlyWhen(BaseSide(marks), shifts, b);
    WithoutGapExactlyWhen(HeadSide(marks), shifts, h);
  }

  lemma ShiftedAppend(s: seq<Mark>, x: seq<nat>, t: seq<Mark>, y: seq<nat>, b: nat, h: nat)
    requires ShiftedMarks(s, x, b, h) && ShiftedMarks(t, y, b + BaseCount(s), h + HeadCount(s))
    ensures ShiftedMarks(s + t, x + y, b, h)
  {
    var m, z := s + t, x + y;
    hide BaseCount, HeadCount;
    forall i | 0 <= i < |m|
      ensures m[i] == MarkAt(m[i].kind, b + BaseCount(m[..i]) + z[i], h + HeadCount(m[..i]) + z[i])
    {
      if i < |s| {
        assert m[..i] == s[..i];
      } else {
        assert m[..i] == s + t[..i - |s|];
        CountsAppend(s, t[..i - |s|]);
      }
    }
  }

  lemma ShiftedSlice(m: seq<Mark>, shifts: seq<nat>, b: nat, h: nat, lo: nat, end: nat)
    requires ShiftedMarks(m, shifts, b, h) && lo <= end <= |m|
    ensures ShiftedMarks(m[lo..end], shifts[lo..end], b + BaseCount(m[..lo]), h + HeadCount(m[..lo]))
  {
    hide BaseCount, HeadCount;
    var part := m[lo..end];
    forall i | 0 <= i < |part|
      ensures m[lo + i] == part[i] && m[..lo + i] == m[..lo] + part[..i]
      ensures BaseCount(m[..lo + i]) == BaseCount(m[..lo]) + BaseCount(part[..i])
      ensures HeadCount(m[..lo + i]) == HeadCount(m[..lo]) + HeadCount(part[..i])
    {
      assert m[..lo + i] == m[..lo] + part[..i];
      CountsAppend(m[..lo], part[..i]);
    }
  }

  lemma {:induction false} NumberAt(marks: seq<Mark>, b: nat, h: nat, i: nat)
    requires Numbered(marks, b, h) && i < |marks|
    ensures marks[i] == MarkAt(marks[i].kind, b + BaseCount(marks[..i]), h + HeadCount(marks[..i]))
  {
    var init := marks[..|marks| - 1];
    if i < |init| {
      NumberAt(init, b, h, i);
      assert init[..i] == marks[..i];
    }
  }

  /** Numbering moved by one and the same shift everywhere. */
  lemma NumberedIsShifted(marks: seq<Mark>, b: nat, h: nat, shift: nat)
    requires Numbered(marks, b + shift, h + shift)
    ensures ShiftedMarks(marks, seq(|marks|, _ => shift), b, h)
  {
    hide Numbered, BaseCount, HeadCount;
    forall i | 0 <= i < |marks|
      ensures marks[i] == MarkAt(marks[i].kind, b + BaseCount(marks[..i]) + shift, h + HeadCount(marks[..i]) + shift)
    {
      NumberAt(marks, b + shift, h + shift, i);
    }
  }

  // ---------------------------------------------------------------------------------------------
  // Visits without code

  /** For each visit with code, how many visits without code are before it, `s` of them before the list. */
  function LeftOutFrom(visits: seq<Visit>, s: nat): seq<nat> {
    if visits == [] then []
    else if visits[0].value.Some? then [s] + LeftOutFrom(visits[1..], s)
    else LeftOutFrom(visits[1..], s + 1)
  }

  function WithoutCode(visits: seq<Visit>): nat {
    if visits == [] then 0 else (if visits[0].value.Some? then 0 else 1) + WithoutCode(visits[1..])
  }

  /** Recorded lines are moved by the visits without code before them. */
  lemma {:induction false} RecordedAreShifted(files: Files, visits: seq<Visit>, b: nat, h: nat, s: nat)
    requires Numbered(Marks(visits), b + s, h + s)
    ensures ShiftedMarks(LineMarks(ComparedAll(files, visits)), LeftOutFrom(visits, s), b, h)
    decreases |visits|
  {
    hide *;
    if visits == [] {
      NothingRecorded(files, b, h, s);
    } else {
      var v, rest := visits[0], visits[1..];
      var k := VisitMark(v).kind;
      assert visits == [v] + rest;
      FirstMark(v, rest, b + s, h + s);
      NumberedFirst(v, rest, b + s, h + s);
      OneRecorded(files, v, b + s, h + s);
      ComparedAppend(files, [v], rest);
      FirstLeftOut(v, rest, s);
      if v.value.Some? {
        assert (b + BaseStep(k)) + s == (b + s) + BaseStep(k) && (h + HeadStep(k)) + s == (h + s) + HeadStep(k);
        RecordedAreShifted(files, rest, b + BaseStep(k), h + HeadStep(k), s);
        FirstShifted(VisitMark(v), s, LineMarks(ComparedAll(files, rest)), LeftOutFrom(rest, s), b, h);
        LineMarksAppend(ComparedAll(files, [v]), ComparedAll(files, rest));
      } else {
        RecordedAreShifted(files, rest, b, h, s + 1);
        assert [] + ComparedAll(files, rest) == ComparedAll(files, rest);
      }
    }
  }

  lemma NothingRecorded(files: Files, b: nat, h: nat, s: nat)
    ensures ShiftedMarks(LineMarks(ComparedAll(files, [])), LeftOutFrom([], s), b, h)
  {
  }

  lemma FirstMark(v: Visit, rest: seq<Visit>, b: nat, h: nat)
    requires Numbered(Marks([v] + rest), b, h)
    ensures VisitMark(v) == MarkAt(VisitMark(v).kind, b, h)
  {
    hide Numbered, VisitMark;
    var marks := Marks([v] + rest);
    assert marks[0] == VisitMark(v) && marks[..0] == [];
    NumberAt(marks, b, h, 0);
    NoMarks();
  }

  /** A visit with code is recorded with its mark; one without has unchanged code. */
  lemma OneRecorded(files: Files, v: Visit, b: nat, h: nat)
    requires VisitMark(v) == MarkAt(VisitMark(v).kind, b, h)
    ensures v.value.Some? ==> LineMarks(ComparedAll(files, [v])) == [VisitMark(v)]
    ensures v.value.None? ==> ComparedAll(files, [v]) == []
    ensures v.value.None? ==> BaseStep(VisitMark(v).kind) == HeadStep(VisitMark(v).kind) == 1
  {
    assert [v][..0] == [] && ComparedAll(files, []) == [];
    assert ComparedAll(files, [v]) == Compared(files, v);
    if v.value.Some? {
      assert LineMark(Compared(files, v)[0]) == VisitMark(v);
    }
  }

  lemma FirstLeftOut(v: Visit, rest: seq<Visit>, s: nat)
    ensures LeftOutFrom([v] + rest, s) == if v.value.Some? then [s] + LeftOutFrom(rest, s) else LeftOutFrom(rest, s + 1)
  {
    assert ([v] + rest)[1..] == rest;
  }

  lemma FirstShifted(m: Mark, s: nat, marks: seq<Mark>, shifts: seq<nat>, b: nat, h: nat)
    requires m == MarkAt(m.kind, b + s, h + s)
    requires ShiftedMarks(marks, shifts, b + BaseStep(m.kind), h + HeadStep(m.kind))
    ensures ShiftedMarks([m] + marks, [s] + shifts, b, h)
  {
    OneCount(m);
    NoMarks();
    assert [m][..0] == [];
    assert ShiftedMarks([m], [s], b, h);
    hide *;
    ShiftedAppend([m], [s], marks, shifts, b, h);
  }

  lemma LineMarksAppend(s: seq<LineComparison>, t: seq<LineComparison>)
    ensures LineMarks(s + t) == LineMarks(s) + LineMarks(t)
  {
  }

  /** The lines of a segment that have a number on the side all have one tag. */
  ghost predicate SameTag(lines: seq<LineComparison>, tags: seq<nat>, lo: nat, end: nat, base: bool)
    requires lo <= end <= |lines| == |tags|
  {
    forall i, j :: lo <= i < j < end && On(lines[i], base) && On(lines[j], base) ==> tags[i] == tags[j]
  }

  /** The line has a number on the side. */
  predicate On(line: LineComparison, base: bool) {
    if base then line.BaseNumber().Some? else line.HeadNumber().Some?
  }

  /**
   For any number of steps of any walk, with source or without: the header of a segment of its
   lines is right on a side exactly when all its lines on that side have equally many visits
   without code before them.
   */
  lemma WalkedHeader(f: FileInfo, files: Files, s: State, n: nat, lo: nat, end: nat)
    requires lo <= end <= |ComparedAll(files, Visits(f, s, n))|
    ensures var lines, left := ComparedAll(files, Visits(f, s, n)), LeftOutFrom(Visits(f, s, n), 0);
            && |left| == |lines|
            && (BaseRight(lines[lo..end]) <==> SameTag(lines, left, lo, end, true))
            && (HeadRight(lines[lo..end]) <==> SameTag(lines, left, lo, end, false))
  {
    var visits := Visits(f, s, n);
    hide *;
    VisitsNumbered(f, s, n);
    HeaderOfVisits(files, visits, s.b, s.h, lo, end);
  }

  lemma HeaderOfVisits(files: Files, visits: seq<Visit>, b: nat, h: nat, lo: nat, end: nat)
    requires Numbered(Marks(visits), b, h) && lo <= end <= |ComparedAll(files, visits)|
    ensures var lines, left := ComparedAll(files, visits), LeftOutFrom(visits, 0);
            && |left| == |lines|
            && (BaseRight(lines[lo..end]) <==> SameTag(lines, left, lo, end, true))
            && (HeadRight(lines[lo..end]) <==> SameTag(lines, left, lo, end, false))
  {
    hide ComparedAll, LeftOutFrom, BaseCount, HeadCount, BaseRight, HeadRight, Numbered, SameTag, SameShift;
    var lines, left := ComparedAll(files, visits), LeftOutFrom(visits, 0);
    RecordedAreShifted(files, visits, b, h, 0);
    var m := LineMarks(lines);
    ShiftedSlice(m, left, b, h, lo, end);
    SliceOfMarks(lines, lo, end);
    hide ShiftedMarks, LineMarks;
    ShiftedHeader(lines[lo..end], left[lo..end], b + BaseCount(m[..lo]), h + HeadCount(m[..lo]));
    SameShiftOfSlice(lines, left, lo, end);
  }

  lemma SameShiftOfSlice(lines: seq<LineComparison>, left: seq<nat>, lo: nat, end: nat)
    requires lo <= end <= |lines| == |left|
    ensures var m := LineMarks(lines[lo..end]);
            && (SameShift(BaseSide(m), left[lo..end]) <==> SameTag(lines, left, lo, end, true))
            && (SameShift(HeadSide(m), left[lo..end]) <==> SameTag(lines, left, lo, end, false))
  {
    SameShiftOnSide(lines, left, lo, end, true);
    SameShiftOnSide(lines, left, lo, end, false);
    hide *;
  }

  lemma SameShiftOnSide(lines: seq<LineComparison>, left: seq<nat>, lo: nat, end: nat, base: bool)
    requires lo <= end <= |lines| == |left|
    ensures var m := LineMarks(lines[lo..end]);
            SameShift(if base then BaseSide(m) else HeadSide(m), left[lo..end]) <==> SameTag(lines, left, lo, end, base)
  {
    var part, x := lines[lo..end], left[lo..end];
    var m := LineMarks(part);
    var side := if base then BaseSide(m) else HeadSide(m);
    assert forall i :: 0 <= i < |part| ==> (side[i].Some? <==> On(part[i], base));
    hide LineMarks, BaseSide, HeadSide, On;
    assert SameShift(side, x) <==> SameTag(part, x, 0, |part|, base);
    SameTagOfSlice(lines, left, lo, end, base);
  }

  lemma SameTagOfSlice(lines: seq<LineComparison>, tags: seq<nat>, lo: nat, end: nat, base: bool)
    requires lo <= end <= |lines| == |tags|
    ensures SameTag(lines[lo..end], tags[lo..end], 0, end - lo, base) <==> SameTag(lines, tags, lo, end, base)
  {
    hide On;
    var part, x := lines[lo..end], tags[lo..end];
    if SameTag(part, x, 0, end - lo, base) {
      forall i, j | lo <= i < j < end && On(lines[i], base) && On(lines[j], base) ensures tags[i] == tags[j] {
        assert part[i - lo] == lines[i] && part[j - lo] == lines[j];
        assert x[i - lo] == x[j - lo];
      }
    }
    if SameTag(lines, tags, lo, end, base) {
      forall i, j | 0 <= i < j < end - lo && On(part[i], base) && On(part[j], base) ensures x[i] == x[j] {
        assert On(lines[lo + i], base) && On(lines[lo + j], base);
      }
    }
  }

  // ---------------------------------------------------------------------------------------------
  // Without source

  /** For each hunk line, how many unchanged lines are before it; `s` of them are before line `b`. */
  function LeftOut(segs: seq<Hunk>, b: nat, s: nat): seq<nat>
    decreases |segs|
  {
    if segs == [] then []
    else
      var d := Ahead(segs[0], b);
      seq(|segs[0].lines|, _ => s + d) + LeftOut(segs[1..], b + d + BaseLen(segs[0].lines), s + d)
  }

  /** For each hunk line, the place of its hunk. */
  function HunkOf(segs: seq<Hunk>, q: nat): seq<nat>
    decreases |segs|
  {
    if segs == [] then [] else seq(|segs[0].lines|, _ => q) + HunkOf(segs[1..], q + 1)
  }

  lemma {:induction false} LeftOutAppend(x: seq<Visit>, y: seq<Visit>, s: nat)
    ensures LeftOutFrom(x + y, s) == LeftOutFrom(x, s) + LeftOutFrom(y, s + WithoutCode(x))
    decreases |x|
  {
    if x == [] {
      assert x + y == y;
    } else {
      assert (x + y)[1..] == x[1..] + y;
      LeftOutAppend(x[1..], y, if x[0].value.Some? then s else s + 1);
    }
  }

  lemma {:induction false} GapLeftOut(f: FileInfo, b: nat, h: nat, n: nat, s: nat)
    requires f.src == []
    ensures LeftOutFrom(Gap(f, b, h, n), s) == [] && WithoutCode(Gap(f, b, h, n)) == n
    decreases n
  {
    if n > 0 {
      GapLeftOut(f, b + 1, h + 1, n - 1, s + 1);
      assert Gap(f, b, h, n)[1..] == Gap(f, b + 1, h + 1, n - 1);
    }
  }

  lemma {:induction false} HunkLeftOut(b: nat, h: nat, lines: seq<string>, s: nat)
    ensures LeftOutFrom(HunkVisits(b, h, lines), s) == seq(|lines|, _ => s) && WithoutCode(HunkVisits(b, h, lines)) == 0
    decreases lines
  {
    if lines != [] {
      var k := KindOf(lines[0]);
      var rest := HunkVisits(b + BaseStep(k), h + HeadStep(k), lines[1..]);
      HunkLeftOut(b + BaseStep(k), h + HeadStep(k), lines[1..], s);
      assert HunkVisits(b, h, lines)[1..] == rest;
    }
  }

  lemma {:induction false} ListingLeftOut(f: FileInfo, segs: seq<Hunk>, b: nat, h: nat, s: nat)
    requires f.src == []
    ensures LeftOutFrom(Listing(f, segs, b, h), s) == LeftOut(segs, b, s)
    decreases |segs|
  {
    hide LeftOutFrom, WithoutCode, Gap, HunkVisits, BaseLen, HeadLen;
    if segs == [] {
      GapLeftOut(f, b, h, Tail(f, b, h), s);
    } else {
      var d, lines := Ahead(segs[0], b), segs[0].lines;
      ListingLeftOut(f, segs[1..], b + d + BaseLen(lines), h + d + HeadLen(lines), s + d);
      PartsLeftOut(f, b, h, d, lines, Listing(f, segs[1..], b + d + BaseLen(lines), h + d + HeadLen(lines)), s);
    }
  }

  lemma PartsLeftOut(f: FileInfo, b: nat, h: nat, d: nat, lines: seq<string>, rest: seq<Visit>, s: nat)
    requires f.src == []
    ensures LeftOutFrom(Gap(f, b, h, d) + HunkVisits(b + d, h + d, lines) + rest, s)
            == seq(|lines|, _ => s + d) + LeftOutFrom(rest, s + d)
  {
    hide *;
    var gap, visits := Gap(f, b, h, d), HunkVisits(b + d, h + d, lines);
    GapLeftOut(f, b, h, d, s);
    HunkLeftOut(b + d, h + d, lines, s + d);
    LeftOutAppend(gap, visits + rest, s);
    LeftOutAppend(visits, rest, s + d);
    assert gap + visits + rest == gap + (visits + rest);
    assert [] + LeftOutFrom(visits + rest, s + d) == LeftOutFrom(visits + rest, s + d);
  }

  /** Every hunk lies behind unchanged lines. */
  predicate Apart(segs: seq<Hunk>, b: nat)
    decreases |segs|
  {
    segs == [] || (Ahead(segs[0], b) > 0 && Apart(segs[1..], b + Ahead(segs[0], b) + BaseLen(segs[0].lines)))
  }

  lemma {:induction false} UnifiedApart(segs: seq<Hunk>, b: nat, h: nat)
    requires Unified(segs, b, h, 1) && b >= 1 && h >= 1
    ensures Apart(segs, b)
    decreases |segs|
  {
    if segs != [] {
      var hunk := segs[0];
      UnifiedApart(segs[1..], hunk.base.TrueFirst() + BaseLen(hunk.lines), hunk.head.TrueFirst() + HeadLen(hunk.lines));
    }
  }

  lemma {:induction false} LeftOutBounds(segs: seq<Hunk>, b: nat, s: nat, q: nat, i: nat)
    requires Apart(segs, b) && i < |LeftOut(segs, b, s)|
    ensures |HunkOf(segs, q)| == |LeftOut(segs, b, s)| && LeftOut(segs, b, s)[i] > s && HunkOf(segs, q)[i] >= q
    decreases |segs|
  {
    LeftOutLength(segs, b, s, q);
    if segs != [] && i >= |segs[0].lines| {
      var d := Ahead(segs[0], b);
      LeftOutBounds(segs[1..], b + d + BaseLen(segs[0].lines), s + d, q + 1, i - |segs[0].lines|);
    }
  }

  lemma {:induction false} LeftOutLength(segs: seq<Hunk>, b: nat, s: nat, q: nat)
    ensures |HunkOf(segs, q)| == |LeftOut(segs, b, s)|
    decreases |segs|
  {
    if segs != [] {
      var d := Ahead(segs[0], b);
      LeftOutLength(segs[1..], b + d + BaseLen(segs[0].lines), s + d, q + 1);
    }
  }

  /** Behind the first hunk all are apart: then two lines have equally much left out before them just in one hunk. */
  lemma {:induction false} LeftOutByHunk(segs: seq<Hunk>, b: nat, s: nat, q: nat, i: nat, j: nat)
    requires LaterApart(segs, b)
    requires i < j < |LeftOut(segs, b, s)|
    ensures |HunkOf(segs, q)| == |LeftOut(segs, b, s)|
    ensures HunkOf(segs, q)[i] == HunkOf(segs, q)[j] <==> LeftOut(segs, b, s)[i] == LeftOut(segs, b, s)[j]
    decreases |segs|
  {
    var d, n := Ahead(segs[0], b), |segs[0].lines|;
    var b' := b + d + BaseLen(segs[0].lines);
    LeftOutLength(segs, b, s, q);
    if i >= n {
      LeftOutByHunk(segs[1..], b', s + d, q + 1, i - n, j - n);
    } else if j >= n {
      LeftOutBounds(segs[1..], b', s + d, q + 1, j - n);
    }
  }

  /**
   Without source, for a unified diff that the counters follow: the header of a segment is right on a
   side exactly when all its lines on that side come from one hunk.
   */
  lemma HeaderWithoutSourceExactlyWhen(f: FileInfo, files: Files, hs: seq<Hunk>, n: nat, lo: nat, end: nat)
    requires f.src == [] && Unified(hs, 1, 1, 0)
    requires var s := Initial(hs);
             Aligned(hs, s.b, s.h) && CompletesIn(f, s, n) && lo <= end <= |ComparedAll(files, Visits(f, s, n))|
    ensures var lines, hunks := ComparedAll(files, Visits(f, Initial(hs), n)), HunkOf(hs, 0);
            && |hunks| == |lines|
            && (BaseRight(lines[lo..end]) <==> SameTag(lines, hunks, lo, end, true))
            && (HeadRight(lines[lo..end]) <==> SameTag(lines, hunks, lo, end, false))
  {
    hide *;
    var s := Initial(hs);
    var lines, hunks, left := ComparedAll(files, Visits(f, s, n)), HunkOf(hs, 0), LeftOut(hs, s.b, 0);
    WalkOfListing(f, hs, n);
    ListingLeftOut(f, hs, s.b, s.h, 0);
    HunksApart(hs);
    WalkedHeader(f, files, s, n, lo, end);
    LeftOutLength(hs, s.b, 0, 0);
    SameHunkSameShift(hs, s.b, lines, hunks, left, lo, end);
  }

  lemma WalkOfListing(f: FileInfo, hs: seq<Hunk>, n: nat)
    requires f.src == [] && Unified(hs, 1, 1, 0)
    requires var s := Initial(hs); Aligned(hs, s.b, s.h) && CompletesIn(f, s, n)
    ensures var s := Initial(hs); Visits(f, s, n) == Listing(f, hs, s.b, s.h)
  {
    var s := Initial(hs);
    assert s.segs == hs;
    UnifiedDiffsAlign(hs);
    AlignedIsReady(hs, s.b, s.h);
    hide Unified, Covered, CompletesIn, Aligned, Listing, Visits;
    NoSourceIsReadable(hs, s.b, s.h);
    VisitsAreListing(f, s, n);
  }

  lemma SameHunkSameShift(hs: seq<Hunk>, b: nat, lines: seq<LineComparison>, hunks: seq<nat>, left: seq<nat>, lo: nat, end: nat)
    requires hunks == HunkOf(hs, 0) && left == LeftOut(hs, b, 0) && |hunks| == |left| == |lines| && lo <= end <= |lines|
    requires LaterApart(hs, b)
    ensures forall base :: SameTag(lines, hunks, lo, end, base) <==> SameTag(lines, left, lo, end, base)
  {
    hide HunkOf, LeftOut, Apart, On;
    forall i, j | 0 <= i < j < |lines| ensures hunks[i] == hunks[j] <==> left[i] == left[j] {
      LeftOutByHunk(hs, b, 0, 0, i, j);
    }
  }

  /** All hunks but the first lie behind unchanged lines. */
  predicate LaterApart(hs: seq<Hunk>, b: nat) {
    hs == [] || Apart(hs[1..], b + Ahead(hs[0], b) + BaseLen(hs[0].lines))
  }

  lemma HunksApart(hs: seq<Hunk>)
    requires Unified(hs, 1, 1, 0) && var s := Initial(hs); Aligned(hs, s.b, s.h)
    ensures LaterApart(hs, Initial(hs).b)
  {
    hide *;
    UnifiedDiffsAlign(hs);
    if |hs| <= 1 {
      FewHunks(hs, Initial(hs).b);
    } else {
      var b, h := RestIsUnified(hs);
      UnifiedApart(hs[1..], b, h);
      FirstAndRest(hs, Initial(hs).b, b);
    }
  }

  lemma FewHunks(hs: seq<Hunk>, b: nat)
    requires |hs| <= 1
    ensures LaterApart(hs, b)
  {
    if |hs| == 1 {
      assert hs[1..] == [];
    }
  }

  lemma FirstAndRest(hs: seq<Hunk>, b: nat, b': nat)
    requires hs != [] && Apart(hs[1..], b') && b' == b + Ahead(hs[0], b) + BaseLen(hs[0].lines)
    ensures LaterApart(hs, b)
  {
    hide Apart, Ahead, BaseLen;
  }

  lemma RestIsUnified(hs: seq<Hunk>) returns (b: nat, h: nat)
    requires Unified(hs, 1, 1, 0) && hs != [] && !StartsAtZero(hs)
    ensures b >= 1 && h >= 1 && Unified(hs[1..], b, h, 1)
    ensures var s := Initial(hs); b == s.b + Ahead(hs[0], s.b) + BaseLen(hs[0].lines)
  {
    var hunk := hs[0];
    b, h := hunk.base.TrueFirst() + BaseLen(hunk.lines), hunk.head.TrueFirst() + HeadLen(hunk.lines);
  }

  // ---------------------------------------------------------------------------------------------
  // After a filter

  function CountUnintended(lines: seq<LineComparison>): nat {
    if lines == [] then 0
    else CountUnintended(lines[..|lines| - 1]) + if Unintended(lines[|lines| - 1]) then 1 else 0
  }

  /** The places of the lines that stay when unintended changes are taken away. */
  function Places(lines: seq<LineComparison>): seq<nat> {
    if lines == [] then []
    else Places(lines[..|lines| - 1]) + if Unintended(lines[|lines| - 1]) then [] else [|lines| - 1]
  }

  /** For each line that stays, how many unintended changes before it are taken away. */
  function FilterShifts(lines: seq<LineComparison>): seq<nat> {
    if lines == [] then []
    else
      var init := lines[..|lines| - 1];
      FilterShifts(init) + if Unintended(lines[|lines| - 1]) then [] else [CountUnintended(init)]
  }

  lemma {:induction false} SameLengths(lines: seq<LineComparison>)
    ensures |Places(lines)| == |Intended(lines)| == |FilterShifts(lines)|
  {
    if lines != [] {
      hide Unintended;
      SameLengths(lines[..|lines| - 1]);
    }
  }

  lemma {:induction false} PlacesOfIntended(lines: seq<LineComparison>, i: nat)
    requires i < |Places(lines)|
    ensures |Places(lines)| == |Intended(lines)| == |FilterShifts(lines)|
    ensures var p := Places(lines)[i];
            && p < |lines| && Intended(lines)[i] == lines[p] && !Unintended(lines[p])
            && Intended(lines[..p]) == Intended(lines)[..i] && FilterShifts(lines)[i] == CountUnintended(lines[..p])
  {
    hide Unintended, CountUnintended;
    var init := lines[..|lines| - 1];
    SameLengths(lines);
    SameLengths(init);
    if i < |Places(init)| {
      PlacesOfIntended(init, i);
      assert init[..Places(init)[i]] == lines[..Places(init)[i]];
      assert Intended(lines)[..i] == Intended(init)[..i];
    }
  }

  lemma {:induction false} PlaceOf(lines: seq<LineComparison>, p: nat) returns (i: nat)
    requires p < |lines| && !Unintended(lines[p])
    ensures i < |Places(lines)| && Places(lines)[i] == p
  {
    var init := lines[..|lines| - 1];
    if p < |init| {
      i := PlaceOf(init, p);
    } else {
      i := |Places(init)|;
    }
  }

  lemma {:induction false} PlacesAscend(lines: seq<LineComparison>)
    ensures Ascending(Places(lines)) && forall i :: 0 <= i < |Places(lines)| ==> Places(lines)[i] < |lines|
  {
    if lines != [] {
      PlacesAscend(lines[..|lines| - 1]);
    }
  }

  lemma {:induction false} UnintendedBetween(lines: seq<LineComparison>, p: nat, q: nat)
    requires p <= q <= |lines|
    ensures CountUnintended(lines[..p]) <= CountUnintended(lines[..q])
    ensures CountUnintended(lines[..p]) == CountUnintended(lines[..q]) <==> forall y :: p <= y < q ==> !Unintended(lines[y])
    decreases q
  {
    if p < q {
      UnintendedBetween(lines, p, q - 1);
      assert lines[..q][..q - 1] == lines[..q - 1];
    }
  }

  lemma CountsOfOneMore(lines: seq<LineComparison>, line: LineComparison)
    ensures BaseCount(LineMarks(lines + [line])) == BaseCount(LineMarks(lines)) + BaseStep(line.LineKind())
    ensures HeadCount(LineMarks(lines + [line])) == HeadCount(LineMarks(lines)) + HeadStep(line.LineKind())
  {
    var marks := LineMarks(lines + [line]);
    assert marks[..|lines|] == LineMarks(lines) && marks[|lines|] == LineMark(line);
  }

  /** Unintended changes are unchanged code, so each counts once on both sides. */
  lemma {:induction false} CountsWithoutUnintended(lines: seq<LineComparison>)
    ensures BaseCount(LineMarks(lines)) == BaseCount(LineMarks(Intended(lines))) + CountUnintended(lines)
    ensures HeadCount(LineMarks(lines)) == HeadCount(LineMarks(Intended(lines))) + CountUnintended(lines)
  {
    if lines == [] {
      assert LineMarks(lines) == [] && Intended(lines) == [];
    } else {
      hide BaseCount, HeadCount, LineMarks;
      var init, last := lines[..|lines| - 1], lines[|lines| - 1];
      CountsWithoutUnintended(init);
      CountsOfOneMore(init, last);
      CountsOfOneMore(Intended(init), last);
      assert lines == init + [last];
      assert Unintended(last) ==> Intended(lines) == Intended(init) && last.LineKind() == Context;
    }
  }

  lemma IntendedAreShifted(lines: seq<LineComparison>, b: nat, h: nat)
    requires Numbered(LineMarks(lines), b, h)
    ensures ShiftedMarks(LineMarks(Intended(lines)), FilterShifts(lines), b, h)
  {
    var kept, shifts := LineMarks(Intended(lines)), FilterShifts(lines);
    SameLengths(lines);
    hide BaseCount, HeadCount, Numbered, Intended, FilterShifts;
    forall i | 0 <= i < |kept|
      ensures kept[i] == MarkAt(kept[i].kind, b + BaseCount(kept[..i]) + shifts[i], h + HeadCount(kept[..i]) + shifts[i])
    {
      ShiftedAt(lines, b, h, i);
    }
  }

  lemma ShiftedAt(lines: seq<LineComparison>, b: nat, h: nat, i: nat)
    requires Numbered(LineMarks(lines), b, h) && i < |Intended(lines)| == |FilterShifts(lines)|
    ensures var kept, s := LineMarks(Intended(lines)), FilterShifts(lines)[i];
            kept[i] == MarkAt(kept[i].kind, b + BaseCount(kept[..i]) + s, h + HeadCount(kept[..i]) + s)
  {
    hide BaseCount, HeadCount, Numbered, Intended, FilterShifts, Places, CountUnintended, Unintended;
    var marks, kept := LineMarks(lines), LineMarks(Intended(lines));
    SameLengths(lines);
    PlacesOfIntended(lines, i);
    var p := Places(lines)[i];
    NumberAt(marks, b, h, p);
    CountsWithoutUnintended(lines[..p]);
    assert LineMarks(lines[..p]) == marks[..p];
    assert LineMarks(Intended(lines[..p])) == kept[..i];
    assert kept[i] == marks[p];
  }

  /** An unintended change lies between two lines that stay and have a number on the side. */
  ghost predicate Interrupted(lines: seq<LineComparison>, base: bool) {
    exists x, y, z :: 0 <= x < y < z < |lines| && Stays(lines[x], base) && Unintended(lines[y]) && Stays(lines[z], base)
  }

  predicate Stays(line: LineComparison, base: bool) {
    !Unintended(line) && On(line, base)
  }

  lemma InterruptedExactlyWhen(lines: seq<LineComparison>, base: bool)
    ensures |Intended(lines)| == |FilterShifts(lines)|
    ensures SameTag(Intended(lines), FilterShifts(lines), 0, |Intended(lines)|, base) <==> !Interrupted(lines, base)
  {
    SameLengths(lines);
    hide Intended, FilterShifts, Unintended, On;
    if Interrupted(lines, base) {
      InterruptedShifts(lines, base);
    } else {
      var kept, shifts := Intended(lines), FilterShifts(lines);
      forall i, j | 0 <= i < j < |kept| && On(kept[i], base) && On(kept[j], base) ensures shifts[i] == shifts[j] {
        UninterruptedShifts(lines, base, i, j);
      }
    }
  }

  lemma PlacesInOrder(places: seq<nat>, i: nat, j: nat)
    requires Ascending(places) && i < |places| && j < |places| && places[i] < places[j]
    ensures i < j
  {
  }

  lemma InterruptedShifts(lines: seq<LineComparison>, base: bool)
    requires Interrupted(lines, base) && |Intended(lines)| == |FilterShifts(lines)|
    ensures !SameTag(Intended(lines), FilterShifts(lines), 0, |Intended(lines)|, base)
  {
    var x, y, z :| 0 <= x < y < z < |lines| && Stays(lines[x], base) && Unintended(lines[y]) && Stays(lines[z], base);
    hide Intended, FilterShifts, CountUnintended, Unintended, On, Places;
    var i := PlaceOf(lines, x);
    var j := PlaceOf(lines, z);
    PlacesOfIntended(lines, i);
    PlacesOfIntended(lines, j);
    PlacesAscend(lines);
    UnintendedBetween(lines, x, z);
    PlacesInOrder(Places(lines), i, j);
    assert On(Intended(lines)[i], base) && On(Intended(lines)[j], base);
  }

  lemma UninterruptedShifts(lines: seq<LineComparison>, base: bool, i: nat, j: nat)
    requires !Interrupted(lines, base) && i < j < |Intended(lines)| == |FilterShifts(lines)|
    requires On(Intended(lines)[i], base) && On(Intended(lines)[j], base)
    ensures FilterShifts(lines)[i] == FilterShifts(lines)[j]
  {
    hide Intended, FilterShifts, CountUnintended, Unintended, On, Places;
    SameLengths(lines);
    PlacesOfIntended(lines, i);
    PlacesOfIntended(lines, j);
    PlacesAscend(lines);
    var x, z := Places(lines)[i], Places(lines)[j];
    assert x < z && Stays(lines[x], base) && Stays(lines[z], base);
    UnintendedBetween(lines, x, z);
    forall y | x <= y < z ensures !Unintended(lines[y]) {
    }
  }

  /**
   After unintended changes were removed from a segment of numbered lines, its header is right on a
   side exactly when none of them lay between two remaining lines that have a number on that side.
   */
  lemma FilteredHeaderExactlyWhen(lines: seq<LineComparison>, lo: nat, end: nat, b: nat, h: nat)
    requires Numbered(LineMarks(lines), b, h) && lo <= end <= |lines|
    ensures BaseRight(Intended(lines[lo..end])) <==> !Interrupted(lines[lo..end], true)
    ensures HeadRight(Intended(lines[lo..end])) <==> !Interrupted(lines[lo..end], false)
  {
    var part := lines[lo..end];
    var kept, shifts := Intended(part), FilterShifts(part);
    hide *;
    var b', h' := SegmentNumbered(lines, lo, end, b, h);
    IntendedAreShifted(part, b', h');
    ShiftedHeader(kept, shifts, b', h');
    InterruptedExactlyWhen(part, true);
    InterruptedExactlyWhen(part, false);
    WholeSlice(kept, shifts);
  }

  lemma SegmentNumbered(lines: seq<LineComparison>, lo: nat, end: nat, b: nat, h: nat) returns (b': nat, h': nat)
    requires Numbered(LineMarks(lines), b, h) && lo <= end <= |lines|
    ensures Numbered(LineMarks(lines[lo..end]), b', h')
  {
    hide *;
    var marks := LineMarks(lines);
    SliceOfMarks(lines, lo, end);
    b', h' := b + BaseCount(marks[..lo]), h + HeadCount(marks[..lo]);
    SliceNumbered(marks, lo, end, b, h);
  }

  lemma SliceOfMarks(lines: seq<LineComparison>, lo: nat, end: nat)
    requires lo <= end <= |lines|
    ensures |LineMarks(lines)| == |lines| && LineMarks(lines[lo..end]) == LineMarks(lines)[lo..end]
  {
  }

  lemma WholeSlice(lines: seq<LineComparison>, shifts: seq<nat>)
    requires |lines| == |shifts|
    ensures SameShift(BaseSide(LineMarks(lines)), shifts) <==> SameTag(lines, shifts, 0, |lines|, true)
    ensures SameShift(HeadSide(LineMarks(lines)), shifts) <==> SameTag(lines, shifts, 0, |lines|, false)
  {
    SameShiftOfSlice(lines, shifts, 0, |lines|);
    assert lines[0..|lines|] == lines && shifts[0..|lines|] == shifts;
  }

  /** An unchanged line, one that went from hit to missed, and a removed one. */
  const SHOWN := [Unchanged(1, Hit), Unchanged(2, Miss), LineComparison(None, None, Some(3), None, "-c", true)]

  /** Without line 2, the header claims base lines 1 and 2 for lines 1 and 3. */
  lemma FilteredHeaderFails()
    ensures Numbered(LineMarks(SHOWN), 1, 1) && SHOWN[2].Removed()
    ensures BaseRight(SHOWN[0..3]) && !BaseRight(Intended(SHOWN[0..3])) && HeadRight(Intended(SHOWN[0..3]))
  {
    ExampleLines();
    hide *;
    ExampleInterrupted(SHOWN);
    ExampleNumbered(SHOWN);
    HeaderIsCorrect(SHOWN, 0, 3, 1, 1);
    RightByDefinition(SHOWN[0..3]);
    FilteredHeaderExactlyWhen(SHOWN, 0, 3, 1, 1);
  }

  lemma ExampleLines()
    ensures |SHOWN| == 3 && SHOWN[0..3] == SHOWN && SHOWN[2].Removed()
    ensures LineMark(SHOWN[0]) == Mark(Context, Some(1), Some(1)) && LineMark(SHOWN[1]) == Mark(Context, Some(2), Some(2))
    ensures LineMark(SHOWN[2]) == Mark(Removed, Some(3), None)
    ensures Stays(SHOWN[0], true) && Unintended(SHOWN[1]) && Stays(SHOWN[2], true) && !Stays(SHOWN[2], false)
  {
    assert SHOWN[0..3] == SHOWN;
  }

  lemma ExampleInterrupted(lines: seq<LineComparison>)
    requires |lines| == 3
    requires Stays(lines[0], true) && Unintended(lines[1]) && Stays(lines[2], true) && !Stays(lines[2], false)
    ensures Interrupted(lines, true) && !Interrupted(lines, false)
  {
    hide Unintended, Stays;
  }

  lemma RightByDefinition(lines: seq<LineComparison>)
    requires var header, m := HeaderOf(lines), LineMarks(lines); Exactly(BaseNumbers(m), header.baseStart, header.baseCount)
    ensures BaseRight(lines)
  {
  }

  /** An unchanged line `n` of both files that was hit at the base. */
  function Unchanged(n: nat, head: LineType): LineComparison {
    LineComparison(Some(ReportLine(Some(Hit))), Some(ReportLine(Some(head))), Some(n), Some(n), "x", false)
  }

  lemma ExampleNumbered(lines: seq<LineComparison>)
    requires |lines| == 3 && LineMark(lines[0]) == Mark(Context, Some(1), Some(1))
    requires LineMark(lines[1]) == Mark(Context, Some(2), Some(2)) && LineMark(lines[2]) == Mark(Removed, Some(3), None)
    ensures Numbered(LineMarks(lines), 1, 1)
  {
    var m := LineMarks(lines);
    assert m[..3] == m && m[..2][..1] == m[..1] && m[..1][..0] == [];
    assert BaseCount(m[..0]) == 0 && BaseCount(m[..1]) == 1 && BaseCount(m[..2]) == 2;
    assert HeadCount(m[..0]) == 0 && HeadCount(m[..1]) == 1 && HeadCount(m[..2]) == 2;
    assert Numbered(m[..0], 1, 1) && m[..1][0] == m[0] && m[..2][1] == m[1];
    assert Numbered(m[..1], 1, 1);
    assert Numbered(m[..2], 1, 1);
  }

  // ---------------------------------------------------------------------------------------------
  // The filter

  /** Whether a segment is served; without a filter, each is. */
  predicate Served(lines: seq<LineComparison>, hasUnintendedChanges: Option<bool>) {
    match hasUnintendedChanges
    case None => true
    case Some(wanted) =>
      if wanted then exists i :: 0 <= i < |lines| && Unintended(lines[i])
      else exists i :: 0 <= i < |lines| && lines[i].LineKind() != Context
  }

  function LinesServed(lines: seq<LineComparison>, hasUnintendedChanges: Option<bool>): seq<LineComparison> {
    if hasUnintendedChanges == Some(false) && Served(lines, hasUnintendedChanges) then Intended(lines) else lines
  }

  /** Line `i` is a changed line of a hunk. */
  predicate ChangedAt(lines: seq<LineComparison>, i: int) {
    0 <= i < |lines| && lines[i].isDiff && (['+'] <= lines[i].value || ['-'] <= lines[i].value)
  }

  predicate CoverageDiffersAt(lines: seq<LineComparison>, i: int) {
    0 <= i < |lines| && lines[i].BaseCoverage() != lines[i].HeadCoverage()
  }

  /**
   Without a filter every segment is served as it is; with unintended changes wanted, those that have
   one; with none wanted, those with a changed line, without their unintended changes.
   */
  lemma ServedExactlyWhen(lines: seq<LineComparison>)
    ensures Served(lines, None) && LinesServed(lines, None) == lines && LinesServed(lines, Some(true)) == lines
    ensures Served(lines, Some(true)) <==> exists i :: CoverageDiffersAt(lines, i) && !ChangedAt(lines, i)
    ensures Served(lines, Some(false)) <==> exists i :: ChangedAt(lines, i)
    ensures LinesServed(lines, Some(false)) == if exists i :: ChangedAt(lines, i) then Intended(lines) else lines
  {
    forall i | 0 <= i < |lines|
      ensures Unintended(lines[i]) <==> CoverageDiffersAt(lines, i) && !ChangedAt(lines, i)
      ensures lines[i].LineKind() != Context <==> ChangedAt(lines, i)
    {
      UnintendedExactlyWhen(lines[i]);
    }
    if i :| ChangedAt(lines, i) {
      assert lines[i].LineKind() != Context;
    }
    if i :| CoverageDiffersAt(lines, i) && !ChangedAt(lines, i) {
      assert Unintended(lines[i]);
    }
  }

  lemma {:induction false} PickedMembers<T>(s: seq<T>, keep: set<T>, x: T)
    ensures x in Picked(s, keep) <==> x in s && x in keep
  {
    if s != [] {
      PickedMembers(s[..|s| - 1], keep, x);
      assert s == s[..|s| - 1] + [s[|s| - 1]];
    }
  }

  /** What is picked keeps its order. */
  lemma {:induction false} PickedKeepsOrder<T>(s: seq<T>, keep: set<T>, i: nat, j: nat) returns (a: nat, b: nat)
    requires i < j < |s| && s[i] in keep && s[j] in keep
    ensures a < b < |Picked(s, keep)| && Picked(s, keep)[a] == s[i] && Picked(s, keep)[b] == s[j]
  {
    var init := s[..|s| - 1];
    if j < |init| {
      a, b := PickedKeepsOrder(init, keep, i, j);
    } else {
      PickedMembers(init, keep, s[i]);
      assert init[i] == s[i];
      a :| 0 <= a < |Picked(init, keep)| && Picked(init, keep)[a] == s[i];
      b := |Picked(init, keep)|;
    }
  }

  function Picked<T(==)>(s: seq<T>, keep: set<T>): seq<T> {
    if s == [] then []
    else Picked(s[..|s| - 1], keep) + if s[|s| - 1] in keep then [s[|s| - 1]] else []
  }

  /** The segments that a query gets, in order; with diff changes wanted, unintended ones are removed from them. */
  method ResolveSegments(segments: seq<Segment>, hasUnintendedChanges: Option<bool>) returns (served: seq<Segment>)
    requires forall i, j :: 0 <= i < j < |segments| ==> segments[i] != segments[j]
    modifies set s | s in segments
    ensures forall s :: s in served <==> s in segments && Served(old(s.lines), hasUnintendedChanges)
    ensures served == Picked(segments, set s | s in segments && Served(old(s.lines), hasUnintendedChanges))
    ensures forall s :: s in segments ==> s.lines == LinesServed(old(s.lines), hasUnintendedChanges)
  {
    ghost var keep := set s | s in segments && Served(s.lines, hasUnintendedChanges);
    served := [];
    for i := 0 to |segments|
      invariant served == Picked(segments[..i], keep)
      invariant forall j :: 0 <= j < i ==> segments[j].lines == LinesServed(old(segments[j].lines), hasUnintendedChanges)
      invariant forall j :: i <= j < |segments| ==> segments[j].lines == old(segments[j].lines)
    {
      assert segments[..i + 1][..i] == segments[..i];
      var segment := segments[i];
      var serve := true;
      if hasUnintendedChanges == Some(true) {
        serve := segment.HasUnintendedChanges();
      } else if hasUnintendedChanges == Some(false) {
        serve := segment.HasDiffChanges();
        if serve {
          segment.RemoveUnintendedChanges();
        }
      }
      if serve {
        served := served + [segment];
      }
    }
    assert segments[..|segments|] == segments;
    forall s ensures s in served <==> s in segments && s in keep {
      PickedMembers(segments, keep, s);
    }
  }
}
