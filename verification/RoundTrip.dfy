/**
 The segments served for a file are hunks again: their headers number the lines they show, and a
 walk over them retraces the walk they were cut from.
 */
module RoundTrip {
  import opened Basics
  import opened UnifiedDiff
  import opened Traversal
  import opened Visitors
  import opened Numbering
  import opened Segments

  // ---------------------------------------------------------------------------------------------
  // The lines of a comparison with source

  /** The hunk line that the serializer writes for a compared line. */
  function Content(line: LineComparison): string {
    if |line.value| > 0 && line.isDiff then [line.value[0]] + " " + line.value[1..] else " " + line.value
  }

  /**
   A written line shows the code behind its first character or two: a changed or unchanged line of a
   hunk behind its mark and a space, any other line behind a space. The code can be read back.
   */
  lemma ContentShowsCode(line: LineComparison)
    ensures line.isDiff && line.value != "" ==>
              |Content(line)| == |line.value| + 1 && Content(line)[0] == line.value[0] && Content(line)[1] == ' '
              && [Content(line)[0]] + Content(line)[2..] == line.value
    ensures !line.isDiff || line.value == "" ==> Content(line) != "" && Content(line)[0] == ' ' && Content(line)[1..] == line.value
  {
    if line.isDiff && line.value != "" {
      assert line.value == [line.value[0]] + line.value[1..];
    }
  }

  function Contents(lines: seq<LineComparison>): seq<string> {
    if lines == [] then [] else [Content(lines[0])] + Contents(lines[1..])
  }

  function HeaderOf(lines: seq<LineComparison>): HunkHeader {
    var m := LineMarks(lines);
    HunkHeader(FirstOr0(BaseNumbers(m)), BaseCount(m), FirstOr0(HeadNumbers(m)), HeadCount(m))
  }

  function SegmentHunk(lines: seq<LineComparison>): Hunk {
    var header := HeaderOf(lines);
    Hunk(Side(header.baseStart, Given(header.baseCount)), Side(header.headStart, Given(header.headCount)), Contents(lines))
  }

  ghost function SegmentLines(lines: seq<LineComparison>, c: Core): seq<LineComparison>
    requires c.Lo() <= c.End(|lines|)
  {
    lines[c.Lo()..c.End(|lines|)]
  }

  ghost function SegmentHunks(lines: seq<LineComparison>, cores: seq<Core>): seq<Hunk>
    requires forall k :: 0 <= k < |cores| ==> cores[k].Lo() <= cores[k].End(|lines|)
  {
    if cores == [] then []
    else [SegmentHunk(SegmentLines(lines, cores[0]))] + SegmentHunks(lines, cores[1..])
  }

  predicate AllShown(visits: seq<Visit>) {
    forall i :: 0 <= i < |visits| ==> visits[i].value.Some?
  }

  lemma {:induction false} GapShown(f: FileInfo, b: nat, h: nat, n: nat)
    requires f.src != [] && (n == 0 || h + n <= |f.src| + 1)
    ensures AllShown(Gap(f, b, h, n))
    decreases n
  {
    if n > 0 {
      GapShown(f, b + 1, h + 1, n - 1);
    }
  }

  lemma {:induction false} HunkShown(b: nat, h: nat, lines: seq<string>)
    ensures AllShown(HunkVisits(b, h, lines))
    decreases lines
  {
    if lines != [] {
      var k := KindOf(lines[0]);
      HunkShown(b + BaseStep(k), h + HeadStep(k), lines[1..]);
    }
  }

  /** With the source at hand, every visit has code to show. */
  lemma {:induction false} ListingShown(f: FileInfo, segs: seq<Hunk>, b: nat, h: nat)
    requires f.src != [] && Readable(f.src, segs, b, h)
    ensures AllShown(Listing(f, segs, b, h))
    decreases |segs|
  {
    hide Gap, HunkVisits, Contents;
    if segs == [] {
      GapShown(f, b, h, Tail(f, b, h));
    } else {
      var d := Ahead(segs[0], b);
      GapShown(f, b, h, d);
      HunkShown(b + d, h + d, segs[0].lines);
      ListingShown(f, segs[1..], b + d + BaseLen(segs[0].lines), h + d + HeadLen(segs[0].lines));
    }
  }

  /** Visits that all have code are recorded one by one. */
  lemma {:induction false} ComparedOneByOne(files: Files, visits: seq<Visit>)
    requires AllShown(visits)
    ensures |ComparedAll(files, visits)| == |visits|
    ensures forall i :: 0 <= i < |visits| ==> [ComparedAll(files, visits)[i]] == Compared(files, visits[i])
  {
    if visits != [] {
      ComparedOneByOne(files, visits[..|visits| - 1]);
    }
  }

  lemma {:induction false} NumberedOmitsNumbers(marks: seq<Mark>, b: nat, h: nat)
    requires Numbered(marks, b, h)
    ensures forall m :: m in marks ==> (m.kind == Added ==> m.base.None?) && (m.kind == Removed ==> m.head.None?)
  {
    if marks != [] {
      NumberedOmitsNumbers(marks[..|marks| - 1], b, h);
      assert marks == marks[..|marks| - 1] + [marks[|marks| - 1]];
    }
  }

  /** When all visits have code, the recorded lines carry their kinds and numbers. */
  lemma AllShownKeepsMarks(files: Files, visits: seq<Visit>, b: nat, h: nat)
    requires Numbered(Marks(visits), b, h) && AllShown(visits)
    ensures LineMarks(ComparedAll(files, visits)) == Marks(visits)
  {
    hide ComparedAll, Numbered, BaseCount, HeadCount;
    ComparedOneByOne(files, visits);
    NumberedOmitsNumbers(Marks(visits), b, h);
    var lines := ComparedAll(files, visits);
    forall i | 0 <= i < |visits| ensures LineMark(lines[i]) == Marks(visits)[i] {
      assert Marks(visits)[i] in Marks(visits);
      assert [lines[i]] == Compared(files, visits[i]);
    }
  }

  /** The compared lines of a walk with source carry the numbers of its visits. */
  lemma ComparedLinesAreNumbered(f: FileInfo, files: Files, segs: seq<Hunk>, b: nat, h: nat)
    requires f.src != [] && Readable(f.src, segs, b, h)
    ensures LineMarks(ComparedAll(files, Listing(f, segs, b, h))) == Marks(Listing(f, segs, b, h))
  {
    hide Listing, ComparedAll, Readable, Numbered, BaseCount, HeadCount;
    ListingShown(f, segs, b, h);
    ListingNumbered(f, segs, b, h);
    AllShownKeepsMarks(files, Listing(f, segs, b, h), b, h);
  }

  // ---------------------------------------------------------------------------------------------
  // Kinds

  function VisitKinds(visits: seq<Visit>): seq<Kind> {
    if visits == [] then [] else [VisitKind(visits[0].value, visits[0].isDiff)] + VisitKinds(visits[1..])
  }

  function TextKinds(lines: seq<string>): seq<Kind> {
    if lines == [] then [] else [KindOf(lines[0])] + TextKinds(lines[1..])
  }

  function MarkKinds(marks: seq<Mark>): seq<Kind> {
    seq(|marks|, i requires 0 <= i < |marks| => marks[i].kind)
  }

  function Contexts(n: nat): seq<Kind> {
    seq(n, i => Context)
  }

  lemma {:induction false} VisitKindsAppend(s: seq<Visit>, t: seq<Visit>)
    ensures VisitKinds(s + t) == VisitKinds(s) + VisitKinds(t)
  {
    if s == [] {
      assert s + t == t;
    } else {
      assert (s + t)[1..] == s[1..] + t;
      VisitKindsAppend(s[1..], t);
    }
  }

  lemma {:induction false} VisitKindsAreMarkKinds(visits: seq<Visit>)
    ensures VisitKinds(visits) == MarkKinds(Marks(visits))
  {
    if visits != [] {
      VisitKindsAreMarkKinds(visits[1..]);
    }
  }

  lemma {:induction false} GapKinds(f: FileInfo, b: nat, h: nat, n: nat)
    ensures VisitKinds(Gap(f, b, h, n)) == Contexts(n)
    decreases n
  {
    if n > 0 {
      GapKinds(f, b + 1, h + 1, n - 1);
      assert Gap(f, b, h, n)[1..] == Gap(f, b + 1, h + 1, n - 1);
    }
  }

  lemma {:induction false} HunkKinds(b: nat, h: nat, lines: seq<string>)
    ensures VisitKinds(HunkVisits(b, h, lines)) == TextKinds(lines)
    decreases lines
  {
    if lines != [] {
      var k := KindOf(lines[0]);
      HunkKinds(b + BaseStep(k), h + HeadStep(k), lines[1..]);
      assert HunkVisits(b, h, lines)[1..] == HunkVisits(b + BaseStep(k), h + HeadStep(k), lines[1..]);
    }
  }

  lemma {:induction false} ContentsInOrder(lines: seq<LineComparison>)
    ensures |Contents(lines)| == |lines| && forall i :: 0 <= i < |lines| ==> Contents(lines)[i] == Content(lines[i])
  {
    if lines != [] {
      ContentsInOrder(lines[1..]);
    }
  }

  /** Serialized lines have the kinds and lengths of the lines they show. */
  lemma {:induction false} ContentsKeepKinds(lines: seq<LineComparison>)
    ensures TextKinds(Contents(lines)) == MarkKinds(LineMarks(lines)) && |Contents(lines)| == |lines|
    ensures BaseLen(Contents(lines)) == BaseCount(LineMarks(lines))
    ensures HeadLen(Contents(lines)) == HeadCount(LineMarks(lines))
  {
    if lines != [] {
      var m := LineMarks(lines);
      ContentsKeepKinds(lines[1..]);
      assert m == [LineMark(lines[0])] + LineMarks(lines[1..]);
      CountsAppend([LineMark(lines[0])], LineMarks(lines[1..]));
      OneCount(LineMark(lines[0]));
      assert KindOf(Content(lines[0])) == lines[0].LineKind();
    }
  }

  lemma OneCount(m: Mark)
    ensures BaseCount([m]) == BaseStep(m.kind) && HeadCount([m]) == HeadStep(m.kind)
  {
    assert [m][..0] == [];
    assert BaseCount([m][..0]) == 0 && HeadCount([m][..0]) == 0;
  }

  // ---------------------------------------------------------------------------------------------
  // Headers

  /** The numbers are exactly `start`, ..., `start + count - 1`. */
  predicate Exactly(numbers: seq<nat>, start: nat, count: nat) {
    |numbers| == count && (count > 0 ==> Consecutive(numbers, start))
  }

  lemma SliceNumbered(marks: seq<Mark>, lo: nat, end: nat, b: nat, h: nat)
    requires Numbered(marks, b, h) && lo <= end <= |marks|
    ensures Numbered(marks[lo..end], b + BaseCount(marks[..lo]), h + HeadCount(marks[..lo]))
    ensures BaseCount(marks[..end]) == BaseCount(marks[..lo]) + BaseCount(marks[lo..end])
    ensures HeadCount(marks[..end]) == HeadCount(marks[..lo]) + HeadCount(marks[lo..end])
    ensures BaseCount(marks) == BaseCount(marks[..end]) + BaseCount(marks[end..])
    ensures HeadCount(marks) == HeadCount(marks[..end]) + HeadCount(marks[end..])
  {
    hide *;
    assert marks == marks[..end] + marks[end..];
    assert marks[..end] == marks[..lo] + marks[lo..end];
    NumberedAppend(marks[..end], marks[end..], b, h);
    NumberedAppend(marks[..lo], marks[lo..end], b, h);
    CountsAppend(marks[..end], marks[end..]);
    CountsAppend(marks[..lo], marks[lo..end]);
  }

  /**
   A header computed from numbered lines is correct: on each side, the lines carry exactly the
   numbers it announces, and it starts where the counters stand before the segment.
   */
  lemma HeaderIsCorrect(lines: seq<LineComparison>, lo: nat, end: nat, b: nat, h: nat)
    requires Numbered(LineMarks(lines), b, h) && lo <= end <= |lines|
    ensures var header, m := HeaderOf(lines[lo..end]), LineMarks(lines[lo..end]);
            && Exactly(BaseNumbers(m), header.baseStart, header.baseCount)
            && Exactly(HeadNumbers(m), header.headStart, header.headCount)
            && (header.baseCount > 0 ==> header.baseStart == b + BaseCount(LineMarks(lines)[..lo]))
            && (header.headCount > 0 ==> header.headStart == h + HeadCount(LineMarks(lines)[..lo]))
  {
    hide Numbered, BaseCount, HeadCount, BaseNumbers, HeadNumbers;
    var marks := LineMarks(lines);
    SliceNumbered(marks, lo, end, b, h);
    assert LineMarks(lines[lo..end]) == marks[lo..end];
    NumbersAreConsecutive(marks[lo..end], b + BaseCount(marks[..lo]), h + HeadCount(marks[..lo]));
  }

  // ---------------------------------------------------------------------------------------------
  // Retracing the walk

  lemma {:induction false} ContextRun(marks: seq<Mark>)
    requires forall i :: 0 <= i < |marks| ==> marks[i].kind == Context
    ensures BaseCount(marks) == HeadCount(marks) == |marks|
  {
    if marks != [] {
      ContextRun(marks[..|marks| - 1]);
    }
  }

  /** A line outside the segments around it is unchanged code. */
  lemma BetweenSegments(lines: seq<LineComparison>, cores: seq<Core>, k: nat, i: nat)
    requires Segmentation(lines, cores) && k <= |cores| && i < |lines|
    requires k > 0 ==> cores[k - 1].End(|lines|) <= i
    requires k < |cores| ==> i < cores[k].Lo()
    ensures lines[i].LineKind() == Context
  {
    assert InterestingAt(lines, i) ==> Owned(cores, i);
  }

  /** A line that a position counts from: the counters before line `i`. */
  function BaseAt(marks: seq<Mark>, i: nat): nat
    requires i <= |marks|
  {
    1 + BaseCount(marks[..i])
  }

  function HeadAt(marks: seq<Mark>, i: nat): nat
    requires i <= |marks|
  {
    1 + HeadCount(marks[..i])
  }

  /** Lines numbered from 1 in both files, which together are the whole source. */
  ghost predicate WholeFile(f: FileInfo, lines: seq<LineComparison>) {
    f.src != [] && Numbered(LineMarks(lines), 1, 1) && HeadCount(LineMarks(lines)) == |f.src|
  }

  /** A run of unchanged lines moves both counters by its length. */
  lemma RunAhead(lines: seq<LineComparison>, i: nat, j: nat)
    requires i <= j <= |lines|
    requires forall x :: i <= x < j ==> lines[x].LineKind() == Context
    ensures var m := LineMarks(lines);
            && BaseAt(m, j) == BaseAt(m, i) + (j - i) && HeadAt(m, j) == HeadAt(m, i) + (j - i)
            && MarkKinds(m[i..j]) == Contexts(j - i)
  {
    var m := LineMarks(lines);
    assert m[..j] == m[..i] + m[i..j];
    CountsAppend(m[..i], m[i..j]);
    ContextRun(m[i..j]);
  }

  /** What holds of the hunks made from the segments `k` and later, seen from line `i`. */
  ghost predicate Retraces(f: FileInfo, lines: seq<LineComparison>, hs: seq<Hunk>, i: nat)
    requires i <= |lines|
  {
    var m := LineMarks(lines);
    var b, h := BaseAt(m, i), HeadAt(m, i);
    && Aligned(hs, b, h) && Covered(hs, b, h) && Readable(f.src, hs, b, h)
    && VisitKinds(Listing(f, hs, b, h)) == MarkKinds(m[i..])
  }

  lemma RetraceTail(f: FileInfo, lines: seq<LineComparison>, i: nat)
    requires WholeFile(f, lines) && i <= |lines|
    requires forall x :: i <= x < |lines| ==> lines[x].LineKind() == Context
    ensures Retraces(f, lines, [], i)
  {
    var m := LineMarks(lines);
    RunAhead(lines, i, |lines|);
    assert m[..|lines|] == m && m[i..|lines|] == m[i..];
    var b, h := BaseAt(m, i), HeadAt(m, i);
    assert Tail(f, b, h) == |lines| - i;
    GapKinds(f, b, h, |lines| - i);
  }

  /** The hunk made from a segment that has lines on both sides. */
  lemma SegmentHunkShape(lines: seq<LineComparison>, lo: nat, end: nat)
    requires Numbered(LineMarks(lines), 1, 1) && lo < end <= |lines|
    requires var m := LineMarks(lines[lo..end]); BaseCount(m) > 0 && HeadCount(m) > 0
    ensures var hunk, m := SegmentHunk(lines[lo..end]), LineMarks(lines);
            && hunk.lines != [] && TextKinds(hunk.lines) == MarkKinds(m[lo..end])
            && hunk.base.First() == BaseAt(m, lo) && hunk.head.First() == HeadAt(m, lo)
            && BaseAt(m, lo) + BaseLen(hunk.lines) == BaseAt(m, end)
            && HeadAt(m, lo) + HeadLen(hunk.lines) == HeadAt(m, end)
            && CoveredFrom(hunk, BaseAt(m, lo), HeadAt(m, lo), hunk.lines)
  {
    hide Numbered, BaseCount, HeadCount, Contents, TextKinds, BaseLen, HeadLen, CoveredFrom, BaseNumbers, HeadNumbers;
    var hunk, m := SegmentHunk(lines[lo..end]), LineMarks(lines);
    HeaderIsCorrect(lines, lo, end, 1, 1);
    ContentsKeepKinds(lines[lo..end]);
    SliceNumbered(m, lo, end, 1, 1);
    assert LineMarks(lines[lo..end]) == m[lo..end];
    assert |hunk.lines| == end - lo;
    AgreedCountsCover(hunk, BaseAt(m, lo), HeadAt(m, lo), hunk.lines);
  }

  lemma RetraceOne(f: FileInfo, lines: seq<LineComparison>, i: nat, lo: nat, end: nat, rest: seq<Hunk>)
    requires WholeFile(f, lines) && i <= lo < end <= |lines|
    requires forall x :: i <= x < lo ==> lines[x].LineKind() == Context
    requires var m := LineMarks(lines[lo..end]); BaseCount(m) > 0 && HeadCount(m) > 0
    requires Retraces(f, lines, rest, end)
    ensures Retraces(f, lines, [SegmentHunk(lines[lo..end])] + rest, i)
  {
    hide SegmentHunk, Numbered, BaseCount, HeadCount, Gap, HunkVisits, VisitKinds, TextKinds, BaseAt, HeadAt, CoveredFrom, BaseLen, HeadLen;
    var hunk, m := SegmentHunk(lines[lo..end]), LineMarks(lines);
    var hs := [hunk] + rest;
    var b, h := BaseAt(m, i), HeadAt(m, i);
    RunAhead(lines, i, lo);
    SegmentHunkShape(lines, lo, end);
    assert hs[1..] == rest && hs[0] == hunk;
    assert Ahead(hunk, b) == lo - i;
    EnoughSource(f, lines, lo);
    GapKinds(f, b, h, lo - i);
    HunkKinds(BaseAt(m, lo), HeadAt(m, lo), hunk.lines);
    var gap, visits := Gap(f, b, h, lo - i), HunkVisits(BaseAt(m, lo), HeadAt(m, lo), hunk.lines);
    var others := Listing(f, rest, BaseAt(m, end), HeadAt(m, end));
    VisitKindsAppend(gap, visits);
    VisitKindsAppend(gap + visits, others);
    KindsOfParts(m, i, lo, end);
    assert Listing(f, hs, b, h) == gap + visits + others;
  }

  lemma KindsOfParts(m: seq<Mark>, i: nat, lo: nat, end: nat)
    requires i <= lo <= end <= |m|
    ensures MarkKinds(m[i..]) == MarkKinds(m[i..lo]) + MarkKinds(m[lo..end]) + MarkKinds(m[end..])
  {
  }

  lemma EnoughSource(f: FileInfo, lines: seq<LineComparison>, i: nat)
    requires WholeFile(f, lines) && i <= |lines|
    ensures HeadAt(LineMarks(lines), i) <= |f.src| + 1
  {
    SliceNumbered(LineMarks(lines), 0, i, 1, 1);
  }

  lemma {:induction false} Retrace(f: FileInfo, lines: seq<LineComparison>, cores: seq<Core>, k: nat, i: nat)
    requires WholeFile(f, lines) && Segmentation(lines, cores) && k <= |cores|
    requires i == if k == 0 then 0 else cores[k - 1].End(|lines|)
    requires forall l :: 0 <= l < |cores| ==>
               cores[l].Lo() < cores[l].End(|lines|) <= |lines|
               && var m := LineMarks(SegmentLines(lines, cores[l])); BaseCount(m) > 0 && HeadCount(m) > 0
    ensures i <= |lines| && Retraces(f, lines, SegmentHunks(lines, cores[k..]), i)
    decreases |cores| - k
  {
    hide Retraces, BaseCount, HeadCount, WholeFile, Segmentation, SegmentHunk;
    forall x | i <= x < if k < |cores| then cores[k].Lo() else |lines| ensures lines[x].LineKind() == Context {
      BetweenSegments(lines, cores, k, x);
    }
    if k == |cores| {
      RetraceTail(f, lines, i);
    } else {
      var lo, end := cores[k].Lo(), cores[k].End(|lines|);
      if k > 0 {
        SegmentsAreDisjoint(lines, cores, k - 1, k);
      }
      Retrace(f, lines, cores, k + 1, end);
      RetraceOne(f, lines, i, lo, end, SegmentHunks(lines, cores[k + 1..]));
      assert cores[k..][0] == cores[k] && cores[k..][1..] == cores[k + 1..];
      assert SegmentLines(lines, cores[k]) == lines[lo..end];
    }
  }

  lemma {:induction false} ZeroCountKinds(marks: seq<Mark>, i: nat)
    requires i < |marks|
    ensures BaseCount(marks) == 0 ==> marks[i].kind == Added
    ensures HeadCount(marks) == 0 ==> marks[i].kind == Removed
  {
    if i < |marks| - 1 {
      ZeroCountKinds(marks[..|marks| - 1], i);
    }
  }

  /** A segment without unchanged lines is the only one and shows the whole file. */
  lemma ChangedThroughout(lines: seq<LineComparison>, cores: seq<Core>, k: nat)
    requires Segmentation(lines, cores) && k < |cores|
    requires forall i :: 0 <= i < |lines| && InSegment(cores[k], |lines|, i) ==> lines[i].LineKind() != Context
    ensures cores[k].Lo() == 0 && cores[k].End(|lines|) == |lines| && |cores| == 1
  {
    var c := cores[k];
    assert cores[k].last < |lines|;
    if c.first > 0 {
      PaddingIsPlain(lines, cores, k, c.Lo());
    }
    if c.last + 1 < |lines| {
      PaddingIsPlain(lines, cores, k, c.End(|lines|) - 1);
    }
    if k > 0 {
      SegmentsAreDisjoint(lines, cores, k - 1, k);
    }
    if k + 1 < |cores| {
      SegmentsAreDisjoint(lines, cores, k, k + 1);
    }
  }

  /** Only a new file has a segment without base lines, and none is without head lines. */
  lemma OneSidedSegment(f: FileInfo, lines: seq<LineComparison>, cores: seq<Core>, k: nat)
    requires WholeFile(f, lines) && Segmentation(lines, cores) && k < |cores|
    requires cores[k].Lo() <= cores[k].End(|lines|) <= |lines|
    requires var m := LineMarks(SegmentLines(lines, cores[k])); BaseCount(m) == 0 || HeadCount(m) == 0
    ensures |cores| == 1 && SegmentLines(lines, cores[k]) == lines && BaseCount(LineMarks(lines)) == 0
  {
    hide BaseCount, HeadCount, Numbered, Segmentation;
    var lo := cores[k].Lo();
    var part := SegmentLines(lines, cores[k]);
    forall i | 0 <= i < |lines| && InSegment(cores[k], |lines|, i) ensures lines[i].LineKind() != Context {
      ZeroCountKinds(LineMarks(part), i - lo);
      assert part[i - lo] == lines[i];
    }
    ChangedThroughout(lines, cores, k);
    assert part == lines;
  }

  /** A new file's only segment, whose header starts at base line 0. */
  lemma RetraceNewFile(f: FileInfo, lines: seq<LineComparison>)
    requires WholeFile(f, lines) && BaseCount(LineMarks(lines)) == 0
    ensures RetracesFile(f, [SegmentHunk(lines)], LineMarks(lines))
  {
    hide Numbered, BaseCount, HeadCount, BaseNumbers, HeadNumbers, Contents, TextKinds, BaseLen, HeadLen, CoveredFrom, HunkVisits;
    var hunk, hs, m := SegmentHunk(lines), [SegmentHunk(lines)], LineMarks(lines);
    assert lines[0..|lines|] == lines && m[..0] == [];
    HeaderIsCorrect(lines, 0, |lines|, 1, 1);
    ContentsKeepKinds(lines);
    NoMarks();
    assert hs[1..] == [];
    assert hunk.base == Side(0, Given(0)) && hunk.head == Side(1, Given(|f.src|)) by {
      NumbersAreConsecutive(m, 1, 1);
    }
    AgreedCountsCover(hunk, 0, 1, hunk.lines);
    assert Gap(f, 0, 1, 0) == [];
    assert Listing(f, [], 0, 1 + |f.src|) == [];
    assert Listing(f, hs, 0, 1) == HunkVisits(0, 1, hunk.lines);
    HunkKinds(0, 1, hunk.lines);
    HunkNumbered(0, 1, hunk.lines);
    var visits := HunkVisits(0, 1, hunk.lines);
    VisitKindsAreMarkKinds(visits);
    NoNumbersNoCount(Marks(visits), 0, 1);
    SameKinds(Marks(visits), m);
    assert Initial(hs) == State(hs, 0, 1);
    assert Marks(Listing(f, hs, 0, 1)) == m;
    AtHunk(f, hunk, [], 0, 1);
    assert hs == [hunk] + [];
    assert Aligned(hs, 0, 1) && Covered(hs, 0, 1) && Readable(f.src, hs, 0, 1);
  }

  lemma NoMarks()
    ensures BaseCount([]) == HeadCount([]) == 0 && BaseNumbers([]) == HeadNumbers([]) == []
  {
  }

  lemma SameKinds(s: seq<Mark>, t: seq<Mark>)
    requires Numbered(s, 1, 1) && Numbered(t, 1, 1) && MarkKinds(s) == MarkKinds(t)
    ensures s == t
  {
    assert |MarkKinds(s)| == |s| && |MarkKinds(t)| == |t|;
    forall i | 0 <= i < |s| ensures s[i].kind == t[i].kind {
      assert MarkKinds(s)[i] == MarkKinds(t)[i];
    }
    KindsDetermineMarks(s, t, 1, 1);
  }

  ghost predicate TwoSided(lines: seq<LineComparison>, c: Core)
    requires c.Lo() <= c.End(|lines|) <= |lines|
  {
    var m := LineMarks(SegmentLines(lines, c));
    BaseCount(m) > 0 && HeadCount(m) > 0
  }

  ghost predicate InBounds(lines: seq<LineComparison>, cores: seq<Core>) {
    forall k :: 0 <= k < |cores| ==> cores[k].Lo() < cores[k].End(|lines|) <= |lines|
  }

  /** The hunks satisfy the walker's own conditions, and walking them numbers the lines as they are. */
  ghost predicate RetracesFile(f: FileInfo, hs: seq<Hunk>, marks: seq<Mark>) {
    var s := Initial(hs);
    && Aligned(hs, s.b, s.h) && Covered(hs, s.b, s.h) && Readable(f.src, hs, s.b, s.h)
    && Marks(Listing(f, hs, s.b, s.h)) == marks
  }

  /**
   The hunks made from the segments of a whole file satisfy the walker's own conditions, and
   walking them gives every line the kind and the numbers it had.
   */
  lemma SegmentsRetraceTheWalk(f: FileInfo, lines: seq<LineComparison>, cores: seq<Core>)
    requires WholeFile(f, lines) && Segmentation(lines, cores)
    ensures InBounds(lines, cores)
    ensures RetracesFile(f, SegmentHunks(lines, cores), LineMarks(lines))
  {
    CoresInBounds(lines, cores);
    hide WholeFile, Segmentation, SegmentHunk, RetracesFile, LineMarks, BaseCount, HeadCount;
    if k :| 0 <= k < |cores| && !TwoSided(lines, cores[k]) {
      OneSidedSegment(f, lines, cores, k);
      OneHunk(lines, cores);
      RetraceNewFile(f, lines);
    } else {
      RetraceFromStart(f, lines, cores);
    }
  }

  lemma CoresInBounds(lines: seq<LineComparison>, cores: seq<Core>)
    requires Segmentation(lines, cores)
    ensures InBounds(lines, cores)
  {
  }

  lemma OneHunk(lines: seq<LineComparison>, cores: seq<Core>)
    requires |cores| == 1 && cores[0].Lo() <= cores[0].End(|lines|) && SegmentLines(lines, cores[0]) == lines
    ensures SegmentHunks(lines, cores) == [SegmentHunk(lines)]
  {
    hide SegmentHunk;
    assert cores[1..] == [] && SegmentHunks(lines, cores[1..]) == [];
  }

  lemma RetraceFromStart(f: FileInfo, lines: seq<LineComparison>, cores: seq<Core>)
    requires WholeFile(f, lines) && Segmentation(lines, cores)
    requires InBounds(lines, cores) && forall k :: 0 <= k < |cores| ==> TwoSided(lines, cores[k])
    ensures RetracesFile(f, SegmentHunks(lines, cores), LineMarks(lines))
  {
    hide BaseCount, HeadCount, Numbered, Segmentation, BaseNumbers, HeadNumbers, SegmentHunk, Listing, Aligned, Covered, Readable, VisitKinds, Marks, MarkKinds, SegmentHunks;
    Retrace(f, lines, cores, 0, 0);
    NoMarks();
    var hs, m := SegmentHunks(lines, cores), LineMarks(lines);
    assert cores[0..] == cores && m[..0] == [] && m[0..] == m;
    InitialCounters(lines, cores);
    ListingNumbered(f, hs, 1, 1);
    VisitKindsAreMarkKinds(Listing(f, hs, 1, 1));
    SameKinds(Marks(Listing(f, hs, 1, 1)), m);
  }

  lemma InitialCounters(lines: seq<LineComparison>, cores: seq<Core>)
    requires Numbered(LineMarks(lines), 1, 1)
    requires InBounds(lines, cores) && forall k :: 0 <= k < |cores| ==> TwoSided(lines, cores[k])
    ensures Initial(SegmentHunks(lines, cores)) == State(SegmentHunks(lines, cores), 1, 1)
  {
    hide BaseCount, HeadCount, Numbered, BaseNumbers, HeadNumbers, Contents;
    if cores != [] {
      HeaderIsCorrect(lines, cores[0].Lo(), cores[0].End(|lines|), 1, 1);
    }
  }

  lemma {:induction false} HunksInsideSource(f: FileInfo, segs: seq<Hunk>, b: nat, h: nat)
    requires EndOf(segs, b, h).1 <= |f.src| + 1
    ensures Readable(f.src, segs, b, h) && h <= |f.src| + 1
    decreases |segs|
  {
    if segs != [] {
      var d := Ahead(segs[0], b);
      HunksInsideSource(f, segs[1..], b + d + BaseLen(segs[0].lines), h + d + HeadLen(segs[0].lines));
    }
  }

  /**
   Round trip from diff to segments: when the source is at hand and the diff describes it, the
   headers and lines of the segments form a hunk list that retraces the original walk.
   */
  lemma ServedSegmentsRoundTrip(f: FileInfo, files: Files, hs: seq<Hunk>, cores: seq<Core>)
    requires f.src != [] && Unified(hs, 1, 1, 0) && Initial(hs).h == 1
    requires var s := Initial(hs);
             var e := EndOf(hs, s.b, s.h);
             Aligned(hs, s.b, s.h) && e.1 <= |f.src| + 1 && (!StartsAtZero(hs) || Tail(f, e.0, e.1) == 0)
    requires var s := Initial(hs); Segmentation(ComparedAll(files, Listing(f, hs, s.b, s.h)), cores)
    ensures var s := Initial(hs);
            var lines := ComparedAll(files, Listing(f, hs, s.b, s.h));
            InBounds(lines, cores) && RetracesFile(f, SegmentHunks(lines, cores), Marks(Listing(f, hs, s.b, s.h)))
  {
    hide BaseCount, HeadCount, Numbered, Segmentation, Listing, ComparedAll, SegmentHunks, Unified;
    var s := Initial(hs);
    var lines := ComparedAll(files, Listing(f, hs, s.b, s.h));
    HunksInsideSource(f, hs, s.b, s.h);
    ComparedLinesAreNumbered(f, files, hs, s.b, s.h);
    NumbersStartAtOneExactlyWhen(f, hs);
    ListingNumbered(f, hs, s.b, s.h);
    SegmentsRetraceTheWalk(f, lines, cores);
  }

  // ---------------------------------------------------------------------------------------------
  // Segments as stretches of a walk

  lemma {:induction false} PrefixOfVisits(files: Files, visits: seq<Visit>, k: nat) returns (j: nat)
    requires k <= |ComparedAll(files, visits)|
    ensures j <= |visits| && ComparedAll(files, visits[..j]) == ComparedAll(files, visits)[..k]
    ensures k > 0 ==> j > 0 && visits[j - 1].value.Some?
  {
    if k == |ComparedAll(files, visits)| && visits != [] && visits[|visits| - 1].value.Some? {
      j := |visits|;
      assert visits[..j] == visits;
    } else if visits != [] {
      var init := visits[..|visits| - 1];
      j := PrefixOfVisits(files, init, k);
      assert init[..j] == visits[..j];
    } else {
      j := 0;
    }
  }

  lemma {:induction false} ComparedAppend(files: Files, s: seq<Visit>, t: seq<Visit>)
    ensures ComparedAll(files, s + t) == ComparedAll(files, s) + ComparedAll(files, t)
  {
    if t == [] {
      assert s + t == s;
    } else {
      assert (s + t)[..|s + t| - 1] == s + t[..|t| - 1];
      ComparedAppend(files, s, t[..|t| - 1]);
    }
  }

  /** The lines of a segment are what is recorded for a stretch of the walk that ends with code. */
  lemma SegmentIsStretch(files: Files, visits: seq<Visit>, lo: nat, end: nat) returns (i: nat, j: nat)
    requires lo < end <= |ComparedAll(files, visits)|
    ensures i < j <= |visits| && visits[i].value.Some? && visits[j - 1].value.Some?
    ensures ComparedAll(files, visits[i..j]) == ComparedAll(files, visits)[lo..end]
  {
    hide ComparedAll;
    var all := ComparedAll(files, visits);
    var first := PrefixOfVisits(files, visits, lo + 1);
    j := PrefixOfVisits(files, visits, end);
    i := first - 1;
    var v := visits[i];
    assert visits[..first] == visits[..i] + [v];
    ComparedAppends(files, visits[..i], v);
    assert |ComparedAll(files, visits[..i])| == lo;
    if j <= i {
      assert visits[..i] == visits[..j] + visits[j..i];
      ComparedAppend(files, visits[..j], visits[j..i]);
      assert false;
    }
    assert visits[..j] == visits[..i] + visits[i..j];
    ComparedAppend(files, visits[..i], visits[i..j]);
  }

  // ---------------------------------------------------------------------------------------------
  // Inputs on which a promise fails

  const FIRST := Hunk(Side(1, Given(1)), Side(1, Given(1)), ["-a", "+b"])
  const SECOND := Hunk(Side(9, Given(1)), Side(9, Given(1)), ["-c", "+d"])

  lemma ExampleListing()
    ensures Unified([FIRST, SECOND], 1, 1, 0)
    ensures Listing(NO_SOURCE, [FIRST, SECOND], 1, 1)
            == HunkVisits(1, 1, FIRST.lines) + Gap(NO_SOURCE, 2, 2, 7) + HunkVisits(9, 9, SECOND.lines)
  {
    hide HunkVisits, Gap;
    TwoLines("-a", "+b");
    TwoLines("-c", "+d");
    assert [FIRST, SECOND][1..] == [SECOND] && [SECOND][1..] == [];
    assert Unified([], 10, 10, 1) && Unified([SECOND], 2, 2, 1);
    var x, y, z := HunkVisits(1, 1, FIRST.lines), Gap(NO_SOURCE, 2, 2, 7), HunkVisits(9, 9, SECOND.lines);
    EmptyGap(1);
    EmptyGap(10);
    assert Listing(NO_SOURCE, [], 10, 10) == [] && Listing(NO_SOURCE, [SECOND], 2, 2) == y + z + [];
    assert Listing(NO_SOURCE, [FIRST, SECOND], 1, 1) == [] + x + (y + z + []);
    assert [] + x + (y + z + []) == x + y + z;
  }

  lemma EmptyGap(n: nat)
    ensures Gap(NO_SOURCE, n, n, 0) == []
  {
  }

  /** Two one-line hunks eight lines apart: without source, one segment claims lines 1 and 2. */
  lemma HeaderWithoutSourceFails(files: Files)
    ensures var m := LineMarks(ComparedAll(files, Listing(NO_SOURCE, [FIRST, SECOND], 1, 1)));
            && Unified([FIRST, SECOND], 1, 1, 0) && Initial([FIRST, SECOND]) == State([FIRST, SECOND], 1, 1)
            && BaseCount(m) == 2 && BaseNumbers(m) == [1, 9] && !Exactly(BaseNumbers(m), 1, 2)
  {
    hide HunkVisits, Gap, Listing, ComparedAll, BaseCount, BaseNumbers, Unified, LineMarks;
    var x, y, z := HunkVisits(1, 1, FIRST.lines), Gap(NO_SOURCE, 2, 2, 7), HunkVisits(9, 9, SECOND.lines);
    ExampleListing();
    ChangedPair(files, 1, "-a", "+b");
    ChangedPair(files, 9, "-c", "+d");
    GapIsDropped(files, NO_SOURCE, 2, 2, 7);
    ComparedAppend(files, x, y);
    ComparedAppend(files, x + y, z);
    PairNumbers(ComparedAll(files, x), ComparedAll(files, z));
    assert [1, 9][1] == 9;
  }

  lemma TwoLines(a: string, b: string)
    requires IsRemoved(a) && IsAdded(b)
    ensures BaseLen([a, b]) == HeadLen([a, b]) == 1
  {
    assert [a, b][1..] == [b] && [b][1..] == [];
    assert BaseLen([b]) == 0 && HeadLen([b]) == 1;
  }

  lemma ChangedPair(files: Files, n: nat, a: string, b: string)
    requires IsRemoved(a) && IsAdded(b)
    ensures var lines := ComparedAll(files, HunkVisits(n, n, [a, b]));
            |lines| == 2 && LineMark(lines[0]) == Mark(Removed, Some(n), None) && LineMark(lines[1]) == Mark(Added, None, Some(n))
  {
    var v, w := VisitAt(n, n, Some(a), true), VisitAt(n + 1, n, Some(b), true);
    assert [a, b][1..] == [b] && [b][1..] == [];
    assert HunkVisits(n + 1, n + 1, []) == [] && HunkVisits(n + 1, n, [b]) == [w];
    assert HunkVisits(n, n, [a, b]) == [v, w];
    assert [v, w][..1] == [v] && [v][..0] == [];
    assert ComparedAll(files, [v]) == Compared(files, v);
  }

  lemma {:induction false} GapIsDropped(files: Files, f: FileInfo, b: nat, h: nat, n: nat)
    requires f.src == []
    ensures ComparedAll(files, Gap(f, b, h, n)) == []
    decreases n
  {
    if n > 0 {
      var v := Visit(Some(b), Some(h), None, false);
      GapIsDropped(files, f, b + 1, h + 1, n - 1);
      ComparedAppend(files, [v], Gap(f, b + 1, h + 1, n - 1));
      assert [v][..0] == [];
    }
  }

  lemma PairNumbers(s: seq<LineComparison>, t: seq<LineComparison>)
    requires |s| == |t| == 2 && LineMark(s[0]).kind == LineMark(t[0]).kind == Removed
    requires LineMark(s[1]).kind == LineMark(t[1]).kind == Added
    requires LineMark(s[0]).base == Some(1) && LineMark(t[0]).base == Some(9)
    requires LineMark(s[1]).base == LineMark(t[1]).base == None
    ensures var m := LineMarks(s + [] + t); BaseCount(m) == 2 && BaseNumbers(m) == [1, 9]
  {
    var m := LineMarks(s + [] + t);
    assert m == [LineMark(s[0]), LineMark(s[1]), LineMark(t[0]), LineMark(t[1])];
    assert m[..4] == m && m[..0] == [];
    hide BaseCount, BaseNumbers, LineMark, LineMarks;
    NoMarks();
    OneMoreMark(m, 0);
    OneMoreMark(m, 1);
    OneMoreMark(m, 2);
    OneMoreMark(m, 3);
  }

  lemma OneMoreMark(m: seq<Mark>, k: nat)
    requires k < |m|
    ensures BaseCount(m[..k + 1]) == BaseCount(m[..k]) + BaseStep(m[k].kind)
    ensures BaseNumbers(m[..k + 1]) == BaseNumbers(m[..k]) + if m[k].base.Some? then [m[k].base.value] else []
  {
    assert m[..k + 1][..k] == m[..k];
  }
}
