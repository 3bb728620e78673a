/** Line numbers: what a walk numbers its lines with. */
module Numbering {
  import opened Basics
  import opened UnifiedDiff
  import opened Traversal

  /** A line's kind with its two line numbers. */
  datatype Mark = Mark(kind: Kind, base: Option<nat>, head: Option<nat>)

  /** The mark of a line of kind `k` when base line `b` and head line `h` are next. */
  function MarkAt(k: Kind, b: nat, h: nat): Mark {
    Mark(k, if k == Added then None else Some(b), if k == Removed then None else Some(h))
  }

  function VisitMark(v: Visit): Mark {
    Mark(VisitKind(v.value, v.isDiff), v.base, v.head)
  }

  function Marks(visits: seq<Visit>): seq<Mark> {
    seq(|visits|, i requires 0 <= i < |visits| => VisitMark(visits[i]))
  }

  function BaseCount(marks: seq<Mark>): nat {
    if marks == [] then 0 else BaseCount(marks[..|marks| - 1]) + BaseStep(marks[|marks| - 1].kind)
  }

  function HeadCount(marks: seq<Mark>): nat {
    if marks == [] then 0 else HeadCount(marks[..|marks| - 1]) + HeadStep(marks[|marks| - 1].kind)
  }

  /** The lines of each file are numbered one after the other, from `b` and from `h`. */
  predicate Numbered(marks: seq<Mark>, b: nat, h: nat) {
    marks == [] ||
    var init, m := marks[..|marks| - 1], marks[|marks| - 1];
    Numbered(init, b, h) && m == MarkAt(m.kind, b + BaseCount(init), h + HeadCount(init))
  }

  function BaseNumbers(marks: seq<Mark>): seq<nat> {
    if marks == [] then []
    else
      var m := marks[|marks| - 1];
      BaseNumbers(marks[..|marks| - 1]) + if m.base.Some? then [m.base.value] else []
  }

  function HeadNumbers(marks: seq<Mark>): seq<nat> {
    if marks == [] then []
    else
      var m := marks[|marks| - 1];
      HeadNumbers(marks[..|marks| - 1]) + if m.head.Some? then [m.head.value] else []
  }

  /** The numbers `start`, `start + 1`, ... */
  predicate Consecutive(numbers: seq<nat>, start: nat) {
    forall i :: 0 <= i < |numbers| ==> numbers[i] == start + i
  }

  lemma {:induction false} CountsAppend(s: seq<Mark>, t: seq<Mark>)
    ensures BaseCount(s + t) == BaseCount(s) + BaseCount(t)
    ensures HeadCount(s + t) == HeadCount(s) + HeadCount(t)
  {
    if t == [] {
      assert s + t == s;
    } else {
      assert (s + t)[..|s + t| - 1] == s + t[..|t| - 1];
      CountsAppend(s, t[..|t| - 1]);
    }
  }

  lemma {:induction false} NumberedAppend(s: seq<Mark>, t: seq<Mark>, b: nat, h: nat)
    ensures Numbered(s + t, b, h) <==> Numbered(s, b, h) && Numbered(t, b + BaseCount(s), h + HeadCount(s))
  {
    if t == [] {
      assert s + t == s;
    } else {
      var t' := t[..|t| - 1];
      assert (s + t)[..|s + t| - 1] == s + t';
      NumberedAppend(s, t', b, h);
      CountsAppend(s, t');
    }
  }

  /** Consecutive numbering means that the numbers that occur are consecutive, on each side. */
  lemma {:induction false} NumbersAreConsecutive(marks: seq<Mark>, b: nat, h: nat)
    requires Numbered(marks, b, h)
    ensures Consecutive(BaseNumbers(marks), b) && |BaseNumbers(marks)| == BaseCount(marks)
    ensures Consecutive(HeadNumbers(marks), h) && |HeadNumbers(marks)| == HeadCount(marks)
  {
    if marks != [] {
      NumbersAreConsecutive(marks[..|marks| - 1], b, h);
    }
  }

  /** Equal kinds numbered from the same place are equal. */
  lemma {:induction false} KindsDetermineMarks(s: seq<Mark>, t: seq<Mark>, b: nat, h: nat)
    requires Numbered(s, b, h) && Numbered(t, b, h) && |s| == |t|
    requires forall i :: 0 <= i < |s| ==> s[i].kind == t[i].kind
    ensures s == t
  {
    if s != [] {
      KindsDetermineMarks(s[..|s| - 1], t[..|t| - 1], b, h);
    }
  }

  // ---------------------------------------------------------------------------------------------
  // The numbers of a listing

  lemma MarksAppend(s: seq<Visit>, t: seq<Visit>)
    ensures Marks(s + t) == Marks(s) + Marks(t)
  {
  }

  lemma OneMark(m: Mark, b: nat, h: nat)
    requires m == MarkAt(m.kind, b, h)
    ensures Numbered([m], b, h) && BaseCount([m]) == BaseStep(m.kind) && HeadCount([m]) == HeadStep(m.kind)
  {
    assert [m][..0] == [];
    assert BaseCount([m][..0]) == 0 && HeadCount([m][..0]) == 0;
  }

  lemma NumberedFirst(v: Visit, rest: seq<Visit>, b: nat, h: nat)
    requires VisitMark(v) == MarkAt(VisitMark(v).kind, b, h)
    ensures Marks([v] + rest) == [VisitMark(v)] + Marks(rest)
    ensures var k := VisitMark(v).kind;
            && (Numbered(Marks([v] + rest), b, h) <==> Numbered(Marks(rest), b + BaseStep(k), h + HeadStep(k)))
            && BaseCount(Marks([v] + rest)) == BaseStep(k) + BaseCount(Marks(rest))
            && HeadCount(Marks([v] + rest)) == HeadStep(k) + HeadCount(Marks(rest))
  {
    hide Numbered, BaseCount, HeadCount, VisitMark;
    MarksAppend([v], rest);
    assert Marks([v]) == [VisitMark(v)];
    OneMark(VisitMark(v), b, h);
    NumberedAppend([VisitMark(v)], Marks(rest), b, h);
    CountsAppend([VisitMark(v)], Marks(rest));
  }

  lemma {:induction false} GapNumbered(f: FileInfo, b: nat, h: nat, n: nat)
    ensures var m := Marks(Gap(f, b, h, n));
            Numbered(m, b, h) && BaseCount(m) == HeadCount(m) == |m| == n
    decreases n
  {
    if n == 0 {
      assert Marks(Gap(f, b, h, n)) == [];
    } else {
      var v := Visit(Some(b), Some(h), SrcAt(f.src, h), false);
      assert Gap(f, b, h, n) == [v] + Gap(f, b + 1, h + 1, n - 1);
      assert VisitMark(v) == MarkAt(Context, b, h);
      hide Marks, Numbered, BaseCount, HeadCount, Gap, VisitMark;
      GapNumbered(f, b + 1, h + 1, n - 1);
      NumberedFirst(v, Gap(f, b + 1, h + 1, n - 1), b, h);
    }
  }

  lemma {:induction false} HunkNumbered(b: nat, h: nat, lines: seq<string>)
    ensures var m := Marks(HunkVisits(b, h, lines));
            Numbered(m, b, h) && BaseCount(m) == BaseLen(lines) && HeadCount(m) == HeadLen(lines)
    decreases lines
  {
    hide *;
    if lines == [] {
      NoLinesNumbered(b, h);
    } else {
      var k := KindOf(lines[0]);
      HunkStep(Hunk(Side(0, Blank), Side(0, Blank), lines), b, h);
      LineVisitMark(b, h, lines[0]);
      HunkNumbered(b + BaseStep(k), h + HeadStep(k), lines[1..]);
      NumberedFirst(VisitAt(b, h, Some(lines[0]), true), HunkVisits(b + BaseStep(k), h + HeadStep(k), lines[1..]), b, h);
    }
  }

  lemma NoLinesNumbered(b: nat, h: nat)
    ensures var m := Marks(HunkVisits(b, h, []));
            Numbered(m, b, h) && BaseCount(m) == BaseLen([]) && HeadCount(m) == HeadLen([])
  {
    assert Marks(HunkVisits(b, h, [])) == [];
  }

  lemma LineVisitMark(b: nat, h: nat, line: string)
    ensures var m := VisitMark(VisitAt(b, h, Some(line), true)); m.kind == KindOf(line) && m == MarkAt(m.kind, b, h)
  {
  }

  /** The counters behind the last hunk. */
  function EndOf(segs: seq<Hunk>, b: nat, h: nat): (nat, nat)
    decreases |segs|
  {
    if segs == [] then (b, h)
    else
      var d := Ahead(segs[0], b);
      EndOf(segs[1..], b + d + BaseLen(segs[0].lines), h + d + HeadLen(segs[0].lines))
  }

  lemma {:induction false} ListingNumbered(f: FileInfo, segs: seq<Hunk>, b: nat, h: nat)
    ensures var m, e := Marks(Listing(f, segs, b, h)), EndOf(segs, b, h);
            && Numbered(m, b, h)
            && b + BaseCount(m) == e.0 + Tail(f, e.0, e.1)
            && h + HeadCount(m) == e.1 + Tail(f, e.0, e.1)
    decreases |segs|
  {
    hide Marks, Numbered, BaseCount, HeadCount, Gap, HunkVisits;
    if segs == [] {
      GapNumbered(f, b, h, Tail(f, b, h));
    } else {
      var d := Ahead(segs[0], b);
      ListingNumbered(f, segs[1..], b + d + BaseLen(segs[0].lines), h + d + HeadLen(segs[0].lines));
      FirstHunkNumbered(f, segs[0], segs[1..], b, h, d);
    }
  }

  lemma FirstHunkNumbered(f: FileInfo, hunk: Hunk, tail: seq<Hunk>, b: nat, h: nat, d: nat)
    requires var b', h' := b + d + BaseLen(hunk.lines), h + d + HeadLen(hunk.lines);
             Numbered(Marks(Listing(f, tail, b', h')), b', h')
    ensures var b', h' := b + d + BaseLen(hunk.lines), h + d + HeadLen(hunk.lines);
            var rest := Listing(f, tail, b', h');
            var whole := Gap(f, b, h, d) + HunkVisits(b + d, h + d, hunk.lines) + rest;
            && Numbered(Marks(whole), b, h)
            && b + BaseCount(Marks(whole)) == b' + BaseCount(Marks(rest))
            && h + HeadCount(Marks(whole)) == h' + HeadCount(Marks(rest))
  {
    var b', h' := b + d + BaseLen(hunk.lines), h + d + HeadLen(hunk.lines);
    hide *;
    GapNumbered(f, b, h, d);
    HunkNumbered(b + d, h + d, hunk.lines);
    Pieces(Gap(f, b, h, d), HunkVisits(b + d, h + d, hunk.lines), Listing(f, tail, b', h'), b, h,
           b + d, h + d, b', h');
  }

  lemma ThreeMarks(x: seq<Mark>, y: seq<Mark>, z: seq<Mark>, b: nat, h: nat)
    ensures BaseCount(x + y + z) == BaseCount(x) + BaseCount(y) + BaseCount(z)
    ensures HeadCount(x + y + z) == HeadCount(x) + HeadCount(y) + HeadCount(z)
    ensures Numbered(x + y + z, b, h) <==>
              && Numbered(x, b, h) && Numbered(y, b + BaseCount(x), h + HeadCount(x))
              && Numbered(z, b + BaseCount(x) + BaseCount(y), h + HeadCount(x) + HeadCount(y))
  {
    var xy := x + y;
    NumberedAppend(x, y, b, h);
    CountsAppend(x, y);
    NumberedAppend(xy, z, b, h);
    CountsAppend(xy, z);
  }

  lemma Pieces(x: seq<Visit>, y: seq<Visit>, z: seq<Visit>, b: nat, h: nat, b1: nat, h1: nat, b2: nat, h2: nat)
    requires Numbered(Marks(x), b, h) && b1 == b + BaseCount(Marks(x)) && h1 == h + HeadCount(Marks(x))
    requires Numbered(Marks(y), b1, h1) && b2 == b1 + BaseCount(Marks(y)) && h2 == h1 + HeadCount(Marks(y))
    requires Numbered(Marks(z), b2, h2)
    ensures var m := Marks(x + y + z);
            && Numbered(m, b, h)
            && b + BaseCount(m) == b2 + BaseCount(Marks(z))
            && h + HeadCount(m) == h2 + HeadCount(Marks(z))
  {
    hide *;
    MarksAppend(x, y);
    MarksAppend(x + y, z);
    ThreeMarks(Marks(x), Marks(y), Marks(z), b, h);
  }

  /** Any number of steps from any state number their lines one after the other. */
  lemma {:induction false} VisitsNumbered(f: FileInfo, s: State, n: nat)
    ensures Numbered(Marks(Visits(f, s, n)), s.b, s.h)
    decreases n
  {
    if n > 0 && !Finished(f, s) && CanPop(f, s) {
      var (v, t) := Step(f, s);
      assert Visits(f, s, n) == [v] + Visits(f, t, n - 1);
      hide *;
      VisitsNumbered(f, t, n - 1);
      StepNumbers(f, s);
      NumberedFirst(v, Visits(f, t, n - 1), s.b, s.h);
    } else {
      assert Marks([]) == [];
    }
  }

  lemma StepNumbers(f: FileInfo, s: State)
    requires CanPop(f, s)
    ensures var (v, t) := Step(f, s);
            && VisitMark(v) == MarkAt(VisitMark(v).kind, s.b, s.h)
            && t.b == s.b + BaseStep(VisitMark(v).kind) && t.h == s.h + HeadStep(VisitMark(v).kind)
  {
  }

  /** The line numbers that any walk gives out are consecutive in both files. */
  lemma WalkNumbersLines(f: FileInfo, s: State, n: nat)
    ensures var m := Marks(Visits(f, s, n));
            && Consecutive(BaseNumbers(m), s.b) && |BaseNumbers(m)| == BaseCount(m)
            && Consecutive(HeadNumbers(m), s.h) && |HeadNumbers(m)| == HeadCount(m)
  {
    hide *;
    VisitsNumbered(f, s, n);
    NumbersAreConsecutive(Marks(Visits(f, s, n)), s.b, s.h);
  }

  /** With a source, the head numbers are 1 to its length exactly when the hunks end inside it. */
  lemma HeadNumbersMatchSource(f: FileInfo, hs: seq<Hunk>)
    requires f.src != [] && Initial(hs).h == 1
    ensures var s := Initial(hs);
            var numbers := HeadNumbers(Marks(Listing(f, hs, s.b, s.h)));
            && Consecutive(numbers, 1)
            && (|numbers| == |f.src| <==> EndOf(hs, s.b, s.h).1 <= |f.src| + 1)
  {
    var s := Initial(hs);
    ListingNumbered(f, hs, s.b, s.h);
    NumbersAreConsecutive(Marks(Listing(f, hs, s.b, s.h)), s.b, s.h);
  }

  /** Numbering can start one later exactly when it gives out no number on that side. */
  lemma {:induction false} NoNumbersNoCount(marks: seq<Mark>, b: nat, h: nat)
    requires Numbered(marks, b, h)
    ensures Numbered(marks, b + 1, h) <==> BaseCount(marks) == 0
    ensures Numbered(marks, b, h + 1) <==> HeadCount(marks) == 0
  {
    if marks != [] {
      NoNumbersNoCount(marks[..|marks| - 1], b, h);
    }
  }

  /**
   For a unified diff that the walker can follow, lines are numbered from 1 in both files exactly
   when no hunk starts at line 0 or nothing follows that hunk: a start of 0 is off by one for
   every unchanged line behind it.
   */
  lemma NumbersStartAtOneExactlyWhen(f: FileInfo, hs: seq<Hunk>)
    requires Unified(hs, 1, 1, 0)
    requires var s := Initial(hs); Aligned(hs, s.b, s.h)
    ensures var s := Initial(hs);
            var e := EndOf(hs, s.b, s.h);
            Numbered(Marks(Listing(f, hs, s.b, s.h)), 1, 1) <==> !StartsAtZero(hs) || Tail(f, e.0, e.1) == 0
  {
    var s := Initial(hs);
    var m, e := Marks(Listing(f, hs, s.b, s.h)), EndOf(hs, s.b, s.h);
    ListingNumbered(f, hs, s.b, s.h);
    UnifiedDiffsAlign(hs);
    if StartsAtZero(hs) {
      assert EndOf(hs[1..], s.b + BaseLen(hs[0].lines), s.h + HeadLen(hs[0].lines)) == (s.b + BaseLen(hs[0].lines), s.h + HeadLen(hs[0].lines));
      NoNumbersNoCount(m, s.b, s.h);
    }
  }

  // ---------------------------------------------------------------------------------------------
  // What the walk does on any unified diff

  /** A hunk that starts at line 0 has lines on the other side only; the counter of its empty side stays 0. */
  lemma ZeroStart(hs: seq<Hunk>)
    requires Unified(hs, 1, 1, 0) && StartsAtZero(hs)
    ensures var s, lines := Initial(hs), hs[0].lines;
            && s.segs == hs && lines != [] && CoveredFrom(hs[0], s.b, s.h, lines)
            && ((s.b == 0 && BaseLen(lines) == 0 && s.h == 1) || (s.h == 0 && HeadLen(lines) == 0 && s.b == 1))
            && (|hs| > 1 ==> !hs[1].Contains(s.b + BaseLen(lines), s.h + HeadLen(lines)) && hs[1].lines != [])
  {
    hide Unified, BaseLen, HeadLen, CoveredFrom;
    var s, hunk := Initial(hs), hs[0];
    FirstOfUnified(hs, 1, 1, 0);
    LongEnough(hunk.lines);
    AgreedCountsCover(hunk, s.b, s.h, hunk.lines);
    if |hs| > 1 {
      FirstOfUnified(hs[1..], hunk.base.TrueFirst() + BaseLen(hunk.lines), hunk.head.TrueFirst() + HeadLen(hunk.lines), 1);
    }
  }

  lemma FirstOfUnified(hs: seq<Hunk>, b: nat, h: nat, separation: nat)
    requires hs != [] && Unified(hs, b, h, separation)
    ensures var hunk := hs[0];
            && hunk.lines != [] && hunk.base.Lines() == BaseLen(hunk.lines) && hunk.head.Lines() == HeadLen(hunk.lines)
            && hunk.base.TrueFirst() - b == hunk.head.TrueFirst() - h >= separation
            && Unified(hs[1..], hunk.base.TrueFirst() + BaseLen(hunk.lines), hunk.head.TrueFirst() + HeadLen(hunk.lines), 1)
  {
  }

  lemma {:induction false} LongEnough(lines: seq<string>)
    requires lines != []
    ensures BaseLen(lines) + HeadLen(lines) > 0
  {
  }

  /** Behind a hunk that starts at line 0, the next line is unchanged and has a number that is one too small. */
  lemma ZeroStartIsOffByOne(f: FileInfo, hs: seq<Hunk>, n: nat)
    requires Unified(hs, 1, 1, 0) && StartsAtZero(hs) && |hs| > 1
    requires CompletesIn(f, Initial(hs), n)
    ensures !Numbered(Marks(Visits(f, Initial(hs), n)), 1, 1)
  {
    hide *;
    var s, lines := Initial(hs), hs[0].lines;
    ZeroStart(hs);
    VisitsHunkFirst(f, s, n);
    var t := State(hs[1..], s.b + BaseLen(lines), s.h + HeadLen(lines));
    var m := n - |lines|;
    var v, rest := PlainVisitFirst(f, t, m);
    HunkNumbered(s.b, s.h, lines);
    NotFromOne(t.b, t.h, s, lines);
    OffByOne(HunkVisits(s.b, s.h, lines), v, rest);
  }

  /** The next unchanged line is not the one that numbering from 1 calls for. */
  lemma NotFromOne(b: nat, h: nat, s: State, lines: seq<string>)
    requires b == s.b + BaseLen(lines) && h == s.h + HeadLen(lines) && (s.b == 0 || s.h == 0)
    ensures MarkAt(Context, b, h) != MarkAt(Context, 1 + BaseLen(lines), 1 + HeadLen(lines))
  {
    hide BaseLen, HeadLen;
  }

  lemma PlainVisitFirst(f: FileInfo, s: State, n: nat) returns (v: Visit, rest: seq<Visit>)
    requires s.segs != [] && !s.segs[0].Contains(s.b, s.h) && CompletesIn(f, s, n)
    ensures Visits(f, s, n) == [v] + rest && VisitMark(v) == MarkAt(Context, s.b, s.h) && VisitMark(v).kind == Context
  {
    v, rest := Step(f, s).0, Visits(f, Step(f, s).1, n - 1);
  }

  lemma OffByOne(visits: seq<Visit>, v: Visit, rest: seq<Visit>)
    requires var m := Marks(visits); VisitMark(v) != MarkAt(VisitMark(v).kind, 1 + BaseCount(m), 1 + HeadCount(m))
    ensures !Numbered(Marks(visits + ([v] + rest)), 1, 1)
  {
    hide *;
    var m := Marks(visits);
    assert visits + ([v] + rest) == (visits + [v]) + rest;
    MarksAppend(visits + [v], rest);
    OneMoreMark(visits, v);
    NumberedAppend(m + [VisitMark(v)], Marks(rest), 1, 1);
    LastNumbered(m, VisitMark(v));
  }

  lemma OneMoreMark(visits: seq<Visit>, v: Visit)
    ensures Marks(visits + [v]) == Marks(visits) + [VisitMark(v)]
  {
  }

  lemma LastNumbered(marks: seq<Mark>, last: Mark)
    requires last != MarkAt(last.kind, 1 + BaseCount(marks), 1 + HeadCount(marks))
    ensures !Numbered(marks + [last], 1, 1)
  {
    assert (marks + [last])[..|marks|] == marks;
  }

  /**
   For every unified diff: the walk ends with the lines of both files numbered from 1 exactly when
   the source has all the lines before its hunks, and no hunk starts at line 0 or that hunk is the
   only one and nothing follows it.
   */
  lemma UnifiedWalkExactlyWhen(f: FileInfo, hs: seq<Hunk>)
    requires Unified(hs, 1, 1, 0)
    ensures var s := Initial(hs);
            var e := EndOf(hs, s.b, s.h);
            (exists n :: CompletesIn(f, s, n) && Numbered(Marks(Visits(f, s, n)), 1, 1))
            <==> Readable(f.src, hs, s.b, s.h) && (!StartsAtZero(hs) || (|hs| == 1 && Tail(f, e.0, e.1) == 0))
  {
    var s := Initial(hs);
    UnifiedDiffsAlign(hs);
    hide Unified, CompletesIn, Numbered, Marks, Visits, Listing, Readable, Covered, Aligned, EndOf, StartsAtZero;
    if Aligned(hs, s.b, s.h) {
      AlignedWalk(f, hs);
    } else {
      forall n | CompletesIn(f, s, n) ensures !Numbered(Marks(Visits(f, s, n)), 1, 1) {
        ZeroStartIsOffByOne(f, hs, n);
      }
    }
  }

  lemma AlignedWalk(f: FileInfo, hs: seq<Hunk>)
    requires Unified(hs, 1, 1, 0) && var s := Initial(hs); Aligned(hs, s.b, s.h) && Covered(hs, s.b, s.h)
    ensures var s := Initial(hs);
            var e := EndOf(hs, s.b, s.h);
            (exists n :: CompletesIn(f, s, n) && Numbered(Marks(Visits(f, s, n)), 1, 1))
            <==> Readable(f.src, hs, s.b, s.h) && (!StartsAtZero(hs) || Tail(f, e.0, e.1) == 0)
  {
    var s := Initial(hs);
    assert s.segs == hs;
    hide Unified, CompletesIn, Numbered, Marks, Visits, Listing, Readable, Covered, Aligned, EndOf, StartsAtZero;
    AlignedIsReady(hs, s.b, s.h);
    if Readable(f.src, hs, s.b, s.h) {
      NumbersStartAtOneExactlyWhen(f, hs);
      var n := Completes(f, s);
      VisitsAreListing(f, s, n);
      forall m | CompletesIn(f, s, m) ensures Visits(f, s, m) == Listing(f, hs, s.b, s.h) {
        VisitsAreListing(f, s, m);
      }
    } else {
      forall n ensures !CompletesIn(f, s, n) {
        Diverges(f, s, n);
      }
    }
  }

  const NO_SOURCE := FileInfo([], 0, 0)
  const NEW_LINE := Hunk(Side(0, Given(0)), Side(1, Given(1)), ["+x"])
  const REPLACED := Hunk(Side(5, Given(1)), Side(6, Given(1)), ["-o", "+n"])

  /** One unchanged line ahead of a hunk, without source. */
  lemma LeftOutStep(hs: seq<Hunk>, b: nat, h: nat, n: nat)
    requires hs != [] && !hs[0].Contains(b, h) && hs[0].lines != []
    ensures CompletesIn(NO_SOURCE, State(hs, b, h), n + 1) <==> CompletesIn(NO_SOURCE, State(hs, b + 1, h + 1), n)
    ensures Visits(NO_SOURCE, State(hs, b, h), n + 1)
            == [Visit(Some(b), Some(h), None, false)] + Visits(NO_SOURCE, State(hs, b + 1, h + 1), n)
  {
  }

  /** One line of a hunk. */
  lemma HunkLineStep(f: FileInfo, hunk: Hunk, rest: seq<Hunk>, b: nat, h: nat, n: nat)
    requires hunk.lines != [] && hunk.Contains(b, h)
    ensures var k := KindOf(hunk.lines[0]);
            var left := if |hunk.lines| == 1 then rest else [hunk.(lines := hunk.lines[1..])] + rest;
            var s, t := State([hunk] + rest, b, h), State(left, b + BaseStep(k), h + HeadStep(k));
            && (CompletesIn(f, s, n + 1) <==> CompletesIn(f, t, n))
            && Visits(f, s, n + 1) == [VisitAt(b, h, Some(hunk.lines[0]), true)] + Visits(f, t, n)
  {
    var s := State([hunk] + rest, b, h);
    assert s.segs[1..] == rest;
    StepShape(f, s);
  }

  /** The removed line 5 of the base file gets number 4. */
  lemma ZeroStartMisnumbers()
    ensures Unified([NEW_LINE, REPLACED], 1, 1, 0)
    ensures var s := Initial([NEW_LINE, REPLACED]);
            CompletesIn(NO_SOURCE, s, 7) && Visits(NO_SOURCE, s, 7)[5] == Visit(Some(4), None, Some("-o"), true)
  {
    ExampleIsUnified();
    hide CompletesIn, Visits;
    var hs, x := [NEW_LINE, REPLACED], VisitAt(0, 1, Some("+x"), true);
    assert hs == [NEW_LINE] + [REPLACED];
    HunkLineStep(NO_SOURCE, NEW_LINE, [REPLACED], 0, 1, 6);
    LeftOutSteps();
    ReplacedSteps();
    var rest := Visits(NO_SOURCE, State([REPLACED], 0, 2), 6);
    assert ([x] + rest)[5] == rest[4] == rest[4..][0];
  }

  lemma ExampleIsUnified()
    ensures Unified([NEW_LINE, REPLACED], 1, 1, 0)
  {
    assert [NEW_LINE, REPLACED][1..] == [REPLACED] && [REPLACED][1..] == [];
    assert ["-o", "+n"][1..] == ["+n"] && ["+n"][1..] == [] && ["+x"][1..] == [];
    assert BaseLen(["+n"]) == 0 && HeadLen(["+n"]) == 1 && BaseLen(["+x"]) == 0 && HeadLen(["+x"]) == 1;
    assert Unified([], 6, 7, 1) && Unified([REPLACED], 1, 2, 1);
  }

  lemma ReplacedSteps()
    ensures CompletesIn(NO_SOURCE, State([REPLACED], 4, 6), 2)
    ensures var visits := Visits(NO_SOURCE, State([REPLACED], 4, 6), 2);
            visits != [] && visits[0] == Visit(Some(4), None, Some("-o"), true)
  {
    var half := REPLACED.(lines := ["+n"]);
    assert ["-o", "+n"][1..] == ["+n"] && [REPLACED] == [REPLACED] + [] && [half] == [half] + [];
    assert CompletesIn(NO_SOURCE, State([], 5, 7), 0);
    hide CompletesIn, Visits;
    HunkLineStep(NO_SOURCE, REPLACED, [], 4, 6, 1);
    HunkLineStep(NO_SOURCE, half, [], 5, 6, 0);
  }

  lemma LeftOutSteps()
    ensures CompletesIn(NO_SOURCE, State([REPLACED], 0, 2), 6) <==> CompletesIn(NO_SOURCE, State([REPLACED], 4, 6), 2)
    ensures |Visits(NO_SOURCE, State([REPLACED], 0, 2), 6)| == 4 + |Visits(NO_SOURCE, State([REPLACED], 4, 6), 2)|
    ensures Visits(NO_SOURCE, State([REPLACED], 0, 2), 6)[4..] == Visits(NO_SOURCE, State([REPLACED], 4, 6), 2)
  {
    hide CompletesIn, Visits;
    LeftOutStep([REPLACED], 0, 2, 5);
    LeftOutStep([REPLACED], 1, 3, 4);
    LeftOutStep([REPLACED], 2, 4, 3);
    LeftOutStep([REPLACED], 3, 5, 2);
  }

  const TOO_LONG := Hunk(Side(1, Given(1)), Side(1, Given(1)), [" a", " b"])

  /** A hunk with a line more than its header announces keeps the walk going for ever. */
  lemma LongHunkNeverEnds(f: FileInfo, n: nat)
    ensures Aligned([TOO_LONG], 1, 1) && Initial([TOO_LONG]) == State([TOO_LONG], 1, 1)
    ensures !CompletesIn(f, State([TOO_LONG], 1, 1), n)
  {
    var left := TOO_LONG.(lines := [" b"]);
    assert [" a", " b"][1..] == [" b"] && [TOO_LONG] == [TOO_LONG] + [] && [left] == [left] + [];
    assert [TOO_LONG][1..] == [];
    if n > 0 {
      HunkLineStep(f, TOO_LONG, [], 1, 1, n - 1);
      Stuck(f, State([left], 2, 2), n - 1);
    }
  }

  // ---------------------------------------------------------------------------------------------
  // What is visited

  function DiffValues(visits: seq<Visit>): seq<Option<string>> {
    if visits == [] then []
    else (if visits[0].isDiff then [visits[0].value] else []) + DiffValues(visits[1..])
  }

  function HunkLines(segs: seq<Hunk>): seq<Option<string>> {
    if segs == [] then []
    else Shown(segs[0].lines) + HunkLines(segs[1..])
  }

  function Shown(lines: seq<string>): seq<Option<string>> {
    if lines == [] then [] else [Some(lines[0])] + Shown(lines[1..])
  }

  /**
   A visit outside the hunks: the counters are both given and the value is the source line with the
   head number, if there is one; head number 0 shows the last line.
   */
  predicate Plain(f: FileInfo, v: Visit) {
    && !v.isDiff && v.base.Some? && v.head.Some?
    && var m, size := v.head.value, |f.src|;
    && (1 <= m <= size ==> v.value == Some(f.src[m - 1]))
    && (m == 0 && size > 0 ==> v.value == Some(f.src[size - 1]))
    && (m > size || size == 0 ==> v.value == None)
  }

  predicate AllPlain(f: FileInfo, visits: seq<Visit>) {
    visits == [] || ((visits[0].isDiff || Plain(f, visits[0])) && AllPlain(f, visits[1..]))
  }

  lemma {:induction false} DiffValuesAppend(s: seq<Visit>, t: seq<Visit>)
    ensures DiffValues(s + t) == DiffValues(s) + DiffValues(t)
    decreases |s|
  {
    hide *;
    if s == [] {
      NoDiffValues();
      assert s + t == t && [] + DiffValues(t) == DiffValues(t);
    } else {
      var v, rest := s[0], s[1..];
      assert s == [v] + rest && s + t == [v] + (rest + t);
      DiffValuesAppend(rest, t);
      FirstDiffValue(v, rest);
      FirstDiffValue(v, rest + t);
      var first := if v.isDiff then [v.value] else [];
      assert first + (DiffValues(rest) + DiffValues(t)) == (first + DiffValues(rest)) + DiffValues(t);
    }
  }

  lemma NoDiffValues()
    ensures DiffValues([]) == []
  {
  }

  lemma FirstDiffValue(v: Visit, rest: seq<Visit>)
    ensures DiffValues([v] + rest) == (if v.isDiff then [v.value] else []) + DiffValues(rest)
  {
    assert ([v] + rest)[1..] == rest;
  }

  lemma {:induction false} AllPlainAppend(f: FileInfo, s: seq<Visit>, t: seq<Visit>)
    ensures AllPlain(f, s + t) <==> AllPlain(f, s) && AllPlain(f, t)
  {
    if s == [] {
      assert s + t == t;
    } else {
      hide Plain;
      assert (s + t)[1..] == s[1..] + t;
      AllPlainAppend(f, s[1..], t);
    }
  }

  lemma {:induction false} GapIsPlain(f: FileInfo, b: nat, h: nat, n: nat)
    ensures DiffValues(Gap(f, b, h, n)) == [] && AllPlain(f, Gap(f, b, h, n))
    decreases n
  {
    if n > 0 {
      GapIsPlain(f, b + 1, h + 1, n - 1);
    }
  }

  lemma {:induction false} HunkVisitsItsLines(f: FileInfo, b: nat, h: nat, lines: seq<string>)
    ensures DiffValues(HunkVisits(b, h, lines)) == Shown(lines)
    ensures AllPlain(f, HunkVisits(b, h, lines))
    decreases lines
  {
    if lines != [] {
      var k := KindOf(lines[0]);
      var rest := HunkVisits(b + BaseStep(k), h + HeadStep(k), lines[1..]);
      HunkVisitsItsLines(f, b + BaseStep(k), h + HeadStep(k), lines[1..]);
      assert HunkVisits(b, h, lines)[1..] == rest;
    }
  }

  /** Every hunk line is visited exactly once, in order, as part of the diff; all else is plain. */
  lemma {:induction false} VisitsHunkLinesInOrder(f: FileInfo, segs: seq<Hunk>, b: nat, h: nat)
    ensures DiffValues(Listing(f, segs, b, h)) == HunkLines(segs)
    ensures AllPlain(f, Listing(f, segs, b, h))
    decreases |segs|
  {
    hide DiffValues, AllPlain, Gap, HunkVisits;
    if segs == [] {
      GapIsPlain(f, b, h, Tail(f, b, h));
    } else {
      var d := Ahead(segs[0], b);
      VisitsHunkLinesInOrder(f, segs[1..], b + d + BaseLen(segs[0].lines), h + d + HeadLen(segs[0].lines));
      VisitsFirstHunk(f, segs[0], segs[1..], b, h, d);
    }
  }

  lemma VisitsFirstHunk(f: FileInfo, hunk: Hunk, tail: seq<Hunk>, b: nat, h: nat, d: nat)
    requires var rest := Listing(f, tail, b + d + BaseLen(hunk.lines), h + d + HeadLen(hunk.lines));
             DiffValues(rest) == HunkLines(tail) && AllPlain(f, rest)
    ensures var whole := Gap(f, b, h, d) + HunkVisits(b + d, h + d, hunk.lines)
                         + Listing(f, tail, b + d + BaseLen(hunk.lines), h + d + HeadLen(hunk.lines));
            DiffValues(whole) == Shown(hunk.lines) + HunkLines(tail) && AllPlain(f, whole)
  {
    hide *;
    var rest := Listing(f, tail, b + d + BaseLen(hunk.lines), h + d + HeadLen(hunk.lines));
    var gap, visits := Gap(f, b, h, d), HunkVisits(b + d, h + d, hunk.lines);
    GapIsPlain(f, b, h, d);
    HunkVisitsItsLines(f, b + d, h + d, hunk.lines);
    Join(f, gap, visits, rest, Shown(hunk.lines), HunkLines(tail));
  }

  lemma Join(f: FileInfo, gap: seq<Visit>, visits: seq<Visit>, rest: seq<Visit>,
             shown: seq<Option<string>>, others: seq<Option<string>>)
    requires DiffValues(gap) == [] && DiffValues(visits) == shown && DiffValues(rest) == others
    requires AllPlain(f, gap) && AllPlain(f, visits) && AllPlain(f, rest)
    ensures DiffValues(gap + visits + rest) == shown + others && AllPlain(f, gap + visits + rest)
  {
    DiffValuesOfPieces(f, gap, visits, rest);
    assert [] + shown == shown;
  }

  lemma DiffValuesOfPieces(f: FileInfo, x: seq<Visit>, y: seq<Visit>, z: seq<Visit>)
    ensures DiffValues(x + y + z) == DiffValues(x) + DiffValues(y) + DiffValues(z)
    ensures AllPlain(f, x + y + z) <==> AllPlain(f, x) && AllPlain(f, y) && AllPlain(f, z)
  {
    var xy := x + y;
    hide *;
    DiffValuesAppend(x, y);
    DiffValuesAppend(xy, z);
    AllPlainAppend(f, x, y);
    AllPlainAppend(f, xy, z);
  }
}
