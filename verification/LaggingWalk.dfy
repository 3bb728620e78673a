/**
 Behind a hunk that starts at line 0, one counter of the walk lags by one line. Without source, the
 walk of a unified diff ends all the same.
 */
module LaggingWalk {
  import opened Basics
  import opened UnifiedDiff
  import opened Traversal
  import opened Numbering

  // ---------------------------------------------------------------------------------------------
  // Both sides alike

  function SideOf(hunk: Hunk, base: bool): Side {
    if base then hunk.base else hunk.head
  }

  function SideLen(lines: seq<string>, base: bool): nat {
    if base then BaseLen(lines) else HeadLen(lines)
  }

  function SideStep(k: Kind, base: bool): nat {
    if base then BaseStep(k) else HeadStep(k)
  }

  function Counter(s: State, base: bool): nat {
    if base then s.b else s.h
  }

  /** The line behind the side of a hunk. */
  function SideEnd(hunk: Hunk, base: bool): nat {
    SideOf(hunk, base).First() + SideOf(hunk, base).Lines()
  }

  lemma SideLenStep(lines: seq<string>, base: bool)
    requires lines != []
    ensures SideLen(lines, base) == SideStep(KindOf(lines[0]), base) + SideLen(lines[1..], base)
    ensures SideStep(KindOf(lines[0]), base) + SideStep(KindOf(lines[0]), !base) >= 1
    ensures SideStep(KindOf(lines[0]), base) <= 1
  {
  }

  /**
   Where the walk stands at its first hunk, some of whose lines may be gone: `ahead` lines before
   the place where the counter of side `lag` is one behind what it should be.
   */
  predicate Lagging(s: State, lag: bool, ahead: nat) {
    && s.segs != [] && s.segs[0].lines != []
    && var hunk := s.segs[0];
    var x, y := SideLen(hunk.lines, lag), SideLen(hunk.lines, !lag);
    && SideOf(hunk, lag).start > 0 && SideOf(hunk, !lag).start > 0
    && x <= SideOf(hunk, lag).Lines() && y <= SideOf(hunk, !lag).Lines()
    && (ahead > 0 ==> x == SideOf(hunk, lag).Lines() && y == SideOf(hunk, !lag).Lines())
    && Counter(s, lag) + x + 1 + ahead == SideEnd(hunk, lag)
    && Counter(s, !lag) + y + ahead == SideEnd(hunk, !lag)
  }

  /** The other counter ran past its side, and the lagging one has caught up. */
  predicate CaughtUp(s: State, lag: bool) {
    && s.segs != [] && s.segs[0].lines != []
    && var hunk := s.segs[0];
    var x, y := SideLen(hunk.lines, lag), SideLen(hunk.lines, !lag);
    && SideOf(hunk, lag).start > 0 && SideOf(hunk, !lag).start > 0
    && x <= SideOf(hunk, lag).Lines() && y == 0
    && Counter(s, lag) + x == SideEnd(hunk, lag)
    && Counter(s, !lag) == SideEnd(hunk, !lag) + 1
  }

  /** What follows the first hunk is a unified diff from its end on. */
  ghost predicate RestUnified(segs: seq<Hunk>) {
    segs != [] && Unified(segs[1..], SideEnd(segs[0], true), SideEnd(segs[0], false), 1)
    && SideEnd(segs[0], true) >= 1 && SideEnd(segs[0], false) >= 1
  }

  // ---------------------------------------------------------------------------------------------
  // Steps

  lemma PlainStep(f: FileInfo, s: State)
    requires f.src == [] && s.segs != [] && s.segs[0].lines != [] && !s.segs[0].Contains(s.b, s.h)
    ensures CanPop(f, s) && Step(f, s).1 == State(s.segs, s.b + 1, s.h + 1)
  {
  }

  /** Ahead of the place, or where the other side is used up but the lagging one not begun, a line is left out. */
  lemma LagGap(f: FileInfo, s: State, lag: bool, ahead: nat)
    requires f.src == [] && Lagging(s, lag, ahead) && !s.segs[0].Contains(s.b, s.h)
    ensures CanPop(f, s) && Step(f, s).1 == State(s.segs, s.b + 1, s.h + 1)
    ensures ahead > 0 ==> Lagging(Step(f, s).1, lag, ahead - 1)
    ensures ahead == 0 ==> CaughtUp(Step(f, s).1, lag)
  {
    PlainStep(f, s);
    hide BaseLen, HeadLen;
  }

  lemma AheadIsOutside(s: State, lag: bool, ahead: nat)
    requires Lagging(s, lag, ahead) && ahead > 0
    ensures !s.segs[0].Contains(s.b, s.h)
  {
    hide BaseLen, HeadLen;
  }

  lemma CaughtUpIsInside(s: State, lag: bool)
    requires CaughtUp(s, lag)
    ensures s.segs[0].Contains(s.b, s.h)
  {
    SideLenStep(s.segs[0].lines, lag);
    hide BaseLen, HeadLen;
  }

  /** A hunk line keeps the walk where it is with respect to the hunk, or ends the hunk. */
  lemma LagLine(f: FileInfo, s: State, lag: bool)
    requires (Lagging(s, lag, 0) || CaughtUp(s, lag)) && s.segs[0].Contains(s.b, s.h)
    ensures CanPop(f, s)
    ensures var t := Step(f, s).1;
            && LinesLeft(t.segs) < LinesLeft(s.segs)
            && if |s.segs[0].lines| == 1 then
                 && t.segs == s.segs[1..]
                 && ((Counter(t, lag) + 1 == SideEnd(s.segs[0], lag) && Counter(t, !lag) == SideEnd(s.segs[0], !lag))
                     || (Counter(t, lag) == SideEnd(s.segs[0], lag) && Counter(t, !lag) == SideEnd(s.segs[0], !lag) + 1))
               else
                 && t.segs != [] && t.segs[1..] == s.segs[1..]
                 && t.segs[0] == s.segs[0].(lines := s.segs[0].lines[1..])
                 && (Lagging(s, lag, 0) ==> Lagging(t, lag, 0)) && (CaughtUp(s, lag) ==> CaughtUp(t, lag))
  {
    var lines := s.segs[0].lines;
    StepShape(f, s);
    SideLenStep(lines, lag);
    SideLenStep(lines, !lag);
    NoLines(lag);
    hide BaseLen, HeadLen;
    if |lines| == 1 {
      assert lines[1..] == [];
    } else {
      assert ([s.segs[0].(lines := lines[1..])] + s.segs[1..])[1..] == s.segs[1..];
    }
  }

  lemma NoLines(base: bool)
    ensures SideLen([], base) == SideLen([], !base) == 0
  {
  }

  /** At the end of a hunk, the walk lags at the next one. */
  lemma NextLags(segs: seq<Hunk>, s: State, lag: bool) returns (ahead: nat)
    requires RestUnified(segs) && s.segs == segs[1..] && s.segs != []
    requires (Counter(s, lag) + 1 == SideEnd(segs[0], lag) && Counter(s, !lag) == SideEnd(segs[0], !lag))
             || (Counter(s, lag) == SideEnd(segs[0], lag) && Counter(s, !lag) == SideEnd(segs[0], !lag) + 1)
    ensures Lagging(s, lag, ahead) && RestUnified(s.segs)
  {
    var hunk, b, h := s.segs[0], SideEnd(segs[0], true), SideEnd(segs[0], false);
    FirstOfRest(s.segs, b, h);
    hide Unified, BaseLen, HeadLen;
    ahead := SideOf(hunk, lag).First() - 1 - Counter(s, lag);
  }

  lemma FirstOfRest(segs: seq<Hunk>, b: nat, h: nat)
    requires segs != [] && Unified(segs, b, h, 1) && b >= 1 && h >= 1
    ensures var hunk := segs[0];
            && hunk.lines != [] && hunk.base.start > 0 && hunk.head.start > 0
            && SideLen(hunk.lines, true) == hunk.base.Lines() && SideLen(hunk.lines, false) == hunk.head.Lines()
            && hunk.base.First() - b == hunk.head.First() - h >= 1
            && RestUnified(segs)
  {
    hide BaseLen, HeadLen;
  }

  lemma {:induction false} LagEnds(f: FileInfo, s: State, lag: bool, ahead: nat) returns (n: nat)
    requires f.src == [] && RestUnified(s.segs)
    requires Lagging(s, lag, ahead) || (CaughtUp(s, lag) && ahead == 0)
    ensures CompletesIn(f, s, n)
    decreases LinesLeft(s.segs), 1, ahead + if CaughtUp(s, lag) then 0 else 1
  {
    LagExcludes(s, lag, ahead);
    hide Lagging, CaughtUp, RestUnified, SideEnd, SideOf, BaseLen, HeadLen, LinesLeft;
    var m: nat;
    if CaughtUp(s, lag) {
      CaughtUpIsInside(s, lag);
      m := AfterLine(f, s, lag);
    } else if s.segs[0].Contains(s.b, s.h) {
      m := AfterLine(f, s, lag);
    } else {
      LagGap(f, s, lag, ahead);
      LagExcludes(Step(f, s).1, lag, if ahead > 0 then ahead - 1 else 0);
      m := LagEnds(f, Step(f, s).1, lag, if ahead > 0 then ahead - 1 else 0);
    }
    n := m + 1;
  }

  lemma LagExcludes(s: State, lag: bool, ahead: nat)
    ensures Lagging(s, lag, ahead) ==> !CaughtUp(s, lag)
    ensures Lagging(s, lag, ahead) && s.segs[0].Contains(s.b, s.h) ==> ahead == 0
    ensures Lagging(s, lag, ahead) || CaughtUp(s, lag) ==> s.segs != [] && s.segs[0].lines != []
  {
    hide BaseLen, HeadLen;
    if Lagging(s, lag, ahead) && ahead > 0 {
      AheadIsOutside(s, lag, ahead);
    }
  }

  lemma {:induction false} AfterLine(f: FileInfo, s: State, lag: bool) returns (m: nat)
    requires f.src == [] && RestUnified(s.segs)
    requires (Lagging(s, lag, 0) || CaughtUp(s, lag)) && s.segs[0].lines != [] && s.segs[0].Contains(s.b, s.h)
    ensures CanPop(f, s) && CompletesIn(f, Step(f, s).1, m)
    decreases LinesLeft(s.segs), 0, 0
  {
    hide Lagging, CaughtUp, RestUnified, SideEnd, SideOf, BaseLen, HeadLen, LinesLeft, CompletesIn;
    LagLine(f, s, lag);
    var t := Step(f, s).1;
    if |s.segs[0].lines| > 1 {
      SameRest(s.segs, t.segs);
      m := LagEnds(f, t, lag, 0);
    } else if t.segs == [] {
      m := Completes(f, t);
    } else {
      var ahead := NextLags(s.segs, t, lag);
      m := LagEnds(f, t, lag, ahead);
    }
  }

  lemma SameRest(segs: seq<Hunk>, other: seq<Hunk>)
    requires RestUnified(segs) && other != [] && other[1..] == segs[1..]
    requires other[0].base == segs[0].base && other[0].head == segs[0].head
    ensures RestUnified(other)
  {
    hide Unified;
  }

  // ---------------------------------------------------------------------------------------------
  // The walk as a whole

  /** A walk that ends from behind a covered hunk ends from the hunk. */
  lemma {:induction false} EndsFromHunk(f: FileInfo, s: State, m: nat)
    requires s.segs != [] && s.segs[0].lines != [] && CoveredFrom(s.segs[0], s.b, s.h, s.segs[0].lines)
    requires var lines := s.segs[0].lines; CompletesIn(f, State(s.segs[1..], s.b + BaseLen(lines), s.h + HeadLen(lines)), m)
    ensures CompletesIn(f, s, m + |s.segs[0].lines|)
    decreases |s.segs[0].lines|
  {
    FirstHunkStep(f, s);
    var t, lines := Step(f, s).1, s.segs[0].lines;
    HunkStep(s.segs[0], s.b, s.h);
    hide CoveredFrom, BaseLen, HeadLen, Step, CanPop, CompletesIn, HunkVisits, BaseStep, HeadStep;
    if |lines| > 1 {
      EndsFromHunk(f, t, m);
    } else {
      assert lines[1..] == [];
    }
    OneStepMore(f, s, m + |lines| - 1);
  }

  lemma OneStepMore(f: FileInfo, s: State, n: nat)
    requires CanPop(f, s) && CompletesIn(f, Step(f, s).1, n)
    ensures CompletesIn(f, s, n + 1)
  {
  }

  /** Without source, the walk of every unified diff ends. */
  lemma UnifiedWalkEnds(f: FileInfo, hs: seq<Hunk>) returns (n: nat)
    requires Unified(hs, 1, 1, 0) && f.src == []
    ensures CompletesIn(f, Initial(hs), n)
  {
    var s := Initial(hs);
    UnifiedDiffsAlign(hs);
    hide Unified, Covered, CompletesIn, Aligned, StartsAtZero;
    assert s.segs == hs;
    if Aligned(hs, s.b, s.h) {
      AlignedIsReady(hs, s.b, s.h);
      NoSourceIsReadable(hs, s.b, s.h);
      n := Completes(f, s);
    } else {
      assert StartsAtZero(hs) && |hs| > 1;
      n := BehindZeroStartEnds(f, hs);
    }
  }

  lemma BehindZeroStartEnds(f: FileInfo, hs: seq<Hunk>) returns (n: nat)
    requires Unified(hs, 1, 1, 0) && StartsAtZero(hs) && |hs| > 1 && f.src == []
    ensures CompletesIn(f, Initial(hs), n)
  {
    hide *;
    var s := Initial(hs);
    var lag, t, ahead := BehindZeroStart(hs);
    var m := LagEnds(f, t, lag, ahead);
    ZeroStart(hs);
    EndsFromHunk(f, s, m);
    n := m + |hs[0].lines|;
  }

  lemma BehindZeroStart(hs: seq<Hunk>) returns (lag: bool, t: State, ahead: nat)
    requires Unified(hs, 1, 1, 0) && StartsAtZero(hs) && |hs| > 1
    ensures var s, lines := Initial(hs), hs[0].lines;
            lines != [] && t == State(hs[1..], s.b + BaseLen(lines), s.h + HeadLen(lines))
    ensures Lagging(t, lag, ahead) && RestUnified(t.segs)
  {
    var s, lines := Initial(hs), hs[0].lines;
    ZeroStart(hs);
    lag, t := s.b == 0, State(hs[1..], s.b + BaseLen(lines), s.h + HeadLen(lines));
    var b, h := hs[0].base.TrueFirst() + BaseLen(lines), hs[0].head.TrueFirst() + HeadLen(lines);
    FirstOfRest(t.segs, b, h);
    hide Unified, BaseLen, HeadLen;
    ahead := SideOf(t.segs[0], lag).First() - 1 - Counter(t, lag);
  }

  // ---------------------------------------------------------------------------------------------
  // With source

  /** The source has every line that is visited outside the hunks. */
  predicate WithinSource(src: seq<string>, visits: seq<Visit>) {
    forall i :: 0 <= i < |visits| && !visits[i].isDiff ==> visits[i].head.Some? && visits[i].head.value <= |src|
  }

  ghost predicate Ends(f: FileInfo, s: State) {
    exists n :: CompletesIn(f, s, n)
  }

  lemma EndsStep(f: FileInfo, s: State)
    requires !Finished(f, s)
    ensures Ends(f, s) <==> CanPop(f, s) && Ends(f, Step(f, s).1)
  {
    if n: nat :| CompletesIn(f, s, n) {
      var m: nat := n - 1;
      assert CompletesIn(f, Step(f, s).1, m);
    }
    if CanPop(f, s) && Ends(f, Step(f, s).1) {
      var n: nat :| CompletesIn(f, Step(f, s).1, n);
      OneStepMore(f, s, n);
    }
  }

  /** As long as there are hunks, a walk with source makes the same steps as one without, if it can. */
  lemma SameStep(f: FileInfo, s: State)
    requires f.src != [] && s.segs != [] && CanPop(NO_SOURCE, s)
    ensures CanPop(f, s) <==> TraversingDiff(s) || s.h <= |f.src|
    ensures CanPop(f, s) ==> Step(f, s).1 == Step(NO_SOURCE, s).1
    ensures var v := Step(NO_SOURCE, s).0;
            v.isDiff == TraversingDiff(s) && (!v.isDiff ==> v.head == Some(s.h))
  {
  }

  lemma WithinSourceStep(src: seq<string>, v: Visit, rest: seq<Visit>)
    ensures WithinSource(src, [v] + rest)
            <==> (!v.isDiff ==> v.head.Some? && v.head.value <= |src|) && WithinSource(src, rest)
  {
    assert ([v] + rest)[0] == v && forall i :: 0 <= i < |rest| ==> ([v] + rest)[i + 1] == rest[i];
    if WithinSource(src, [v] + rest) {
      forall i | 0 <= i < |rest| && !rest[i].isDiff ensures rest[i].head.Some? && rest[i].head.value <= |src| {
        assert ([v] + rest)[i + 1] == rest[i];
      }
    }
  }

  /**
   For whatever hunks the walk without source ends: with source it ends exactly when the source has
   every line that is visited between the hunks.
   */
  lemma {:induction false} EndsWithSourceExactlyWhen(f: FileInfo, s: State, n: nat)
    requires f.src != [] && CompletesIn(NO_SOURCE, s, n)
    ensures Ends(f, s) <==> WithinSource(f.src, Visits(NO_SOURCE, s, n))
    decreases n
  {
    if s.segs == [] {
      var m := Completes(f, s);
      assert Visits(NO_SOURCE, s, n) == [];
    } else {
      var t := Step(NO_SOURCE, s).1;
      assert Visits(NO_SOURCE, s, n) == [Step(NO_SOURCE, s).0] + Visits(NO_SOURCE, t, n - 1);
      assert CompletesIn(NO_SOURCE, t, n - 1) && !Finished(f, s);
      SameStep(f, s);
      EndsStep(f, s);
      WithinSourceStep(f.src, Step(NO_SOURCE, s).0, Visits(NO_SOURCE, t, n - 1));
      hide Ends, WithinSource, Visits, CompletesIn, Step;
      EndsWithSourceExactlyWhen(f, t, n - 1);
    }
  }

  /** In particular for every unified diff, also behind a hunk that starts at line 0. */
  lemma UnifiedWalkEndsExactlyWhen(f: FileInfo, hs: seq<Hunk>) returns (n: nat)
    requires Unified(hs, 1, 1, 0) && f.src != []
    ensures CompletesIn(NO_SOURCE, Initial(hs), n)
    ensures Ends(f, Initial(hs)) <==> WithinSource(f.src, Visits(NO_SOURCE, Initial(hs), n))
  {
    n := UnifiedWalkEnds(NO_SOURCE, hs);
    hide *;
    EndsWithSourceExactlyWhen(f, Initial(hs), n);
  }
}
