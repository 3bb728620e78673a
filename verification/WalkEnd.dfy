/**
 When the walk ends, for any list of hunks and any state: overlapping hunks, hunks out of order,
 counts that disagree with the lines, hunks without lines, with source or without.
 */
module WalkEnd {
  import opened Basics
  import opened UnifiedDiff
  import opened Traversal
  import opened LaggingWalk

  /** How many lines ahead a counter meets a side of a hunk, if it ever does. */
  function SideMet(side: Side, counter: nat): Option<nat> {
    if side.Contains(counter) then Some(0)
    else if counter < side.start && side.Lines() > 0 then Some(side.start - counter)
    else None
  }

  /** How many lines ahead the first of the two counters meets its side. */
  function Met(hunk: Hunk, b: nat, h: nat): Option<nat> {
    var x, y := SideMet(hunk.base, b), SideMet(hunk.head, h);
    if x.None? || (y.Some? && y.value < x.value) then y else x
  }

  lemma MetIsFirst(hunk: Hunk, b: nat, h: nat, e: nat)
    ensures Met(hunk, b, h).None? ==> !hunk.Contains(b + e, h + e)
    ensures Met(hunk, b, h).Some? && e < Met(hunk, b, h).value ==> !hunk.Contains(b + e, h + e)
    ensures Met(hunk, b, h) == Some(e) ==> hunk.Contains(b + e, h + e)
  {
  }

  lemma MetOneFurther(hunk: Hunk, b: nat, h: nat)
    requires !hunk.Contains(b, h)
    ensures var met := Met(hunk, b, h);
            && (met.Some? ==> met.value > 0)
            && Met(hunk, b + 1, h + 1) == if met.Some? then Some(met.value - 1) else None
  {
  }

  function Weight(segs: seq<Hunk>): nat {
    LinesLeft(segs) + |segs|
  }

  /** The hunks after the next line of the first one is taken. */
  function LineTaken(segs: seq<Hunk>): (rest: seq<Hunk>)
    requires segs != [] && segs[0].lines != []
    ensures Weight(rest) < Weight(segs)
  {
    var hunk := segs[0].(lines := segs[0].lines[1..]);
    assert ([hunk] + segs[1..])[1..] == segs[1..];
    DropExhausted([hunk] + segs[1..])
  }

  /**
   Every hunk line is met in turn by one of the counters, no hunk without lines is met, and the
   source, if there is one, has all lines in between.
   */
  predicate Passable(src: seq<string>, segs: seq<Hunk>, b: nat, h: nat)
    decreases Weight(segs)
  {
    segs == [] ||
    var hunk := segs[0];
    if hunk.lines == [] then
      !hunk.Contains(b, h) && (src == [] || h <= |src|) && Passable(src, segs[1..], b + 1, h + 1)
    else
      var met, k := Met(hunk, b, h), KindOf(hunk.lines[0]);
      && met.Some?
      && (src == [] || met.value == 0 || h + met.value - 1 <= |src|)
      && Passable(src, LineTaken(segs), b + met.value + BaseStep(k), h + met.value + HeadStep(k))
  }

  lemma PlainStepOf(f: FileInfo, s: State)
    requires s.segs != [] && !s.segs[0].Contains(s.b, s.h)
    ensures CanPop(f, s) <==> f.src == [] || s.h <= |f.src|
    ensures CanPop(f, s) ==> Step(f, s).1 == State(DropExhausted(s.segs), s.b + 1, s.h + 1)
  {
  }

  lemma LineStepOf(f: FileInfo, s: State)
    requires s.segs != [] && s.segs[0].Contains(s.b, s.h) && s.segs[0].lines != []
    ensures CanPop(f, s)
    ensures var k := KindOf(s.segs[0].lines[0]);
            Step(f, s).1 == State(LineTaken(s.segs), s.b + BaseStep(k), s.h + HeadStep(k))
  {
  }

  /** Before a hunk line, one line further. */
  lemma PassableStep(src: seq<string>, segs: seq<Hunk>, b: nat, h: nat)
    requires segs != [] && segs[0].lines != [] && !segs[0].Contains(b, h) && Met(segs[0], b, h).Some?
    ensures Passable(src, segs, b, h) <==> (src == [] || h <= |src|) && Passable(src, segs, b + 1, h + 1)
  {
    MetOneFurther(segs[0], b, h);
    hide Met, LineTaken;
    var d, k := Met(segs[0], b, h).value, KindOf(segs[0].lines[0]);
    assert b + d + BaseStep(k) == (b + 1) + (d - 1) + BaseStep(k) && h + d + HeadStep(k) == (h + 1) + (d - 1) + HeadStep(k);
  }

  lemma {:induction false} NeverMet(f: FileInfo, s: State, n: nat)
    requires s.segs != [] && s.segs[0].lines != [] && Met(s.segs[0], s.b, s.h).None?
    ensures !CompletesIn(f, s, n)
    decreases n
  {
    MetIsFirst(s.segs[0], s.b, s.h, 0);
    MetOneFurther(s.segs[0], s.b, s.h);
    PlainStepOf(f, s);
    hide Met, Step, CanPop;
    if n > 0 && CanPop(f, s) {
      NeverMet(f, Step(f, s).1, n - 1);
    }
  }

  /** A walk ends exactly when it can pass all its hunks. */
  lemma {:induction false} EndsExactlyWhen(f: FileInfo, s: State)
    ensures Ends(f, s) <==> Passable(f.src, s.segs, s.b, s.h)
    decreases Weight(s.segs), if s.segs != [] && Met(s.segs[0], s.b, s.h).Some? then Met(s.segs[0], s.b, s.h).value else 0
  {
    hide Ends, CanPop, Step, Met, Passable;
    if s.segs == [] {
      NoHunks(f, s);
    } else {
      EndsStep(f, s);
      if s.segs[0].lines == [] {
        WithoutLines(f, s);
        if CanPop(f, s) {
          EndsExactlyWhen(f, Step(f, s).1);
        }
      } else if s.segs[0].Contains(s.b, s.h) {
        AtLine(f, s);
        EndsExactlyWhen(f, Step(f, s).1);
      } else if Met(s.segs[0], s.b, s.h).None? {
        NotPassable(f, s);
      } else {
        PlainStepOf(f, s);
        PassableStep(f.src, s.segs, s.b, s.h);
        MetOneFurther(s.segs[0], s.b, s.h);
        if CanPop(f, s) {
          EndsExactlyWhen(f, Step(f, s).1);
        }
      }
    }
  }

  lemma NoHunks(f: FileInfo, s: State)
    requires s.segs == []
    ensures Ends(f, s) && Passable(f.src, s.segs, s.b, s.h)
  {
    var n := Completes(f, s);
  }

  lemma WithoutLines(f: FileInfo, s: State)
    requires s.segs != [] && s.segs[0].lines == []
    ensures CanPop(f, s) ==>
              && Weight(Step(f, s).1.segs) < Weight(s.segs)
              && var t := Step(f, s).1; Passable(f.src, s.segs, s.b, s.h) == Passable(f.src, t.segs, t.b, t.h)
    ensures !CanPop(f, s) ==> !Passable(f.src, s.segs, s.b, s.h)
  {
    if !s.segs[0].Contains(s.b, s.h) {
      PlainStepOf(f, s);
    }
  }

  lemma AtLine(f: FileInfo, s: State)
    requires s.segs != [] && s.segs[0].Contains(s.b, s.h) && s.segs[0].lines != []
    ensures CanPop(f, s) && Weight(Step(f, s).1.segs) < Weight(s.segs)
    ensures var t := Step(f, s).1; Passable(f.src, s.segs, s.b, s.h) == Passable(f.src, t.segs, t.b, t.h)
  {
    hide *;
    LineStepOf(f, s);
    PassableLine(f.src, s.segs, s.b, s.h);
  }

  lemma PassableLine(src: seq<string>, segs: seq<Hunk>, b: nat, h: nat)
    requires segs != [] && segs[0].lines != [] && segs[0].Contains(b, h)
    ensures var k := KindOf(segs[0].lines[0]);
            Passable(src, segs, b, h) == Passable(src, LineTaken(segs), b + BaseStep(k), h + HeadStep(k))
  {
    assert Met(segs[0], b, h) == Some(0);
    hide Met, LineTaken, Weight, KindOf, BaseStep, HeadStep;
  }

  lemma NotPassable(f: FileInfo, s: State)
    requires s.segs != [] && s.segs[0].lines != [] && Met(s.segs[0], s.b, s.h).None?
    ensures !Ends(f, s) && !Passable(f.src, s.segs, s.b, s.h)
  {
    if n: nat :| CompletesIn(f, s, n) {
      NeverMet(f, s, n);
    }
  }
}
