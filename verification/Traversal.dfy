/**
 The line-by-line walk over a file comparison: its step function, the listing of visits it
 produces, and when it finishes.
 */
module Traversal {
  import opened Basics
  import opened UnifiedDiff

  /** What the walk knows about the file besides its hunks. */
  datatype FileInfo = FileInfo(src: seq<string>, baseEof: nat, headEof: nat)

  /** One call of the visitors. */
  datatype Visit = Visit(base: Option<nat>, head: Option<nat>, value: Option<string>, isDiff: bool)

  /** The counters and the hunks that are still to be walked. */
  datatype State = State(segs: seq<Hunk>, b: nat, h: nat)

  function Initial(hs: seq<Hunk>): State {
    if hs == [] then State(hs, 1, 1)
    else State(hs, if hs[0].base.start < 1 then 0 else 1, if hs[0].head.start < 1 then 0 else 1)
  }

  predicate Finished(f: FileInfo, s: State) {
    s.segs == [] && if f.src != [] then s.h > |f.src| else s.h >= f.headEof && s.b >= f.baseEof
  }

  predicate TraversingDiff(s: State) {
    s.segs != [] && s.segs[0].Contains(s.b, s.h)
  }

  /** Python indexing: line 0 is `src[-1]`, the last line. */
  function SrcAt(src: seq<string>, h: nat): Option<string> {
    if src == [] then None
    else if h == 0 then Some(src[|src| - 1])
    else if h <= |src| then Some(src[h - 1])
    else None
  }

  /** Whether reading the next line raises no `IndexError`. */
  predicate CanPop(f: FileInfo, s: State) {
    if TraversingDiff(s) then s.segs[0].lines != [] else f.src == [] || s.h <= |f.src|
  }

  function PopLine(f: FileInfo, s: State): (Option<string>, State)
    requires CanPop(f, s)
  {
    if TraversingDiff(s) then
      var hunk := s.segs[0];
      (Some(hunk.lines[0]), s.(segs := [hunk.(lines := hunk.lines[1..])] + s.segs[1..]))
    else
      (SrcAt(f.src, s.h), s)
  }

  /** The kind of line the walk treats a popped value as. */
  function VisitKind(value: Option<string>, isDiff: bool): Kind {
    if isDiff && value.Some? then KindOf(value.value) else Context
  }

  function VisitAt(b: nat, h: nat, value: Option<string>, isDiff: bool): Visit {
    var k := VisitKind(value, isDiff);
    Visit(if k == Added then None else Some(b), if k == Removed then None else Some(h), value, isDiff)
  }

  function DropExhausted(segs: seq<Hunk>): seq<Hunk> {
    if segs != [] && segs[0].lines == [] then segs[1..] else segs
  }

  function Advance(s: State, k: Kind): State {
    State(DropExhausted(s.segs), s.b + BaseStep(k), s.h + HeadStep(k))
  }

  /** One iteration of the walk. */
  function Step(f: FileInfo, s: State): (Visit, State)
    requires CanPop(f, s)
  {
    var (value, popped) := PopLine(f, s);
    var isDiff := TraversingDiff(s);
    (VisitAt(s.b, s.h, value, isDiff), Advance(popped, VisitKind(value, isDiff)))
  }

  /** The walk comes to its normal end within `n` iterations. */
  predicate CompletesIn(f: FileInfo, s: State, n: nat)
    decreases n
  {
    Finished(f, s) || (n > 0 && CanPop(f, s) && CompletesIn(f, Step(f, s).1, n - 1))
  }

  /** The visits of at most `n` iterations. */
  function Visits(f: FileInfo, s: State, n: nat): seq<Visit>
    decreases n
  {
    if n == 0 || Finished(f, s) || !CanPop(f, s) then []
    else [Step(f, s).0] + Visits(f, Step(f, s).1, n - 1)
  }

  // ---------------------------------------------------------------------------------------------
  // The listing: what a walk should visit, hunk by hunk

  /** Unchanged lines until the next hunk begins. */
  function Ahead(hunk: Hunk, b: nat): nat {
    if b < hunk.base.First() then hunk.base.First() - b else 0
  }

  /** Unchanged lines behind the last hunk. */
  function Tail(f: FileInfo, b: nat, h: nat): nat {
    Max(0, if f.src != [] then |f.src| + 1 - h else Max(f.headEof - h, f.baseEof - b))
  }

  function Gap(f: FileInfo, b: nat, h: nat, n: nat): seq<Visit>
    decreases n
  {
    if n == 0 then []
    else [Visit(Some(b), Some(h), SrcAt(f.src, h), false)] + Gap(f, b + 1, h + 1, n - 1)
  }

  function HunkVisits(b: nat, h: nat, lines: seq<string>): seq<Visit>
    decreases lines
  {
    if lines == [] then []
    else
      var k := KindOf(lines[0]);
      [VisitAt(b, h, Some(lines[0]), true)] + HunkVisits(b + BaseStep(k), h + HeadStep(k), lines[1..])
  }

  function Listing(f: FileInfo, segs: seq<Hunk>, b: nat, h: nat): seq<Visit>
    decreases |segs|
  {
    if segs == [] then Gap(f, b, h, Tail(f, b, h))
    else
      var hunk, d := segs[0], Ahead(segs[0], b);
      Gap(f, b, h, d) + HunkVisits(b + d, h + d, hunk.lines)
      + Listing(f, segs[1..], b + d + BaseLen(hunk.lines), h + d + HeadLen(hunk.lines))
  }

  /**
   Hunks in the order and at the distances at which counters `b` and `h` meet them. Only the
   lines that are really there count: a header may announce more.
   */
  predicate Aligned(segs: seq<Hunk>, b: nat, h: nat)
    decreases |segs|
  {
    segs == [] ||
    var hunk := segs[0];
    && hunk.lines != []
    && hunk.base.First() - b == hunk.head.First() - h >= 0
    && Aligned(segs[1..], hunk.base.First() + BaseLen(hunk.lines), hunk.head.First() + HeadLen(hunk.lines))
  }

  /** Like `Aligned`, but the walk may already be inside the first hunk. */
  predicate Ready(segs: seq<Hunk>, b: nat, h: nat) {
    segs == [] ||
    var hunk, d := segs[0], Ahead(segs[0], b);
    && hunk.lines != []
    && (hunk.base.First() - b == hunk.head.First() - h >= 0 || (b >= hunk.base.First() && h >= hunk.head.First()))
    && Aligned(segs[1..], b + d + BaseLen(hunk.lines), h + d + HeadLen(hunk.lines))
  }

  /** Each of the lines is met while a counter is inside the range that the header announces. */
  predicate CoveredFrom(hunk: Hunk, b: nat, h: nat, lines: seq<string>)
    decreases lines
  {
    lines == [] ||
    var k := KindOf(lines[0]);
    hunk.Contains(b, h) && CoveredFrom(hunk, b + BaseStep(k), h + HeadStep(k), lines[1..])
  }

  predicate Covered(segs: seq<Hunk>, b: nat, h: nat)
    decreases |segs|
  {
    segs == [] ||
    var hunk, d := segs[0], Ahead(segs[0], b);
    && CoveredFrom(hunk, b + d, h + d, hunk.lines)
    && Covered(segs[1..], b + d + BaseLen(hunk.lines), h + d + HeadLen(hunk.lines))
  }

  /** The source, when there is one, has all the unchanged lines before each hunk. */
  predicate Readable(src: seq<string>, segs: seq<Hunk>, b: nat, h: nat)
    decreases |segs|
  {
    src == [] || segs == [] ||
    var hunk, d := segs[0], Ahead(segs[0], b);
    && (d == 0 || h + d <= |src| + 1)
    && Readable(src, segs[1..], b + d + BaseLen(hunk.lines), h + d + HeadLen(hunk.lines))
  }

  predicate Walkable(f: FileInfo, s: State) {
    Ready(s.segs, s.b, s.h) && Covered(s.segs, s.b, s.h) && Readable(f.src, s.segs, s.b, s.h)
  }

  function LinesLeft(segs: seq<Hunk>): nat {
    if segs == [] then 0 else |segs[0].lines| + LinesLeft(segs[1..])
  }

  /** Iterations until the next hunk or the end of the file. */
  function Distance(f: FileInfo, s: State): nat {
    if s.segs == [] then Tail(f, s.b, s.h) else Ahead(s.segs[0], s.b)
  }

  // ---------------------------------------------------------------------------------------------
  // One iteration

  lemma ReadyHead(hunk: Hunk, b: nat, h: nat)
    requires hunk.base.First() - b == hunk.head.First() - h >= 0 || (b >= hunk.base.First() && h >= hunk.head.First())
    ensures Ahead(hunk, b) > 0 ==> !hunk.Contains(b, h) && Ahead(hunk, b + 1) == Ahead(hunk, b) - 1
    ensures Ahead(hunk, b) == 0 ==> b >= hunk.base.First() && h >= hunk.head.First()
    ensures Ahead(hunk, b) == 0 && !hunk.Contains(b, h) ==>
              b >= hunk.base.start + hunk.base.Lines() && h >= hunk.head.start + hunk.head.Lines()
  {
  }

  lemma NoSourceIsReadable(segs: seq<Hunk>, b: nat, h: nat)
    ensures Readable([], segs, b, h)
  {
  }

  lemma AlignedIsReady(segs: seq<Hunk>, b: nat, h: nat)
    requires Aligned(segs, b, h)
    ensures Ready(segs, b, h)
  {
  }

  /** An iteration keeps a walkable state, takes the head of its listing and comes closer to the end. */
  lemma StepKeeps(f: FileInfo, s: State)
    requires Walkable(f, s) && !Finished(f, s)
    ensures CanPop(f, s)
    ensures var (v, t) := Step(f, s);
            && Walkable(f, t)
            && Listing(f, s.segs, s.b, s.h) == [v] + Listing(f, t.segs, t.b, t.h)
            && (LinesLeft(t.segs) < LinesLeft(s.segs)
                || (LinesLeft(t.segs) == LinesLeft(s.segs) && Distance(f, t) < Distance(f, s)))
  {
    if s.segs == [] {
    } else {
      var hunk := s.segs[0];
      ReadyHead(hunk, s.b, s.h);
      if Ahead(hunk, s.b) > 0 {
        StepInGap(f, s);
      } else {
        StepInHunk(f, s);
      }
    }
  }

  lemma StepInGap(f: FileInfo, s: State)
    requires Ready(s.segs, s.b, s.h) && s.segs != [] && Ahead(s.segs[0], s.b) > 0
    ensures CanPop(f, s) <==> f.src == [] || s.h <= |f.src|
    ensures CanPop(f, s) ==>
              var (v, t) := Step(f, s);
              && t == State(s.segs, s.b + 1, s.h + 1)
              && Ready(t.segs, t.b, t.h)
              && (Covered(s.segs, s.b, s.h) <==> Covered(t.segs, t.b, t.h))
              && (Readable(f.src, s.segs, s.b, s.h) <==> Readable(f.src, t.segs, t.b, t.h))
              && Listing(f, s.segs, s.b, s.h) == [v] + Listing(f, t.segs, t.b, t.h)
  {
    hide *;
    PlainStep(f, s);
    GapAhead(f, s.segs, s.b, s.h);
  }

  /** Before a hunk the walk goes one unchanged line ahead. */
  lemma PlainStep(f: FileInfo, s: State)
    requires Ready(s.segs, s.b, s.h) && s.segs != [] && Ahead(s.segs[0], s.b) > 0
    ensures CanPop(f, s) <==> f.src == [] || s.h <= |f.src|
    ensures CanPop(f, s) ==> Step(f, s) == (Visit(Some(s.b), Some(s.h), SrcAt(f.src, s.h), false), State(s.segs, s.b + 1, s.h + 1))
    ensures Ready(s.segs, s.b + 1, s.h + 1) && Ahead(s.segs[0], s.b + 1) == Ahead(s.segs[0], s.b) - 1
  {
    ReadyHead(s.segs[0], s.b, s.h);
    hide BaseLen, HeadLen;
  }

  /** The definitions above one line further into the unchanged lines before a hunk. */
  lemma GapAhead(f: FileInfo, segs: seq<Hunk>, b: nat, h: nat)
    requires segs != [] && Ahead(segs[0], b) > 0 && Ahead(segs[0], b + 1) == Ahead(segs[0], b) - 1
    ensures Covered(segs, b, h) <==> Covered(segs, b + 1, h + 1)
    ensures f.src == [] || h <= |f.src| ==> (Readable(f.src, segs, b, h) <==> Readable(f.src, segs, b + 1, h + 1))
    ensures Listing(f, segs, b, h) == [Visit(Some(b), Some(h), SrcAt(f.src, h), false)] + Listing(f, segs, b + 1, h + 1)
  {
    hide BaseLen, HeadLen, HunkVisits, SrcAt, CoveredFrom;
    var hunk, d, v := segs[0], Ahead(segs[0], b), Visit(Some(b), Some(h), SrcAt(f.src, h), false);
    var gap, visits := Gap(f, b + 1, h + 1, d - 1), HunkVisits(b + d, h + d, hunk.lines);
    var rest := Listing(f, segs[1..], b + d + BaseLen(hunk.lines), h + d + HeadLen(hunk.lines));
    assert Gap(f, b, h, d) == [v] + gap;
    assert [v] + gap + visits + rest == [v] + (gap + visits + rest);
  }

  /** What one line does to a hunk. */
  lemma HunkStep(hunk: Hunk, b: nat, h: nat)
    requires hunk.lines != []
    ensures var k, rest := KindOf(hunk.lines[0]), hunk.lines[1..];
            && BaseLen(hunk.lines) == BaseStep(k) + BaseLen(rest)
            && HeadLen(hunk.lines) == HeadStep(k) + HeadLen(rest)
            && HunkVisits(b, h, hunk.lines)
               == [VisitAt(b, h, Some(hunk.lines[0]), true)] + HunkVisits(b + BaseStep(k), h + HeadStep(k), rest)
            && (rest == [] ==> BaseLen(rest) == HeadLen(rest) == 0 && HunkVisits(b + BaseStep(k), h + HeadStep(k), rest) == [])
  {
  }

  lemma StepShape(f: FileInfo, s: State)
    requires TraversingDiff(s) && s.segs[0].lines != []
    ensures var (v, t) := Step(f, s);
            var hunk, k := s.segs[0], KindOf(s.segs[0].lines[0]);
            && v == VisitAt(s.b, s.h, Some(hunk.lines[0]), true)
            && t.b == s.b + BaseStep(k) && t.h == s.h + HeadStep(k)
            && t.segs == if |hunk.lines| == 1 then s.segs[1..] else [hunk.(lines := hunk.lines[1..])] + s.segs[1..]
  {
    assert ([s.segs[0].(lines := s.segs[0].lines[1..])] + s.segs[1..])[1..] == s.segs[1..];
  }

  lemma StepInHunk(f: FileInfo, s: State)
    requires Ready(s.segs, s.b, s.h) && s.segs != [] && Ahead(s.segs[0], s.b) == 0
    requires s.segs[0].Contains(s.b, s.h)
    ensures CanPop(f, s)
    ensures var (v, t) := Step(f, s);
            && Ready(t.segs, t.b, t.h)
            && (Covered(s.segs, s.b, s.h) <==> Covered(t.segs, t.b, t.h))
            && (Readable(f.src, s.segs, s.b, s.h) <==> Readable(f.src, t.segs, t.b, t.h))
            && LinesLeft(t.segs) == LinesLeft(s.segs) - 1
            && Listing(f, s.segs, s.b, s.h) == [v] + Listing(f, t.segs, t.b, t.h)
  {
    var hunk := s.segs[0];
    var rest := hunk.(lines := hunk.lines[1..]);
    StepShape(f, s);
    HunkStep(hunk, s.b, s.h);
    var t := Step(f, s).1;
    if |hunk.lines| == 1 {
      LastHunkLine(f, s, t);
    } else {
      InnerHunkLine(f, s, t, rest);
    }
  }

  lemma LastHunkLine(f: FileInfo, s: State, t: State)
    requires Ready(s.segs, s.b, s.h) && TraversingDiff(s) && Ahead(s.segs[0], s.b) == 0 && |s.segs[0].lines| == 1
    requires t == Step(f, s).1 && t.segs == s.segs[1..]
    requires var k := KindOf(s.segs[0].lines[0]); t.b == s.b + BaseStep(k) && t.h == s.h + HeadStep(k)
    requires t.b == s.b + BaseLen(s.segs[0].lines) && t.h == s.h + HeadLen(s.segs[0].lines)
    ensures Ready(t.segs, t.b, t.h)
    ensures Covered(s.segs, s.b, s.h) <==> Covered(t.segs, t.b, t.h)
    ensures Readable(f.src, s.segs, s.b, s.h) <==> Readable(f.src, t.segs, t.b, t.h)
    ensures LinesLeft(t.segs) == LinesLeft(s.segs) - 1
    ensures Listing(f, s.segs, s.b, s.h)
            == [VisitAt(s.b, s.h, Some(s.segs[0].lines[0]), true)] + Listing(f, t.segs, t.b, t.h)
  {
    AlignedIsReady(t.segs, t.b, t.h);
    var rest := s.segs[0].lines[1..];
    assert rest == [] && HunkVisits(t.b, t.h, rest) == [] && CoveredFrom(s.segs[0], t.b, t.h, rest);
    assert Gap(f, s.b, s.h, 0) == [];
  }

  lemma InnerHunkLine(f: FileInfo, s: State, t: State, rest: Hunk)
    requires Ready(s.segs, s.b, s.h) && TraversingDiff(s) && Ahead(s.segs[0], s.b) == 0 && |s.segs[0].lines| > 1
    requires rest == s.segs[0].(lines := s.segs[0].lines[1..])
    requires t.segs == [rest] + s.segs[1..]
    requires var k := KindOf(s.segs[0].lines[0]); t.b == s.b + BaseStep(k) && t.h == s.h + HeadStep(k)
    ensures Ready(t.segs, t.b, t.h)
    ensures Covered(s.segs, s.b, s.h) <==> Covered(t.segs, t.b, t.h)
    ensures Readable(f.src, s.segs, s.b, s.h) <==> Readable(f.src, t.segs, t.b, t.h)
    ensures LinesLeft(t.segs) == LinesLeft(s.segs) - 1
    ensures Listing(f, s.segs, s.b, s.h)
            == [VisitAt(s.b, s.h, Some(s.segs[0].lines[0]), true)] + Listing(f, t.segs, t.b, t.h)
  {
    var hunk, tail := s.segs[0], s.segs[1..];
    assert s.segs == [hunk] + tail;
    InnerReady(hunk, rest, tail, s.b, s.h);
    InnerRest(f, hunk, rest, tail, s.b, s.h);
  }

  lemma InnerRest(f: FileInfo, hunk: Hunk, rest: Hunk, tail: seq<Hunk>, b: nat, h: nat)
    requires hunk.lines != [] && hunk.Contains(b, h) && Ahead(hunk, b) == 0
    requires rest == hunk.(lines := hunk.lines[1..])
    requires var k := KindOf(hunk.lines[0]); Ahead(rest, b + BaseStep(k)) == 0
    ensures var k := KindOf(hunk.lines[0]);
            var s, t, b', h' := [hunk] + tail, [rest] + tail, b + BaseStep(k), h + HeadStep(k);
            && (Covered(s, b, h) <==> Covered(t, b', h'))
            && (Readable(f.src, s, b, h) <==> Readable(f.src, t, b', h'))
            && LinesLeft(t) == LinesLeft(s) - 1
            && Listing(f, s, b, h) == [VisitAt(b, h, Some(hunk.lines[0]), true)] + Listing(f, t, b', h')
  {
    hide *;
    var k := KindOf(hunk.lines[0]);
    var b', h' := b + BaseStep(k), h + HeadStep(k);
    assert |rest.lines| == |hunk.lines| - 1;
    CoveredOneLess(hunk, rest, b, h);
    HunkStep(hunk, b, h);
    AtHunk(f, hunk, tail, b, h);
    AtHunk(f, rest, tail, b', h');
    Reassociate(VisitAt(b, h, Some(hunk.lines[0]), true), HunkVisits(b', h', rest.lines),
                Listing(f, tail, b' + BaseLen(rest.lines), h' + HeadLen(rest.lines)));
  }

  lemma CoveredOneLess(hunk: Hunk, rest: Hunk, b: nat, h: nat)
    requires hunk.lines != [] && hunk.Contains(b, h) && rest == hunk.(lines := hunk.lines[1..])
    ensures var k := KindOf(hunk.lines[0]);
            CoveredFrom(hunk, b, h, hunk.lines) == CoveredFrom(rest, b + BaseStep(k), h + HeadStep(k), rest.lines)
  {
    var k := KindOf(hunk.lines[0]);
    CoveredFromHeader(hunk, rest, b + BaseStep(k), h + HeadStep(k), rest.lines);
  }

  lemma Reassociate<T>(x: T, s: seq<T>, t: seq<T>)
    ensures ([x] + s) + t == [x] + (s + t)
  {
  }

  lemma InnerReady(hunk: Hunk, rest: Hunk, tail: seq<Hunk>, b: nat, h: nat)
    requires b >= hunk.base.First() && h >= hunk.head.First()
    requires |hunk.lines| > 1 && rest == hunk.(lines := hunk.lines[1..])
    requires Aligned(tail, b + BaseLen(hunk.lines), h + HeadLen(hunk.lines))
    ensures var k := KindOf(hunk.lines[0]);
            && Ready([rest] + tail, b + BaseStep(k), h + HeadStep(k))
            && Ahead(rest, b + BaseStep(k)) == 0
  {
    HunkStep(hunk, b, h);
    assert ([rest] + tail)[1..] == tail;
  }

  /** The definitions above for a walk that has reached the first hunk. */
  lemma AtHunk(f: FileInfo, hunk: Hunk, tail: seq<Hunk>, b: nat, h: nat)
    requires Ahead(hunk, b) == 0
    ensures var segs, b', h' := [hunk] + tail, b + BaseLen(hunk.lines), h + HeadLen(hunk.lines);
            && Listing(f, segs, b, h) == HunkVisits(b, h, hunk.lines) + Listing(f, tail, b', h')
            && (Covered(segs, b, h) <==> CoveredFrom(hunk, b, h, hunk.lines) && Covered(tail, b', h'))
            && (Readable(f.src, segs, b, h) <==> f.src == [] || Readable(f.src, tail, b', h'))
            && LinesLeft(segs) == |hunk.lines| + LinesLeft(tail)
  {
    assert ([hunk] + tail)[1..] == tail;
    assert Gap(f, b, h, 0) == [];
  }

  lemma CoveredFromHeader(hunk: Hunk, other: Hunk, b: nat, h: nat, lines: seq<string>)
    requires hunk.base == other.base && hunk.head == other.head
    ensures CoveredFrom(hunk, b, h, lines) == CoveredFrom(other, b, h, lines)
    decreases lines
  {
  }

  // ---------------------------------------------------------------------------------------------
  // When the walk finishes

  lemma Completes(f: FileInfo, s: State) returns (n: nat)
    requires Walkable(f, s)
    ensures CompletesIn(f, s, n)
    decreases LinesLeft(s.segs), Distance(f, s)
  {
    if Finished(f, s) {
      n := 0;
    } else {
      StepKeeps(f, s);
      var m := Completes(f, Step(f, s).1);
      n := m + 1;
    }
  }

  /** A walk that completes has made exactly the visits of the listing. */
  lemma {:induction false} VisitsAreListing(f: FileInfo, s: State, n: nat)
    requires Walkable(f, s) && CompletesIn(f, s, n)
    ensures Visits(f, s, n) == Listing(f, s.segs, s.b, s.h)
    decreases n
  {
    if !Finished(f, s) {
      StepKeeps(f, s);
      VisitsAreListing(f, Step(f, s).1, n - 1);
    }
  }

  /** A walk at a hunk whose lines are covered first visits that hunk, whatever follows. */
  lemma {:induction false} VisitsHunkFirst(f: FileInfo, s: State, n: nat)
    requires s.segs != [] && s.segs[0].lines != [] && CompletesIn(f, s, n)
    requires CoveredFrom(s.segs[0], s.b, s.h, s.segs[0].lines)
    ensures var lines := s.segs[0].lines;
            var t := State(s.segs[1..], s.b + BaseLen(lines), s.h + HeadLen(lines));
            && |lines| <= n && CompletesIn(f, t, n - |lines|)
            && Visits(f, s, n) == HunkVisits(s.b, s.h, lines) + Visits(f, t, n - |lines|)
    decreases n
  {
    hide BaseLen, HeadLen, HunkVisits, Visits, CompletesIn, CoveredFrom, Step, BaseStep, HeadStep;
    var hunk := s.segs[0];
    var v, u := FirstHunkVisit(f, s, n);
    HunkStep(hunk, s.b, s.h);
    var rest := hunk.lines[1..];
    if rest == [] {
      assert HunkVisits(s.b, s.h, hunk.lines) == [v];
    } else {
      VisitsHunkFirst(f, u, n - 1);
      Reassociate(v, HunkVisits(u.b, u.h, rest),
                  Visits(f, State(s.segs[1..], u.b + BaseLen(rest), u.h + HeadLen(rest)), n - 1 - |rest|));
    }
  }

  lemma FirstHunkVisit(f: FileInfo, s: State, n: nat) returns (v: Visit, u: State)
    requires s.segs != [] && s.segs[0].lines != [] && CompletesIn(f, s, n)
    requires CoveredFrom(s.segs[0], s.b, s.h, s.segs[0].lines)
    ensures n > 0 && v == VisitAt(s.b, s.h, Some(s.segs[0].lines[0]), true) && IntoHunk(s, u)
    ensures CompletesIn(f, u, n - 1) && Visits(f, s, n) == [v] + Visits(f, u, n - 1)
  {
    FirstHunkStep(f, s);
    v, u := Step(f, s).0, Step(f, s).1;
  }

  /** One line of the first hunk further, the rest of its lines is covered. */
  predicate IntoHunk(s: State, u: State)
    requires s.segs != [] && s.segs[0].lines != []
  {
    var hunk, k := s.segs[0], KindOf(s.segs[0].lines[0]);
    && u.b == s.b + BaseStep(k) && u.h == s.h + HeadStep(k)
    && if |hunk.lines| == 1 then u.segs == s.segs[1..]
       else u.segs != [] && u.segs[0].lines == hunk.lines[1..] && u.segs[1..] == s.segs[1..]
            && CoveredFrom(u.segs[0], u.b, u.h, u.segs[0].lines)
  }

  lemma FirstHunkStep(f: FileInfo, s: State)
    requires s.segs != [] && s.segs[0].lines != []
    requires CoveredFrom(s.segs[0], s.b, s.h, s.segs[0].lines)
    ensures CanPop(f, s) && Step(f, s).0 == VisitAt(s.b, s.h, Some(s.segs[0].lines[0]), true)
    ensures IntoHunk(s, Step(f, s).1)
  {
    var hunk := s.segs[0];
    StepShape(f, s);
    var u := Step(f, s).1;
    assert CoveredFrom(hunk, u.b, u.h, hunk.lines[1..]);
    if |hunk.lines| > 1 {
      var next := hunk.(lines := hunk.lines[1..]);
      assert u.segs[0] == next && u.segs[1..] == s.segs[1..];
      CoveredFromHeader(hunk, next, u.b, u.h, next.lines);
    }
  }

  /** A hunk with lines left behind both of its ranges is never left again. */
  lemma {:induction false} Stuck(f: FileInfo, s: State, n: nat)
    requires s.segs != [] && s.segs[0].lines != []
    requires s.b >= s.segs[0].base.start + s.segs[0].base.Lines()
    requires s.h >= s.segs[0].head.start + s.segs[0].head.Lines()
    ensures !CompletesIn(f, s, n)
    decreases n
  {
    if n > 0 && CanPop(f, s) {
      assert Step(f, s).1 == State(s.segs, s.b + 1, s.h + 1);
      Stuck(f, State(s.segs, s.b + 1, s.h + 1), n - 1);
    }
  }

  lemma {:induction false} Diverges(f: FileInfo, s: State, n: nat)
    requires Ready(s.segs, s.b, s.h)
    requires !Covered(s.segs, s.b, s.h) || !Readable(f.src, s.segs, s.b, s.h)
    ensures !CompletesIn(f, s, n)
    decreases n
  {
    if n > 0 && CanPop(f, s) {
      var hunk := s.segs[0];
      ReadyHead(hunk, s.b, s.h);
      if Ahead(hunk, s.b) > 0 {
        StepInGap(f, s);
        Diverges(f, Step(f, s).1, n - 1);
      } else if hunk.Contains(s.b, s.h) {
        StepInHunk(f, s);
        Diverges(f, Step(f, s).1, n - 1);
      } else {
        Stuck(f, s, n);
      }
    }
  }

  /**
   For hunks in order and at consistent distances, the walk ends normally exactly when every hunk
   line falls into the ranges its header announces and the source has the lines between hunks.
   */
  lemma FinishesExactlyWhen(f: FileInfo, hs: seq<Hunk>)
    requires var s := Initial(hs); Aligned(hs, s.b, s.h)
    ensures var s := Initial(hs);
            (exists n :: CompletesIn(f, s, n)) <==> Covered(hs, s.b, s.h) && Readable(f.src, hs, s.b, s.h)
  {
    var s := Initial(hs);
    assert s.segs == hs;
    AlignedIsReady(hs, s.b, s.h);
    if Walkable(f, s) {
      var n := Completes(f, s);
      assert exists m: nat :: CompletesIn(f, s, m);
    } else {
      forall n ensures !CompletesIn(f, s, n) {
        Diverges(f, s, n);
      }
    }
  }

  // ---------------------------------------------------------------------------------------------
  // Unified diffs

  lemma AgreedCountsCover(hunk: Hunk, b: nat, h: nat, lines: seq<string>)
    requires b >= hunk.base.start && h >= hunk.head.start
    requires b + BaseLen(lines) <= hunk.base.start + hunk.base.Lines() || BaseLen(lines) == 0
    requires h + HeadLen(lines) <= hunk.head.start + hunk.head.Lines() || HeadLen(lines) == 0
    ensures CoveredFrom(hunk, b, h, lines)
    decreases lines
  {
  }

  lemma {:induction false} UnifiedFrom(hs: seq<Hunk>, b: nat, h: nat, separation: nat)
    requires b >= 1 && h >= 1 && Unified(hs, b, h, separation)
    requires forall i :: 0 <= i < |hs| ==> hs[i].base.start > 0 && hs[i].head.start > 0
    ensures Aligned(hs, b, h) && Covered(hs, b, h)
    decreases |hs|
  {
    if hs != [] {
      var hunk := hs[0];
      var b', h' := hunk.base.First(), hunk.head.First();
      AgreedCountsCover(hunk, b', h', hunk.lines);
      assert Ahead(hunk, b) == b' - b;
      UnifiedFrom(hs[1..], b' + BaseLen(hunk.lines), h' + HeadLen(hunk.lines), 1);
    }
  }

  /** Behind the first hunk of a unified diff, no start can be 0. */
  lemma {:induction false} LaterStarts(hs: seq<Hunk>, b: nat, h: nat)
    requires b >= 1 && h >= 1 && Unified(hs, b, h, 1)
    ensures forall i :: 0 <= i < |hs| ==> hs[i].base.start > 0 && hs[i].head.start > 0
    decreases |hs|
  {
    if hs != [] {
      var hunk := hs[0];
      LaterStarts(hs[1..], hunk.base.TrueFirst() + BaseLen(hunk.lines), hunk.head.TrueFirst() + HeadLen(hunk.lines));
      forall i | 0 <= i < |hs| ensures hs[i].base.start > 0 && hs[i].head.start > 0 {
        if i > 0 {
          assert hs[i] == hs[1..][i - 1];
        }
      }
    }
  }

  /**
   The walker's counters meet the hunks of a unified diff exactly when no hunk starts at line 0,
   or that hunk is the only one; its lines are then always covered.
   */
  lemma UnifiedDiffsAlign(hs: seq<Hunk>)
    requires Unified(hs, 1, 1, 0)
    ensures var s := Initial(hs);
            && (Aligned(hs, s.b, s.h) <==> !StartsAtZero(hs) || |hs| == 1)
            && (Aligned(hs, s.b, s.h) ==> Covered(hs, s.b, s.h))
  {
    var s := Initial(hs);
    if hs != [] {
      var hunk, rest := hs[0], hs[1..];
      var b', h' := hunk.base.TrueFirst() + BaseLen(hunk.lines), hunk.head.TrueFirst() + HeadLen(hunk.lines);
      LaterStarts(rest, b', h');
      if !StartsAtZero(hs) {
        UnifiedFrom(hs, 1, 1, 0);
      } else {
        AgreedCountsCover(hunk, hunk.base.First(), hunk.head.First(), hunk.lines);
      }
    }
  }
}
