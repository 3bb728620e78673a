/** The traverse manager: the walk over a file comparison with its counters updated in place. */
module Comparison {
  import opened Basics
  import opened UnifiedDiff
  import opened Traversal
  import opened Visitors

  class FileComparisonTraverseManager {
    const headFileEof: nat
    const baseFileEof: nat
    const src: seq<string>
    var segments: seq<Hunk>
    var baseLn: nat
    var headLn: nat

    constructor (headFileEof: nat, baseFileEof: nat, segments: seq<Hunk>, src: seq<string>)
      ensures Info() == FileInfo(src, baseFileEof, headFileEof)
      ensures segments == [] ==> baseLn == headLn == 1
      ensures segments != [] ==>
                && baseLn == (if segments[0].base.start == 0 then 0 else 1)
                && headLn == (if segments[0].head.start == 0 then 0 else 1)
      ensures Walk() == Initial(segments)
    {
      this.headFileEof, this.baseFileEof, this.src := headFileEof, baseFileEof, src;
      this.segments := segments;
      if segments != [] {
        // a new or deleted file starts at line 0 on one side
        this.baseLn := if 1 <= segments[0].base.start then 1 else segments[0].base.start;
        this.headLn := if 1 <= segments[0].head.start then 1 else segments[0].head.start;
      } else {
        this.baseLn, this.headLn := 1, 1;
      }
    }

    function Info(): FileInfo {
      FileInfo(src, baseFileEof, headFileEof)
    }

    function Walk(): State
      reads this
    {
      State(segments, baseLn, headLn)
    }

    method TraverseFinished() returns (finished: bool)
      ensures finished <==> segments == [] && if src != [] then headLn > |src| else headLn >= headFileEof && baseLn >= baseFileEof
      ensures finished <==> Finished(Info(), Walk())
    {
      if segments != [] {
        return false;
      }
      if src != [] {
        return headLn > |src|;
      }
      return headLn >= headFileEof && baseLn >= baseFileEof;
    }

    method TraversingDiff() returns (traversing: bool)
      ensures traversing <==>
                segments != [] &&
                var base, head := segments[0].base, segments[0].head;
                || base.start <= baseLn < base.start + (if base.count.Blank? then 1 else base.count.n)
                || head.start <= headLn < head.start + (if head.count.Blank? then 1 else head.count.n)
      ensures traversing <==> Traversal.TraversingDiff(Walk())
    {
      if segments == [] {
        return false;
      }
      var base, head := segments[0].base, segments[0].head;
      var baseWithin := base.start <= baseLn < base.start + base.Lines();
      var headWithin := head.start <= headLn < head.start + head.Lines();
      return baseWithin || headWithin;
    }

    method PopLine() returns (value: Option<string>)
      requires CanPop(Info(), Walk())
      modifies this`segments
      ensures Traversal.TraversingDiff(old(Walk())) ==>
                && value == Some(old(segments)[0].lines[0])
                && segments == [old(segments)[0].(lines := old(segments)[0].lines[1..])] + old(segments)[1..]
      ensures !Traversal.TraversingDiff(old(Walk())) ==> segments == old(segments) && (src == [] ==> value == None)
      ensures !Traversal.TraversingDiff(old(Walk())) && src != [] ==>
                && (headLn >= 1 ==> headLn <= |src| && value == Some(src[headLn - 1]))
                && (headLn == 0 ==> value == Some(src[|src| - 1]))
      ensures (value, Walk()) == Traversal.PopLine(Info(), old(Walk()))
    {
      var traversing := TraversingDiff();
      if traversing {
        var hunk := segments[0];
        value := Some(hunk.lines[0]);
        segments := [hunk.(lines := hunk.lines[1..])] + segments[1..];
      } else if src != [] {
        value := Some(if headLn == 0 then src[|src| - 1] else src[headLn - 1]);
      } else {
        value := None;
      }
    }

    /** The arguments of the next visitor calls. */
    method NextVisit() returns (visit: Visit)
      requires CanPop(Info(), Walk())
      modifies this`segments
      ensures visit == Step(Info(), old(Walk())).0
      ensures Walk() == Traversal.PopLine(Info(), old(Walk())).1
    {
      ghost var before := Walk();
      var value := PopLine();
      SameRange(before, Walk());
      var isDiff := TraversingDiff();
      var added := isDiff && value.Some? && IsAdded(value.value);
      var removed := isDiff && value.Some? && IsRemoved(value.value);
      visit := Visit(if added then None else Some(baseLn), if removed then None else Some(headLn), value, isDiff);
    }

    /** Moves the counters past the visited line and drops a hunk that has no lines left. */
    method MoveOn(value: Option<string>, isDiff: bool, ghost before: State)
      requires CanPop(Info(), before)
      requires Walk() == Traversal.PopLine(Info(), before).1
      requires value == Traversal.PopLine(Info(), before).0 && isDiff == Traversal.TraversingDiff(before)
      modifies this
      ensures Walk() == Step(Info(), before).1
    {
      if isDiff && value.Some? && IsAdded(value.value) {
        headLn := headLn + 1;
      } else if isDiff && value.Some? && IsRemoved(value.value) {
        baseLn := baseLn + 1;
      } else {
        headLn, baseLn := headLn + 1, baseLn + 1;
      }
      if segments != [] && segments[0].lines == [] {
        segments := segments[1..];
      }
    }

    /**
     Runs both visitors over the file. `visits` lists the visitor calls in order. `ok` is false
     when the summary visitor raised an exception, which ends the walk.
     */
    method Apply(summary: CreateChangeSummaryVisitor, creator: CreateLineComparisonVisitor)
      returns (ok: bool, visits: seq<Visit>)
      requires Walkable(Info(), Walk())
      modifies this, summary, creator
      ensures var listing := Listing(Info(), old(segments), old(baseLn), old(headLn));
              && (ok <==> forall i :: 0 <= i < |listing| ==> !Uncountable(summary.files, listing[i]))
              && visits <= listing
              && (ok ==> visits == listing && Finished(Info(), Walk()))
      ensures ok ==> creator.lines == old(creator.lines) + ComparedAll(creator.files, visits)
      ensures ok ==> Total(summary.summary) == Total(old(summary.summary))
      ensures ok ==> forall t | t != Skipped ::
                At(summary.summary, t) == At(old(summary.summary), t) + Change(summary.files, Unmarked, visits, t)
    {
      visits := [];
      ghost var listing := Listing(Info(), segments, baseLn, headLn);
      ghost var before := Record(creator.lines, summary.summary);
      var finished := TraverseFinished();
      while !finished
        invariant finished <==> Finished(Info(), Walk())
        invariant OnTrack(Info(), listing, visits, Walk())
        invariant Recorded(summary.files, creator.files, before, visits, Record(creator.lines, summary.summary))
        decreases LinesLeft(segments), Distance(Info(), Walk())
      {
        OnTrackStep(Info(), listing, visits, Walk());
        ghost var walk, record := Walk(), Record(creator.lines, summary.summary);
        var visit := NextVisit();
        ok := summary.Call(visit);
        if !ok {
          assert listing[|visits|] == visit && Uncountable(summary.files, listing[|visits|]);
          return;
        }
        creator.Call(visit);
        RecordedStep(summary.files, creator.files, before, visits, record, visit, Record(creator.lines, summary.summary));
        visits := visits + [visit];
        MoveOn(visit.value, visit.isDiff, walk);
        finished := TraverseFinished();
      }
      assert Listing(Info(), segments, baseLn, headLn) == [];
      return true, visits;
    }
  }

  /** What the two visitors have gathered. */
  datatype Record = Record(lines: seq<LineComparison>, summary: Counter)

  /** The walk has made the first visits of the listing and the rest of it lies ahead. */
  ghost predicate OnTrack(f: FileInfo, listing: seq<Visit>, visits: seq<Visit>, s: State) {
    Walkable(f, s) && listing == visits + Listing(f, s.segs, s.b, s.h)
  }

  lemma OnTrackStep(f: FileInfo, listing: seq<Visit>, visits: seq<Visit>, s: State)
    requires OnTrack(f, listing, visits, s) && !Finished(f, s)
    ensures CanPop(f, s)
    ensures var (v, t) := Step(f, s);
            && OnTrack(f, listing, visits + [v], t)
            && |visits| < |listing| && listing[|visits|] == v
            && (LinesLeft(t.segs) < LinesLeft(s.segs)
                || (LinesLeft(t.segs) == LinesLeft(s.segs) && Distance(f, t) < Distance(f, s)))
  {
    StepKeeps(f, s);
    var (v, t) := Step(f, s);
    Reassociated(visits, v, Listing(f, t.segs, t.b, t.h));
  }

  lemma Reassociated<T>(s: seq<T>, x: T, t: seq<T>)
    ensures s + ([x] + t) == (s + [x]) + t
  {
  }

  /** The visitors have gathered what the visits call for, none of which raised an exception. */
  ghost predicate Recorded(sf: Files, lf: Files, before: Record, visits: seq<Visit>, now: Record) {
    && (forall i :: 0 <= i < |visits| ==> !Uncountable(sf, visits[i]))
    && now.lines == before.lines + ComparedAll(lf, visits)
    && Total(now.summary) == Total(before.summary)
    && forall t | t != Skipped :: At(now.summary, t) == At(before.summary, t) + Change(sf, Unmarked, visits, t)
  }

  lemma RecordedStep(sf: Files, lf: Files, before: Record, visits: seq<Visit>, now: Record, v: Visit, next: Record)
    requires Recorded(sf, lf, before, visits, now)
    requires !Uncountable(sf, v)
    requires next.lines == now.lines + Compared(lf, v)
    requires Total(next.summary) == Total(now.summary)
    requires forall t | t != Skipped :: At(next.summary, t) == At(now.summary, t) + Change(sf, Unmarked, [v], t)
    ensures Recorded(sf, lf, before, visits + [v], next)
  {
    ComparedAppends(lf, visits, v);
    forall t | t != Skipped
      ensures At(next.summary, t) == At(before.summary, t) + Change(sf, Unmarked, visits + [v], t)
    {
      ChangeAppends(sf, Unmarked, visits, v, t);
    }
  }

  /** Popping a line leaves the ranges, so the walk is in the same hunk as before. */
  lemma SameRange(before: State, popped: State)
    requires popped.b == before.b && popped.h == before.h && |popped.segs| == |before.segs|
    requires before.segs != [] ==>
               popped.segs[0].base == before.segs[0].base && popped.segs[0].head == before.segs[0].head
    ensures Traversal.TraversingDiff(popped) == Traversal.TraversingDiff(before)
  {
  }
}
