/** What the visitors of the walk record: line comparisons and the change summary. */
module Visitors {
  import opened Basics
  import opened UnifiedDiff
  import opened Traversal

  datatype LineType = Hit | Miss | Partial | Skipped

  /** A tracked line; `kind` is what `line_type` makes of its coverage, `None` included. */
  datatype ReportLine = ReportLine(kind: Option<LineType>)

  datatype ReportFile = ReportFile(lines: seq<Option<ReportLine>>)

  /** The two report files of a comparison; a new file has no base, a deleted one no head. */
  datatype Files = Files(base: Option<ReportFile>, head: Option<ReportFile>)

  /** `_lines[ln - 1]` in Python's sense: line 0 is the last element. */
  function GetLine(file: Option<ReportFile>, ln: Option<nat>): Option<ReportLine> {
    if file.None? || ln.None? then None
    else
      var lines, n := file.value.lines, ln.value;
      if 1 <= n <= |lines| then lines[n - 1]
      else if n == 0 && lines != [] then lines[|lines| - 1]
      else None
  }

  datatype LineComparison = LineComparison(
    baseLine: Option<ReportLine>, headLine: Option<ReportLine>,
    baseLn: Option<nat>, headLn: Option<nat>, value: string, isDiff: bool)
  {
    predicate Added() {
      isDiff && IsAdded(value)
    }

    predicate Removed() {
      isDiff && IsRemoved(value)
    }

    function LineKind(): Kind {
      if Added() then Kind.Added else if Removed() then Kind.Removed else Kind.Context
    }

    function BaseNumber(): Option<nat> {
      if Added() then None else baseLn
    }

    function HeadNumber(): Option<nat> {
      if Removed() then None else headLn
    }

    function BaseCoverage(): Option<LineType> {
      if Added() || baseLine.None? then None else baseLine.value.kind
    }

    function HeadCoverage(): Option<LineType> {
      if Removed() || headLine.None? then None else headLine.value.kind
    }

    predicate CoverageChanged() {
      BaseCoverage() != HeadCoverage()
    }
  }

  /** An added line has neither number nor coverage at the base, a removed one neither at the head. */
  lemma SidesOfLine(line: LineComparison)
    ensures line.isDiff && ['+'] <= line.value ==>
              line.BaseNumber() == None && line.BaseCoverage() == None && line.HeadNumber() == line.headLn
    ensures line.isDiff && ['-'] <= line.value ==>
              line.HeadNumber() == None && line.HeadCoverage() == None && line.BaseNumber() == line.baseLn
    ensures !line.isDiff || !(['+'] <= line.value || ['-'] <= line.value) ==>
              line.BaseNumber() == line.baseLn && line.HeadNumber() == line.headLn
  {
  }

  /**
   `line` is what the report has on line `ln`: nothing without a file or a number, the element at
   `ln - 1` inside the report, and nothing beyond it. Python takes index -1 for the last element.
   */
  ghost predicate Reports(file: Option<ReportFile>, ln: Option<nat>, line: Option<ReportLine>) {
    && (file.None? || ln.None? ==> line == None)
    && (file.Some? && ln.Some? ==>
          var lines, n := file.value.lines, ln.value;
          && (1 <= n <= |lines| ==> line == lines[n - 1])
          && (n > |lines| ==> line == None)
          && (n == 0 ==> line == if lines == [] then None else lines[|lines| - 1]))
  }

  lemma GetLineReports(file: Option<ReportFile>, ln: Option<nat>)
    ensures Reports(file, ln, GetLine(file, ln))
  {
  }

  /** The line shows the visit, with what the reports have at the visit's numbers. */
  ghost predicate Records(files: Files, v: Visit, line: LineComparison) {
    && v.value == Some(line.value) && line.isDiff == v.isDiff && line.baseLn == v.base && line.headLn == v.head
    && Reports(files.base, v.base, line.baseLine) && Reports(files.head, v.head, line.headLine)
  }

  /** The comparison recorded for a visit: none when there is no code to show. */
  function Compared(files: Files, v: Visit): seq<LineComparison> {
    if v.value.None? then []
    else [LineComparison(GetLine(files.base, v.base), GetLine(files.head, v.head), v.base, v.head, v.value.value, v.isDiff)]
  }

  function ComparedAll(files: Files, visits: seq<Visit>): seq<LineComparison> {
    if visits == [] then []
    else ComparedAll(files, visits[..|visits| - 1]) + Compared(files, visits[|visits| - 1])
  }

  class CreateLineComparisonVisitor {
    const files: Files
    var lines: seq<LineComparison>

    constructor (files: Files)
      ensures this.files == files && lines == []
    {
      this.files, lines := files, [];
    }

    method Call(v: Visit)
      modifies this
      ensures v.value.None? ==> lines == old(lines)
      ensures v.value.Some? ==>
                && |lines| == |old(lines)| + 1 && lines[..|old(lines)|] == old(lines)
                && Records(files, v, lines[|old(lines)|])
      ensures lines == old(lines) + Compared(files, v)
    {
      if v.value.None? {
        return;
      }
      var baseLine, headLine := GetLine(files.base, v.base), GetLine(files.head, v.head);
      lines := lines + [LineComparison(baseLine, headLine, v.base, v.head, v.value.value, v.isDiff)];
    }
  }

  // ---------------------------------------------------------------------------------------------
  // The change summary

  /** The value starts like a changed line, whether or not it comes from a hunk. */
  predicate Marked(v: Visit) {
    v.value.Some? && |v.value.value| > 0 && v.value.value[0] in "+-"
  }

  function BaseLineOf(files: Files, v: Visit): Option<ReportLine> {
    GetLine(files.base, v.base)
  }

  function HeadLineOf(files: Files, v: Visit): Option<ReportLine> {
    GetLine(files.head, v.head)
  }

  predicate TrackedOnBothSides(files: Files, v: Visit) {
    BaseLineOf(files, v).Some? && HeadLineOf(files, v).Some?
  }

  /** The line types the summary has a name for. */
  predicate Summarized(kind: Option<LineType>) {
    kind.Some? && kind.value != Skipped
  }

  /** The lookup of the line type in the summary's names raises a `KeyError`. */
  predicate Uncountable(files: Files, v: Visit) {
    && !Marked(v) && TrackedOnBothSides(files, v)
    && var base, head := BaseLineOf(files, v).value.kind, HeadLineOf(files, v).value.kind;
    base != head && !(Summarized(base) && Summarized(head))
  }

  /** `Masked` is the unchanged code that looks changed. */
  datatype Scope = Unmarked | Unchanged | Masked

  predicate InScope(scope: Scope, v: Visit) {
    match scope
    case Unmarked => !Marked(v)
    case Unchanged => VisitKind(v.value, v.isDiff) == Context
    case Masked => VisitKind(v.value, v.isDiff) == Context && Marked(v)
  }

  /** Lines in scope, tracked on both sides, whose base (or head) coverage is of type `t`. */
  function CountBase(files: Files, scope: Scope, visits: seq<Visit>, t: LineType): nat {
    if visits == [] then 0
    else
      var v := visits[|visits| - 1];
      CountBase(files, scope, visits[..|visits| - 1], t)
      + if InScope(scope, v) && TrackedOnBothSides(files, v) && BaseLineOf(files, v).value.kind == Some(t) then 1 else 0
  }

  function CountHead(files: Files, scope: Scope, visits: seq<Visit>, t: LineType): nat {
    if visits == [] then 0
    else
      var v := visits[|visits| - 1];
      CountHead(files, scope, visits[..|visits| - 1], t)
      + if InScope(scope, v) && TrackedOnBothSides(files, v) && HeadLineOf(files, v).value.kind == Some(t) then 1 else 0
  }

  /** How much the visits move the count of type `t` among the lines in scope. */
  function Change(files: Files, scope: Scope, visits: seq<Visit>, t: LineType): int {
    CountHead(files, scope, visits, t) - CountBase(files, scope, visits, t)
  }

  /** A `Counter`: names without an entry count 0. */
  type Counter = map<LineType, int>

  function At(c: Counter, t: LineType): int {
    if t in c then c[t] else 0
  }

  function Total(c: Counter): int {
    At(c, Hit) + At(c, Miss) + At(c, Partial)
  }

  /** Hits, misses and partials of a counter; moving a line from one to another keeps their sum. */
  lemma TotalMoves(c: Counter, from: LineType, to: LineType)
    requires from != Skipped && to != Skipped
    ensures Total(map[Hit := 2, Miss := 3, Partial := 5]) == 10 && Total(map[]) == 0
    ensures Total(c[from := At(c, from) - 1]) == Total(c) - 1 && Total(c[to := At(c, to) + 1]) == Total(c) + 1
  {
  }

  class CreateChangeSummaryVisitor {
    const files: Files
    var summary: Counter

    constructor (files: Files)
      ensures this.files == files && summary == map[]
    {
      this.files, summary := files, map[];
    }

    /** False stands for the `KeyError` of a line type without a name. */
    method UpdateSummary(baseLine: ReportLine, headLine: ReportLine) returns (ok: bool)
      modifies this
      ensures ok <==> baseLine.kind in [Some(Hit), Some(Miss), Some(Partial)] && headLine.kind in [Some(Hit), Some(Miss), Some(Partial)]
      ensures ok ==> forall t :: (if t in summary then summary[t] else 0)
                                 == (if t in old(summary) then old(summary)[t] else 0)
                                    + (if headLine.kind == Some(t) then 1 else 0)
                                    - (if baseLine.kind == Some(t) then 1 else 0)
      ensures ok ==> At(summary, Hit) + At(summary, Miss) + At(summary, Partial)
                     == At(old(summary), Hit) + At(old(summary), Miss) + At(old(summary), Partial)
    {
      if !Summarized(baseLine.kind) {
        return false;
      }
      var b := baseLine.kind.value;
      summary := summary[b := At(summary, b) - 1];
      if !Summarized(headLine.kind) {
        return false;
      }
      var h := headLine.kind.value;
      summary := summary[h := At(summary, h) + 1];
      ok := true;
    }

    method Call(v: Visit) returns (ok: bool)
      modifies this
      ensures ok <==> !Uncountable(files, v)
      ensures ok ==> Total(summary) == Total(old(summary))
      ensures ok ==> forall t | t != Skipped :: At(summary, t) == At(old(summary), t) + Change(files, Unmarked, [v], t)
    {
      forall t {
        ChangeOfOne(files, v, t);
      }
      if Marked(v) {
        return true;
      }
      var baseLine, headLine := BaseLineOf(files, v), HeadLineOf(files, v);
      if baseLine.None? || headLine.None? {
        return true;
      }
      if baseLine.value.kind == headLine.value.kind {
        return true;
      }
      ok := UpdateSummary(baseLine.value, headLine.value);
    }
  }

  /**
   A visit moves the summary exactly when its value does not begin with `+` or `-` and both reports
   have a line for it: one line more of its head type, one less of its base type.
   */
  lemma VisitMovesSummary(files: Files, v: Visit, base: Option<ReportLine>, head: Option<ReportLine>, t: LineType)
    requires Reports(files.base, v.base, base) && Reports(files.head, v.head, head)
    ensures Change(files, Unmarked, [v], t)
            == if (v.value.Some? && (['+'] <= v.value.value || ['-'] <= v.value.value)) || base.None? || head.None? then 0
               else (if head.value.kind == Some(t) then 1 else 0) - (if base.value.kind == Some(t) then 1 else 0)
    ensures Uncountable(files, v)
            <==> && !(v.value.Some? && (['+'] <= v.value.value || ['-'] <= v.value.value)) && base.Some? && head.Some?
                 && base.value.kind != head.value.kind
                 && (base.value.kind in [None, Some(Skipped)] || head.value.kind in [None, Some(Skipped)])
  {
    ChangeOfOne(files, v, t);
  }

  lemma ChangeOfOne(files: Files, v: Visit, t: LineType)
    ensures Change(files, Unmarked, [v], t)
            == if !Marked(v) && TrackedOnBothSides(files, v)
               then (if HeadLineOf(files, v).value.kind == Some(t) then 1 else 0)
                    - (if BaseLineOf(files, v).value.kind == Some(t) then 1 else 0)
               else 0
  {
    assert [v][..0] == [];
    assert CountBase(files, Unmarked, [v][..0], t) == 0 && CountHead(files, Unmarked, [v][..0], t) == 0;
  }

  lemma ChangeAppends(files: Files, scope: Scope, visits: seq<Visit>, v: Visit, t: LineType)
    ensures Change(files, scope, visits + [v], t) == Change(files, scope, visits, t) + Change(files, scope, [v], t)
  {
    assert (visits + [v])[..|visits|] == visits && [v][..0] == [];
    assert CountBase(files, scope, [v][..0], t) == 0 && CountHead(files, scope, [v][..0], t) == 0;
  }

  lemma ComparedAppends(files: Files, visits: seq<Visit>, v: Visit)
    ensures ComparedAll(files, visits + [v]) == ComparedAll(files, visits) + Compared(files, v)
  {
    assert (visits + [v])[..|visits|] == visits;
  }

  /**
   The summary skips every line that looks changed, so it covers the unchanged code except the
   source lines outside hunks that happen to start with `+` or `-`.
   */
  lemma {:induction false} SummaryScope(files: Files, visits: seq<Visit>, t: LineType)
    ensures Change(files, Unmarked, visits, t)
            == Change(files, Unchanged, visits, t) - Change(files, Masked, visits, t)
  {
    if visits != [] {
      var v := visits[|visits| - 1];
      SummaryScope(files, visits[..|visits| - 1], t);
    }
  }

  /** An unchanged source line `-x` that went from hit to missed does not show in the summary. */
  lemma SummaryMissesMaskedLine()
    ensures var files := Files(Some(ReportFile([Some(ReportLine(Some(Hit)))])), Some(ReportFile([Some(ReportLine(Some(Miss)))])));
            var visits := Listing(FileInfo(["-x"], 0, 0), [], 1, 1);
            Change(files, Unchanged, visits, Miss) == 1 && Change(files, Unmarked, visits, Miss) == 0
  {
    var files := Files(Some(ReportFile([Some(ReportLine(Some(Hit)))])), Some(ReportFile([Some(ReportLine(Some(Miss)))])));
    var v := Visit(Some(1), Some(1), Some("-x"), false);
    var f := FileInfo(["-x"], 0, 0);
    assert Gap(f, 2, 2, 0) == [] && Gap(f, 1, 1, 1) == [v];
    assert [v][..0] == [];
    assert CountHead(files, Unchanged, [], Miss) == CountBase(files, Unchanged, [], Miss) == 0;
    assert CountHead(files, Unmarked, [], Miss) == CountBase(files, Unmarked, [], Miss) == 0;
  }

  /** Without source nothing is masked, and the summary is about all the unchanged code. */
  lemma {:induction false} SummaryWithoutSource(files: Files, visits: seq<Visit>, t: LineType)
    requires forall i :: 0 <= i < |visits| && !visits[i].isDiff ==> visits[i].value.None?
    ensures Change(files, Unmarked, visits, t) == Change(files, Unchanged, visits, t)
  {
    if visits != [] {
      SummaryWithoutSource(files, visits[..|visits| - 1], t);
    }
  }

  /** Unchanged lines have a number in both files. */
  lemma {:induction false} UnchangedHasNumbers(f: FileInfo, s: State, n: nat)
    ensures forall i :: 0 <= i < |Visits(f, s, n)| ==> var v := Visits(f, s, n)[i];
              InScope(Unchanged, v) ==> v.base.Some? && v.head.Some?
    decreases n
  {
    if n > 0 && !Finished(f, s) && CanPop(f, s) {
      var (v, t) := Step(f, s);
      UnchangedHasNumbers(f, t, n - 1);
      assert Visits(f, s, n) == [v] + Visits(f, t, n - 1);
    }
  }

  lemma {:induction false} NothingMasked(files: Files, visits: seq<Visit>, t: LineType)
    requires forall i :: 0 <= i < |visits| ==> !InScope(Masked, visits[i])
    ensures Change(files, Masked, visits, t) == 0
  {
    if visits != [] {
      NothingMasked(files, visits[..|visits| - 1], t);
    }
  }

  lemma MaskedExactlyWhen(v: Visit)
    ensures InScope(Masked, v) <==> !v.isDiff && v.value.Some? && (['+'] <= v.value.value || ['-'] <= v.value.value)
  {
  }

  /** A report on one line only. */
  function OneLine(ln: nat, kind: LineType): ReportFile {
    var size := if ln == 0 then 1 else ln;
    ReportFile(seq(size, i => if i == size - 1 then Some(ReportLine(Some(kind))) else None))
  }

  lemma OneLineIs(n: nat, kind: LineType, ln: Option<nat>)
    ensures GetLine(Some(OneLine(n, kind)), Some(n)) == Some(ReportLine(Some(kind)))
    ensures var line := GetLine(Some(OneLine(n, kind)), ln); line.Some? ==> line.value.kind == Some(kind)
  {
  }

  lemma {:induction false} MaskedLineCounts(b: nat, h: nat, visits: seq<Visit>, i: nat)
    requires i < |visits| && InScope(Masked, visits[i]) && visits[i].base == Some(b) && visits[i].head == Some(h)
    ensures var files := Files(Some(OneLine(b, Hit)), Some(OneLine(h, Miss)));
            CountBase(files, Masked, visits, Miss) == 0 < CountHead(files, Masked, visits, Miss)
  {
    var files := Files(Some(OneLine(b, Hit)), Some(OneLine(h, Miss)));
    var init, v := visits[..|visits| - 1], visits[|visits| - 1];
    NoBaseMisses(b, files, visits);
    hide OneLine;
    if i < |init| {
      MaskedLineCounts(b, h, init, i);
    } else {
      OneLineIs(b, Hit, v.base);
      OneLineIs(h, Miss, v.head);
    }
  }

  lemma {:induction false} NoBaseMisses(b: nat, files: Files, visits: seq<Visit>)
    requires files.base == Some(OneLine(b, Hit))
    ensures CountBase(files, Masked, visits, Miss) == 0
  {
    hide OneLine;
    if visits != [] {
      NoBaseMisses(b, files, visits[..|visits| - 1]);
      OneLineIs(b, Hit, visits[|visits| - 1].base);
    }
  }

  /**
   The summary of a walk is about its unchanged code, whatever the reports say, exactly when none of
   its unchanged lines begins with `+` or `-`.
   */
  lemma SummaryIsExactWhen(f: FileInfo, s: State, n: nat)
    ensures var visits := Visits(f, s, n);
            (forall files, t :: Change(files, Unmarked, visits, t) == Change(files, Unchanged, visits, t))
            <==> forall i :: 0 <= i < |visits| && !visits[i].isDiff && visits[i].value.Some? ==>
                   !(['+'] <= visits[i].value.value) && !(['-'] <= visits[i].value.value)
  {
    var visits := Visits(f, s, n);
    UnchangedHasNumbers(f, s, n);
    forall i | 0 <= i < |visits|
      ensures InScope(Masked, visits[i])
              <==> && !visits[i].isDiff && visits[i].value.Some?
                   && (['+'] <= visits[i].value.value || ['-'] <= visits[i].value.value)
    {
      MaskedExactlyWhen(visits[i]);
    }
    hide InScope;
    if i :| 0 <= i < |visits| && InScope(Masked, visits[i]) {
      var b, h := visits[i].base.value, visits[i].head.value;
      var files := Files(Some(OneLine(b, Hit)), Some(OneLine(h, Miss)));
      MaskedLineCounts(b, h, visits, i);
      SummaryScope(files, visits, Miss);
    } else {
      forall files, t ensures Change(files, Unmarked, visits, t) == Change(files, Unchanged, visits, t) {
        NothingMasked(files, visits, t);
        SummaryScope(files, visits, t);
      }
    }
  }
}
