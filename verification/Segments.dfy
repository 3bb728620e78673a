/** Regrouping the compared lines of a file into padded segments. */
module Segments {
  import opened Basics
  import opened UnifiedDiff
  import opened Visitors
  import opened Numbering

  /** How many lines around its lines of interest a segment shows. */
  const PADDING_LINES := 3

  /** Neighbouring lines of interest that are further apart go to different segments. */
  const LINE_DISTANCE := 6

  predicate Interesting(line: LineComparison) {
    line.CoverageChanged() || line.Added() || line.Removed()
  }

  /** The first and the last line of interest of a segment. */
  datatype Core = Core(first: nat, last: nat) {
    function Lo(): nat {
      if first < PADDING_LINES then 0 else first - PADDING_LINES
    }

    /** The line behind the segment, in a file of `n` lines. */
    function End(n: nat): nat {
      if last + PADDING_LINES + 1 <= n then last + PADDING_LINES + 1 else n
    }
  }

  predicate InterestingAt(lines: seq<LineComparison>, i: int) {
    0 <= i < |lines| && Interesting(lines[i])
  }

  predicate InCore(c: Core, i: int) {
    c.first <= i <= c.last
  }

  predicate InSegment(c: Core, n: nat, i: int) {
    c.Lo() <= i < c.End(n)
  }

  /** The next line of interest is at most `LINE_DISTANCE` away and still in the core. */
  predicate Continues(lines: seq<LineComparison>, c: Core, i: int) {
    exists j :: i < j <= i + LINE_DISTANCE && j <= c.last && InterestingAt(lines, j)
  }

  /**
   The cores of a file's segments: lines of interest, each in a core; neighbours in a core are
   close to each other and neighbouring cores are not.
   */
  ghost predicate Segmentation(lines: seq<LineComparison>, cores: seq<Core>) {
    && (forall k :: 0 <= k < |cores| ==>
          cores[k].first <= cores[k].last && InterestingAt(lines, cores[k].first) && InterestingAt(lines, cores[k].last))
    && (forall k, l :: 0 <= k < l < |cores| ==> cores[k].last + LINE_DISTANCE < cores[l].first)
    && (forall i {:trigger Owned(cores, i)} :: InterestingAt(lines, i) ==> Owned(cores, i))
    && (forall k, i {:trigger Continues(lines, cores[k], i)} ::
          0 <= k < |cores| && InCore(cores[k], i) && InterestingAt(lines, i) && i < cores[k].last ==>
          Continues(lines, cores[k], i))
  }

  predicate Owned(cores: seq<Core>, i: int) {
    exists k :: 0 <= k < |cores| && InCore(cores[k], i)
  }

  lemma {:induction false} NearestBefore(lines: seq<LineComparison>, first: nat, i: nat) returns (x: nat)
    requires first <= i && InterestingAt(lines, first)
    ensures first <= x <= i && InterestingAt(lines, x) && forall j :: x < j <= i ==> !InterestingAt(lines, j)
    decreases i
  {
    if InterestingAt(lines, i) {
      x := i;
    } else {
      x := NearestBefore(lines, first, i - 1);
    }
  }

  /** A line is in some segment exactly when it is within the padding of a line of interest. */
  lemma SegmentsCoverNeighbourhoods(lines: seq<LineComparison>, cores: seq<Core>, i: nat)
    requires Segmentation(lines, cores) && i < |lines|
    ensures (exists k :: 0 <= k < |cores| && InSegment(cores[k], |lines|, i))
            <==> exists j :: i - 3 <= j <= i + 3 && InterestingAt(lines, j)
  {
    if k :| 0 <= k < |cores| && InSegment(cores[k], |lines|, i) {
      var c := cores[k];
      if i < c.first {
        assert InterestingAt(lines, c.first);
      } else if c.last < i {
        assert InterestingAt(lines, c.last);
      } else {
        var x := NearestBefore(lines, c.first, i);
        if x < c.last {
          assert Continues(lines, c, x);
          var y :| x < y <= x + LINE_DISTANCE && y <= c.last && InterestingAt(lines, y);
        }
      }
    }
    if j :| i - PADDING_LINES <= j <= i + PADDING_LINES && InterestingAt(lines, j) {
      assert Owned(cores, j);
      var k :| 0 <= k < |cores| && InCore(cores[k], j);
      assert InSegment(cores[k], |lines|, i);
    }
  }

  /** Segments ascend without overlap, because the distance is twice the padding. */
  lemma SegmentsAreDisjoint(lines: seq<LineComparison>, cores: seq<Core>, k: nat, l: nat)
    requires Segmentation(lines, cores) && k < l < |cores|
    ensures cores[k].Lo() < cores[k].End(|lines|) <= cores[l].Lo() < cores[l].End(|lines|) <= |lines|
  {
  }

  /** Each line of interest is in exactly one segment. */
  lemma InterestIsInOneSegment(lines: seq<LineComparison>, cores: seq<Core>, i: nat)
    requires Segmentation(lines, cores) && InterestingAt(lines, i)
    ensures exists k :: 0 <= k < |cores| && InSegment(cores[k], |lines|, i)
                        && forall l :: 0 <= l < |cores| && InSegment(cores[l], |lines|, i) ==> l == k
  {
    assert Owned(cores, i);
    var k :| 0 <= k < |cores| && InCore(cores[k], i);
    assert InSegment(cores[k], |lines|, i);
    forall l | 0 <= l < |cores| && InSegment(cores[l], |lines|, i) ensures l == k {
    }
  }

  /** Neighbouring lines of interest share a segment exactly when they are close enough. */
  lemma NeighboursShareSegment(lines: seq<LineComparison>, cores: seq<Core>, i: nat, j: nat)
    requires Segmentation(lines, cores) && i < j && InterestingAt(lines, i) && InterestingAt(lines, j)
    requires forall x :: i < x < j ==> !InterestingAt(lines, x)
    ensures (exists k :: 0 <= k < |cores| && InCore(cores[k], i) && InCore(cores[k], j)) <==> j - i <= 6
  {
    assert Owned(cores, i) && Owned(cores, j);
    var k :| 0 <= k < |cores| && InCore(cores[k], i);
    var l :| 0 <= l < |cores| && InCore(cores[l], j);
    if k == l {
      assert Continues(lines, cores[k], i);
    }
  }

  /** Padding lines are not lines of interest. */
  lemma PaddingIsPlain(lines: seq<LineComparison>, cores: seq<Core>, k: nat, i: nat)
    requires Segmentation(lines, cores) && k < |cores|
    requires InSegment(cores[k], |lines|, i) && !InCore(cores[k], i)
    ensures !InterestingAt(lines, i)
  {
    assert InterestingAt(lines, i) ==> Owned(cores, i);
  }

  // ---------------------------------------------------------------------------------------------
  // The regrouping loops

  predicate Ascending(nums: seq<nat>) {
    forall i, j :: 0 <= i < j < |nums| ==> nums[i] < nums[j]
  }

  /** The numbers of the lines of interest, in order. */
  method LineNumbers(lines: seq<LineComparison>) returns (nums: seq<nat>)
    ensures Ascending(nums)
    ensures forall i: nat :: i in nums <==> InterestingAt(lines, i)
    ensures forall i: nat :: i in nums <==>
              i < |lines| &&
              var line := lines[i];
              || line.BaseCoverage() != line.HeadCoverage()
              || (line.isDiff && (['+'] <= line.value || ['-'] <= line.value))
  {
    nums := [];
    for idx := 0 to |lines|
      invariant Ascending(nums)
      invariant forall i: nat :: i in nums <==> i < idx && InterestingAt(lines, i)
      invariant forall i :: 0 <= i < |nums| ==> nums[i] < idx
    {
      var line := lines[idx];
      if line.BaseCoverage() != line.HeadCoverage() || line.Added() || line.Removed() {
        nums := nums + [idx];
      }
    }
  }

  predicate Close(group: seq<nat>) {
    && group != []
    && forall j :: 0 <= j < |group| - 1 ==> group[j] < group[j + 1] <= group[j] + LINE_DISTANCE
  }

  predicate Grouped(groups: seq<seq<nat>>) {
    && (forall k :: 0 <= k < |groups| ==> Close(groups[k]))
    && (forall k :: 0 <= k < |groups| - 1 ==> groups[k][|groups[k]| - 1] + LINE_DISTANCE < groups[k + 1][0])
  }

  function Flatten(groups: seq<seq<nat>>): seq<nat> {
    if groups == [] then [] else Flatten(groups[..|groups| - 1]) + groups[|groups| - 1]
  }

  /** The groups with `x` in the last group or in a group of its own. */
  function Extended(groups: seq<seq<nat>>, x: nat, join: bool): seq<seq<nat>>
    requires groups != []
  {
    if join then groups[..|groups| - 1] + [groups[|groups| - 1] + [x]] else groups + [[x]]
  }

  lemma ExtendedIsGrouped(groups: seq<seq<nat>>, x: nat, join: bool)
    requires groups != [] && Grouped(groups)
    requires var g := groups[|groups| - 1]; g[|g| - 1] < x && (join <==> x - g[|g| - 1] <= LINE_DISTANCE)
    ensures var e := Extended(groups, x, join);
            && Grouped(e) && Flatten(e) == Flatten(groups) + [x]
            && e[|e| - 1] != [] && e[|e| - 1][|e[|e| - 1]| - 1] == x
  {
    ExtendedFlattens(groups, x, join);
    if join {
      JoinedIsGrouped(groups, x);
    } else {
      AppendedIsGrouped(groups, x);
    }
    hide Grouped, Flatten;
  }

  lemma JoinedIsGrouped(groups: seq<seq<nat>>, x: nat)
    requires groups != [] && Grouped(groups)
    requires var g := groups[|groups| - 1]; g[|g| - 1] < x <= g[|g| - 1] + LINE_DISTANCE
    ensures Grouped(Extended(groups, x, true))
  {
    var e, last := Extended(groups, x, true), |groups| - 1;
    CloseExtends(groups[last], x);
    hide Close;
    assert e[last] == groups[last] + [x];
    assert forall k :: 0 <= k < last ==> e[k] == groups[k];
  }

  lemma AppendedIsGrouped(groups: seq<seq<nat>>, x: nat)
    requires groups != [] && Grouped(groups)
    requires var g := groups[|groups| - 1]; g[|g| - 1] + LINE_DISTANCE < x
    ensures Grouped(Extended(groups, x, false))
  {
    var e := Extended(groups, x, false);
    assert Close([x]);
    hide Close;
    assert e[|groups|] == [x];
    assert forall k :: 0 <= k < |groups| ==> e[k] == groups[k];
  }

  lemma CloseExtends(group: seq<nat>, x: nat)
    requires Close(group) && group[|group| - 1] < x <= group[|group| - 1] + LINE_DISTANCE
    ensures Close(group + [x])
  {
  }

  lemma ExtendedFlattens(groups: seq<seq<nat>>, x: nat, join: bool)
    requires groups != []
    ensures Flatten(Extended(groups, x, join)) == Flatten(groups) + [x]
  {
    var e, last := Extended(groups, x, join), |groups| - 1;
    if join {
      assert e[..last] == groups[..last];
      assert Flatten(e) == Flatten(groups[..last]) + (groups[last] + [x]);
    } else {
      assert e[..|groups|] == groups;
    }
  }

  lemma FirstGroup(x: nat)
    ensures Grouped([[x]]) && Flatten([[x]]) == [x]
  {
    var groups: seq<seq<nat>> := [[x]];
    assert groups[..0] == [];
    assert Flatten(groups) == Flatten(groups[..0]) + groups[0];
  }

  method Placed(groups: seq<seq<nat>>, x: nat, last: nat) returns (extended: seq<seq<nat>>)
    requires groups != [] && Grouped(groups) && last < x
    requires var g := groups[|groups| - 1]; g[|g| - 1] == last
    ensures Grouped(extended) && Flatten(extended) == Flatten(groups) + [x]
    ensures extended != [] && var g := extended[|extended| - 1]; g != [] && g[|g| - 1] == x
  {
    ExtendedIsGrouped(groups, x, x - last <= LINE_DISTANCE);
    if x - last <= LINE_DISTANCE {
      extended := groups[..|groups| - 1] + [groups[|groups| - 1] + [x]];
    } else {
      extended := groups + [[x]];
    }
  }

  /** Splits the line numbers where neighbours are further apart than the line distance. */
  method SegmentedLines(nums: seq<nat>) returns (groups: seq<seq<nat>>)
    requires Ascending(nums)
    ensures Grouped(groups) && Flatten(groups) == nums
  {
    groups := [];
    assert Grouped(groups) && Flatten(groups) == [];
    hide Grouped, Flatten, Close;
    if |nums| > 0 {
      groups := [[nums[0]]];
      FirstGroup(nums[0]);
      assert nums[..1] == [nums[0]];
      for i := 1 to |nums|
        invariant Grouped(groups) && Flatten(groups) == nums[..i]
        invariant groups != [] && var g := groups[|groups| - 1]; g != [] && g[|g| - 1] == nums[i - 1]
      {
        assert nums[..i + 1] == nums[..i] + [nums[i]];
        groups := Placed(groups, nums[i], nums[i - 1]);
      }
      assert nums[..|nums|] == nums;
    }
  }

  function CoreOf(group: seq<nat>): Core
    requires group != []
  {
    Core(group[0], group[|group| - 1])
  }

  ghost function CoresOf(groups: seq<seq<nat>>): seq<Core>
    requires Grouped(groups)
  {
    seq(|groups|, k requires 0 <= k < |groups| => CoreOf(groups[k]))
  }

  lemma {:induction false} CloseAscends(group: seq<nat>, i: nat, j: nat)
    requires Close(group) && i <= j < |group|
    ensures group[i] + (j - i) <= group[j]
    decreases j - i
  {
    if i < j {
      CloseAscends(group, i, j - 1);
    }
  }

  lemma {:induction false} GroupsAscend(groups: seq<seq<nat>>, k: nat, l: nat)
    requires Grouped(groups) && k < l < |groups|
    ensures groups[k][|groups[k]| - 1] + LINE_DISTANCE < groups[l][0]
    decreases l - k
  {
    if k + 1 < l {
      GroupsAscend(groups, k, l - 1);
      CloseAscends(groups[l - 1], 0, |groups[l - 1]| - 1);
    }
  }

  lemma {:induction false} InFlatten(groups: seq<seq<nat>>, x: nat)
    ensures x in Flatten(groups) <==> exists k :: 0 <= k < |groups| && x in groups[k]
  {
    if groups != [] {
      var last := |groups| - 1;
      InFlatten(groups[..last], x);
      if x in Flatten(groups[..last]) {
        var k :| 0 <= k < |groups[..last]| && x in groups[..last][k];
        assert x in groups[k];
      }
      if k :| 0 <= k < |groups| && x in groups[k] {
        if k < last {
          assert x in groups[..last][k];
        }
      }
    }
  }

  /** The groups hold the lines of interest, and nothing else. */
  ghost predicate GroupsOf(lines: seq<LineComparison>, groups: seq<seq<nat>>) {
    Grouped(groups) && forall i: nat :: i in Flatten(groups) <==> InterestingAt(lines, i)
  }

  lemma CoreIsInteresting(lines: seq<LineComparison>, groups: seq<seq<nat>>, k: nat)
    requires GroupsOf(lines, groups) && k < |groups|
    ensures var c := CoreOf(groups[k]);
            c.first <= c.last && InterestingAt(lines, c.first) && InterestingAt(lines, c.last)
  {
    var g := groups[k];
    CloseAscends(g, 0, |g| - 1);
    InFlatten(groups, g[0]);
    InFlatten(groups, g[|g| - 1]);
  }

  lemma CoreContinues(lines: seq<LineComparison>, groups: seq<seq<nat>>, k: nat, i: nat)
    requires GroupsOf(lines, groups) && k < |groups|
    requires var c := CoreOf(groups[k]); InCore(c, i) && InterestingAt(lines, i) && i < c.last
    ensures Continues(lines, CoreOf(groups[k]), i)
  {
    var l, j := Locate(lines, groups, i);
    if l < k {
      GroupsAscend(groups, l, k);
    } else if k < l {
      GroupsAscend(groups, k, l);
    }
    var g := groups[k];
    CloseAscends(g, j + 1, |g| - 1);
    InFlatten(groups, g[j + 1]);
    assert i < g[j + 1] <= i + LINE_DISTANCE && g[j + 1] <= CoreOf(g).last && InterestingAt(lines, g[j + 1]);
  }

  lemma GroupsAreSegmentation(lines: seq<LineComparison>, groups: seq<seq<nat>>)
    requires GroupsOf(lines, groups)
    ensures Segmentation(lines, CoresOf(groups))
  {
    hide Close, Continues, Interesting, Flatten;
    var cores := CoresOf(groups);
    forall k | 0 <= k < |cores|
      ensures cores[k].first <= cores[k].last && InterestingAt(lines, cores[k].first) && InterestingAt(lines, cores[k].last)
    {
      CoreIsInteresting(lines, groups, k);
    }
    forall k, l | 0 <= k < l < |cores| ensures cores[k].last + LINE_DISTANCE < cores[l].first {
      GroupsAscend(groups, k, l);
    }
    forall i | InterestingAt(lines, i) ensures Owned(cores, i) {
      var k, j := Locate(lines, groups, i);
      assert InCore(cores[k], i);
    }
    forall k, i | 0 <= k < |cores| && InCore(cores[k], i) && InterestingAt(lines, i) && i < cores[k].last
      ensures Continues(lines, cores[k], i)
    {
      CoreContinues(lines, groups, k, i);
    }
  }

  lemma Locate(lines: seq<LineComparison>, groups: seq<seq<nat>>, i: nat) returns (k: nat, j: nat)
    requires GroupsOf(lines, groups) && InterestingAt(lines, i)
    ensures k < |groups| && j < |groups[k]| && groups[k][j] == i
    ensures groups[k][0] <= i <= groups[k][|groups[k]| - 1]
  {
    InFlatten(groups, i);
    k :| 0 <= k < |groups| && i in groups[k];
    j :| 0 <= j < |groups[k]| && groups[k][j] == i;
    CloseAscends(groups[k], 0, j);
    CloseAscends(groups[k], j, |groups[k]| - 1);
  }

  // ---------------------------------------------------------------------------------------------
  // Segments

  /** A recomputed hunk header: start and count on both sides. */
  datatype HunkHeader = HunkHeader(baseStart: nat, baseCount: nat, headStart: nat, headCount: nat)

  function LineMark(line: LineComparison): Mark {
    Mark(line.LineKind(), line.BaseNumber(), line.HeadNumber())
  }

  function LineMarks(lines: seq<LineComparison>): seq<Mark> {
    seq(|lines|, i requires 0 <= i < |lines| => LineMark(lines[i]))
  }

  function FirstOr0(numbers: seq<nat>): nat {
    if numbers == [] then 0 else numbers[0]
  }

  lemma NothingCounted()
    ensures BaseCount([]) == 0 == HeadCount([]) && BaseNumbers([]) == [] == HeadNumbers([])
  {
  }

  lemma OneMoreCounted(marks: seq<Mark>, i: nat)
    requires i < |marks|
    ensures BaseCount(marks[..i + 1]) == BaseCount(marks[..i]) + BaseStep(marks[i].kind)
    ensures HeadCount(marks[..i + 1]) == HeadCount(marks[..i]) + HeadStep(marks[i].kind)
    ensures BaseNumbers(marks[..i + 1]) == BaseNumbers(marks[..i]) + if marks[i].base.Some? then [marks[i].base.value] else []
    ensures HeadNumbers(marks[..i + 1]) == HeadNumbers(marks[..i]) + if marks[i].head.Some? then [marks[i].head.value] else []
  {
    assert marks[..i + 1][..i] == marks[..i] && marks[..i + 1][i] == marks[i];
  }

  class Segment {
    var lines: seq<LineComparison>

    constructor (lines: seq<LineComparison>)
      ensures this.lines == lines
    {
      this.lines := lines;
    }

    method Header() returns (header: HunkHeader)
      ensures var m := LineMarks(lines);
              header == HunkHeader(FirstOr0(BaseNumbers(m)), BaseCount(m), FirstOr0(HeadNumbers(m)), HeadCount(m))
    {
      var baseStart, headStart: Option<nat> := None, None;
      var numRemoved, numAdded, numContext := 0, 0, 0;
      var i := 0;
      ghost var marks := LineMarks(lines);
      hide BaseCount, HeadCount, BaseNumbers, HeadNumbers;
      NothingCounted();
      assert marks[..0] == [];
      while i < |lines|
        invariant 0 <= i <= |lines|
        invariant numContext + numRemoved == BaseCount(marks[..i]) && numContext + numAdded == HeadCount(marks[..i])
        invariant baseStart.Some? <==> BaseNumbers(marks[..i]) != []
        invariant headStart.Some? <==> HeadNumbers(marks[..i]) != []
        invariant baseStart.Some? ==> baseStart.value == BaseNumbers(marks[..i])[0]
        invariant headStart.Some? ==> headStart.value == HeadNumbers(marks[..i])[0]
      {
        var line := lines[i];
        OneMoreCounted(marks, i);
        assert marks[i] == LineMark(line);
        if baseStart.None? && line.BaseNumber().Some? {
          baseStart := line.BaseNumber();
        }
        if headStart.None? && line.HeadNumber().Some? {
          headStart := line.HeadNumber();
        }
        if line.Added() {
          numAdded := numAdded + 1;
        } else if line.Removed() {
          numRemoved := numRemoved + 1;
        } else {
          numContext := numContext + 1;
        }
        i := i + 1;
      }
      assert marks[..|lines|] == marks;
      header := HunkHeader(if baseStart.Some? then baseStart.value else 0, numContext + numRemoved,
                                if headStart.Some? then headStart.value else 0, numContext + numAdded);
    }

    method HasDiffChanges() returns (result: bool)
      ensures result <==> exists i :: 0 <= i < |lines| && lines[i].isDiff && (['+'] <= lines[i].value || ['-'] <= lines[i].value)
    {
      for i := 0 to |lines|
        invariant forall j :: 0 <= j < i ==> !(lines[j].isDiff && (['+'] <= lines[j].value || ['-'] <= lines[j].value))
      {
        if lines[i].Added() || lines[i].Removed() {
          return true;
        }
      }
      return false;
    }

    method HasUnintendedChanges() returns (result: bool)
      ensures result <==> exists i :: 0 <= i < |lines| && Unintended(lines[i])
    {
      for i := 0 to |lines|
        invariant forall j :: 0 <= j < i ==> !Unintended(lines[j])
      {
        var headCoverage, baseCoverage := lines[i].BaseCoverage(), lines[i].HeadCoverage();
        if !(lines[i].Added() || lines[i].Removed()) && baseCoverage != headCoverage {
          return true;
        }
      }
      return false;
    }

    method RemoveUnintendedChanges()
      modifies this
      ensures lines == Intended(old(lines))
    {
      var filtered: seq<LineComparison> := [];
      var i := 0;
      while i < |lines|
        invariant 0 <= i <= |lines| && filtered == Intended(lines[..i])
      {
        var line := lines[i];
        assert lines[..i + 1][..i] == lines[..i];
        if (line.Added() || line.Removed()) || line.BaseCoverage() == line.HeadCoverage() {
          filtered := filtered + [line];
        }
        i := i + 1;
      }
      assert lines[..|lines|] == lines;
      lines := filtered;
    }
  }

  /** Coverage changed although the code did not. */
  predicate Unintended(line: LineComparison) {
    line.LineKind() == Context && line.CoverageChanged()
  }

  /** A line is an unintended change when it is no changed line of a hunk but its coverage differs. */
  lemma UnintendedExactlyWhen(line: LineComparison)
    ensures Unintended(line)
            <==> !(line.isDiff && (['+'] <= line.value || ['-'] <= line.value)) && line.BaseCoverage() != line.HeadCoverage()
  {
  }

  function Intended(lines: seq<LineComparison>): seq<LineComparison> {
    if lines == [] then []
    else Intended(lines[..|lines| - 1]) + if Unintended(lines[|lines| - 1]) then [] else [lines[|lines| - 1]]
  }

  lemma MultiplicityAppend(s: seq<LineComparison>, t: seq<LineComparison>, line: LineComparison)
    ensures multiset(s + t)[line] == multiset(s)[line] + multiset(t)[line]
  {
    assert multiset(s + t) == multiset(s) + multiset(t);
  }

  /** Removing unintended changes leaves every other line, and nothing that counts as unintended. */
  lemma {:induction false} IntendedKeepsTheRest(lines: seq<LineComparison>, line: LineComparison)
    ensures multiset(Intended(lines))[line]
            == if !(line.isDiff && (['+'] <= line.value || ['-'] <= line.value)) && line.BaseCoverage() != line.HeadCoverage() then 0
               else multiset(lines)[line]
  {
    UnintendedExactlyWhen(line);
    hide Unintended;
    if lines != [] {
      var init, last := lines[..|lines| - 1], lines[|lines| - 1];
      var kept := if Unintended(last) then [] else [last];
      assert lines == init + [last];
      assert Intended(lines) == Intended(init) + kept;
      hide *;
      IntendedKeepsTheRest(init, line);
      MultiplicityAppend(Intended(init), kept, line);
      MultiplicityAppend(init, [last], line);
      OneOrNone(last, line);
    }
  }

  lemma OneOrNone(x: LineComparison, line: LineComparison)
    ensures multiset([x])[line] == if x == line then 1 else 0
    ensures multiset([])[line] == 0
  {
  }

  /** The segments of a file's lines; `cores` names their lines of interest. */
  method FileSegments(lines: Option<seq<LineComparison>>) returns (segments: seq<Segment>, cores: seq<Core>)
    ensures lines.None? ==> segments == []
    ensures lines.Some? ==> Segmentation(lines.value, cores) && |segments| == |cores|
    ensures lines.Some? ==> forall k :: 0 <= k < |segments| ==>
              && fresh(segments[k])
              && cores[k].Lo() < cores[k].End(|lines.value|) <= |lines.value|
              && segments[k].lines == lines.value[cores[k].Lo()..cores[k].End(|lines.value|)]
  {
    segments, cores := [], [];
    if lines.None? {
      return;
    }
    var all := lines.value;
    var lineNumbers := LineNumbers(all);
    var groups := SegmentedLines(lineNumbers);
    NumbersMakeGroups(all, lineNumbers, groups);
    hide *;
    GroupsAreSegmentation(all, groups);
    CoresInFile(all, groups);
    segments, cores := PaddedSegments(all, groups);
  }

  lemma NumbersMakeGroups(lines: seq<LineComparison>, nums: seq<nat>, groups: seq<seq<nat>>)
    requires Grouped(groups) && Flatten(groups) == nums && forall i: nat :: i in nums <==> InterestingAt(lines, i)
    ensures GroupsOf(lines, groups)
  {
  }

  lemma CoresInFile(lines: seq<LineComparison>, groups: seq<seq<nat>>)
    requires Grouped(groups) && Segmentation(lines, CoresOf(groups))
    ensures |CoresOf(groups)| == |groups|
    ensures forall k :: 0 <= k < |groups| ==>
              && Close(groups[k]) && groups[k] != []
              && var c := CoreOf(groups[k]);
              c == CoresOf(groups)[k] && c.first <= c.last < |lines| && c.Lo() < c.End(|lines|) <= |lines|
  {
  }

  method PaddedSegments(lines: seq<LineComparison>, groups: seq<seq<nat>>) returns (segments: seq<Segment>, cores: seq<Core>)
    requires Grouped(groups)
    requires forall k :: 0 <= k < |groups| ==> var c := CoreOf(groups[k]); c.first <= c.last < |lines|
    ensures cores == CoresOf(groups) && |segments| == |cores|
    ensures forall k :: 0 <= k < |segments| ==>
              && fresh(segments[k])
              && segments[k].lines == lines[cores[k].Lo()..cores[k].End(|lines|)]
  {
    segments, cores := [], [];
    for k := 0 to |groups|
      invariant |segments| == |cores| == k
      invariant forall l :: 0 <= l < k ==> cores[l] == CoreOf(groups[l])
      invariant forall l :: 0 <= l < k ==>
          fresh(segments[l]) && segments[l].lines == lines[cores[l].Lo()..cores[l].End(|lines|)]
    {
      var core := CoreOf(groups[k]);
      var segment := new Segment(lines[core.Lo()..core.End(|lines|)]);
      segments := segments + [segment];
      cores := cores + [core];
    }
  }
}
