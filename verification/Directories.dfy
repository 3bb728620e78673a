/** Grouping a flat list of file paths into a tree of directories with summed coverage totals. */
module Directories {
  import opened Basics

  // ---------------------------------------------------------------------------------------------
  // Paths

  predicate HasSlash(s: string) {
    '/' in s
  }

  /** `s.split("/", 1)[0]` */
  function FirstPart(s: string): (part: string)
    ensures !HasSlash(part) && part <= s
    ensures HasSlash(s) <==> |part| < |s|
    ensures HasSlash(s) ==> s[|part|] == '/'
  {
    if s == [] || s[0] == '/' then [] else [s[0]] + FirstPart(s[1..])
  }

  datatype PrefixedPath = PrefixedPath(fullPath: string, prefix: string) {
    function RelativePath(): string {
      if prefix == "" then fullPath
      else if prefix + "/" <= fullPath then fullPath[|prefix| + 1..]
      else fullPath
    }

    predicate IsFile() {
      !HasSlash(RelativePath())
    }

    /** The child of `prefix` that the path is or lies in, as a full path. */
    function BaseName(): string {
      Join(prefix, FirstPart(RelativePath()))
    }
  }

  function Join(prefix: string, name: string): string {
    if prefix == "" then name else prefix + "/" + name
  }

  predicate IsSubpath(fullPath: string, subpath: string) {
    subpath == "" || subpath + "/" <= fullPath || fullPath == subpath
  }

  predicate IsFileAt(path: string, prefix: string) {
    PrefixedPath(path, prefix).IsFile()
  }

  function Base(path: string, prefix: string): string {
    PrefixedPath(path, prefix).BaseName()
  }

  /** The path is inside the directory `prefix`; at the top, it does not start with a slash. */
  predicate Inside(path: string, prefix: string) {
    if prefix == "" then !("/" <= path) else prefix + "/" <= path
  }

  predicate AllInside(paths: seq<string>, prefix: string) {
    forall i :: 0 <= i < |paths| ==> Inside(paths[i], prefix)
  }

  /** The paths differ and none is a directory above another. */
  predicate PrefixFree(paths: seq<string>) {
    forall i, j :: 0 <= i < |paths| && 0 <= j < |paths| && i != j ==> paths[i] != paths[j] && !(paths[i] + "/" <= paths[j])
  }

  // ---------------------------------------------------------------------------------------------
  // Groups

  function Bases(paths: seq<string>, prefix: string): seq<string> {
    if paths == [] then [] else Bases(paths[..|paths| - 1], prefix) + [Base(paths[|paths| - 1], prefix)]
  }

  /** The distinct elements in the order in which they are first seen. */
  function FirstSeen(s: seq<string>): seq<string> {
    if s == [] then []
    else
      var init, x := FirstSeen(s[..|s| - 1]), s[|s| - 1];
      if x in init then init else init + [x]
  }

  function Keys(paths: seq<string>, prefix: string): seq<string> {
    FirstSeen(Bases(paths, prefix))
  }

  /** The paths with a given base name, in order. */
  function Select(paths: seq<string>, prefix: string, key: string): seq<string> {
    if paths == [] then []
    else
      var p := paths[|paths| - 1];
      Select(paths[..|paths| - 1], prefix, key) + if Base(p, prefix) == key then [p] else []
  }

  /** The keys are the base names of the paths, each once. */
  lemma {:induction false} KeysAreBases(paths: seq<string>, prefix: string)
    ensures forall k :: k in Keys(paths, prefix) <==> Select(paths, prefix, k) != []
    ensures Distinct(Keys(paths, prefix))
  {
    if paths != [] {
      var init, p := paths[..|paths| - 1], paths[|paths| - 1];
      KeysAreBases(init, prefix);
      assert paths == init + [p];
      KeysStayBases(init, prefix, p);
    }
  }

  /** Base names come in the order in which they first occur. */
  lemma {:induction false} KeysAreInOrder(paths: seq<string>, prefix: string, i: nat, j: nat) returns (x: nat)
    requires i < j < |Keys(paths, prefix)|
    ensures x < |paths| && Base(paths[x], prefix) == Keys(paths, prefix)[i]
    ensures forall y :: 0 <= y < |paths| && Base(paths[y], prefix) == Keys(paths, prefix)[j] ==> x < y
  {
    hide *;
    if paths == [] {
      NoKeys(prefix);
    } else {
      var init, p := paths[..|paths| - 1], paths[|paths| - 1];
      assert paths == init + [p];
      KeysAppend(init, prefix, p);
      if j < |Keys(init, prefix)| {
        x := KeysAreInOrder(init, prefix, i, j);
      } else {
        KeysAreBases(init, prefix);
        assert Keys(init, prefix)[i] in Keys(init, prefix);
        x := SelectMembers(init, prefix, Keys(init, prefix)[i], 0);
        NewBase(init, prefix, Base(p, prefix));
      }
    }
  }

  lemma NoKeys(prefix: string)
    ensures Keys([], prefix) == []
  {
  }

  lemma NewBase(paths: seq<string>, prefix: string, key: string)
    requires key !in Keys(paths, prefix)
    ensures forall y :: 0 <= y < |paths| ==> Base(paths[y], prefix) != key
  {
    KeysAreBases(paths, prefix);
    hide Base, Keys, Select;
    forall y | 0 <= y < |paths| ensures Base(paths[y], prefix) != key {
      if Base(paths[y], prefix) == key {
        var i := SelectKeeps(paths, prefix, key, y);
      }
    }
  }

  lemma KeysStayBases(paths: seq<string>, prefix: string, p: string)
    requires forall k :: k in Keys(paths, prefix) <==> Select(paths, prefix, k) != []
    requires Distinct(Keys(paths, prefix))
    ensures forall k :: k in Keys(paths + [p], prefix) <==> Select(paths + [p], prefix, k) != []
    ensures Distinct(Keys(paths + [p], prefix))
  {
    hide *;
    KeysAppend(paths, prefix, p);
    DistinctAppend(Keys(paths, prefix), Base(p, prefix));
    forall k ensures k in Keys(paths + [p], prefix) <==> Select(paths + [p], prefix, k) != [] {
      assert k in Keys(paths, prefix) <==> Select(paths, prefix, k) != [];
    }
  }

  lemma DistinctAppend(s: seq<string>, x: string)
    requires Distinct(s)
    ensures x !in s ==> Distinct(s + [x])
  {
  }

  predicate Distinct(s: seq<string>) {
    forall i, j :: 0 <= i < j < |s| ==> s[i] != s[j]
  }

  lemma KeysAppend(paths: seq<string>, prefix: string, p: string)
    ensures Keys(paths + [p], prefix)
            == var keys := Keys(paths, prefix); if Base(p, prefix) in keys then keys else keys + [Base(p, prefix)]
    ensures forall k :: Select(paths + [p], prefix, k) == Select(paths, prefix, k) + if Base(p, prefix) == k then [p] else []
  {
    assert (paths + [p])[..|paths|] == paths;
    var bases := Bases(paths, prefix);
    assert (bases + [Base(p, prefix)])[..|bases|] == bases;
  }

  /** The last path is the last one of its group. */
  lemma SelectLast(paths: seq<string>, prefix: string, key: string) returns (init: seq<string>, group: seq<string>)
    requires Select(paths, prefix, key) != []
    ensures paths != [] && init == paths[..|paths| - 1] && group == Select(init, prefix, key)
    ensures var p := paths[|paths| - 1];
            Select(paths, prefix, key) == group + if Base(p, prefix) == key then [p] else []
  {
    hide Base;
    init := paths[..|paths| - 1];
    group := Select(init, prefix, key);
  }

  lemma {:induction false} SelectMembers(paths: seq<string>, prefix: string, key: string, i: nat) returns (x: nat)
    requires i < |Select(paths, prefix, key)|
    ensures x < |paths| && paths[x] == Select(paths, prefix, key)[i] && Base(paths[x], prefix) == key
    decreases |paths|
  {
    hide *;
    var init, group := SelectLast(paths, prefix, key);
    if i < |group| {
      x := SelectMembers(init, prefix, key, i);
    } else {
      x := |init|;
    }
  }

  /** Different places in a group come from different places in the list. */
  lemma {:induction false} SelectApart(paths: seq<string>, prefix: string, key: string, i: nat, j: nat) returns (x: nat, y: nat)
    requires i < j < |Select(paths, prefix, key)|
    ensures x < y < |paths| && paths[x] == Select(paths, prefix, key)[i] && paths[y] == Select(paths, prefix, key)[j]
    decreases |paths|
  {
    hide *;
    var init, group := SelectLast(paths, prefix, key);
    if j < |group| {
      x, y := SelectApart(init, prefix, key, i, j);
    } else {
      assert i < |group|;
      x := SelectMembers(init, prefix, key, i);
      y := |init|;
    }
  }

  lemma SelectPrefixFree(paths: seq<string>, prefix: string, key: string)
    requires PrefixFree(paths)
    ensures PrefixFree(Select(paths, prefix, key))
  {
    var group := Select(paths, prefix, key);
    forall i, j | 0 <= i < |group| && 0 <= j < |group| && i != j
      ensures group[i] != group[j] && !(group[i] + "/" <= group[j])
    {
      if i < j {
        var x, y := SelectApart(paths, prefix, key, i, j);
      } else {
        var x, y := SelectApart(paths, prefix, key, j, i);
      }
    }
  }

  /** What the base name of a path inside `prefix` looks like. */
  lemma BaseOfInside(path: string, prefix: string)
    requires Inside(path, prefix)
    ensures Base(path, prefix) <= path
    ensures IsFileAt(path, prefix) <==> Base(path, prefix) == path
    ensures !IsFileAt(path, prefix) ==> Base(path, prefix) != "" && Inside(path, Base(path, prefix))
    ensures |prefix| <= |Base(path, prefix)| && (!IsFileAt(path, prefix) ==> |prefix| < |Base(path, prefix)| < |path|)
  {
    var front, part, rest := BaseSplits(path, prefix);
    hide IsFileAt, Base;
    var base := Base(path, prefix);
    assert path == base + rest && |base| == |front| + |part|;
    if rest != "" {
      BelowBase(base, rest);
      hide Inside;
    }
  }

  lemma BelowBase(base: string, rest: string)
    requires base != "" && rest != "" && rest[0] == '/'
    ensures Inside(base + rest, base)
  {
    assert (base + rest)[..|base| + 1] == base + "/";
  }

  /** A path inside `prefix` is the prefix, one component, and what follows the next slash. */
  lemma BaseSplits(path: string, prefix: string) returns (front: string, part: string, rest: string)
    requires Inside(path, prefix)
    ensures front == if prefix == "" then "" else prefix + "/"
    ensures path == front + part + rest && Base(path, prefix) == front + part
    ensures rest != "" ==> rest[0] == '/' && (prefix == "" ==> part != "")
    ensures IsFileAt(path, prefix) <==> rest == ""
  {
    hide *;
    var rel: string;
    front, rel := RelativeSplits(path, prefix);
    part, rest := PartSplits(rel);
    BaseJoins(path, prefix, front, rel);
    Associative(front, part, rest);
    if prefix == "" && rest != "" && part == "" {
      TopStart(path, rest);
    }
  }

  lemma RelativeSplits(path: string, prefix: string) returns (front: string, rel: string)
    requires Inside(path, prefix)
    ensures front == if prefix == "" then "" else prefix + "/"
    ensures path == front + rel && rel == PrefixedPath(path, prefix).RelativePath()
    ensures IsFileAt(path, prefix) <==> !HasSlash(rel)
  {
    front := if prefix == "" then "" else prefix + "/";
    rel := PrefixedPath(path, prefix).RelativePath();
  }

  lemma PartSplits(rel: string) returns (part: string, rest: string)
    ensures part == FirstPart(rel) && rel == part + rest
    ensures rest != "" ==> rest[0] == '/'
    ensures HasSlash(rel) <==> rest != ""
  {
    part := FirstPart(rel);
    hide FirstPart, HasSlash;
    rest := rel[|part|..];
  }

  lemma BaseJoins(path: string, prefix: string, front: string, rel: string)
    requires rel == PrefixedPath(path, prefix).RelativePath()
    requires front == if prefix == "" then "" else prefix + "/"
    ensures Base(path, prefix) == front + FirstPart(rel)
  {
    hide FirstPart;
  }

  lemma TopStart(path: string, rest: string)
    requires Inside(path, "") && path == "" + ("" + rest)
    ensures rest == "" || rest[0] != '/'
  {
  }

  lemma Associative(x: string, y: string, z: string)
    ensures x + (y + z) == x + y + z
  {
  }

  /** A group that is not a single file can be grouped again one directory further down. */
  lemma GroupIsInside(paths: seq<string>, prefix: string, key: string)
    requires AllInside(paths, prefix) && PrefixFree(paths)
    ensures var group := Select(paths, prefix, key);
            && PrefixFree(group)
            && (IsSingleFile(group, prefix) ==> group == [key])
            && (group != [] && !IsSingleFile(group, prefix) ==> AllInside(group, key) && |prefix| < |key|)
  {
    var group := Select(paths, prefix, key);
    SelectPrefixFree(paths, prefix, key);
    forall i | 0 <= i < |group|
      ensures Base(group[i], prefix) == key && Inside(group[i], prefix)
      ensures IsFileAt(group[i], prefix) ==> group[i] == key
      ensures !IsFileAt(group[i], prefix) ==> Inside(group[i], key) && |prefix| < |key| && key != ""
    {
      var x := SelectMembers(paths, prefix, key, i);
      BaseOfInside(group[i], prefix);
    }
    if |group| > 1 {
      forall i | 0 <= i < |group| ensures !IsFileAt(group[i], prefix) {
        var j := if i == 0 then 1 else 0;
        assert group[i] != group[j] && !(group[i] + "/" <= group[j]);
      }
    }
  }

  // ---------------------------------------------------------------------------------------------
  // Which paths can be listed

  /** `a/a/.../a` with `k` components. */
  function Tower(a: string, k: nat): string {
    if k == 0 then "" else Join(Tower(a, k - 1), a)
  }

  predicate Slashless(path: string) {
    !HasSlash(path) && path != ""
  }

  /** A path without a slash that the prefix has outgrown by repeating it: it stays a file. */
  ghost predicate Repeated(path: string, prefix: string) {
    Slashless(path) && exists k: nat :: k > 0 && prefix == Tower(path, k)
  }

  /** The paths differ, and none with a slash is a directory above another. */
  predicate Apart(paths: seq<string>) {
    forall i, j :: 0 <= i < |paths| && 0 <= j < |paths| && i != j ==>
      paths[i] != paths[j] && (HasSlash(paths[i]) ==> !(paths[i] + "/" <= paths[j]))
  }

  ghost predicate NoTowers(paths: seq<string>) {
    forall i, j, m: nat :: 0 <= i < |paths| && 0 <= j < |paths| && m >= 2 && Slashless(paths[i]) ==>
      paths[j] != Tower(paths[i], m)
  }

  /** Exactly the paths that can be listed; see `RecursionEndsExactlyWhen`. */
  ghost predicate Fits(paths: seq<string>, prefix: string) {
    && (forall i :: 0 <= i < |paths| ==> Inside(paths[i], prefix) || Repeated(paths[i], prefix))
    && Apart(paths) && NoTowers(paths)
  }

  lemma {:induction false} TowerShape(a: string, k: nat)
    requires k > 0 && Slashless(a)
    ensures Tower(a, k) != "" && |a| <= |Tower(a, k)| && FirstPart(Tower(a, k)) == a
    ensures k == 1 ==> Tower(a, k) == a
    ensures k > 1 ==> Inside(Tower(a, k), a) && HasSlash(Tower(a, k))
  {
    if k == 1 {
      assert Tower(a, 0) == "" && Tower(a, 1) == a;
    } else {
      TowerShape(a, k - 1);
      var t := Tower(a, k - 1);
      assert Tower(a, k) == t + "/" + a;
      assert (t + "/" + a)[|t|] == '/';
      if k == 2 {
        assert a + "/" <= Tower(a, k);
        FirstPartOfAbove(a, Tower(a, k));
      } else {
        assert a + "/" <= t <= Tower(a, k);
        assert t + "/" <= Tower(a, k);
        FirstPartOfAbove(t, Tower(a, k));
      }
    }
  }

  /** A prefix repeats at most one path. */
  lemma RepeatedOnce(p: string, q: string, prefix: string)
    requires Repeated(p, prefix) && Repeated(q, prefix)
    ensures p == q
  {
    var k: nat :| k > 0 && prefix == Tower(p, k);
    var l: nat :| l > 0 && prefix == Tower(q, l);
    TowerShape(p, k);
    TowerShape(q, l);
  }

  lemma RepeatedBase(path: string, prefix: string) returns (m: nat)
    requires Repeated(path, prefix)
    ensures m >= 2 && Base(path, prefix) == Tower(path, m)
    ensures IsFileAt(path, prefix) && Repeated(path, Base(path, prefix)) && |prefix| < |Base(path, prefix)|
    ensures prefix != "" && |path| <= |prefix|
  {
    var k: nat :| k > 0 && prefix == Tower(path, k);
    TowerShape(path, k);
    m := k + 1;
    assert PrefixedPath(path, prefix).RelativePath() == path;
    assert Base(path, prefix) == Tower(path, m);
  }

  /** A path of one component is grouped as itself at the top. */
  lemma TopBase(path: string)
    requires Inside(path, "") && IsFileAt(path, "")
    ensures !HasSlash(path) && (path != "" ==> Repeated(path, path))
  {
    assert PrefixedPath(path, "").RelativePath() == path;
    if path != "" {
      TowerShape(path, 1);
    }
  }

  lemma InsideHasSlash(path: string, prefix: string)
    requires Inside(path, prefix) && prefix != ""
    ensures HasSlash(path)
  {
    assert path[|prefix|] == '/';
  }

  /** What holds of a member of a group with name `key`. */
  lemma MemberFits(path: string, prefix: string, key: string)
    requires Inside(path, prefix) || Repeated(path, prefix)
    requires Base(path, prefix) == key
    ensures Inside(path, prefix) && IsFileAt(path, prefix) ==> path == key && (prefix != "" ==> HasSlash(path))
    ensures Inside(path, prefix) && !IsFileAt(path, prefix) ==> Inside(path, key) && |prefix| < |key| && key != ""
    ensures Repeated(path, prefix) ==> IsFileAt(path, prefix) && Repeated(path, key) && |prefix| < |key|
    ensures Repeated(path, prefix) ==> exists m: nat :: m >= 2 && key == Tower(path, m)
  {
    hide Base, IsFileAt;
    if Inside(path, prefix) {
      BaseOfInside(path, prefix);
      if prefix != "" {
        InsideHasSlash(path, prefix);
      }
    }
    if Repeated(path, prefix) {
      var m := RepeatedBase(path, prefix);
    }
  }

  lemma SelectFits(paths: seq<string>, prefix: string, key: string)
    requires Fits(paths, prefix)
    ensures var group := Select(paths, prefix, key);
            && Apart(group) && NoTowers(group)
            && forall i :: 0 <= i < |group| ==>
                 Base(group[i], prefix) == key && (Inside(group[i], prefix) || Repeated(group[i], prefix))
  {
    var group := Select(paths, prefix, key);
    hide Base, Select, Inside, Repeated, HasSlash, Slashless, Tower;
    forall i, j | 0 <= i < |group| && 0 <= j < |group| && i != j
      ensures group[i] != group[j] && (HasSlash(group[i]) ==> !(group[i] + "/" <= group[j]))
    {
      if i < j {
        var x, y := SelectApart(paths, prefix, key, i, j);
      } else {
        var x, y := SelectApart(paths, prefix, key, j, i);
      }
    }
    forall i, j, m: nat | 0 <= i < |group| && 0 <= j < |group| && m >= 2 && Slashless(group[i])
      ensures group[j] != Tower(group[i], m)
    {
      var x := SelectMembers(paths, prefix, key, i);
      var y := SelectMembers(paths, prefix, key, j);
    }
    forall i | 0 <= i < |group|
      ensures Base(group[i], prefix) == key && (Inside(group[i], prefix) || Repeated(group[i], prefix))
    {
      var x := SelectMembers(paths, prefix, key, i);
    }
  }

  /** A group of paths that can be listed, by what is known of its members. */
  ghost predicate GroupAt(group: seq<string>, prefix: string, key: string) {
    && Apart(group) && NoTowers(group)
    && forall i :: 0 <= i < |group| ==>
         Base(group[i], prefix) == key && (Inside(group[i], prefix) || Repeated(group[i], prefix))
  }

  /** Below a prefix, the file `key` itself is alone in its group. */
  lemma FileIsAlone(group: seq<string>, prefix: string, key: string, i: nat)
    requires GroupAt(group, prefix, key) && prefix != ""
    requires i < |group| && Inside(group[i], prefix) && IsFileAt(group[i], prefix)
    ensures |group| == 1
  {
    hide Base, IsFileAt, Repeated, Tower, HasSlash, Slashless;
    MemberFits(group[i], prefix, key);
    if |group| > 1 {
      var j := if i == 0 then 1 else 0;
      MemberFits(group[j], prefix, key);
      RepeatedIsSlashless(group[j], prefix);
    }
  }

  lemma RepeatedIsSlashless(path: string, prefix: string)
    ensures Repeated(path, prefix) ==> Slashless(path)
  {
  }

  /** At the top, the empty path is alone in its group. */
  lemma EmptyIsAlone(group: seq<string>)
    requires GroupAt(group, "", "") && group != []
    ensures |group| == 1
  {
    hide Base, IsFileAt, Repeated, Inside, Tower, HasSlash, Slashless;
    EmptyTop(group[0]);
    if |group| > 1 {
      EmptyTop(group[1]);
    }
  }

  /** The file `key` itself is alone in its group, or has no slash and is at the top. */
  lemma FileOfGroup(group: seq<string>, prefix: string, key: string, i: nat)
    requires GroupAt(group, prefix, key) && !IsSingleFile(group, prefix)
    requires i < |group| && Inside(group[i], prefix) && IsFileAt(group[i], prefix)
    ensures Repeated(group[i], key) && prefix == "" && key != ""
  {
    hide Base, IsFileAt, Inside, Repeated, Tower, HasSlash, Slashless, GroupAt;
    NameOf(group, prefix, key, i);
    if prefix != "" {
      FileIsAlone(group, prefix, key, i);
    } else {
      TopBase(group[i]);
      if key == "" {
        EmptyIsAlone(group);
      }
    }
  }

  lemma NameOf(group: seq<string>, prefix: string, key: string, i: nat)
    requires GroupAt(group, prefix, key) && i < |group| && Inside(group[i], prefix) && IsFileAt(group[i], prefix)
    ensures group[i] == key
  {
    hide Base, IsFileAt;
    MemberFits(group[i], prefix, key);
  }

  lemma InsideIs(path: string, prefix: string)
    requires Inside(path, prefix) && prefix != ""
    ensures prefix + "/" <= path
  {
  }

  lemma EmptyTop(path: string)
    requires (Inside(path, "") || Repeated(path, "")) && Base(path, "") == ""
    ensures path == ""
  {
    if Repeated(path, "") {
      var m := RepeatedBase(path, "");
    }
    assert PrefixedPath(path, "").RelativePath() == path;
  }

  lemma MemberOfGroup(group: seq<string>, prefix: string, key: string, i: nat)
    requires GroupAt(group, prefix, key) && !IsSingleFile(group, prefix) && i < |group|
    ensures (Inside(group[i], key) || Repeated(group[i], key)) && |prefix| < |key| && key != ""
  {
    hide Base, IsFileAt, Inside, Repeated, Tower, HasSlash, Slashless;
    MemberFits(group[i], prefix, key);
    if Inside(group[i], prefix) && IsFileAt(group[i], prefix) {
      FileOfGroup(group, prefix, key, i);
    }
  }

  /** A group that is not a single file can be listed in the directory that it forms. */
  lemma GroupFits(paths: seq<string>, prefix: string, key: string) returns (inner: string)
    requires Fits(paths, prefix) && Select(paths, prefix, key) != []
    requires !IsSingleFile(Select(paths, prefix, key), prefix)
    ensures Fits(Select(paths, prefix, key), key) && |prefix| < |key|
    ensures key != "" && inner in Select(paths, prefix, key) && Inside(inner, key)
  {
    var group := Select(paths, prefix, key);
    SelectFits(paths, prefix, key);
    hide Select, Base, Inside, Repeated, Tower, IsSingleFile, Slashless;
    forall i | 0 <= i < |group| ensures Inside(group[i], key) || Repeated(group[i], key) {
      MemberOfGroup(group, prefix, key, i);
    }
    MemberOfGroup(group, prefix, key, 0);
    inner := SomeInside(group, prefix, key);
  }

  lemma SomeInside(group: seq<string>, prefix: string, key: string) returns (inner: string)
    requires group != [] && GroupAt(group, prefix, key) && !IsSingleFile(group, prefix) && Fits(group, key)
    ensures inner in group && Inside(inner, key)
  {
    hide Base, Inside, Repeated, Tower, NoTowers;
    if Repeated(group[0], key) {
      FileWithoutSlash(group[0], prefix, key);
      assert |group| > 1;
      if Repeated(group[1], key) {
        RepeatedOnce(group[0], group[1], key);
      }
      inner := group[1];
    } else {
      inner := group[0];
    }
  }

  lemma FileWithoutSlash(path: string, prefix: string, key: string)
    requires Repeated(path, key)
    ensures IsFileAt(path, prefix)
  {
    var rel := PrefixedPath(path, prefix).RelativePath();
    assert forall i :: 0 <= i < |rel| ==> rel[i] == path[|path| - |rel| + i];
  }

  // ---------------------------------------------------------------------------------------------
  // The tree

  /** The part of a report's totals that directories sum up; a missing number counts as 0. */
  datatype ReportTotals = ReportTotals(lines: Option<int>, hits: Option<int>, partials: Option<int>, misses: Option<int>)

  datatype Counts = Counts(lines: int, hits: int, partials: int, misses: int) {
    function Plus(other: Counts): Counts {
      Counts(lines + other.lines, hits + other.hits, partials + other.partials, misses + other.misses)
    }
  }

  const ZERO := Counts(0, 0, 0, 0)

  function OrZero(x: Option<int>): int {
    if x.Some? then x.value else 0
  }

  function CountsOf(t: ReportTotals): Counts {
    Counts(OrZero(t.lines), OrZero(t.hits), OrZero(t.partials), OrZero(t.misses))
  }

  datatype PathNode =
    | File(fullPath: string, totals: ReportTotals)
    | Dir(fullPath: string, children: seq<PathNode>)

  type TotalsOf = string -> ReportTotals

  /**
   `results` is the directory `prefix` of `paths`: one node per base name, in the order in which
   base names first occur; a lone file directly inside is a file, all else is a directory of its
   group.
   */
  predicate Lists(results: seq<PathNode>, paths: seq<string>, prefix: string, totalsOf: TotalsOf)
    decreases results
  {
    var keys := Keys(paths, prefix);
    && |results| == |keys|
    && forall i :: 0 <= i < |keys| ==> Shows(results[i], Select(paths, prefix, keys[i]), keys[i], prefix, totalsOf)
  }

  predicate IsSingleFile(group: seq<string>, prefix: string) {
    |group| == 1 && IsFileAt(group[0], prefix)
  }

  /** The node for one group of the directory `prefix`. */
  predicate Shows(node: PathNode, group: seq<string>, key: string, prefix: string, totalsOf: TotalsOf)
    decreases node
  {
    match node
    case File(path, totals) => IsSingleFile(group, prefix) && path == group[0] && totals == totalsOf(path)
    case Dir(path, children) => !IsSingleFile(group, prefix) && path == key && Lists(children, group, path, totalsOf)
  }

  /** `limit` bounds the lengths of the paths: each recursion brings the prefix closer to it. */
  method SingleDirectory(paths: seq<string>, prefix: string, totalsOf: TotalsOf, ghost limit: nat) returns (results: seq<PathNode>)
    requires Fits(paths, prefix)
    requires |prefix| <= limit && forall i :: 0 <= i < |paths| ==> |paths[i]| <= limit
    ensures Lists(results, paths, prefix, totalsOf)
    decreases limit - |prefix|
  {
    hide Keys, Select, Inside, Fits, Base, FirstPart, Distinct;
    var keys, grouped := Grouped(paths, prefix);
    KeysAreBases(paths, prefix);
    results := [];
    for i := 0 to |keys|
      invariant |results| == i
      invariant forall j :: 0 <= j < i ==> Shows(results[j], Select(paths, prefix, keys[j]), keys[j], prefix, totalsOf)
    {
      var basename, group := keys[i], grouped[keys[i]];
      if |group| == 1 && PrefixedPath(group[0], prefix).IsFile() {
        results := results + [File(group[0], totalsOf(group[0]))];
      } else {
        ghost var inner := GroupFits(paths, prefix, basename);
        GroupIsShorter(paths, prefix, basename, limit);
        InsideIsLonger(inner, basename);
        var children := SingleDirectory(group, basename, totalsOf, limit);
        results := results + [Dir(basename, children)];
      }
    }
  }

  lemma GroupIsShorter(paths: seq<string>, prefix: string, key: string, limit: nat)
    requires forall i :: 0 <= i < |paths| ==> |paths[i]| <= limit
    ensures var group := Select(paths, prefix, key); forall i :: 0 <= i < |group| ==> |group[i]| <= limit
  {
    var group := Select(paths, prefix, key);
    hide Select, Base;
    forall i | 0 <= i < |group| ensures |group[i]| <= limit {
      var x := SelectMembers(paths, prefix, key, i);
    }
  }

  lemma InsideIsLonger(path: string, prefix: string)
    requires Inside(path, prefix) && prefix != ""
    ensures |prefix| < |path|
  {
  }

  lemma BaseIs(path: string, prefix: string)
    ensures PrefixedPath(path, prefix).BaseName() == Base(path, prefix)
  {
  }

  ghost predicate GroupedAs(keys: seq<string>, grouped: map<string, seq<string>>, paths: seq<string>, prefix: string) {
    && keys == Keys(paths, prefix)
    && (forall k :: k in grouped <==> k in keys)
    && forall k :: k in grouped ==> grouped[k] == Select(paths, prefix, k)
  }

  lemma NothingGrouped(prefix: string)
    ensures GroupedAs([], map[], [], prefix)
  {
  }

  /** One more path joins its group, or founds it. */
  lemma GroupedStep(keys: seq<string>, grouped: map<string, seq<string>>, paths: seq<string>, prefix: string, path: string)
    requires GroupedAs(keys, grouped, paths, prefix)
    ensures var k := PrefixedPath(path, prefix).BaseName();
            var keys', g := if k in grouped then keys else keys + [k], if k in grouped then grouped else grouped[k := []];
            GroupedAs(keys', g[k := g[k] + [path]], paths + [path], prefix)
  {
    KeysAppend(paths, prefix, path);
    KeysAreBases(paths, prefix);
    BaseIs(path, prefix);
    hide Keys, Select, Base;
    var k := Base(path, prefix);
    assert k !in keys ==> Select(paths, prefix, k) + [path] == [path];
    assert forall other :: other != k ==> Select(paths + [path], prefix, other) == Select(paths, prefix, other);
  }

  /** The groups by base name; `keys` remembers the order, as the dictionary does. */
  method Grouped(paths: seq<string>, prefix: string) returns (keys: seq<string>, grouped: map<string, seq<string>>)
    ensures keys == Keys(paths, prefix)
    ensures forall k :: k in grouped <==> k in keys
    ensures forall k :: k in grouped ==> grouped[k] == Select(paths, prefix, k)
  {
    hide *;
    keys, grouped := [], map[];
    NothingGrouped(prefix);
    assert paths[..0] == [];
    for i := 0 to |paths|
      invariant GroupedAs(keys, grouped, paths[..i], prefix)
    {
      var path := paths[i];
      assert paths[..i + 1] == paths[..i] + [path];
      GroupedStep(keys, grouped, paths[..i], prefix, path);
      var basename := PrefixedPath(path, prefix).BaseName();
      if basename !in grouped {
        keys := keys + [basename];
        grouped := grouped[basename := []];
      }
      grouped := grouped[basename := grouped[basename] + [path]];
    }
    assert paths[..|paths|] == paths;
    GroupedMeans(keys, grouped, paths, prefix);
  }

  lemma GroupedMeans(keys: seq<string>, grouped: map<string, seq<string>>, paths: seq<string>, prefix: string)
    requires GroupedAs(keys, grouped, paths, prefix)
    ensures keys == Keys(paths, prefix)
    ensures forall k :: k in grouped <==> k in keys
    ensures forall k :: k in grouped ==> grouped[k] == Select(paths, prefix, k)
  {
  }

  /** The files of a report that lie below `prefix`, in order. */
  function Under(files: seq<string>, prefix: string): seq<string> {
    if files == [] then []
    else
      var p := files[|files| - 1];
      Under(files[..|files| - 1], prefix) + if IsSubpath(p, prefix) then [p] else []
  }

  lemma {:induction false} UnderIsPart(files: seq<string>, prefix: string, p: string)
    ensures p in Under(files, prefix) <==> p in files && IsSubpath(p, prefix)
  {
    hide IsSubpath;
    if files != [] {
      UnderIsPart(files[..|files| - 1], prefix, p);
      assert files == files[..|files| - 1] + [files[|files| - 1]];
    }
  }

  /** Below the empty prefix are all files, below any other the file of that name and those in that directory. */
  lemma {:induction false} UnderKeeps(files: seq<string>, prefix: string, p: string)
    ensures multiset(Under(files, prefix))[p]
            == if prefix == "" || p == prefix || prefix + "/" <= p then multiset(files)[p] else 0
    ensures p in Under(files, prefix) <==> p in files && (prefix == "" || p == prefix || prefix + "/" <= p)
  {
    hide *;
    UnderIsPart(files, prefix, p);
    SubpathExactlyWhen(p, prefix);
    if files == [] {
      NothingUnder(prefix);
    } else {
      var init, last := files[..|files| - 1], files[|files| - 1];
      assert files == init + [last];
      UnderKeeps(init, prefix, p);
      UnderLast(init, last, prefix);
      Occurrences(init, [last], p);
      Occurrences(Under(init, prefix), if IsSubpath(last, prefix) then [last] else [], p);
    }
  }

  lemma SubpathExactlyWhen(p: string, prefix: string)
    ensures IsSubpath(p, prefix) <==> prefix == "" || p == prefix || prefix + "/" <= p
  {
  }

  lemma NothingUnder(prefix: string)
    ensures Under([], prefix) == []
  {
  }

  lemma UnderLast(files: seq<string>, last: string, prefix: string)
    ensures Under(files + [last], prefix) == Under(files, prefix) + if IsSubpath(last, prefix) then [last] else []
  {
    assert (files + [last])[..|files|] == files;
  }

  lemma Occurrences(s: seq<string>, t: seq<string>, p: string)
    requires |t| <= 1
    ensures multiset(s + t)[p] == multiset(s)[p] + if t == [p] then 1 else 0
  {
    assert multiset(s + t) == multiset(s) + multiset(t);
  }

  /** `p` is `q` itself or a directory above it. */
  predicate Above(p: string, q: string) {
    p == q || p + "/" <= q
  }

  predicate Unrelated(p: string, q: string) {
    !Above(p, q) && !Above(q, p)
  }

  lemma PrefixFreeAppend(paths: seq<string>, p: string)
    ensures PrefixFree(paths + [p]) <==> PrefixFree(paths) && forall q :: q in paths ==> Unrelated(p, q)
  {
    var all := paths + [p];
    assert all[|paths|] == p && forall i :: 0 <= i < |paths| ==> all[i] == paths[i];
    if PrefixFree(all) {
      forall q | q in paths ensures Unrelated(p, q) {
        var i :| 0 <= i < |paths| && paths[i] == q;
        assert all[i] == q;
      }
      forall i, j | 0 <= i < |paths| && 0 <= j < |paths| && i != j
        ensures paths[i] != paths[j] && !(paths[i] + "/" <= paths[j])
      {
        assert all[i] != all[j] && !(all[i] + "/" <= all[j]);
      }
    }
    if PrefixFree(paths) && forall q :: q in paths ==> Unrelated(p, q) {
      forall i, j | 0 <= i < |all| && 0 <= j < |all| && i != j ensures all[i] != all[j] && !(all[i] + "/" <= all[j]) {
        assert i < |paths| ==> paths[i] in paths && Unrelated(p, paths[i]);
        assert j < |paths| ==> paths[j] in paths && Unrelated(p, paths[j]);
      }
    }
  }

  lemma {:induction false} UnderPrefixFree(files: seq<string>, prefix: string)
    requires PrefixFree(files)
    ensures PrefixFree(Under(files, prefix))
  {
    if files != [] {
      var init, p := files[..|files| - 1], files[|files| - 1];
      assert files == init + [p];
      var below := if IsSubpath(p, prefix) then [p] else [];
      assert Under(files, prefix) == Under(init, prefix) + below;
      hide *;
      PrefixFreeAppend(init, p);
      UnderPrefixFree(init, prefix);
      PrefixFreeAppend(Under(init, prefix), p);
      forall q | q in Under(init, prefix) ensures Unrelated(p, q) {
        UnderIsPart(init, prefix, q);
      }
      assert Under(init, prefix) + [] == Under(init, prefix);
    }
  }

  /** The directory listing that a report asks for: the recursion on its files below `prefix`. */
  method ListDirectory(files: seq<string>, prefix: string, totalsOf: TotalsOf) returns (results: seq<PathNode>)
    requires Fits(Under(files, prefix), prefix)
    ensures Lists(results, Under(files, prefix), prefix, totalsOf)
    ensures forall p :: multiset(Leaves(results))[p]
                        == if prefix == "" || p == prefix || prefix + "/" <= p then multiset(files)[p] else 0
  {
    var paths := [];
    for i := 0 to |files|
      invariant paths == Under(files[..i], prefix)
    {
      assert files[..i + 1][..i] == files[..i];
      if IsSubpath(files[i], prefix) {
        paths := paths + [files[i]];
      }
    }
    assert files[..|files|] == files;
    ghost var limit := |prefix| + |Joined(paths)|;
    forall i | 0 <= i < |paths| ensures |paths[i]| <= limit {
      JoinedIsLonger(paths, i);
    }
    hide Lists, Fits, Under, Joined, Leaves;
    results := SingleDirectory(paths, prefix, totalsOf, limit);
    LeavesArePaths(results, paths, prefix, totalsOf);
    forall p
      ensures multiset(paths)[p] == if prefix == "" || p == prefix || prefix + "/" <= p then multiset(files)[p] else 0
    {
      UnderKeeps(files, prefix, p);
    }
  }

  /** Which files of a report can be listed, at the top and below any directory. */
  lemma ReportEndsExactlyWhen(files: seq<string>, prefix: string)
    ensures (exists depth :: EndsWithin(Under(files, prefix), prefix, depth)) <==> Fits(Under(files, prefix), prefix)
  {
    var paths := Under(files, prefix);
    forall i | 0 <= i < |paths| ensures IsSubpath(paths[i], prefix) {
      UnderIsPart(files, prefix, paths[i]);
    }
    RecursionEndsExactlyWhen(paths, prefix);
  }

  /** Files that are prefix-free, of which none is the prefix or starts with a slash, can be listed. */
  lemma PrefixFreeFilesFit(files: seq<string>, prefix: string)
    requires PrefixFree(files)
    requires forall i :: 0 <= i < |files| ==> if prefix == "" then !("/" <= files[i]) else files[i] != prefix
    ensures AllInside(Under(files, prefix), prefix) && PrefixFree(Under(files, prefix)) && Fits(Under(files, prefix), prefix)
  {
    var paths := Under(files, prefix);
    UnderPrefixFree(files, prefix);
    forall i | 0 <= i < |paths| ensures Inside(paths[i], prefix) {
      UnderIsPart(files, prefix, paths[i]);
    }
    PrefixFreeFits(paths, prefix);
  }

  function Joined(paths: seq<string>): string {
    if paths == [] then "" else Joined(paths[..|paths| - 1]) + paths[|paths| - 1]
  }

  lemma {:induction false} JoinedIsLonger(paths: seq<string>, i: nat)
    requires i < |paths|
    ensures |paths[i]| <= |Joined(paths)|
  {
    if i < |paths| - 1 {
      JoinedIsLonger(paths[..|paths| - 1], i);
    }
  }

  // ---------------------------------------------------------------------------------------------
  // Leaves and totals

  function Leaves(nodes: seq<PathNode>): seq<string>
    decreases nodes
  {
    if nodes == [] then [] else NodeLeaves(nodes[0]) + Leaves(nodes[1..])
  }

  function NodeLeaves(node: PathNode): seq<string>
    decreases node
  {
    match node
    case File(path, _) => [path]
    case Dir(_, children) => Leaves(children)
  }

  function Sum(paths: seq<string>, totalsOf: TotalsOf): Counts {
    if paths == [] then ZERO else Sum(paths[..|paths| - 1], totalsOf).Plus(CountsOf(totalsOf(paths[|paths| - 1])))
  }

  /** A node's own counts: those of a file's totals, or what `Dir.totals` adds up. */
  function NodeCounts(node: PathNode): Counts
    decreases node
  {
    match node
    case File(_, totals) => CountsOf(totals)
    case Dir(_, children) => ChildCounts(children)
  }

  function ChildCounts(children: seq<PathNode>): Counts
    decreases children
  {
    if children == [] then ZERO else ChildCounts(children[..|children| - 1]).Plus(NodeCounts(children[|children| - 1]))
  }

  /** `Dir.totals`: accumulates over the children, whose own totals are computed on the way. */
  method Totals(node: PathNode) returns (totals: Counts)
    ensures totals == NodeCounts(node)
    decreases node
  {
    match node
    case File(_, fileTotals) => totals := CountsOf(fileTotals);
    case Dir(_, children) =>
      totals := ZERO;
      for i := 0 to |children|
        invariant totals == ChildCounts(children[..i])
      {
        var child := Totals(children[i]);
        assert children[..i + 1][..i] == children[..i];
        totals := Counts(totals.lines + child.lines, totals.hits + child.hits,
                         totals.partials + child.partials, totals.misses + child.misses);
      }
      assert children[..|children|] == children;
  }

  /** The files of the tree carry the totals looked up for their paths. */
  predicate FilesCarry(nodes: seq<PathNode>, totalsOf: TotalsOf)
    decreases nodes
  {
    forall i :: 0 <= i < |nodes| ==> NodeCarries(nodes[i], totalsOf)
  }

  predicate NodeCarries(node: PathNode, totalsOf: TotalsOf)
    decreases node
  {
    match node
    case File(path, totals) => totals == totalsOf(path)
    case Dir(_, children) => FilesCarry(children, totalsOf)
  }

  lemma {:induction false} SumAppend(s: seq<string>, t: seq<string>, totalsOf: TotalsOf)
    ensures Sum(s + t, totalsOf) == Sum(s, totalsOf).Plus(Sum(t, totalsOf))
  {
    if t == [] {
      assert s + t == s;
    } else {
      assert (s + t)[..|s + t| - 1] == s + t[..|t| - 1];
      SumAppend(s, t[..|t| - 1], totalsOf);
    }
  }

  lemma {:induction false} LeavesAppend(nodes: seq<PathNode>, node: PathNode)
    ensures Leaves(nodes + [node]) == Leaves(nodes) + NodeLeaves(node)
  {
    if nodes == [] {
      assert nodes + [node] == [node] && [node][1..] == [];
    } else {
      assert (nodes + [node])[1..] == nodes[1..] + [node];
      LeavesAppend(nodes[1..], node);
    }
  }

  /** At every level, a directory's totals are the sums over all the files below it. */
  lemma {:induction false} CountsAreSums(node: PathNode, totalsOf: TotalsOf)
    requires NodeCarries(node, totalsOf)
    ensures NodeCounts(node) == Sum(NodeLeaves(node), totalsOf)
    decreases node
  {
    match node
    case File(path, totals) =>
      OneSum(path, totalsOf);
    case Dir(_, children) => ChildCountsAreSums(children, totalsOf);
  }

  lemma {:induction false} ChildCountsAreSums(children: seq<PathNode>, totalsOf: TotalsOf)
    requires FilesCarry(children, totalsOf)
    ensures ChildCounts(children) == Sum(Leaves(children), totalsOf)
    decreases children
  {
    hide NodeLeaves, NodeCounts, NodeCarries, CountsOf, Leaves;
    if children == [] {
      NoLeaves();
    } else {
      var init, last := children[..|children| - 1], children[|children| - 1];
      ChildCountsAreSums(init, totalsOf);
      CountsAreSums(last, totalsOf);
      LeavesAppend(init, last);
      assert children == init + [last];
      SumAppend(Leaves(init), NodeLeaves(last), totalsOf);
    }
  }

  lemma NoLeaves()
    ensures Leaves([]) == []
  {
  }

  /** The sum of one number of the files' totals, a missing one counting 0. */
  function SumOf(paths: seq<string>, number: string -> Option<int>): int {
    if paths == [] then 0
    else
      var n := number(paths[|paths| - 1]);
      SumOf(paths[..|paths| - 1], number) + if n.Some? then n.value else 0
  }

  lemma {:induction false} SumIsByNumber(paths: seq<string>, totalsOf: TotalsOf)
    ensures Sum(paths, totalsOf).lines == SumOf(paths, p => totalsOf(p).lines)
    ensures Sum(paths, totalsOf).hits == SumOf(paths, p => totalsOf(p).hits)
    ensures Sum(paths, totalsOf).partials == SumOf(paths, p => totalsOf(p).partials)
    ensures Sum(paths, totalsOf).misses == SumOf(paths, p => totalsOf(p).misses)
  {
    if paths != [] {
      SumIsByNumber(paths[..|paths| - 1], totalsOf);
    }
  }

  /** At every level, each of a directory's four numbers is the sum of that number over the files below it. */
  lemma NumbersAreSums(node: PathNode, totalsOf: TotalsOf)
    requires NodeCarries(node, totalsOf)
    ensures NodeCounts(node).lines == SumOf(NodeLeaves(node), p => totalsOf(p).lines)
    ensures NodeCounts(node).hits == SumOf(NodeLeaves(node), p => totalsOf(p).hits)
    ensures NodeCounts(node).partials == SumOf(NodeLeaves(node), p => totalsOf(p).partials)
    ensures NodeCounts(node).misses == SumOf(NodeLeaves(node), p => totalsOf(p).misses)
  {
    CountsAreSums(node, totalsOf);
    SumIsByNumber(NodeLeaves(node), totalsOf);
  }

  /** Sums do not depend on the order. */
  lemma {:induction false} SumOfPermutation(s: seq<string>, t: seq<string>, totalsOf: TotalsOf)
    requires multiset(s) == multiset(t)
    ensures Sum(s, totalsOf) == Sum(t, totalsOf)
  {
    if s == [] {
      assert |multiset(t)| == |t|;
    } else {
      var x, s' := s[|s| - 1], s[..|s| - 1];
      var i := Occurrence(s, t);
      SumOfPermutation(s', t[..i] + t[i + 1..], totalsOf);
      SumWithout(t, i, totalsOf);
    }
  }

  lemma Occurrence(s: seq<string>, t: seq<string>) returns (i: nat)
    requires multiset(s) == multiset(t) && s != []
    ensures i < |t| && t[i] == s[|s| - 1] && multiset(s[..|s| - 1]) == multiset(t[..i] + t[i + 1..])
  {
    var x := s[|s| - 1];
    MultisetWithout(s, |s| - 1);
    assert s[..|s| - 1] + s[|s|..] == s[..|s| - 1];
    assert x in multiset(t);
    i :| 0 <= i < |t| && t[i] == x;
    MultisetWithout(t, i);
  }

  lemma MultisetWithout(t: seq<string>, i: nat)
    requires i < |t|
    ensures multiset(t[..i] + t[i + 1..]) == multiset(t) - multiset{t[i]}
  {
    var front, back := t[..i], t[i + 1..];
    assert t == front + ([t[i]] + back);
    assert multiset(t) == multiset(front) + multiset([t[i]] + back);
    assert multiset([t[i]] + back) == multiset{t[i]} + multiset(back);
    assert multiset(front + back) == multiset(front) + multiset(back);
  }

  lemma SumWithout(t: seq<string>, i: nat, totalsOf: TotalsOf)
    requires i < |t|
    ensures Sum(t, totalsOf) == Sum(t[..i] + t[i + 1..], totalsOf).Plus(CountsOf(totalsOf(t[i])))
  {
    hide Sum, CountsOf;
    assert t == t[..i] + ([t[i]] + t[i + 1..]);
    SumAround(t[..i], t[i], t[i + 1..], totalsOf);
  }

  lemma SumAround(front: seq<string>, x: string, back: seq<string>, totalsOf: TotalsOf)
    ensures Sum(front + ([x] + back), totalsOf) == Sum(front + back, totalsOf).Plus(CountsOf(totalsOf(x)))
  {
    OneSum(x, totalsOf);
    hide Sum, CountsOf;
    SumAppend(front, back, totalsOf);
    SumAppend(front, [x] + back, totalsOf);
    SumAppend([x], back, totalsOf);
  }

  lemma OneSum(p: string, totalsOf: TotalsOf)
    ensures Sum([p], totalsOf) == CountsOf(totalsOf(p))
  {
    assert [p][..0] == [];
    assert Sum([p][..0], totalsOf) == ZERO;
  }

  // ---------------------------------------------------------------------------------------------
  // What a listing promises

  function GroupsOf(keys: seq<string>, paths: seq<string>, prefix: string): multiset<string> {
    if keys == [] then multiset{}
    else GroupsOf(keys[..|keys| - 1], paths, prefix) + multiset(Select(paths, prefix, keys[|keys| - 1]))
  }

  lemma {:induction false} GroupsGain(keys: seq<string>, paths: seq<string>, prefix: string, p: string)
    requires Distinct(keys)
    ensures GroupsOf(keys, paths + [p], prefix)
            == GroupsOf(keys, paths, prefix) + if Base(p, prefix) in keys then multiset{p} else multiset{}
  {
    if keys != [] {
      var init, k := keys[..|keys| - 1], keys[|keys| - 1];
      assert keys == init + [k] && forall i :: 0 <= i < |init| ==> keys[i] != keys[|init|];
      assert Distinct(init);
      hide *;
      GroupsGain(init, paths, prefix, p);
      GroupGains(paths, prefix, p, k);
      LastGroup(init, k, paths, prefix);
      LastGroup(init, k, paths + [p], prefix);
      GainedSum(GroupsOf(init, paths, prefix), multiset(Select(paths, prefix, k)), p,
                Base(p, prefix) in init, Base(p, prefix) == k);
    }
  }

  lemma LastGroup(keys: seq<string>, key: string, paths: seq<string>, prefix: string)
    ensures GroupsOf(keys + [key], paths, prefix) == GroupsOf(keys, paths, prefix) + multiset(Select(paths, prefix, key))
  {
    assert (keys + [key])[..|keys|] == keys;
  }

  lemma GainedSum(x: multiset<string>, y: multiset<string>, p: string, first: bool, second: bool)
    requires !first || !second
    ensures (x + if first then multiset{p} else multiset{}) + (y + if second then multiset{p} else multiset{})
            == x + y + if first || second then multiset{p} else multiset{}
  {
  }

  lemma GroupGains(paths: seq<string>, prefix: string, p: string, key: string)
    ensures multiset(Select(paths + [p], prefix, key))
            == multiset(Select(paths, prefix, key)) + if Base(p, prefix) == key then multiset{p} else multiset{}
  {
    KeysAppend(paths, prefix, p);
    hide Select, Base;
    var group := Select(paths, prefix, key);
    assert multiset(group + [p]) == multiset(group) + multiset{p};
  }

  /** Grouping loses nothing and repeats nothing. */
  lemma {:induction false} GroupsArePartition(paths: seq<string>, prefix: string)
    ensures GroupsOf(Keys(paths, prefix), paths, prefix) == multiset(paths)
  {
    hide *;
    if paths == [] {
      NoGroups(prefix);
    } else {
      var init, p := paths[..|paths| - 1], paths[|paths| - 1];
      GroupsArePartition(init, prefix);
      assert paths == init + [p];
      PartitionGains(init, prefix, p);
    }
  }

  lemma NoGroups(prefix: string)
    ensures GroupsOf(Keys([], prefix), [], prefix) == multiset{}
  {
  }

  lemma PartitionGains(paths: seq<string>, prefix: string, p: string)
    requires GroupsOf(Keys(paths, prefix), paths, prefix) == multiset(paths)
    ensures GroupsOf(Keys(paths + [p], prefix), paths + [p], prefix) == multiset(paths + [p])
  {
    hide Keys, Select, Base;
    var keys, b := Keys(paths, prefix), Base(p, prefix);
    KeysAppend(paths, prefix, p);
    KeysAreBases(paths, prefix);
    GroupsGain(keys, paths, prefix, p);
    if b !in keys {
      assert (keys + [b])[..|keys|] == keys;
      assert Select(paths, prefix, b) == [] && Select(paths + [p], prefix, b) == [p];
    }
  }

  /** The leaves of a listing are the listed paths, each as often as it was given. */
  lemma {:induction false} LeavesArePaths(results: seq<PathNode>, paths: seq<string>, prefix: string, totalsOf: TotalsOf)
    requires Lists(results, paths, prefix, totalsOf)
    ensures multiset(Leaves(results)) == multiset(paths) && FilesCarry(results, totalsOf)
    decreases results, 1
  {
    var keys := Keys(paths, prefix);
    SomeLeaves(results, paths, prefix, totalsOf, |keys|);
    assert results[..|keys|] == results && keys[..|keys|] == keys;
    GroupsArePartition(paths, prefix);
  }

  lemma {:induction false} SomeLeaves(results: seq<PathNode>, paths: seq<string>, prefix: string, totalsOf: TotalsOf, n: nat)
    requires Lists(results, paths, prefix, totalsOf) && n <= |Keys(paths, prefix)|
    ensures multiset(Leaves(results[..n])) == GroupsOf(Keys(paths, prefix)[..n], paths, prefix)
    ensures FilesCarry(results[..n], totalsOf)
    decreases results, 0, n
  {
    hide Keys, Select, Leaves, NodeLeaves, IsSingleFile;
    if n == 0 {
      NoLeaves();
    } else {
      var keys := Keys(paths, prefix);
      var node, k := results[n - 1], keys[n - 1];
      var group := Select(paths, prefix, k);
      SomeLeaves(results, paths, prefix, totalsOf, n - 1);
      assert Shows(node, group, k, prefix, totalsOf);
      if node.Dir? {
        LeavesArePaths(node.children, group, k, totalsOf);
      }
      NodeHoldsGroup(node, group, k, prefix, totalsOf);
      LeavesAppend(results[..n - 1], node);
      assert results[..n] == results[..n - 1] + [node];
      assert keys[..n][..n - 1] == keys[..n - 1];
    }
  }

  lemma NodeHoldsGroup(node: PathNode, group: seq<string>, key: string, prefix: string, totalsOf: TotalsOf)
    requires Shows(node, group, key, prefix, totalsOf)
    requires node.Dir? ==> multiset(Leaves(node.children)) == multiset(group) && FilesCarry(node.children, totalsOf)
    ensures multiset(NodeLeaves(node)) == multiset(group) && NodeCarries(node, totalsOf)
  {
    if node.File? {
      assert group == [group[0]];
    }
  }

  /** Totals over the whole listing equal the totals over the flat list. */
  lemma ListingKeepsTotals(results: seq<PathNode>, paths: seq<string>, prefix: string, totalsOf: TotalsOf)
    requires Lists(results, paths, prefix, totalsOf)
    ensures ChildCounts(results) == Sum(paths, totalsOf)
  {
    LeavesArePaths(results, paths, prefix, totalsOf);
    ChildCountsAreSums(results, totalsOf);
    SumOfPermutation(Leaves(results), paths, totalsOf);
  }

  /**
   Every node sits directly in `prefix` under a name of its own, and holds what is below it. Unless
   `strict`, a file without a slash may also sit in directories that repeat it.
   */
  ghost predicate Arranged(nodes: seq<PathNode>, prefix: string, strict: bool)
    decreases nodes
  {
    && (forall i, j :: 0 <= i < j < |nodes| ==> nodes[i].fullPath != nodes[j].fullPath)
    && (forall i :: 0 <= i < |nodes| ==> Placed(nodes[i], prefix, strict))
  }

  ghost predicate Placed(node: PathNode, prefix: string, strict: bool)
    decreases node
  {
    && ((exists name :: !HasSlash(name) && node.fullPath == Join(prefix, name))
        || (!strict && node.File? && Repeated(node.fullPath, prefix)))
    && (node.Dir? ==>
          && node.children != [] && Arranged(node.children, node.fullPath, strict)
          && forall leaf :: leaf in Leaves(node.children) ==>
               node.fullPath + "/" <= leaf || (!strict && Repeated(leaf, node.fullPath)))
  }

  /** The node for the group `key` has that name, or is a file that the prefix repeats. */
  ghost predicate Named(node: PathNode, key: string, prefix: string) {
    node.fullPath == key || (node.File? && Repeated(node.fullPath, prefix))
  }

  lemma BaseIsJoin(path: string, prefix: string)
    ensures exists name :: !HasSlash(name) && Base(path, prefix) == Join(prefix, name)
  {
    var name := FirstPart(PrefixedPath(path, prefix).RelativePath());
    assert !HasSlash(name) && Base(path, prefix) == Join(prefix, name);
  }

  /**
   Siblings have distinct names, and every leaf lies under each directory around it, but for files
   without a slash in directories that repeat them; for prefix-free paths there are none of these.
   */
  lemma {:induction false} ListingIsArranged(results: seq<PathNode>, paths: seq<string>, prefix: string, totalsOf: TotalsOf, strict: bool)
    requires Lists(results, paths, prefix, totalsOf) && Fits(paths, prefix)
    requires strict ==> AllInside(paths, prefix) && PrefixFree(paths)
    ensures Arranged(results, prefix, strict)
    decreases results
  {
    hide Keys, Select, Fits, AllInside, PrefixFree, Shows, Placed, Named, Leaves, Distinct;
    var keys := Keys(paths, prefix);
    KeysAreBases(paths, prefix);
    forall i | 0 <= i < |results|
      ensures Placed(results[i], prefix, strict) && Named(results[i], keys[i], prefix)
      ensures results[i].File? ==> Select(paths, prefix, keys[i]) == [results[i].fullPath]
    {
      var node, group := results[i], Select(paths, prefix, keys[i]);
      assert keys[i] in keys;
      if node.Dir? {
        DirFits(node, paths, prefix, keys[i], totalsOf, strict);
        ListingIsArranged(node.children, group, keys[i], totalsOf, strict);
        DirPlaced(node, paths, prefix, keys[i], totalsOf, strict);
      } else {
        FilePlaced(node, paths, prefix, keys[i], totalsOf, strict);
      }
    }
    forall i, j | 0 <= i < j < |results| ensures results[i].fullPath != results[j].fullPath {
      assert keys[i] in keys && keys[j] in keys;
      NamesApart(results[i], results[j], paths, prefix, keys[i], keys[j], totalsOf);
    }
  }

  lemma DirFits(node: PathNode, paths: seq<string>, prefix: string, key: string, totalsOf: TotalsOf, strict: bool)
    requires node.Dir? && Shows(node, Select(paths, prefix, key), key, prefix, totalsOf)
    requires Fits(paths, prefix) && Select(paths, prefix, key) != [] && (strict ==> AllInside(paths, prefix) && PrefixFree(paths))
    ensures var group := Select(paths, prefix, key);
            && node.fullPath == key && Lists(node.children, group, key, totalsOf)
            && Fits(group, key) && key != "" && (strict ==> AllInside(group, key) && PrefixFree(group))
  {
    hide Select, Fits, AllInside, PrefixFree, Lists, IsSingleFile;
    var inner := GroupFits(paths, prefix, key);
    if strict {
      GroupIsInside(paths, prefix, key);
    }
  }

  lemma DirPlaced(node: PathNode, paths: seq<string>, prefix: string, key: string, totalsOf: TotalsOf, strict: bool)
    requires var group := Select(paths, prefix, key);
             && node.Dir? && node.fullPath == key && Lists(node.children, group, key, totalsOf) && group != []
             && Fits(group, key) && key != "" && (strict ==> AllInside(group, key))
    requires Arranged(node.children, key, strict)
    ensures Placed(node, prefix, strict) && Named(node, key, prefix)
  {
    hide Select, Lists, Arranged, Repeated, Leaves;
    var x := SelectMembers(paths, prefix, key, 0);
    BaseIsJoin(paths[x], prefix);
    DirHoldsGroup(node, Select(paths, prefix, key), totalsOf, strict);
  }

  lemma DirHoldsGroup(node: PathNode, group: seq<string>, totalsOf: TotalsOf, strict: bool)
    requires node.Dir? && Lists(node.children, group, node.fullPath, totalsOf)
    requires group != [] && Fits(group, node.fullPath) && node.fullPath != "" && (strict ==> AllInside(group, node.fullPath))
    ensures node.children != []
    ensures forall leaf :: leaf in Leaves(node.children) ==>
              node.fullPath + "/" <= leaf || (!strict && Repeated(leaf, node.fullPath))
  {
    LeavesArePaths(node.children, group, node.fullPath, totalsOf);
    hide Lists, Leaves, Repeated;
    forall leaf | leaf in Leaves(node.children)
      ensures node.fullPath + "/" <= leaf || (!strict && Repeated(leaf, node.fullPath))
    {
      assert leaf in multiset(group);
      var i :| 0 <= i < |group| && group[i] == leaf;
      assert Inside(group[i], node.fullPath) || (!strict && Repeated(group[i], node.fullPath));
    }
    assert |multiset(group)| == |group|;
    NoLeaves();
  }

  lemma FilePlaced(node: PathNode, paths: seq<string>, prefix: string, key: string, totalsOf: TotalsOf, strict: bool)
    requires node.File? && Shows(node, Select(paths, prefix, key), key, prefix, totalsOf)
    requires Fits(paths, prefix) && Select(paths, prefix, key) != [] && (strict ==> AllInside(paths, prefix))
    ensures Placed(node, prefix, strict) && Named(node, key, prefix)
    ensures Select(paths, prefix, key) == [node.fullPath]
  {
    hide Select, Repeated, Base, IsFileAt;
    var x := SelectMembers(paths, prefix, key, 0);
    BaseIsJoin(paths[x], prefix);
    MemberFits(paths[x], prefix, key);
  }

  lemma NamesApart(node: PathNode, other: PathNode, paths: seq<string>, prefix: string, key: string, otherKey: string, totalsOf: TotalsOf)
    requires Named(node, key, prefix) && Named(other, otherKey, prefix) && key != otherKey
    requires Select(paths, prefix, key) != [] && Select(paths, prefix, otherKey) != []
    requires node.File? ==> Select(paths, prefix, key) == [node.fullPath]
    requires other.File? ==> Select(paths, prefix, otherKey) == [other.fullPath]
    ensures node.fullPath != other.fullPath
  {
    hide Select, Repeated, Base;
    var x := SelectMembers(paths, prefix, key, 0);
    var y := SelectMembers(paths, prefix, otherKey, 0);
    LongerThanPrefix(paths[x], prefix);
    LongerThanPrefix(paths[y], prefix);
    if node.fullPath != key {
      var m := RepeatedBase(node.fullPath, prefix);
    }
    if other.fullPath != otherKey {
      var m := RepeatedBase(other.fullPath, prefix);
    }
  }

  lemma LongerThanPrefix(path: string, prefix: string)
    ensures prefix != "" ==> |prefix| < |Base(path, prefix)|
  {
  }

  // ---------------------------------------------------------------------------------------------
  // When the recursion ends

  /** The recursion on these paths is at most `depth` levels deep. */
  predicate EndsWithin(paths: seq<string>, prefix: string, depth: nat)
    decreases depth
  {
    depth > 0 && forall k :: k in Keys(paths, prefix) ==>
      IsSingleFile(Select(paths, prefix, k), prefix) || EndsWithin(Select(paths, prefix, k), k, depth - 1)
  }

  lemma {:induction false} Ends(paths: seq<string>, prefix: string, limit: nat)
    requires Fits(paths, prefix)
    requires |prefix| <= limit && forall i :: 0 <= i < |paths| ==> |paths[i]| <= limit
    ensures EndsWithin(paths, prefix, limit - |prefix| + 1)
    decreases limit - |prefix|
  {
    hide Keys, Select, Fits, Inside, IsSingleFile;
    var depth := limit - |prefix| + 1;
    forall k | k in Keys(paths, prefix) && !IsSingleFile(Select(paths, prefix, k), prefix)
      ensures EndsWithin(Select(paths, prefix, k), k, depth - 1)
    {
      var group := Select(paths, prefix, k);
      KeysAreBases(paths, prefix);
      var inner := GroupFits(paths, prefix, k);
      GroupIsShorter(paths, prefix, k, limit);
      InsideIsLonger(inner, k);
      Ends(group, k, limit);
      Deeper(group, k, limit - |k| + 1, depth - 1);
    }
  }

  lemma {:induction false} Deeper(paths: seq<string>, prefix: string, depth: nat, more: nat)
    requires EndsWithin(paths, prefix, depth) && depth <= more
    ensures EndsWithin(paths, prefix, more)
    decreases depth
  {
    forall k | k in Keys(paths, prefix) && !IsSingleFile(Select(paths, prefix, k), prefix)
      ensures EndsWithin(Select(paths, prefix, k), k, more - 1)
    {
      Deeper(Select(paths, prefix, k), k, depth - 1, more - 1);
    }
  }

  /** Two different places in the list hold `p` and `q`. */
  predicate Both(paths: seq<string>, p: string, q: string) {
    exists x, y :: 0 <= x < |paths| && 0 <= y < |paths| && x != y && paths[x] == p && paths[y] == q
  }

  lemma {:induction false} SelectKeeps(paths: seq<string>, prefix: string, key: string, x: nat) returns (i: nat)
    requires x < |paths| && Base(paths[x], prefix) == key
    ensures i < |Select(paths, prefix, key)| && Select(paths, prefix, key)[i] == paths[x]
  {
    hide Base;
    var init := paths[..|paths| - 1];
    if x < |init| {
      i := SelectKeeps(init, prefix, key, x);
    } else {
      i := |Select(init, prefix, key)|;
    }
  }

  lemma {:induction false} SelectKeepsBoth(paths: seq<string>, prefix: string, key: string, x: nat, y: nat) returns (i: nat, j: nat)
    requires x < y < |paths| && Base(paths[x], prefix) == key && Base(paths[y], prefix) == key
    ensures i < j < |Select(paths, prefix, key)|
    ensures Select(paths, prefix, key)[i] == paths[x] && Select(paths, prefix, key)[j] == paths[y]
  {
    hide Base;
    var init := paths[..|paths| - 1];
    if y < |init| {
      i, j := SelectKeepsBoth(init, prefix, key, x, y);
    } else {
      i := SelectKeeps(init, prefix, key, x);
      j := |Select(init, prefix, key)|;
    }
  }

  /** A path with a slash that the prefix has outgrown is grouped again and again. */
  lemma {:induction false} OutgrownNeverEnds(paths: seq<string>, prefix: string, p: string, depth: nat)
    requires p in paths && HasSlash(p) && prefix != "" && |p| <= |prefix|
    ensures !EndsWithin(paths, prefix, depth)
    decreases depth
  {
    if depth > 0 {
      OutgrownBase(p, prefix);
      hide Base, Keys, Select, HasSlash, IsSingleFile, IsFileAt;
      var k := Base(p, prefix);
      var x :| 0 <= x < |paths| && paths[x] == p;
      var i := SelectKeeps(paths, prefix, k, x);
      KeysAreBases(paths, prefix);
      var group := Select(paths, prefix, k);
      NoSingleFile(group, prefix, i);
      OutgrownNeverEnds(group, k, p, depth - 1);
    }
  }

  lemma OutgrownBase(p: string, prefix: string)
    requires HasSlash(p) && prefix != "" && |p| <= |prefix|
    ensures |p| <= |Base(p, prefix)| && Base(p, prefix) != "" && !IsFileAt(p, prefix)
  {
    assert PrefixedPath(p, prefix).RelativePath() == p;
  }

  lemma NoSingleFile(group: seq<string>, prefix: string, i: nat)
    requires i < |group| && !IsFileAt(group[i], prefix)
    ensures !IsSingleFile(group, prefix)
  {
  }

  lemma AboveSharesBase(p: string, q: string, prefix: string)
    requires Inside(p, prefix) && Inside(q, prefix) && Above(p, q)
    ensures Base(p, prefix) == Base(q, prefix)
  {
    if p != q {
      var rp, rq := PrefixedPath(p, prefix).RelativePath(), PrefixedPath(q, prefix).RelativePath();
      var d := if prefix == "" then 0 else |prefix| + 1;
      assert rp == p[d..] && rq == q[d..];
      assert rq[..|rp|] == (p + "/")[d..][..|rp|] == rp;
      assert rq[|rp|] == (p + "/")[|p|] == '/';
      assert rp + "/" <= rq;
      FirstPartOfAbove(rp, rq);
    }
  }

  lemma {:induction false} FirstPartOfAbove(s: string, t: string)
    requires s + "/" <= t
    ensures FirstPart(s) == FirstPart(t)
  {
    if s == [] {
      assert t[0] == '/';
    } else {
      assert t[0] == (s + "/")[0] == s[0];
      assert s[1..] + "/" == (s + "/")[1..] <= t[1..];
      FirstPartOfAbove(s[1..], t[1..]);
    }
  }

  lemma SelectKeepsPair(paths: seq<string>, prefix: string, p: string, q: string)
    requires Both(paths, p, q) && Base(p, prefix) == Base(q, prefix)
    ensures Both(Select(paths, prefix, Base(p, prefix)), p, q)
  {
    hide Base, Select;
    var group := Select(paths, prefix, Base(p, prefix));
    var x, y :| 0 <= x < |paths| && 0 <= y < |paths| && x != y && paths[x] == p && paths[y] == q;
    if x < y {
      var i, j := SelectKeepsBoth(paths, prefix, Base(p, prefix), x, y);
      assert group[i] == p && group[j] == q;
    } else {
      var i, j := SelectKeepsBoth(paths, prefix, Base(p, prefix), y, x);
      assert group[j] == p && group[i] == q;
    }
  }

  /** A repeated path, or one above another, keeps the recursion from ever ending. */
  lemma {:induction false} AboveNeverEnds(paths: seq<string>, prefix: string, p: string, q: string, depth: nat)
    requires Inside(p, prefix) && Inside(q, prefix) && Both(paths, p, q) && Above(p, q) && HasSlash(p)
    ensures !EndsWithin(paths, prefix, depth)
    decreases depth
  {
    if depth > 0 {
      var k := Base(p, prefix);
      var group := Select(paths, prefix, k);
      PairIsGrouped(paths, prefix, p, q);
      hide *;
      if IsFileAt(p, prefix) {
        OutgrownNeverEnds(group, k, p, depth - 1);
      } else {
        AboveNeverEnds(group, k, p, q, depth - 1);
      }
      GroupNeverEnds(paths, prefix, k, depth);
    }
  }

  /** A group of several paths that is grouped for ever keeps its list from ending, too. */
  lemma GroupNeverEnds(paths: seq<string>, prefix: string, key: string, depth: nat)
    requires depth > 0 && |Select(paths, prefix, key)| > 1 && !EndsWithin(Select(paths, prefix, key), key, depth - 1)
    ensures !EndsWithin(paths, prefix, depth)
  {
    hide Keys, Select;
    KeysAreBases(paths, prefix);
  }

  lemma PairIsGrouped(paths: seq<string>, prefix: string, p: string, q: string)
    requires Inside(p, prefix) && Inside(q, prefix) && Both(paths, p, q) && Above(p, q) && HasSlash(p)
    ensures var k := Base(p, prefix);
            var group := Select(paths, prefix, k);
            && Both(group, p, q) && p in group && |group| > 1
            && (IsFileAt(p, prefix) ==> k == p && k != "")
            && (!IsFileAt(p, prefix) ==> Inside(p, k) && Inside(q, k))
  {
    AboveSharesBase(p, q, prefix);
    SelectKeepsPair(paths, prefix, p, q);
    PairOfDirectories(p, q, prefix);
    hide Base, Select, IsFileAt, Inside, Above;
    var group := Select(paths, prefix, Base(p, prefix));
    var x, y :| 0 <= x < |group| && 0 <= y < |group| && x != y && group[x] == p && group[y] == q;
  }

  /** When the upper of two paths is not a file of the directory, neither is the other. */
  lemma PairOfDirectories(p: string, q: string, prefix: string)
    requires Inside(p, prefix) && Inside(q, prefix) && Above(p, q) && Base(p, prefix) == Base(q, prefix) && HasSlash(p)
    ensures IsFileAt(p, prefix) ==> Base(p, prefix) == p && p != ""
    ensures !IsFileAt(p, prefix) ==> Inside(p, Base(p, prefix)) && Inside(q, Base(p, prefix))
  {
    BaseOfInside(p, prefix);
    BaseOfInside(q, prefix);
    assert |p| <= |q|;
    hide IsFileAt, Base, Inside;
  }

  /** A path without a slash that occurs twice stays twice in a group. */
  lemma {:induction false} TwiceNeverEnds(paths: seq<string>, prefix: string, a: string, depth: nat)
    requires Both(paths, a, a) && !HasSlash(a) && (prefix == "" || |a| <= |prefix|)
    ensures !EndsWithin(paths, prefix, depth)
    decreases depth
  {
    if depth > 0 {
      var k := Base(a, prefix);
      assert PrefixedPath(a, prefix).RelativePath() == a && k == Join(prefix, a);
      hide *;
      SelectKeepsPair(paths, prefix, a, a);
      TwoOfThem(Select(paths, prefix, k), a, a);
      LongerName(prefix, a);
      TwiceNeverEnds(Select(paths, prefix, k), k, a, depth - 1);
      GroupNeverEnds(paths, prefix, k, depth);
    }
  }

  lemma LongerName(prefix: string, a: string)
    ensures Join(prefix, a) == "" || |a| <= |Join(prefix, a)|
  {
  }

  lemma TwoOfThem(paths: seq<string>, p: string, q: string)
    requires Both(paths, p, q)
    ensures |paths| > 1 && p in paths && q in paths
  {
  }

  /** Towers are above their higher towers. */
  lemma {:induction false} TowersAbove(a: string, k: nat, m: nat)
    requires 0 < k <= m && Slashless(a)
    ensures Above(Tower(a, k), Tower(a, m))
    decreases m
  {
    if k < m {
      TowersAbove(a, k, m - 1);
      TowerShape(a, m - 1);
      var t := Tower(a, m - 1);
      assert Tower(a, m) == t + "/" + a;
      assert t + "/" <= Tower(a, m);
      assert t <= Tower(a, m);
    }
  }

  lemma TowerInside(a: string, k: nat, m: nat)
    requires k < m && Slashless(a)
    ensures Inside(Tower(a, m), Tower(a, k)) && Base(Tower(a, m), Tower(a, k)) == Tower(a, k + 1)
  {
    if k == 0 {
      TowerShape(a, m);
      TowerTop(a, m);
    } else {
      TowerShape(a, k);
      TowersAbove(a, k, m);
      TowersDiffer(a, k, m);
      TowersAbove(a, k + 1, m);
      var prefix, next := Tower(a, k), Tower(a, k + 1);
      assert next == prefix + "/" + a;
      hide Base, Tower, FirstPart, HasSlash;
      NextIsBase(a, prefix);
      AboveSharesBase(next, Tower(a, m), prefix);
    }
  }

  lemma NextIsBase(a: string, prefix: string)
    requires Slashless(a) && prefix != ""
    ensures var next := prefix + "/" + a; Inside(next, prefix) && Base(next, prefix) == next
  {
    assert prefix + "/" <= prefix + "/" + a;
    assert PrefixedPath(prefix + "/" + a, prefix).RelativePath() == a;
  }

  lemma TowerTop(a: string, m: nat)
    requires m > 0 && Slashless(a) && FirstPart(Tower(a, m)) == a
    ensures Tower(a, 0) == "" && Inside(Tower(a, m), "") && Base(Tower(a, m), "") == a == Tower(a, 1)
  {
    var t := Tower(a, m);
    assert PrefixedPath(t, "").RelativePath() == t;
    assert t == "" || t[0] != '/';
  }

  lemma {:induction false} TowersDiffer(a: string, k: nat, m: nat)
    requires k < m && a != ""
    ensures |Tower(a, k)| < |Tower(a, m)|
    decreases m
  {
    if k < m - 1 {
      TowersDiffer(a, k, m - 1);
    }
  }

  /** A path without a slash and a tower of it stay together until the prefix has outgrown both. */
  lemma {:induction false} TowerNeverEnds(paths: seq<string>, a: string, k: nat, m: nat, depth: nat)
    requires Slashless(a) && k < m && m >= 2 && Both(paths, a, Tower(a, m))
    ensures !EndsWithin(paths, Tower(a, k), depth)
    decreases depth
  {
    hide *;
    if depth == 0 {
      NotWithinZero(paths, Tower(a, k));
    } else {
      var prefix, key, t := Tower(a, k), Tower(a, k + 1), Tower(a, m);
      SlashlessBase(a, k);
      TowerInside(a, k, m);
      PairStays(paths, prefix, key, a, t);
      if k + 1 == m {
        FullTowerNeverEnds(Select(paths, prefix, key), a, m, depth - 1);
      } else {
        TowerNeverEnds(Select(paths, prefix, key), a, k + 1, m, depth - 1);
      }
      GroupNeverEnds(paths, prefix, key, depth);
    }
  }

  lemma NotWithinZero(paths: seq<string>, prefix: string)
    ensures !EndsWithin(paths, prefix, 0)
  {
  }

  lemma FullTowerNeverEnds(paths: seq<string>, a: string, m: nat, depth: nat)
    requires Slashless(a) && m >= 2 && Both(paths, a, Tower(a, m))
    ensures !EndsWithin(paths, Tower(a, m), depth)
  {
    TowerShape(a, m);
    hide *;
    TwoOfThem(paths, a, Tower(a, m));
    OutgrownNeverEnds(paths, Tower(a, m), Tower(a, m), depth);
  }

  lemma PairStays(paths: seq<string>, prefix: string, key: string, p: string, q: string)
    requires Both(paths, p, q) && Base(p, prefix) == Base(q, prefix) == key
    ensures Both(Select(paths, prefix, key), p, q) && |Select(paths, prefix, key)| > 1
  {
    hide *;
    SelectKeepsPair(paths, prefix, p, q);
    TwoOfThem(Select(paths, prefix, key), p, q);
  }

  lemma SlashlessBase(a: string, k: nat)
    requires Slashless(a)
    ensures Base(a, Tower(a, k)) == Tower(a, k + 1)
  {
    if k > 0 {
      TowerShape(a, k);
    }
    assert PrefixedPath(a, Tower(a, k)).RelativePath() == a;
  }

  /** Paths that are not all inside the prefix, or are it, are grouped for ever. */
  lemma OutsideNeverEnds(paths: seq<string>, prefix: string, i: nat, depth: nat)
    requires i < |paths| && IsSubpath(paths[i], prefix) && !Inside(paths[i], prefix) && !Repeated(paths[i], prefix)
    ensures !EndsWithin(paths, prefix, depth)
  {
    var p := paths[i];
    if prefix == "" {
      LeadingSlashNeverEnds(paths, p, depth);
    } else {
      assert p == prefix;
      if !HasSlash(p) {
        TowerShape(p, 1);
      }
      OutgrownNeverEnds(paths, prefix, p, depth);
    }
  }

  lemma CloseNeverEnds(paths: seq<string>, prefix: string, i: nat, j: nat, depth: nat)
    requires i < |paths| && j < |paths| && i != j
    requires forall x :: 0 <= x < |paths| ==> Inside(paths[x], prefix) || Repeated(paths[x], prefix)
    requires paths[i] == paths[j] || (HasSlash(paths[i]) && paths[i] + "/" <= paths[j])
    ensures !EndsWithin(paths, prefix, depth)
  {
    var p, q := paths[i], paths[j];
    assert Both(paths, p, q);
    if HasSlash(p) {
      assert HasSlash(q) by {
        if p != q {
          assert q[|p|] == '/';
        }
      }
      AboveNeverEnds(paths, prefix, p, q, depth);
    } else {
      if prefix != "" {
        if Inside(p, prefix) {
          InsideHasSlash(p, prefix);
        } else {
          var m := RepeatedBase(p, prefix);
        }
      }
      TwiceNeverEnds(paths, prefix, p, depth);
    }
  }

  lemma TowersNeverEnd(paths: seq<string>, prefix: string, i: nat, j: nat, m: nat, depth: nat)
    requires i < |paths| && j < |paths| && m >= 2 && Slashless(paths[i]) && paths[j] == Tower(paths[i], m)
    requires forall x :: 0 <= x < |paths| ==>
               IsSubpath(paths[x], prefix) && (Inside(paths[x], prefix) || Repeated(paths[x], prefix))
    ensures !EndsWithin(paths, prefix, depth)
  {
    var a := paths[i];
    TowerShape(a, m);
    assert Both(paths, a, Tower(a, m));
    TowerShape(a, 1);
    if prefix == "" {
      TowerNeverEnds(paths, a, 0, m, depth);
    } else {
      if Inside(a, prefix) {
        InsideHasSlash(a, prefix);
      }
      assert prefix == a;
      TowerNeverEnds(paths, a, 1, m, depth);
    }
  }

  lemma FittingEnds(paths: seq<string>, prefix: string) returns (depth: nat)
    requires Fits(paths, prefix)
    ensures EndsWithin(paths, prefix, depth)
  {
    hide Fits;
    var limit := |prefix| + |Joined(paths)|;
    forall i | 0 <= i < |paths| ensures |paths[i]| <= limit {
      JoinedIsLonger(paths, i);
    }
    hide *;
    Ends(paths, prefix, limit);
    depth := limit - |prefix| + 1;
  }

  lemma UnfitNeverEnds(paths: seq<string>, prefix: string, depth: nat)
    requires forall i :: 0 <= i < |paths| ==> IsSubpath(paths[i], prefix)
    requires !Fits(paths, prefix)
    ensures !EndsWithin(paths, prefix, depth)
  {
    hide Inside, Repeated, Tower, IsSubpath, EndsWithin, HasSlash, Slashless;
    if i :| 0 <= i < |paths| && !(Inside(paths[i], prefix) || Repeated(paths[i], prefix)) {
      OutsideNeverEnds(paths, prefix, i, depth);
    } else if !Apart(paths) {
      var i, j :| 0 <= i < |paths| && 0 <= j < |paths| && i != j
                  && !(paths[i] != paths[j] && (HasSlash(paths[i]) ==> !(paths[i] + "/" <= paths[j])));
      CloseNeverEnds(paths, prefix, i, j, depth);
    } else {
      var i, j, m: nat :| 0 <= i < |paths| && 0 <= j < |paths| && m >= 2 && Slashless(paths[i])
                          && paths[j] == Tower(paths[i], m);
      TowersNeverEnd(paths, prefix, i, j, m, depth);
    }
  }

  /**
   For paths below a prefix, the top included, the recursion ends exactly when
   - at the top, no path starts with a slash; elsewhere, none is the prefix, unless it has no slash;
   - the paths differ, and none with a slash is a directory above another;
   - next to a path `a` without a slash, there is no `a/a`, `a/a/a`, and so on.
   */
  lemma RecursionEndsExactlyWhen(paths: seq<string>, prefix: string)
    requires forall i :: 0 <= i < |paths| ==> IsSubpath(paths[i], prefix)
    ensures (exists depth :: EndsWithin(paths, prefix, depth)) <==> Fits(paths, prefix)
  {
    hide *;
    if Fits(paths, prefix) {
      var depth := FittingEnds(paths, prefix);
    } else {
      forall depth ensures !EndsWithin(paths, prefix, depth) {
        UnfitNeverEnds(paths, prefix, depth);
      }
    }
  }

  /** Prefix-free files of which none is the prefix or starts with a slash can always be listed. */
  lemma PrefixFreeFits(paths: seq<string>, prefix: string)
    requires AllInside(paths, prefix) && PrefixFree(paths)
    ensures Fits(paths, prefix)
  {
    forall i, j, m: nat | 0 <= i < |paths| && 0 <= j < |paths| && m >= 2 && Slashless(paths[i])
      ensures paths[j] != Tower(paths[i], m)
    {
      TowerShape(paths[i], m);
      InsideIs(Tower(paths[i], m), paths[i]);
    }
  }

  /** A path that starts with a slash keeps the recursion at the top for ever. */
  lemma {:induction false} LeadingSlashNeverEnds(paths: seq<string>, p: string, depth: nat)
    requires p in paths && "/" <= p
    ensures !EndsWithin(paths, "", depth)
    decreases depth
  {
    if depth > 0 {
      var x :| 0 <= x < |paths| && paths[x] == p;
      assert Base(p, "") == "";
      var i := SelectKeeps(paths, "", "", x);
      var group := Select(paths, "", "");
      KeysAreBases(paths, "");
      assert group[i] == p && !IsFileAt(p, "");
      LeadingSlashNeverEnds(group, p, depth - 1);
    }
  }
}
