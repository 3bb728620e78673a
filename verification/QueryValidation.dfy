/** Validation rules for GraphQL queries: visitors with counters, run over a document. */
module QueryValidation {
  import opened Basics

  datatype Selection =
    | Field(name: string, alias: Option<string>, selections: seq<Selection>)
    | InlineFragment(selections: seq<Selection>)
    | FragmentSpread(name: string)

  datatype Definition =
    | Operation(selections: seq<Selection>)
    | Fragment(name: string, selections: seq<Selection>)

  type Document = seq<Definition>

  // ---------------------------------------------------------------------------------------------
  // Reference definitions

  /** A field with the depth at which it stands. */
  datatype Placed = Placed(field: Selection, depth: nat)

  /** The fields below depth `depth`, in pre-order. */
  function Fields(selections: seq<Selection>, depth: nat): seq<Placed>
    decreases selections
  {
    if selections == [] then [] else FieldsOf(selections[0], depth) + Fields(selections[1..], depth)
  }

  function FieldsOf(s: Selection, depth: nat): seq<Placed>
    decreases s
  {
    match s
    case Field(_, _, inner) => [Placed(s, depth + 1)] + Fields(inner, depth + 1)
    case InlineFragment(inner) => Fields(inner, depth)
    case FragmentSpread(_) => []
  }

  /** How deeply fields are nested. */
  function Nesting(selections: seq<Selection>): nat
    decreases selections
  {
    if selections == [] then 0 else Max(NestingOf(selections[0]), Nesting(selections[1..]))
  }

  function NestingOf(s: Selection): nat
    decreases s
  {
    match s
    case Field(_, _, inner) => 1 + Nesting(inner)
    case InlineFragment(inner) => Nesting(inner)
    case FragmentSpread(_) => 0
  }

  function TooDeep(fields: seq<Placed>, limit: int): seq<Selection> {
    if fields == [] then []
    else (if fields[0].depth > limit then [fields[0].field] else []) + TooDeep(fields[1..], limit)
  }

  function Aliased(fields: seq<Placed>): seq<Selection> {
    if fields == [] then []
    else (if fields[0].field.Field? && fields[0].field.alias.Some? then [fields[0].field] else []) + Aliased(fields[1..])
  }

  function First(s: seq<Selection>): seq<Selection> {
    if s == [] then [] else [s[0]]
  }

  lemma {:induction false} TooDeepAppend(s: seq<Placed>, t: seq<Placed>, limit: int)
    ensures TooDeep(s + t, limit) == TooDeep(s, limit) + TooDeep(t, limit)
  {
    if s == [] {
      assert s + t == t;
    } else {
      assert (s + t)[1..] == s[1..] + t;
      TooDeepAppend(s[1..], t, limit);
    }
  }

  lemma {:induction false} AliasedAppend(s: seq<Placed>, t: seq<Placed>)
    ensures Aliased(s + t) == Aliased(s) + Aliased(t)
  {
    if s == [] {
      assert s + t == t;
    } else {
      assert (s + t)[1..] == s[1..] + t;
      AliasedAppend(s[1..], t);
    }
  }

  /** Some field is too deep exactly when the nesting exceeds what is left of the limit. */
  lemma {:induction false} DeepExactlyWhen(selections: seq<Selection>, depth: nat, limit: int)
    requires depth <= limit
    ensures TooDeep(Fields(selections, depth), limit) != [] <==> depth + Nesting(selections) > limit
    decreases selections
  {
    if selections != [] {
      DeepOfExactlyWhen(selections[0], depth, limit);
      DeepExactlyWhen(selections[1..], depth, limit);
      TooDeepAppend(FieldsOf(selections[0], depth), Fields(selections[1..], depth), limit);
    }
  }

  lemma {:induction false} DeepOfExactlyWhen(s: Selection, depth: nat, limit: int)
    requires depth <= limit
    ensures TooDeep(FieldsOf(s, depth), limit) != [] <==> depth + NestingOf(s) > limit
    decreases s
  {
    match s
    case FragmentSpread(_) =>
    case InlineFragment(inner) => DeepExactlyWhen(inner, depth, limit);
    case Field(_, _, inner) =>
      var below := Fields(inner, depth + 1);
      assert ([Placed(s, depth + 1)] + below)[1..] == below;
      if depth + 1 <= limit {
        DeepExactlyWhen(inner, depth + 1, limit);
      }
  }

  // ---------------------------------------------------------------------------------------------
  // The depth rule

  class MaxDepthRule {
    const maxDepth: int
    var operationDepth: int
    var maxDepthReached: bool
    var errors: seq<Selection>

    constructor (maxDepth: int)
      ensures this.maxDepth == maxDepth && operationDepth == 1 && !maxDepthReached && errors == []
    {
      this.maxDepth := maxDepth;
      operationDepth, maxDepthReached, errors := 1, false, [];
    }

    method EnterOperationDefinition()
      modifies this
      ensures operationDepth == 1 && !maxDepthReached && errors == old(errors)
    {
      operationDepth := 1;
      maxDepthReached := false;
    }

    method EnterField(node: Selection)
      modifies this
      ensures operationDepth == old(operationDepth) + 1
      ensures var deep := old(operationDepth) + 1 > maxDepth;
              && maxDepthReached == (old(maxDepthReached) || deep)
              && errors == if deep && !old(maxDepthReached) then old(errors) + [node] else old(errors)
    {
      operationDepth := operationDepth + 1;
      if operationDepth > maxDepth && !maxDepthReached {
        maxDepthReached := true;
        errors := errors + [node];
      }
    }

    method LeaveField()
      modifies this`operationDepth
      ensures operationDepth == old(operationDepth) - 1
    {
      operationDepth := operationDepth - 1;
    }

    /** The first too-deep field is reported, unless one has been already. */
    ghost predicate Reported(deep: seq<Selection>, reached: bool, before: seq<Selection>)
      reads this
    {
      && maxDepthReached == (reached || deep != [])
      && errors == if reached then before else before + First(deep)
    }

    method VisitSelections(selections: seq<Selection>)
      requires operationDepth >= 0
      modifies this
      ensures operationDepth == old(operationDepth)
      ensures Reported(TooDeep(Fields(selections, operationDepth), maxDepth), old(maxDepthReached), old(errors))
      decreases selections
    {
      assert TooDeep(Fields([], operationDepth), maxDepth) == [] && selections[..0] == [];
      hide TooDeep, Fields, First;
      NothingMore(old(errors));
      for i := 0 to |selections|
        invariant operationDepth == old(operationDepth)
        invariant Reported(TooDeep(Fields(selections[..i], operationDepth), maxDepth), old(maxDepthReached), old(errors))
      {
        ghost var deep := TooDeep(Fields(selections[..i], operationDepth), maxDepth);
        VisitSelection(selections[i]);
        TooDeepSnoc(selections, i, operationDepth, maxDepth);
        FirstOfBoth(deep, TooDeep(FieldsOf(selections[i], operationDepth), maxDepth), old(errors));
      }
      assert selections[..|selections|] == selections;
    }

    method VisitSelection(s: Selection)
      requires operationDepth >= 0
      modifies this
      ensures operationDepth == old(operationDepth)
      ensures Reported(TooDeep(FieldsOf(s, operationDepth), maxDepth), old(maxDepthReached), old(errors))
      decreases s
    {
      match s
      case Field(_, _, inner) =>
        ghost var below := Fields(inner, operationDepth + 1);
        assert ([Placed(s, operationDepth + 1)] + below)[1..] == below;
        EnterField(s);
        VisitSelections(inner);
        LeaveField();
      case InlineFragment(inner) => VisitSelections(inner);
      case FragmentSpread(_) =>
    }

    method VisitDocument(document: Document)
      requires operationDepth == 1 && !maxDepthReached && errors == []
      modifies this
      ensures operationDepth == 1
      ensures (errors, maxDepthReached) == DepthErrors(document, maxDepth)
    {
      for i := 0 to |document|
        invariant operationDepth == 1 && (errors, maxDepthReached) == DepthErrors(document[..i], maxDepth)
      {
        assert document[..i + 1][..i] == document[..i];
        match document[i]
        case Operation(selections) =>
          EnterOperationDefinition();
          VisitSelections(selections);
        case Fragment(_, selections) =>
          VisitSelections(selections);
      }
      assert document[..|document|] == document;
    }
  }

  lemma NothingMore(before: seq<Selection>)
    ensures before + First([]) == before
  {
  }

  lemma FirstOfBoth(s: seq<Selection>, t: seq<Selection>, before: seq<Selection>)
    ensures before + First(s + t) == if s != [] then before + First(s) else before + First(s) + First(t)
    ensures s + t != [] <==> s != [] || t != []
  {
    if s == [] {
      assert s + t == t && before + First(s) == before;
    }
  }

  lemma TooDeepSnoc(selections: seq<Selection>, i: nat, depth: nat, limit: int)
    requires i < |selections|
    ensures TooDeep(Fields(selections[..i + 1], depth), limit)
            == TooDeep(Fields(selections[..i], depth), limit) + TooDeep(FieldsOf(selections[i], depth), limit)
  {
    hide TooDeep, Fields;
    FieldsSnoc(selections[..i], selections[i], depth);
    TooDeepAppend(Fields(selections[..i], depth), FieldsOf(selections[i], depth), limit);
    assert selections[..i + 1] == selections[..i] + [selections[i]];
  }

  lemma {:induction false} FieldsSnoc(selections: seq<Selection>, s: Selection, depth: nat)
    ensures Fields(selections + [s], depth) == Fields(selections, depth) + FieldsOf(s, depth)
  {
    if selections == [] {
      assert selections + [s] == [s] && [s][1..] == [];
    } else {
      assert (selections + [s])[1..] == selections[1..] + [s];
      FieldsSnoc(selections[1..], s, depth);
    }
  }

  /**
   The errors of a document, and whether one has been reported since the last operation began. A
   fragment definition is checked as well, but does not start anew.
   */
  function DepthErrors(document: Document, limit: int): (seq<Selection>, bool) {
    if document == [] then ([], false)
    else
      var (errors, reached) := DepthErrors(document[..|document| - 1], limit);
      var d := document[|document| - 1];
      var deep := TooDeep(Fields(d.selections, 1), limit);
      if d.Operation? then (errors + First(deep), deep != [])
      else (if reached then errors else errors + First(deep), reached || deep != [])
  }

  /** The error of each operation of a document: its first too-deep field in pre-order, if any. */
  function OperationErrors(document: Document, limit: int): seq<Selection> {
    if document == [] then []
    else
      var d := document[|document| - 1];
      OperationErrors(document[..|document| - 1], limit)
      + if d.Operation? then First(TooDeep(Fields(d.selections, 1), limit)) else []
  }

  function DeepOperations(document: Document, limit: int): nat {
    if document == [] then 0
    else
      var d := document[|document| - 1];
      DeepOperations(document[..|document| - 1], limit) + if d.Operation? && 1 + Nesting(d.selections) > limit then 1 else 0
  }

  /**
   An operation is reported exactly when one more than its nesting exceeds the limit, and then
   once, at its first field in pre-order that is too deep; when no fragment definition is too
   deep these are all the errors there are.
   */
  lemma {:induction false} DepthRuleIsExact(document: Document, limit: int)
    requires limit >= 1
    ensures |OperationErrors(document, limit)| == DeepOperations(document, limit)
    ensures (forall i :: 0 <= i < |document| && document[i].Fragment? ==> 1 + Nesting(document[i].selections) <= limit)
            ==> DepthErrors(document, limit).0 == OperationErrors(document, limit)
    ensures DepthErrors(document, limit).0 == []
            <==> forall i :: 0 <= i < |document| ==> 1 + Nesting(document[i].selections) <= limit
  {
    hide TooDeep, Fields, Nesting;
    if document != [] {
      var init, d := document[..|document| - 1], document[|document| - 1];
      DepthRuleIsExact(init, limit);
      DeepExactlyWhen(d.selections, 1, limit);
      ReachedIsReported(init, limit);
    }
  }

  /** Definition `start` is the last operation, or the document has none. */
  predicate LastOperation(document: Document, start: nat) {
    && (start == 0 || (start < |document| && document[start].Operation?))
    && forall i :: start < i < |document| ==> document[i].Fragment?
  }

  lemma {:induction false} ReachedExactlyWhen(document: Document, start: nat, limit: int)
    requires limit >= 1 && LastOperation(document, start)
    ensures DepthErrors(document, limit).1 <==> exists i :: start <= i < |document| && 1 + Nesting(document[i].selections) > limit
  {
    hide TooDeep, Fields, Nesting, First;
    if document != [] {
      var last := |document| - 1;
      var init, d := document[..last], document[last];
      DeepExactlyWhen(d.selections, 1, limit);
      if d.Operation? {
        assert start == last || (start == 0 && last == 0);
      } else {
        assert LastOperation(init, if start == last then 0 else start);
        ReachedExactlyWhen(init, if start == last then 0 else start, limit);
        if i :| start <= i < |init| && 1 + Nesting(init[i].selections) > limit {
          assert document[i] == init[i];
        }
      }
    }
  }

  /**
   A fragment definition is reported exactly when it is too deep and nothing since the last operation
   began, that operation included, has been; an operation is reported whatever came before it.
   */
  lemma DefinitionIsReportedExactlyWhen(document: Document, start: nat, d: Definition, limit: int)
    requires limit >= 1 && LastOperation(document, start)
    ensures var before, after := DepthErrors(document, limit).0, DepthErrors(document + [d], limit).0;
            && before <= after
            && (|after| == |before| + 1 || |after| == |before|)
            && (|after| == |before| + 1
                <==> && 1 + Nesting(d.selections) > limit
                     && (d.Fragment? ==> forall i :: start <= i < |document| ==> 1 + Nesting(document[i].selections) <= limit))
  {
    ReachedExactlyWhen(document, start, limit);
    DeepExactlyWhen(d.selections, 1, limit);
    hide TooDeep, Fields, Nesting;
    assert (document + [d])[..|document|] == document;
  }

  /** Whatever the fragment definitions are, each operation's error is reported, in order. */
  lemma {:induction false} OperationErrorsAreReported(document: Document, limit: int)
    ensures Among(OperationErrors(document, limit), DepthErrors(document, limit).0)
  {
    hide *;
    if document == [] {
      NoErrors(limit);
    } else {
      var init, d := document[..|document| - 1], document[|document| - 1];
      OperationErrorsAreReported(init, limit);
      ErrorsStayAmong(init, d, limit);
      assert document == init + [d];
    }
  }

  lemma NoErrors(limit: int)
    ensures Among(OperationErrors([], limit), DepthErrors([], limit).0)
  {
  }

  /** `s` is `t` with some elements left out. */
  predicate Among(s: seq<Selection>, t: seq<Selection>) {
    if s == [] then true
    else if t == [] then false
    else (s[|s| - 1] == t[|t| - 1] && Among(s[..|s| - 1], t[..|t| - 1])) || Among(s, t[..|t| - 1])
  }

  lemma AmongMore(s: seq<Selection>, t: seq<Selection>, e: seq<Selection>)
    requires Among(s, t) && |e| <= 1
    ensures Among(s, t + e) && Among(s + e, t + e)
  {
    if e == [] {
      assert s + e == s && t + e == t;
    } else {
      assert (t + e)[..|t + e| - 1] == t && (s + e)[..|s + e| - 1] == s;
    }
  }

  lemma ErrorsStayAmong(document: Document, d: Definition, limit: int)
    requires Among(OperationErrors(document, limit), DepthErrors(document, limit).0)
    ensures Among(OperationErrors(document + [d], limit), DepthErrors(document + [d], limit).0)
  {
    hide TooDeep, Fields, Among;
    assert (document + [d])[..|document|] == document;
    var s, t, e := OperationErrors(document, limit), DepthErrors(document, limit).0, First(TooDeep(Fields(d.selections, 1), limit));
    AmongMore(s, t, e);
    assert s + [] == s;
  }

  lemma {:induction false} ReachedIsReported(document: Document, limit: int)
    ensures DepthErrors(document, limit).1 ==> DepthErrors(document, limit).0 != []
  {
    if document != [] {
      ReachedIsReported(document[..|document| - 1], limit);
    }
  }

  // ---------------------------------------------------------------------------------------------
  // Fragment spreads

  type Fragments = map<string, seq<Selection>>

  /** The nesting with fragments put in place of their spreads, `fuel` levels of them. */
  function Expanded(selections: seq<Selection>, fragments: Fragments, fuel: nat): nat
    decreases fuel, selections
  {
    if selections == [] then 0
    else Max(ExpandedOf(selections[0], fragments, fuel), Expanded(selections[1..], fragments, fuel))
  }

  function ExpandedOf(s: Selection, fragments: Fragments, fuel: nat): nat
    decreases fuel, s
  {
    match s
    case Field(_, _, inner) => 1 + Expanded(inner, fragments, fuel)
    case InlineFragment(inner) => Expanded(inner, fragments, fuel)
    case FragmentSpread(name) =>
      if name in fragments && fuel > 0 then Expanded(fragments[name], fragments, fuel - 1) else 0
  }

  predicate SpreadFree(selections: seq<Selection>)
    decreases selections
  {
    selections == [] || (SpreadFreeOf(selections[0]) && SpreadFree(selections[1..]))
  }

  predicate SpreadFreeOf(s: Selection)
    decreases s
  {
    match s
    case Field(_, _, inner) => SpreadFree(inner)
    case InlineFragment(inner) => SpreadFree(inner)
    case FragmentSpread(_) => false
  }

  function FragmentsOf(document: Document): Fragments {
    if document == [] then map[]
    else
      var d, fragments := document[|document| - 1], FragmentsOf(document[..|document| - 1]);
      if d.Fragment? then fragments[d.name := d.selections] else fragments
  }

  lemma {:induction false} SpreadFreeIsNesting(selections: seq<Selection>, fragments: Fragments, fuel: nat)
    requires SpreadFree(selections)
    ensures Expanded(selections, fragments, fuel) == Nesting(selections)
    decreases selections
  {
    if selections != [] {
      SpreadFreeIsNesting(selections[1..], fragments, fuel);
      match selections[0]
      case Field(_, _, inner) => SpreadFreeIsNesting(inner, fragments, fuel);
      case InlineFragment(inner) => SpreadFreeIsNesting(inner, fragments, fuel);
    }
  }

  /** The names of the fragments that are spread. */
  function Spreads(selections: seq<Selection>): set<string>
    decreases selections
  {
    if selections == [] then {} else SpreadsOf(selections[0]) + Spreads(selections[1..])
  }

  function SpreadsOf(s: Selection): set<string>
    decreases s
  {
    match s
    case Field(_, _, inner) => Spreads(inner)
    case InlineFragment(inner) => Spreads(inner)
    case FragmentSpread(name) => {name}
  }

  /** Fields one inside the other, `k` of them. */
  function Nested(k: nat): (selections: seq<Selection>)
    ensures SpreadFree(selections) && Nesting(selections) == k
  {
    if k == 0 then []
    else
      var s := Field("f", None, Nested(k - 1));
      assert [s][1..] == [] && Nesting([]) == 0 && NestingOf(s) == k && SpreadFree([]);
      [s]
  }

  /** With deep fragments put in, selections with any spread are at least as deep as these. */
  lemma {:induction false} SpreadsReach(selections: seq<Selection>, fragments: Fragments, k: nat)
    requires forall name :: name in Spreads(selections) ==> name in fragments && fragments[name] == Nested(k)
    requires !SpreadFree(selections)
    ensures Expanded(selections, fragments, 1) >= k
    decreases selections
  {
    if SpreadFreeOf(selections[0]) {
      SpreadsReach(selections[1..], fragments, k);
    } else {
      SpreadReaches(selections[0], fragments, k);
    }
  }

  lemma {:induction false} SpreadReaches(s: Selection, fragments: Fragments, k: nat)
    requires forall name :: name in SpreadsOf(s) ==> name in fragments && fragments[name] == Nested(k)
    requires !SpreadFreeOf(s)
    ensures ExpandedOf(s, fragments, 1) >= k
    decreases s
  {
    match s
    case Field(_, _, inner) => SpreadsReach(inner, fragments, k);
    case InlineFragment(inner) => SpreadsReach(inner, fragments, k);
    case FragmentSpread(name) =>
      assert name in SpreadsOf(s);
      SpreadFreeIsNesting(Nested(k), fragments, 0);
  }

  /** The nesting that the rule measures is the depth of the query, whatever the fragments are, exactly without spreads. */
  lemma NestingIsDepthExactlyWhen(selections: seq<Selection>)
    ensures SpreadFree(selections)
            <==> forall fragments: Fragments, fuel: nat :: Expanded(selections, fragments, fuel) == Nesting(selections)
  {
    if SpreadFree(selections) {
      forall fragments: Fragments, fuel: nat ensures Expanded(selections, fragments, fuel) == Nesting(selections) {
        SpreadFreeIsNesting(selections, fragments, fuel);
      }
    } else {
      var fragments: Fragments := map name | name in Spreads(selections) :: Nested(Nesting(selections) + 1);
      SpreadsReach(selections, fragments, Nesting(selections) + 1);
      var fuel: nat := 1;
      assert Expanded(selections, fragments, fuel) != Nesting(selections);
    }
  }

  /** No fragment, put in for its spread below `depth` fields, reaches below `limit`. */
  predicate SpreadsWithin(selections: seq<Selection>, fragments: Fragments, fuel: nat, depth: nat, limit: nat)
    decreases selections
  {
    selections == []
    || (SpreadWithin(selections[0], fragments, fuel, depth, limit) && SpreadsWithin(selections[1..], fragments, fuel, depth, limit))
  }

  predicate SpreadWithin(s: Selection, fragments: Fragments, fuel: nat, depth: nat, limit: nat)
    decreases s
  {
    match s
    case Field(_, _, inner) => SpreadsWithin(inner, fragments, fuel, depth + 1, limit)
    case InlineFragment(inner) => SpreadsWithin(inner, fragments, fuel, depth, limit)
    case FragmentSpread(name) => depth + ExpandedOf(s, fragments, fuel) <= limit
  }

  /**
   For given fragments: an operation that the rule accepts stays within the limit with its fragments
   put in exactly when no fragment reaches below the limit from its spread.
   */
  lemma {:induction false} ExpandedWithinExactlyWhen(selections: seq<Selection>, fragments: Fragments, fuel: nat, depth: nat, limit: nat)
    ensures depth + Expanded(selections, fragments, fuel) <= limit
            <==> depth + Nesting(selections) <= limit && SpreadsWithin(selections, fragments, fuel, depth, limit)
    decreases selections
  {
    if selections != [] {
      ExpandedWithinExactlyWhen(selections[1..], fragments, fuel, depth, limit);
      match selections[0]
      case Field(_, _, inner) => ExpandedWithinExactlyWhen(inner, fragments, fuel, depth + 1, limit);
      case InlineFragment(inner) => ExpandedWithinExactlyWhen(inner, fragments, fuel, depth, limit);
      case FragmentSpread(_) =>
    }
  }

  lemma {:induction false} ExpandedIsNoLess(selections: seq<Selection>, fragments: Fragments, fuel: nat)
    ensures Expanded(selections, fragments, fuel) >= Nesting(selections)
    decreases selections
  {
    if selections != [] {
      ExpandedIsNoLess(selections[1..], fragments, fuel);
      match selections[0]
      case Field(_, _, inner) => ExpandedIsNoLess(inner, fragments, fuel);
      case InlineFragment(inner) => ExpandedIsNoLess(inner, fragments, fuel);
      case FragmentSpread(_) =>
    }
  }

  /** For given fragments, nesting and depth agree exactly when no spread's fragment reaches below the nesting. */
  lemma NestingIsDepthOf(selections: seq<Selection>, fragments: Fragments, fuel: nat)
    ensures Expanded(selections, fragments, fuel) == Nesting(selections)
            <==> SpreadsWithin(selections, fragments, fuel, 0, Nesting(selections))
  {
    ExpandedWithinExactlyWhen(selections, fragments, fuel, 0, Nesting(selections));
    ExpandedIsNoLess(selections, fragments, fuel);
  }

  function Name(k: nat): string {
    seq(k, _ => 'f')
  }

  /** Each fragment has one field that spreads the one before. */
  function Chain(n: nat): Document {
    if n == 0 then [] else Chain(n - 1) + [Fragment(Name(n), ChainLink(n))]
  }

  function ChainLink(n: nat): seq<Selection>
    requires n > 0
  {
    [Field("f", None, [FragmentSpread(Name(n - 1))])]
  }

  lemma NamesDiffer(k: nat, n: nat)
    ensures Name(k) == Name(n) <==> k == n
  {
    assert |Name(k)| == k && |Name(n)| == n;
  }

  lemma {:induction false} ChainFragments(n: nat, k: nat)
    ensures 0 < k <= n ==> Name(k) in FragmentsOf(Chain(n)) && FragmentsOf(Chain(n))[Name(k)] == ChainLink(k)
    ensures k == 0 || k > n ==> Name(k) !in FragmentsOf(Chain(n))
  {
    if n > 0 {
      ChainFragments(n - 1, k);
      NamesDiffer(k, n);
      hide Name, ChainLink;
      assert Chain(n)[..|Chain(n)| - 1] == Chain(n - 1);
    }
  }

  lemma ExpandOne(s: Selection, fragments: Fragments, fuel: nat)
    ensures Expanded([s], fragments, fuel) == ExpandedOf(s, fragments, fuel)
  {
    assert [s][1..] == [] && Expanded([], fragments, fuel) == 0;
  }

  lemma {:induction false} ChainExpanded(n: nat, k: nat, fuel: nat)
    requires k <= n && k <= fuel
    ensures Expanded([FragmentSpread(Name(k))], FragmentsOf(Chain(n)), fuel) == k
    decreases k
  {
    var fragments := FragmentsOf(Chain(n));
    ChainFragments(n, k);
    ExpandOne(FragmentSpread(Name(k)), fragments, fuel);
    hide FragmentsOf, Chain, Name, Expanded;
    if k > 0 {
      ChainExpanded(n, k - 1, fuel - 1);
      ExpandOne(ChainLink(k)[0], fragments, fuel - 1);
    }
  }

  lemma {:induction false} ChainNesting(n: nat)
    ensures forall i :: 0 <= i < |Chain(n)| ==> Nesting(Chain(n)[i].selections) == 1
  {
    if n > 0 {
      ChainNesting(n - 1);
      var spread := FragmentSpread(Name(n - 1));
      assert ChainLink(n)[1..] == [] && [spread][1..] == [];
      assert Nesting([]) == 0 && NestingOf(spread) == 0;
      assert Nesting([spread]) == 0;
      assert NestingOf(ChainLink(n)[0]) == 1 + Nesting([spread]);
      assert Nesting(ChainLink(n)) == 1;
    }
  }

  /**
   The rule puts no bound on the depth of a query with its fragments put in: under any limit from 2
   on, operations of every depth are accepted.
   */
  lemma FragmentsEscapeDepthRule(n: nat, limit: int) returns (document: Document)
    requires limit >= 2
    ensures DepthErrors(document, limit).0 == []
    ensures document != [] && document[|document| - 1].Operation?
    ensures Expanded(document[|document| - 1].selections, FragmentsOf(document), n) == n
  {
    var spread := [FragmentSpread(Name(n))];
    document := Chain(n) + [Operation(spread)];
    assert document[..|document| - 1] == Chain(n);
    ChainExpanded(n, n, n);
    ChainNesting(n);
    assert spread[1..] == [] && Nesting(spread) == 0;
    DepthRuleIsExact(document, limit);
  }

  // ---------------------------------------------------------------------------------------------
  // The alias rule

  class MaxAliasesRule {
    const maxAliases: nat
    var aliasCount: nat
    var hasReportedError: bool
    var errors: seq<Selection>

    constructor (maxAliases: nat)
      ensures this.maxAliases == maxAliases && errors == []
    {
      this.maxAliases := maxAliases;
      aliasCount, hasReportedError, errors := 0, false, [];
    }

    /** The aliased fields met so far have been counted, and the first one too many reported. */
    ghost predicate Counted(aliased: seq<Selection>, before: seq<Selection>)
      reads this
    {
      && aliasCount == |aliased|
      && hasReportedError == (|aliased| > maxAliases)
      && errors == if |aliased| > maxAliases then before + [aliased[maxAliases]] else before
    }

    method EnterDocument()
      modifies this
      ensures Counted([], old(errors)) && errors == old(errors)
    {
      aliasCount := 0;
      hasReportedError := false;
    }

    method EnterField(node: Selection, ghost aliased: seq<Selection>, ghost before: seq<Selection>)
      requires node.Field? && Counted(aliased, before)
      modifies this
      ensures Counted(aliased + Aliased([Placed(node, 0)]), before)
    {
      assert [Placed(node, 0)][1..] == [];
      if node.alias.Some? {
        assert Aliased([Placed(node, 0)]) == [node];
        aliasCount := aliasCount + 1;
        if aliasCount > maxAliases && !hasReportedError {
          hasReportedError := true;
          errors := errors + [node];
        }
      } else {
        assert aliased + [] == aliased;
      }
    }

    method VisitSelections(selections: seq<Selection>, ghost depth: nat, ghost aliased: seq<Selection>, ghost before: seq<Selection>)
      requires Counted(aliased, before)
      modifies this
      ensures Counted(aliased + Aliased(Fields(selections, depth)), before)
      decreases selections
    {
      assert aliased + [] == aliased;
      hide Counted, Aliased;
      for i := 0 to |selections|
        invariant Counted(aliased + Aliased(Fields(selections[..i], depth)), before)
      {
        ghost var now := aliased + Aliased(Fields(selections[..i], depth));
        VisitSelection(selections[i], depth, now, before);
        AliasedSnoc(selections, i, depth, aliased);
      }
      assert selections[..|selections|] == selections;
    }

    method VisitSelection(s: Selection, ghost depth: nat, ghost aliased: seq<Selection>, ghost before: seq<Selection>)
      requires Counted(aliased, before)
      modifies this
      ensures Counted(aliased + Aliased(FieldsOf(s, depth)), before)
      decreases s, 1
    {
      match s
      case Field(_, _, _) => VisitField(s, depth, aliased, before);
      case InlineFragment(inner) => VisitSelections(inner, depth, aliased, before);
      case FragmentSpread(_) => assert aliased + [] == aliased;
    }

    method VisitField(s: Selection, ghost depth: nat, ghost aliased: seq<Selection>, ghost before: seq<Selection>)
      requires s.Field? && Counted(aliased, before)
      modifies this
      ensures Counted(aliased + Aliased(FieldsOf(s, depth)), before)
      decreases s, 0
    {
      hide *;
      AliasedOf(s, depth, aliased);
      EnterField(s, aliased, before);
      VisitSelections(s.selections, depth + 1, aliased + Aliased([Placed(s, 0)]), before);
    }

    method VisitDocument(document: Document)
      requires errors == []
      modifies this
      ensures errors == AliasErrors(document, maxAliases)
    {
      EnterDocument();
      for i := 0 to |document|
        invariant Counted(AliasedIn(document[..i]), [])
      {
        assert document[..i + 1][..i] == document[..i];
        VisitSelections(document[i].selections, 1, AliasedIn(document[..i]), []);
      }
      assert document[..|document|] == document;
    }
  }

  lemma AliasedSnoc(selections: seq<Selection>, i: nat, depth: nat, aliased: seq<Selection>)
    requires i < |selections|
    ensures aliased + Aliased(Fields(selections[..i], depth)) + Aliased(FieldsOf(selections[i], depth))
            == aliased + Aliased(Fields(selections[..i + 1], depth))
  {
    hide Aliased, Fields;
    var s, before := selections[i], Fields(selections[..i], depth);
    FieldsSnoc(selections[..i], s, depth);
    AliasedAppend(before, FieldsOf(s, depth));
    assert selections[..i + 1] == selections[..i] + [s];
  }

  lemma AliasedOf(s: Selection, depth: nat, aliased: seq<Selection>)
    requires s.Field?
    ensures Aliased(FieldsOf(s, depth)) == Aliased([Placed(s, 0)]) + Aliased(Fields(s.selections, depth + 1))
    ensures aliased + Aliased(FieldsOf(s, depth))
            == aliased + Aliased([Placed(s, 0)]) + Aliased(Fields(s.selections, depth + 1))
  {
    var below := Fields(s.selections, depth + 1);
    assert ([Placed(s, depth + 1)] + below)[1..] == below && [Placed(s, 0)][1..] == [];
  }

  /** All aliased fields of a document, in pre-order. */
  function AliasedIn(document: Document): seq<Selection> {
    if document == [] then []
    else AliasedIn(document[..|document| - 1]) + Aliased(Fields(document[|document| - 1].selections, 1))
  }

  /** One error, at the first aliased field beyond the limit, if there is such a field. */
  function AliasErrors(document: Document, limit: nat): seq<Selection> {
    var aliased := AliasedIn(document);
    if |aliased| > limit then [aliased[limit]] else []
  }

  /** The number of aliased fields, counted along the tree. */
  function AliasCount(selections: seq<Selection>): nat
    decreases selections
  {
    if selections == [] then 0 else AliasCountOf(selections[0]) + AliasCount(selections[1..])
  }

  function AliasCountOf(s: Selection): nat
    decreases s
  {
    match s
    case Field(_, alias, inner) => (if alias.Some? then 1 else 0) + AliasCount(inner)
    case InlineFragment(inner) => AliasCount(inner)
    case FragmentSpread(_) => 0
  }

  function DocumentAliases(document: Document): nat {
    if document == [] then 0 else DocumentAliases(document[..|document| - 1]) + AliasCount(document[|document| - 1].selections)
  }

  lemma {:induction false} AliasedAreCounted(selections: seq<Selection>, depth: nat)
    ensures |Aliased(Fields(selections, depth))| == AliasCount(selections)
    decreases selections
  {
    if selections != [] {
      var s := selections[0];
      AliasedAreCounted(selections[1..], depth);
      AliasedAppend(FieldsOf(s, depth), Fields(selections[1..], depth));
      match s
      case Field(_, _, inner) =>
        AliasedOf(s, depth, []);
        AliasedAreCounted(inner, depth + 1);
        assert [Placed(s, 0)][1..] == [];
      case InlineFragment(inner) => AliasedAreCounted(inner, depth);
      case FragmentSpread(_) =>
    }
  }

  /** The alias rule reports once, exactly when the document has more aliased fields than allowed. */
  lemma {:induction false} AliasRuleIsExact(document: Document, limit: nat)
    ensures |AliasedIn(document)| == DocumentAliases(document)
    ensures |AliasErrors(document, limit)| == if DocumentAliases(document) > limit then 1 else 0
  {
    if document != [] {
      AliasRuleIsExact(document[..|document| - 1], limit);
      AliasedAreCounted(document[|document| - 1].selections, 1);
    }
  }
}
