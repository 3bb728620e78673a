/** Licence seats: who is activated in which organisation, and how many there are altogether. */
module Seats {
  import opened Basics

  /** The activated users of each organisation; `None` for an organisation without a list. */
  type Orgs = map<int, Option<seq<int>>>

  function Listed(users: Option<seq<int>>): seq<int> {
    if users.Some? then users.value else []
  }

  /** SQL's `array_remove`. */
  function ArrayRemove(s: seq<int>, x: int): seq<int> {
    if s == [] then [] else ArrayRemove(s[..|s| - 1], x) + if s[|s| - 1] == x then [] else [s[|s| - 1]]
  }

  /** `array_append_unique`: removes all occurrences, then appends; on a missing array as well. */
  function ArrayAppendUnique(users: Option<seq<int>>, x: int): Option<seq<int>> {
    Some(ArrayRemove(Listed(users), x) + [x])
  }

  predicate Distinct(s: seq<int>) {
    forall i, j :: 0 <= i < j < |s| ==> s[i] != s[j]
  }

  lemma DistinctAppend(s: seq<int>, x: int)
    requires Distinct(s) && x !in s
    ensures Distinct(s + [x])
  {
    var t := s + [x];
    forall i, j | 0 <= i < j < |t| ensures t[i] != t[j] {
      assert t[i] == s[i];
      assert s[i] in s;
    }
  }

  lemma {:induction false} RemovedIsGone(s: seq<int>, x: int)
    ensures forall y :: y in ArrayRemove(s, x) <==> y in s && y != x
    ensures Distinct(s) ==> Distinct(ArrayRemove(s, x))
    ensures |ArrayRemove(s, x)| <= |s| && (x in s ==> |ArrayRemove(s, x)| < |s|)
    ensures x !in s ==> ArrayRemove(s, x) == s
  {
    if s != [] {
      var init, last := s[..|s| - 1], s[|s| - 1];
      RemovedIsGone(init, x);
      assert s == init + [last];
      if Distinct(s) && last != x {
        assert Distinct(init) && last !in init;
        DistinctAppend(ArrayRemove(init, x), last);
      }
    }
  }

  /** Appending keeps a list free of duplicates and adds exactly the one user. */
  lemma AppendUniqueAdds(users: Option<seq<int>>, x: int)
    ensures var s := ArrayAppendUnique(users, x).value;
            && (forall y :: y in s <==> y in Listed(users) || y == x)
            && (Distinct(Listed(users)) ==> Distinct(s))
            && |s| <= |Listed(users)| + 1 && (x in Listed(users) ==> |s| <= |Listed(users)|)
            && s[|s| - 1] == x && (x !in Listed(users) ==> s[..|s| - 1] == Listed(users))
  {
    RemovedIsGone(Listed(users), x);
    if Distinct(Listed(users)) {
      DistinctAppend(ArrayRemove(Listed(users), x), x);
    }
  }

  // ---------------------------------------------------------------------------------------------
  // The activated owners

  /** Everyone in the list of some organisation. */
  function Activated(orgs: Orgs): set<int> {
    set org, x | org in orgs && x in Listed(orgs[org]) :: x
  }

  /** A valid licence with `seats` users; owners all exist. */
  class OwnerTable {
    const seats: nat
    var orgs: Orgs

    /** Exactly when the seats, or the owners activated already, leave room for this one. */
    method CanActivateOwner(owner: int) returns (can: bool)
      ensures can <==> |Activated(orgs) + {owner}| <= Max(|Activated(orgs)|, seats)
    {
      if owner in Activated(orgs) {
        assert Activated(orgs) + {owner} == Activated(orgs);
      }
      can := owner in Activated(orgs) || |Activated(orgs)| < seats;
    }

    /** Activates the owner in all of its organisations; `false` stands for the licence exception. */
    method ActivateOwner(owner: int, organizations: set<int>) returns (ok: bool)
      modifies this
      ensures ok <==> |Activated(old(orgs)) + {owner}| <= Max(|Activated(old(orgs))|, seats)
      ensures !ok ==> orgs == old(orgs)
      ensures ok ==> Changed(old(orgs), orgs, owner, organizations)
      ensures |Activated(orgs)| <= Max(|Activated(old(orgs))|, seats)
      ensures orgs == AfterApi(old(orgs), seats, owner, organizations)
    {
      ok := CanActivateOwner(owner);
      StepRespectsSeats(orgs, seats, Api(owner, organizations));
      if owner in Activated(orgs) {
        assert Activated(orgs) + {owner} == Activated(orgs);
      }
      if !ok {
        return;
      }
      ChangedByAppending(orgs, owner, organizations);
      orgs := map org | org in orgs :: if org in organizations then ArrayAppendUnique(orgs[org], owner) else orgs[org];
    }

    /** The owner is activated nowhere afterwards, and everybody else where they were. */
    method DeactivateOwner(owner: int)
      modifies this
      ensures Activated(orgs) == Activated(old(orgs)) - {owner}
      ensures orgs.Keys == old(orgs).Keys
      ensures forall org, x :: org in orgs ==> (x in Listed(orgs[org]) <==> x in Listed(old(orgs)[org]) && x != owner)
      ensures forall org :: org in orgs && owner !in Listed(old(orgs)[org]) ==> orgs[org] == old(orgs)[org]
      ensures orgs == AfterDeactivation(old(orgs), owner)
    {
      LosesOwner(orgs, owner);
      forall org | org in orgs ensures forall y :: y in ArrayRemove(Listed(orgs[org]), owner) <==> y in Listed(orgs[org]) && y != owner {
        RemovedIsGone(Listed(orgs[org]), owner);
      }
      orgs := map org | org in orgs ::
        if owner in Listed(orgs[org]) then Some(ArrayRemove(Listed(orgs[org]), owner)) else orgs[org];
    }

    /** The worker's activation under a licence; for an unknown organisation it raises an error. */
    method ActivateUser(org: int, owner: int) returns (ok: bool)
      modifies this
      ensures !ok ==> orgs == old(orgs) && (org !in orgs || |Activated(orgs)| >= seats)
      ensures ok ==> Changed(old(orgs), orgs, owner, {org}) && org in orgs && |Activated(orgs)| <= seats
      ensures orgs == AfterWorker(old(orgs), seats, org, owner)
    {
      StepRespectsSeats(orgs, seats, Worker(org, owner));
      ChangedByAppending(orgs, owner, {org});
      ok := |Activated(orgs)| < seats && org in orgs;
      if ok {
        orgs := orgs[org := ArrayAppendUnique(orgs[org], owner)];
      }
    }

    /** The worker's activation without a licence: by the organisation's own credits. An unknown one gives no answer. */
    method TryToAutoActivate(org: int, owner: int, planUserCount: nat) returns (ok: bool)
      modifies this
      ensures orgs.Keys == old(orgs).Keys && forall o :: o in orgs && o != org ==> orgs[o] == old(orgs)[o]
      ensures ok <==> org in orgs && owner in Listed(orgs[org])
      ensures ok <==> org in orgs && (owner in Listed(old(orgs)[org]) || |Listed(old(orgs)[org])| < planUserCount)
      ensures org in orgs ==> |Listed(orgs[org])| <= Max(|Listed(old(orgs)[org])|, planUserCount)
      ensures org in orgs ==> forall x :: x in Listed(old(orgs)[org]) ==> x in Listed(orgs[org])
      ensures orgs == AfterCredits(old(orgs), org, owner, planUserCount)
    {
      if org !in orgs {
        return false;
      }
      CreditsAreRespected(orgs, org, owner, planUserCount);
      AppendUniqueAdds(orgs[org], owner);
      if |Listed(orgs[org])| < planUserCount {
        orgs := orgs[org := ArrayAppendUnique(orgs[org], owner)];
      }
      ok := owner in Listed(orgs[org]);
    }
  }

  /** The owner is listed in exactly the given organisations in addition; the others are as before. */
  ghost predicate Changed(before: Orgs, after: Orgs, owner: int, organizations: set<int>) {
    && after.Keys == before.Keys
    && forall org :: org in before ==>
         && (org !in organizations ==> after[org] == before[org])
         && forall x :: x in Listed(after[org]) <==> x in Listed(before[org]) || (x == owner && org in organizations)
  }

  lemma ChangedByAppending(orgs: Orgs, owner: int, organizations: set<int>)
    ensures Changed(orgs, map org | org in orgs :: if org in organizations then ArrayAppendUnique(orgs[org], owner) else orgs[org],
                    owner, organizations)
  {
    forall org | org in orgs
      ensures forall y :: y in Listed(ArrayAppendUnique(orgs[org], owner)) <==> y in Listed(orgs[org]) || y == owner
    {
      AppendUniqueAdds(orgs[org], owner);
    }
  }

  function AfterApi(orgs: Orgs, seats: nat, owner: int, organizations: set<int>): Orgs {
    if owner in Activated(orgs) || |Activated(orgs)| < seats then
      map org | org in orgs :: if org in organizations then ArrayAppendUnique(orgs[org], owner) else orgs[org]
    else orgs
  }

  function AfterDeactivation(orgs: Orgs, owner: int): Orgs {
    map org | org in orgs :: if owner in Listed(orgs[org]) then Some(ArrayRemove(Listed(orgs[org]), owner)) else orgs[org]
  }

  function AfterWorker(orgs: Orgs, seats: nat, org: int, owner: int): Orgs {
    if |Activated(orgs)| < seats && org in orgs then orgs[org := ArrayAppendUnique(orgs[org], owner)] else orgs
  }

  function AfterCredits(orgs: Orgs, org: int, owner: int, planUserCount: nat): Orgs {
    if org in orgs && |Listed(orgs[org])| < planUserCount then orgs[org := ArrayAppendUnique(orgs[org], owner)] else orgs
  }

  // ---------------------------------------------------------------------------------------------
  // Runs

  datatype Op =
    | Api(owner: int, organizations: set<int>)
    | Worker(org: int, owner: int)
    | Deactivate(owner: int)

  function Step(orgs: Orgs, seats: nat, op: Op): Orgs {
    match op
    case Api(owner, organizations) => AfterApi(orgs, seats, owner, organizations)
    case Worker(org, owner) => AfterWorker(orgs, seats, org, owner)
    case Deactivate(owner) => AfterDeactivation(orgs, owner)
  }

  function Run(orgs: Orgs, seats: nat, ops: seq<Op>): Orgs {
    if ops == [] then orgs else Step(Run(orgs, seats, ops[..|ops| - 1]), seats, ops[|ops| - 1])
  }

  /** Lists that gain at most one user make for at most one more activated owner. */
  lemma GainOne(orgs: Orgs, after: Orgs, owner: int)
    requires after.Keys == orgs.Keys
    requires forall org :: org in orgs ==> after[org] == orgs[org] || after[org] == ArrayAppendUnique(orgs[org], owner)
    ensures Activated(orgs) <= Activated(after) <= Activated(orgs) + {owner}
    ensures |Activated(after)| <= |Activated(orgs)| + if owner in Activated(orgs) then 0 else 1
  {
    forall org | org in orgs ensures forall y :: y in Listed(orgs[org]) ==> y in Listed(after[org])
                             ensures forall y :: y in Listed(after[org]) ==> y in Listed(orgs[org]) || y == owner
    {
      AppendUniqueAdds(orgs[org], owner);
    }
    var a, b := Activated(orgs), Activated(after);
    SubsetSize(b, a + {owner});
    if owner in a {
      assert a + {owner} == a;
    }
  }

  lemma LosesOwner(orgs: Orgs, owner: int)
    ensures Activated(AfterDeactivation(orgs, owner)) == Activated(orgs) - {owner}
  {
    var after := AfterDeactivation(orgs, owner);
    forall org | org in orgs ensures forall y :: y in Listed(after[org]) <==> y in Listed(orgs[org]) && y != owner {
      RemovedIsGone(Listed(orgs[org]), owner);
    }
    forall x ensures x in Activated(after) <==> x in Activated(orgs) && x != owner {
      if x in Activated(orgs) && x != owner {
        var org :| org in orgs && x in Listed(orgs[org]);
        assert x in Listed(after[org]);
      }
    }
  }

  /**
   A step raises the number of activated owners only from below the seats and by one; activating
   an active owner, and deactivating, never raises it.
   */
  lemma StepRespectsSeats(orgs: Orgs, seats: nat, op: Op)
    ensures var n, m := |Activated(orgs)|, |Activated(Step(orgs, seats, op))|;
            && (m > n ==> n < seats && m == n + 1 && !op.Deactivate? && op.owner !in Activated(orgs))
            && (op.Deactivate? ==> Activated(Step(orgs, seats, op)) == Activated(orgs) - {op.owner})
  {
    var after := Step(orgs, seats, op);
    match op
    case Api(owner, _) => GainOne(orgs, after, owner);
    case Worker(_, owner) => GainOne(orgs, after, owner);
    case Deactivate(owner) =>
      LosesOwner(orgs, owner);
      SubsetSize(Activated(after), Activated(orgs));
  }

  predicate AllDistinct(orgs: Orgs) {
    forall org :: org in orgs ==> Distinct(Listed(orgs[org]))
  }

  lemma StepKeepsDistinct(orgs: Orgs, seats: nat, op: Op)
    requires AllDistinct(orgs)
    ensures AllDistinct(Step(orgs, seats, op)) && Step(orgs, seats, op).Keys == orgs.Keys
  {
    forall org | org in orgs ensures Distinct(Listed(Step(orgs, seats, op)[org])) {
      AppendUniqueAdds(orgs[org], op.owner);
      RemovedIsGone(Listed(orgs[org]), op.owner);
    }
  }

  /**
   Over any run of API activations, worker activations and deactivations, the number of distinct
   activated owners stays within the seats once it is, and never exceeds the larger of the seats
   and its initial value; lists stay free of duplicates.
   */
  lemma {:induction false} SeatsAreRespected(orgs: Orgs, seats: nat, ops: seq<Op>)
    ensures |Activated(Run(orgs, seats, ops))| <= Max(|Activated(orgs)|, seats)
    ensures AllDistinct(orgs) ==> AllDistinct(Run(orgs, seats, ops))
  {
    if ops != [] {
      var init, op := ops[..|ops| - 1], ops[|ops| - 1];
      SeatsAreRespected(orgs, seats, init);
      StepRespectsSeats(Run(orgs, seats, init), seats, op);
      if AllDistinct(orgs) {
        StepKeepsDistinct(Run(orgs, seats, init), seats, op);
      }
    }
  }

  /** Credits bound each organisation's own list in the same way. */
  lemma CreditsAreRespected(orgs: Orgs, org: int, owner: int, planUserCount: nat)
    requires org in orgs
    ensures |Listed(AfterCredits(orgs, org, owner, planUserCount)[org])| <= Max(|Listed(orgs[org])|, planUserCount)
    ensures owner in Listed(AfterCredits(orgs, org, owner, planUserCount)[org])
            <==> owner in Listed(orgs[org]) || |Listed(orgs[org])| < planUserCount
  {
    AppendUniqueAdds(orgs[org], owner);
  }
}
