/** What a run makes of the outcome of each future, in the bundles and in the dictionaries. */
module PlanOutcomes {
  import opened Options
  import opened PlanGraph
  import opened PlanValidator
  import opened PlanExecutor

  /** The `k`-th future that a run submits is that of a unit with id `x`. */
  ghost predicate Carries(units: seq<QueryUnit>, k: nat, x: Id) {
    k < |Schedule(units, {})| && Schedule(units, {})[k].id == x
  }

  lemma BundleAt(units: seq<QueryUnit>, o: Outcomes, k: nat)
    requires k < |Schedule(units, {})|
    ensures k < |AllBundles(units, o)| && AllBundles(units, o)[k] == BundleOf(Schedule(units, {})[k], o(k))
  {
  }

  /** Every future decides a bundle of its own: its records under the status of a resolved unit when
      it returned, no records and a domain error when it raised, and no records and a timeout when
      it was not done. */
  lemma FutureDecides(units: seq<QueryUnit>, o: Outcomes, bundles: seq<Bundle>, k: nat)
    requires multiset(bundles) == multiset(AllBundles(units, o)) && k < |Schedule(units, {})|
    ensures var u := Schedule(units, {})[k];
      && (o(k).Returned? ==> Bundle(u.id, o(k).records, Resolved) in bundles)
      && (o(k).Raised? ==> Bundle(u.id, [], DomainError) in bundles)
      && (o(k).NotDone? ==> Bundle(u.id, [], ExecutorTimeout) in bundles)
  {
    BundleAt(units, o, k);
    assert AllBundles(units, o)[k] in multiset(bundles);
  }

  /** A bundle that is not a leftover is that of some future. */
  lemma BundleFrom(units: seq<QueryUnit>, o: Outcomes, bundles: seq<Bundle>, b: Bundle) returns (k: nat)
    requires multiset(bundles) == multiset(AllBundles(units, o)) && b in bundles && b.status != UnresolvedDependency
    ensures Carries(units, k, b.unitId)
    ensures match o(k)
      case Returned(records) => b.records == records && b.status == Resolved
      case Raised => b.records == [] && b.status == DomainError
      case NotDone => b.records == [] && b.status == ExecutorTimeout
  {
    var all := AllBundles(units, o);
    assert b in multiset(all);
    k :| 0 <= k < |all| && all[k] == b;
    DispatchedAt(units, o, k);
  }

  lemma DispatchedAt(units: seq<QueryUnit>, o: Outcomes, k: nat)
    requires k < |AllBundles(units, o)| && AllBundles(units, o)[k].status != UnresolvedDependency
    ensures k < |Schedule(units, {})| && AllBundles(units, o)[k] == BundleOf(Schedule(units, {})[k], o(k))
  {
  }

  /** The records kept for an id are those of one of its futures, or none when that did not return. */
  lemma RecordsFollow(units: seq<QueryUnit>, o: Outcomes, bundles: seq<Bundle>, records: map<Id, seq<string>>,
                      errors: map<Id, Status>, timedOut: seq<Id>, x: Id)
    requires multiset(bundles) == multiset(AllBundles(units, o)) && Consistent(bundles, records, errors, timedOut)
    ensures x in records <==> exists k :: Carries(units, k, x)
    ensures x in records ==>
      exists k :: Carries(units, k, x) && records[x] == if o(k).Returned? then o(k).records else []
  {
    if x in records {
      var b :| b in bundles && b.unitId == x && b.records == records[x] && b.status != UnresolvedDependency;
      var k := BundleFrom(units, o, bundles, b);
      assert Carries(units, k, x);
    }
    forall k | Carries(units, k, x) ensures x in records {
      FutureDecides(units, o, bundles, k);
    }
  }

  predicate Reason(o: Outcome, status: Status) {
    (o.Raised? && status == DomainError) || (o.NotDone? && status == ExecutorTimeout)
  }

  /** An id is among the errors exactly when one of its futures raised or was not done, with that
      reason, and among the timeouts exactly when one was not done. */
  lemma ErrorsFollow(units: seq<QueryUnit>, o: Outcomes, bundles: seq<Bundle>, records: map<Id, seq<string>>,
                     errors: map<Id, Status>, timedOut: seq<Id>, x: Id)
    requires multiset(bundles) == multiset(AllBundles(units, o)) && Consistent(bundles, records, errors, timedOut)
    ensures x in errors <==> exists k :: Carries(units, k, x) && !o(k).Returned?
    ensures x in errors ==> exists k :: Carries(units, k, x) && Reason(o(k), errors[x])
    ensures x in timedOut <==> exists k :: Carries(units, k, x) && o(k).NotDone?
  {
    if x in errors {
      var b :| b in bundles && b.unitId == x && b.status == errors[x] && errors[x] in {DomainError, ExecutorTimeout};
      var k := BundleFrom(units, o, bundles, b);
      assert Carries(units, k, x) && Reason(o(k), errors[x]);
    }
    if x in timedOut {
      var b :| b in bundles && b.unitId == x && b.status == ExecutorTimeout;
      var k := BundleFrom(units, o, bundles, b);
      assert Carries(units, k, x) && o(k).NotDone?;
    }
    forall k | Carries(units, k, x) && !o(k).Returned? ensures x in errors && (o(k).NotDone? ==> x in timedOut) {
      FutureDecides(units, o, bundles, k);
    }
  }
}
