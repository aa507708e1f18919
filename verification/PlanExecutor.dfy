/** Round-based execution of a query plan (agent/ask_executor.py).

    Every round dispatches all ready units. What becomes of each submitted future is an input of
    the run; the order in which futures finish, and when the response budget runs out among them,
    is left entirely open. */
module PlanExecutor {
  import opened Ordering
  import opened PlanGraph
  import opened PlanValidator

  datatype Status = Resolved | DomainError | ExecutorTimeout | UnresolvedDependency
  datatype Bundle = Bundle(unitId: Id, records: seq<string>, status: Status)
  datatype Event = Dispatched(unit: QueryUnit) | Bundled(id: Id)

  /** What a future has come to when it is looked at: records, an exception, or nothing yet when
      the budget is spent. */
  datatype Outcome = Returned(records: seq<string>) | Raised | NotDone

  /** The outcome of each future of a run, numbered as they are submitted. */
  type Outcomes = nat -> Outcome

  datatype Future = Future(number: nat, unit: QueryUnit)

  /** Where a round stood when all its futures were submitted. */
  datatype Round = Round(completed: set<Id>, bundles: seq<Bundle>, dispatched: seq<QueryUnit>, submissions: nat, futures: seq<Future>)

  /** `Resolved` stands for what resolution makes of the records. */
  function BundleOf(u: QueryUnit, o: Outcome): Bundle {
    match o
    case Returned(records) => Bundle(u.id, records, Resolved)
    case Raised => Bundle(u.id, [], DomainError)
    case NotDone => Bundle(u.id, [], ExecutorTimeout)
  }

  function Numbered(units: seq<QueryUnit>, from: nat): (futures: seq<Future>)
    ensures |futures| == |units| && forall k :: 0 <= k < |units| ==> futures[k] == Future(from + k, units[k])
  {
    seq(|units|, k requires 0 <= k < |units| => Future(from + k, units[k]))
  }

  function BundlesOf(futures: seq<Future>, o: Outcomes): (bundles: seq<Bundle>)
    ensures |bundles| == |futures|
    ensures forall k :: 0 <= k < |futures| ==> bundles[k] == BundleOf(futures[k].unit, o(futures[k].number))
  {
    seq(|futures|, k requires 0 <= k < |futures| => BundleOf(futures[k].unit, o(futures[k].number)))
  }

  function Unresolved(ids: seq<Id>): (bundles: seq<Bundle>)
    ensures |bundles| == |ids| && forall k :: 0 <= k < |ids| ==> bundles[k] == Bundle(ids[k], [], UnresolvedDependency)
  {
    seq(|ids|, k requires 0 <= k < |ids| => Bundle(ids[k], [], UnresolvedDependency))
  }

  predicate IsReady(u: QueryUnit, completed: set<Id>) {
    u.id !in completed && forall d :: d in u.dependsOn ==> d in completed
  }

  function ReadyUnits(units: seq<QueryUnit>, completed: set<Id>): (ready: seq<QueryUnit>)
    ensures forall u :: u in ready <==> u in units && IsReady(u, completed)
    ensures ready != [] ==> ready[0] in units && IsReady(ready[0], completed)
  {
    if units == [] then []
    else
      assert units == [units[0]] + units[1..];
      var rest := ReadyUnits(units[1..], completed);
      if IsReady(units[0], completed) then [units[0]] + rest else rest
  }

  lemma IdsOfIds(units: seq<QueryUnit>)
    ensures forall x :: x in IdsOf(units) <==> x in Ids(units)
  {
    forall x | x in Ids(units) ensures x in IdsOf(units) {
      var k :| 0 <= k < |units| && Ids(units)[k] == x;
      assert units[k] in units && units[k].id == x;
    }
    forall x | x in IdsOf(units) ensures x in Ids(units) {
      var u :| u in units && u.id == x;
      var k :| 0 <= k < |units| && units[k] == u;
      assert Ids(units)[k] == x;
    }
  }

  /** A non-empty round settles at least one more id. */
  lemma RoundProgress(units: seq<QueryUnit>, completed: set<Id>)
    requires ReadyUnits(units, completed) != []
    ensures |IdsOf(units) - (completed + IdsOf(ReadyUnits(units, completed)))| < |IdsOf(units) - completed|
  {
    var ready := ReadyUnits(units, completed);
    assert ready[0] in ready;
    Smaller(IdsOf(units) - (completed + IdsOf(ready)), IdsOf(units) - completed, ready[0].id);
  }

  /** The units dispatched, round by round. It depends on the plan only, never on outcomes. */
  function Schedule(units: seq<QueryUnit>, completed: set<Id>): seq<QueryUnit>
    decreases |IdsOf(units) - completed|
  {
    var ready := ReadyUnits(units, completed);
    if ready == [] then []
    else
      RoundProgress(units, completed);
      ready + Schedule(units, completed + IdsOf(ready))
  }

  /** All ids settled by dispatching, starting from `completed`. */
  function Settled(units: seq<QueryUnit>, completed: set<Id>): set<Id>
    decreases |IdsOf(units) - completed|
  {
    var ready := ReadyUnits(units, completed);
    if ready == [] then completed
    else
      RoundProgress(units, completed);
      Settled(units, completed + IdsOf(ready))
  }

  /** The safety branch: ids of units no round reached, each once. */
  function LeftoverIds(units: seq<QueryUnit>, completed: set<Id>): seq<Id> {
    if units == [] then []
    else if units[0].id in completed then LeftoverIds(units[1..], completed)
    else [units[0].id] + LeftoverIds(units[1..], completed + {units[0].id})
  }

  function BundleIds(bundles: seq<Bundle>): (ids: seq<Id>)
    ensures |ids| == |bundles| && forall k :: 0 <= k < |ids| ==> ids[k] == bundles[k].unitId
  {
    seq(|bundles|, k requires 0 <= k < |bundles| => bundles[k].unitId)
  }

  function IdsIn(bundles: seq<Bundle>): set<Id> {
    set b | b in bundles :: b.unitId
  }

  lemma IdsInMore(bundles: seq<Bundle>, b: Bundle)
    ensures IdsIn(bundles + [b]) == IdsIn(bundles) + {b.unitId}
  {
    var more := bundles + [b];
    assert more[|bundles|] == b && b in more;
    forall x | x in IdsIn(bundles) ensures x in IdsIn(more) {
      var y :| y in bundles && y.unitId == x;
      assert y in more;
    }
  }

  /** The position the final sort gives an id: that of the last unit carrying it. */
  function Position(units: seq<QueryUnit>, id: Id): nat {
    if units == [] then 999
    else if units[|units| - 1].id == id then |units| - 1
    else Position(units[..|units| - 1], id)
  }

  function InPlanOrder(units: seq<QueryUnit>): (Bundle, Bundle) -> bool {
    (a: Bundle, b: Bundle) => Position(units, a.unitId) < Position(units, b.unitId)
  }

  ghost function DispatchedUnits(trace: seq<Event>): seq<QueryUnit> {
    if trace == [] then []
    else
      var before := DispatchedUnits(trace[..|trace| - 1]);
      match trace[|trace| - 1]
      case Dispatched(u) => before + [u]
      case Bundled(_) => before
  }

  lemma DispatchedStep(trace: seq<Event>, e: Event)
    ensures DispatchedUnits(trace + [e]) == DispatchedUnits(trace) + if e.Dispatched? then [e.unit] else []
  {
    assert (trace + [e])[..|trace|] == trace;
  }

  /** Each dispatched unit finds a bundle for every unit it depends on. */
  ghost predicate Causal(trace: seq<Event>) {
    forall i, d :: 0 <= i < |trace| && trace[i].Dispatched? && d in trace[i].unit.dependsOn ==> Bundled(d) in trace[..i]
  }

  /** The per-unit dictionaries tell the same story as the bundles. */
  ghost predicate Consistent(bundles: seq<Bundle>, records: map<Id, seq<string>>, errors: map<Id, Status>, timedOut: seq<Id>) {
    && (forall b :: b in bundles && b.status != UnresolvedDependency ==> b.unitId in records)
    && (forall x :: x in records ==> exists b :: b in bundles && b.unitId == x && b.records == records[x] && b.status != UnresolvedDependency)
    && (forall b :: b in bundles && (b.status == DomainError || b.status == ExecutorTimeout) ==> b.unitId in errors && b.records == [])
    && (forall x :: x in errors ==> exists b :: b in bundles && b.unitId == x && b.status == errors[x] && errors[x] in {DomainError, ExecutorTimeout})
    && (forall x :: x in timedOut <==> exists b :: b in bundles && b.unitId == x && b.status == ExecutorTimeout)
    && (forall b :: b in bundles && b.status == UnresolvedDependency ==> b.records == [])
  }

  /** The completed ids are those with a bundle. */
  ghost predicate Accounted(completed: set<Id>, trace: seq<Event>, bundles: seq<Bundle>) {
    && (forall x :: x in completed <==> Bundled(x) in trace)
    && (forall x :: x in completed <==> x in BundleIds(bundles))
  }

  lemma StoreAccounted(completed: set<Id>, trace: seq<Event>, bundles: seq<Bundle>, b: Bundle)
    requires Accounted(completed, trace, bundles)
    ensures Accounted(completed + {b.unitId}, trace + [Bundled(b.unitId)], bundles + [b])
  {
    assert BundleIds(bundles + [b]) == BundleIds(bundles) + [b.unitId];
  }

  /** One call of the executor: its result object and the set of completed ids. */
  class Execution {
    var completed: set<Id>
    var bundles: seq<Bundle>
    var recordsByUnit: map<Id, seq<string>>
    var unitErrors: map<Id, Status>
    var timedOut: seq<Id>
    /** Futures submitted so far. */
    var submissions: nat
    ghost var trace: seq<Event>

    constructor ()
      ensures completed == {} && bundles == [] && recordsByUnit == map[] && unitErrors == map[]
      ensures timedOut == [] && submissions == 0 && trace == [] && Valid()
    {
      completed, bundles, recordsByUnit, unitErrors, timedOut := {}, [], map[], map[], [];
      submissions, trace := 0, [];
    }

    ghost predicate Valid()
      reads this
    {
      Consistent(bundles, recordsByUnit, unitErrors, timedOut) && Accounted(completed, trace, bundles)
    }

    /** The outcome of one unit in the result object. */
    method Record(b: Bundle)
      requires Consistent(bundles, recordsByUnit, unitErrors, timedOut)
      requires b.status in {DomainError, ExecutorTimeout, UnresolvedDependency} ==> b.records == []
      requires b.status == UnresolvedDependency ==> b.unitId !in BundleIds(bundles)
      modifies this`bundles, this`recordsByUnit, this`unitErrors, this`timedOut
      ensures Consistent(bundles, recordsByUnit, unitErrors, timedOut)
      ensures bundles == old(bundles) + [b]
    {
      if b.status != UnresolvedDependency {
        recordsByUnit := recordsByUnit[b.unitId := b.records];
      }
      if b.status == DomainError || b.status == ExecutorTimeout {
        unitErrors := unitErrors[b.unitId := b.status];
      }
      if b.status == ExecutorTimeout {
        timedOut := timedOut + [b.unitId];
      }
      bundles := bundles + [b];
      StoreKeepsConsistent(old(bundles), old(recordsByUnit), old(unitErrors), old(timedOut), b);
    }

    /** Store the outcome of one unit, which is then complete. */
    method Store(b: Bundle)
      requires Valid()
      requires b.status in {DomainError, ExecutorTimeout, UnresolvedDependency} ==> b.records == []
      requires b.status == UnresolvedDependency ==> b.unitId !in completed
      modifies this
      ensures Valid() && submissions == old(submissions)
      ensures bundles == old(bundles) + [b]
      ensures completed == old(completed) + {b.unitId}
      ensures trace == old(trace) + [Bundled(b.unitId)]
    {
      StoreAccounted(completed, trace, bundles, b);
      Record(b);
      completed := completed + {b.unitId};
      trace := trace + [Bundled(b.unitId)];
    }

    /** A future that is done either returned records or raised. */
    method Consume(future: Future, o: Outcomes) returns (b: Bundle)
      requires Valid() && o(future.number) != NotDone
      modifies this
      ensures Valid() && submissions == old(submissions)
      ensures o(future.number).Returned? ==> b == Bundle(future.unit.id, o(future.number).records, Resolved)
      ensures o(future.number).Raised? ==> b == Bundle(future.unit.id, [], DomainError)
      ensures bundles == old(bundles) + [b]
      ensures completed == old(completed) + {future.unit.id}
      ensures trace == old(trace) + [Bundled(future.unit.id)]
    {
      match o(future.number) {
        case Returned(records) => b := Bundle(future.unit.id, records, Resolved);
        case Raised => b := Bundle(future.unit.id, [], DomainError);
      }
      Store(b);
    }

    method Submit(u: QueryUnit) returns (future: Future)
      requires Valid() && Causal(trace) && IsReady(u, completed)
      modifies this`trace, this`submissions
      ensures Valid() && Causal(trace)
      ensures DispatchedUnits(trace) == DispatchedUnits(old(trace)) + [u]
      ensures future == Future(old(submissions), u) && submissions == old(submissions) + 1
    {
      ExtendCausal(trace, Dispatched(u));
      DispatchedStep(trace, Dispatched(u));
      trace := trace + [Dispatched(u)];
      future := Future(submissions, u);
      submissions := submissions + 1;
    }

    /** Submit every ready unit before any of them is waited for. */
    method Dispatch(ready: seq<QueryUnit>) returns (futures: seq<Future>)
      requires Valid() && Causal(trace)
      requires forall u :: u in ready ==> IsReady(u, completed)
      modifies this`trace, this`submissions
      ensures Valid() && Causal(trace)
      ensures DispatchedUnits(trace) == DispatchedUnits(old(trace)) + ready
      ensures futures == Numbered(ready, old(submissions)) && submissions == old(submissions) + |ready|
    {
      futures := [];
      for i := 0 to |ready|
        invariant Valid() && Causal(trace)
        invariant DispatchedUnits(trace) == DispatchedUnits(old(trace)) + ready[..i]
        invariant futures == Numbered(ready[..i], old(submissions)) && submissions == old(submissions) + i
      {
        assert ready[i] in ready;
        var future := Submit(ready[i]);
        futures := futures + [future];
      }
    }

    /** One pool: submit, collect futures that are done in any order until the budget runs out,
        then take what has finished meanwhile and mark the rest as timed out. */
    method RunRound(ready: seq<QueryUnit>, o: Outcomes) returns (ghost added: seq<Bundle>)
      requires Valid() && Causal(trace)
      requires forall u :: u in ready ==> IsReady(u, completed)
      modifies this
      ensures Valid() && Causal(trace)
      ensures completed == old(completed) + IdsOf(ready)
      ensures bundles == old(bundles) + added
      ensures multiset(added) == multiset(BundlesOf(Numbered(ready, old(submissions)), o))
      ensures DispatchedUnits(trace) == DispatchedUnits(old(trace)) + ready
      ensures submissions == old(submissions) + |ready|
    {
      var futures := Dispatch(ready);
      ghost var round := Round(completed, bundles, DispatchedUnits(trace), submissions, futures);
      var rest;
      rest, added := TakeInTime(round, futures, o);
      added := TakeRest(round, rest, added, o);
      RoundIds(ready, old(submissions), o, added);
    }

    /** as_completed with the remaining budget: futures that are done, in any order, until the
        budget is spent or no other is done. */
    method TakeInTime(ghost round: Round, futures: seq<Future>, o: Outcomes) returns (rest: seq<Future>, ghost added: seq<Bundle>)
      requires RoundInv(round, futures, [], o)
      modifies this
      ensures RoundInv(round, rest, added, o)
    {
      rest, added := futures, [];
      var expired: bool := *;
      while rest != [] && !expired
        invariant RoundInv(round, rest, added, o)
        decreases |rest|, !expired
      {
        var i :| 0 <= i < |rest|;
        if o(rest[i].number) != NotDone {
          rest, added := SettleOne(round, rest, i, added, o);
          expired := *;
        } else {
          expired := true;
        }
      }
    }

    /** The futures not taken in time: what has finished meanwhile, and timeouts. */
    method TakeRest(ghost round: Round, unfinished: seq<Future>, ghost before: seq<Bundle>, o: Outcomes) returns (ghost added: seq<Bundle>)
      requires RoundInv(round, unfinished, before, o)
      modifies this
      ensures RoundInv(round, [], added, o)
    {
      var rest := unfinished;
      added := before;
      while rest != []
        invariant RoundInv(round, rest, added, o)
        decreases |rest|
      {
        rest, added := SettleOne(round, rest, 0, added, o);
      }
    }

    /** Units no round can reach get a bundle of their own instead of a dispatch. */
    method StoreLeftovers(units: seq<QueryUnit>) returns (ghost extra: seq<Bundle>)
      requires Valid() && Causal(trace)
      modifies this
      ensures LeftoverInv(old(completed), old(bundles), DispatchedUnits(old(trace)), units, |units|, extra)
    {
      extra := [];
      assert units[0..] == units && units[..0] == [];
      for i := 0 to |units|
        invariant LeftoverInv(old(completed), old(bundles), DispatchedUnits(old(trace)), units, i, extra)
      {
        extra := StoreIfMissing(old(completed), old(bundles), DispatchedUnits(old(trace)), units, i, extra);
      }
    }

    method StoreIfMissing(ghost completed0: set<Id>, ghost bundles0: seq<Bundle>, ghost submitted: seq<QueryUnit>,
                          units: seq<QueryUnit>, i: nat, ghost extra: seq<Bundle>)
      returns (ghost extra': seq<Bundle>)
      requires i < |units|
      requires LeftoverInv(completed0, bundles0, submitted, units, i, extra)
      modifies this
      ensures LeftoverInv(completed0, bundles0, submitted, units, i + 1, extra')
    {
      extra' := extra;
      StepLeftovers(units, i, completed);
      if units[i].id !in completed {
        var b := Bundle(units[i].id, [], UnresolvedDependency);
        Store(b);
        ExtendCausal(old(trace), Bundled(b.unitId));
        DispatchedStep(old(trace), Bundled(b.unitId));
        extra' := extra + [b];
        MoveLeftover(units, i, old(completed), extra, b);
      }
    }

    ghost predicate LeftoverInv(completed0: set<Id>, bundles0: seq<Bundle>, submitted: seq<QueryUnit>,
                                units: seq<QueryUnit>, i: nat, extra: seq<Bundle>)
      requires i <= |units|
      reads this
    {
      && Valid() && Causal(trace)
      && DispatchedUnits(trace) == submitted
      && bundles == bundles0 + extra
      && completed == completed0 + IdsOf(units[..i])
      && BundleIds(extra) + LeftoverIds(units[i..], completed) == LeftoverIds(units, completed0)
      && extra == Unresolved(BundleIds(extra))
    }

    /** The whole call. Which bundles it returns is decided by the plan and by what becomes of each
        future; only the order among bundles of one id is not. */
    method Execute(units: seq<QueryUnit>, o: Outcomes)
      requires Valid() && completed == {} && bundles == [] && trace == [] && submissions == 0
      modifies this
      ensures completed == IdsOf(units)
      ensures Causal(trace) && DispatchedUnits(trace) == Schedule(units, {})
      ensures Consistent(bundles, recordsByUnit, unitErrors, timedOut)
      ensures multiset(bundles) == multiset(AllBundles(units, o))
      ensures multiset(BundleIds(bundles)) == multiset(BundledIds(units))
      ensures forall b :: b in bundles ==> (b.status == UnresolvedDependency <==> b.unitId !in Settled(units, {}))
      ensures Sorted(bundles, InPlanOrder(units))
    {
      Rounds(units, o);
      Finish(units, o);
    }

    /** Rounds until every id is complete or nothing is ready. */
    method Rounds(units: seq<QueryUnit>, o: Outcomes)
      requires RunInv(units, o)
      modifies this
      ensures RunInv(units, o)
      ensures |completed| >= |units| || ReadyUnits(units, completed) == []
    {
      while |completed| < |units|
        invariant RunInv(units, o)
        decreases |IdsOf(units) - completed|
      {
        var ready := ReadyUnits(units, completed);
        if ready == [] {
          break;
        }
        NextRound(units, ready, o);
      }
    }

    ghost predicate RunInv(units: seq<QueryUnit>, o: Outcomes)
      reads this
    {
      && Valid() && Causal(trace)
      && submissions == |DispatchedUnits(trace)|
      && ScheduleInv(units, completed, DispatchedUnits(trace))
      && BagInv(bundles, DispatchedUnits(trace), o)
    }

    method NextRound(units: seq<QueryUnit>, ready: seq<QueryUnit>, o: Outcomes)
      requires RunInv(units, o) && ready == ReadyUnits(units, completed) && ready != []
      modifies this
      ensures RunInv(units, o)
      ensures |IdsOf(units) - completed| < |IdsOf(units) - old(completed)|
    {
      var added := RunRound(ready, o);
      RoundProgress(units, old(completed));
      KeepScheduleInv(units, old(completed), DispatchedUnits(old(trace)), ready);
      KeepBagInv(old(bundles), added, DispatchedUnits(old(trace)), ready, o);
    }

    /** What a run has established before the final sort. */
    ghost predicate Concluded(units: seq<QueryUnit>, o: Outcomes)
      reads this
    {
      && completed == IdsOf(units)
      && Causal(trace) && DispatchedUnits(trace) == Schedule(units, {})
      && Consistent(bundles, recordsByUnit, unitErrors, timedOut)
      && multiset(bundles) == multiset(AllBundles(units, o))
      && forall b :: b in bundles ==> (b.status == UnresolvedDependency <==> b.unitId !in Settled(units, {}))
    }

    /** After the rounds: the leftover branch. */
    method Conclude(units: seq<QueryUnit>, o: Outcomes)
      requires RunInv(units, o)
      requires |completed| >= |units| || ReadyUnits(units, completed) == []
      modifies this
      ensures Concluded(units, o)
    {
      Exhausted(units, completed);
      var extra := StoreLeftovers(units);
      assert units[..|units|] == units;
      AllAccounted(units, old(completed), DispatchedUnits(old(trace)), old(bundles), extra, o);
      DispatchedAreResolved(old(bundles), DispatchedUnits(old(trace)), o);
      UnresolvedAreUnsettled(units, old(completed), old(bundles), extra);
    }

    /** The leftover branch and the final sort. */
    method Finish(units: seq<QueryUnit>, o: Outcomes)
      requires RunInv(units, o)
      requires |completed| >= |units| || ReadyUnits(units, completed) == []
      modifies this
      ensures Concluded(units, o) && Sorted(bundles, InPlanOrder(units))
      ensures multiset(BundleIds(bundles)) == multiset(BundledIds(units))
    {
      Conclude(units, o);
      SortResult(units);
      AllIds(units, o);
      SameBagIds(bundles, AllBundles(units, o));
    }

    /** The final sort rearranges the bundles and changes nothing else. */
    method SortResult(units: seq<QueryUnit>)
      requires Consistent(bundles, recordsByUnit, unitErrors, timedOut)
      modifies this`bundles
      ensures Consistent(bundles, recordsByUnit, unitErrors, timedOut)
      ensures multiset(bundles) == multiset(old(bundles))
      ensures forall b :: b in bundles <==> b in old(bundles)
      ensures Sorted(bundles, InPlanOrder(units))
    {
      SortBundles(units, bundles);
      SortKeepsConsistent(units, bundles, recordsByUnit, unitErrors, timedOut);
      bundles := StableSort(bundles, InPlanOrder(units));
    }

    /** What a future leaves: its outcome when it is done, a timeout otherwise. */
    method Settle(future: Future, o: Outcomes) returns (b: Bundle)
      requires Valid() && Causal(trace)
      modifies this
      ensures Valid() && Causal(trace)
      ensures DispatchedUnits(trace) == DispatchedUnits(old(trace)) && submissions == old(submissions)
      ensures b == BundleOf(future.unit, o(future.number))
      ensures bundles == old(bundles) + [b] && completed == old(completed) + {future.unit.id}
    {
      ExtendCausal(trace, Bundled(future.unit.id));
      DispatchedStep(trace, Bundled(future.unit.id));
      if o(future.number) != NotDone {
        b := Consume(future, o);
      } else {
        b := Bundle(future.unit.id, [], ExecutorTimeout);
        Store(b);
      }
    }

    /** Take one future that has not been taken yet. */
    method SettleOne(ghost round: Round, rest: seq<Future>, i: nat, ghost added: seq<Bundle>, o: Outcomes)
      returns (rest': seq<Future>, ghost added': seq<Bundle>)
      requires i < |rest| && RoundInv(round, rest, added, o)
      modifies this
      ensures |rest'| == |rest| - 1 && RoundInv(round, rest', added', o)
    {
      var b := Settle(rest[i], o);
      RoundStep(round, rest, i, added, o, old(bundles), old(completed));
      rest', added' := rest[..i] + rest[i + 1..], added + [b];
    }

    /** Between two outcomes of a round: `rest` is still running, `added` has its bundles. */
    ghost predicate RoundInv(round: Round, rest: seq<Future>, added: seq<Bundle>, o: Outcomes)
      reads this
    {
      && Valid() && Causal(trace)
      && DispatchedUnits(trace) == round.dispatched && submissions == round.submissions
      && RoundAt(round, rest, added, o, bundles, completed)
    }
  }

  ghost predicate RoundAt(round: Round, rest: seq<Future>, added: seq<Bundle>, o: Outcomes, bundles: seq<Bundle>, completed: set<Id>) {
    && bundles == round.bundles + added
    && multiset(BundlesOf(rest, o)) + multiset(added) == multiset(BundlesOf(round.futures, o))
    && completed == round.completed + IdsIn(added)
  }

  lemma RoundStep(round: Round, rest: seq<Future>, i: nat, added: seq<Bundle>, o: Outcomes, bundles: seq<Bundle>, completed: set<Id>)
    requires i < |rest| && RoundAt(round, rest, added, o, bundles, completed)
    ensures var b := BundleOf(rest[i].unit, o(rest[i].number));
      RoundAt(round, rest[..i] + rest[i + 1..], added + [b], o, bundles + [b], completed + {rest[i].unit.id})
  {
    var b := BundleOf(rest[i].unit, o(rest[i].number));
    MoveOne(rest, i, added, o);
    IdsInMore(added, b);
    assert (round.bundles + added) + [b] == round.bundles + (added + [b]);
  }

  /** Every bundle of a run: one for each dispatched unit, decided by its future, and one for each
      id that is left over. */
  function AllBundles(units: seq<QueryUnit>, o: Outcomes): seq<Bundle> {
    BundlesOf(Numbered(Schedule(units, {}), 0), o) + Unresolved(LeftoverIds(units, Settled(units, {})))
  }

  /** Every bundle a run produces, by id: the dispatched ones and the leftovers. */
  function BundledIds(units: seq<QueryUnit>): seq<Id> {
    Ids(Schedule(units, {})) + LeftoverIds(units, Settled(units, {}))
  }

  lemma StepLeftovers(units: seq<QueryUnit>, i: nat, completed: set<Id>)
    requires i < |units|
    ensures IdsOf(units[..i + 1]) == IdsOf(units[..i]) + {units[i].id}
    ensures LeftoverIds(units[i..], completed) ==
      if units[i].id in completed then LeftoverIds(units[i + 1..], completed)
      else [units[i].id] + LeftoverIds(units[i + 1..], completed + {units[i].id})
  {
    assert units[..i + 1] == units[..i] + [units[i]];
    assert units[i..][0] == units[i] && units[i..][1..] == units[i + 1..];
  }

  lemma MoveLeftover(units: seq<QueryUnit>, i: nat, completed: set<Id>, extra: seq<Bundle>, b: Bundle)
    requires i < |units| && units[i].id == b.unitId && b.unitId !in completed
    ensures BundleIds(extra + [b]) + LeftoverIds(units[i + 1..], completed + {b.unitId})
         == BundleIds(extra) + LeftoverIds(units[i..], completed)
  {
    StepLeftovers(units, i, completed);
    BundleIdsConcat(extra, [b]);
    var rest := LeftoverIds(units[i + 1..], completed + {b.unitId});
    assert (BundleIds(extra) + [b.unitId]) + rest == BundleIds(extra) + ([b.unitId] + rest);
  }

  /** Once as many ids are complete as there are units, no unit is ready. */
  lemma Exhausted(units: seq<QueryUnit>, completed: set<Id>)
    requires completed <= IdsOf(units)
    requires |completed| >= |units| || ReadyUnits(units, completed) == []
    ensures ReadyUnits(units, completed) == []
  {
    IdCount(units);
    if |completed| >= |units| {
      SameSize(completed, IdsOf(units));
    }
  }

  lemma {:induction false} IdCount(units: seq<QueryUnit>)
    ensures |IdsOf(units)| <= |units|
  {
    if units != [] {
      IdCount(units[1..]);
      assert units == [units[0]] + units[1..];
      assert IdsOf(units) == {units[0].id} + IdsOf(units[1..]);
    }
  }

  lemma SameSize<T>(a: set<T>, b: set<T>)
    requires a <= b && |a| >= |b|
    ensures a == b
  {
    assert b == a + (b - a);
    assert |b| == |a| + |b - a|;
  }

  /** Before each round, the rounds still to come account for the rest of the schedule. */
  ghost predicate ScheduleInv(units: seq<QueryUnit>, completed: set<Id>, dispatched: seq<QueryUnit>) {
    && completed <= IdsOf(units)
    && Settled(units, completed) == Settled(units, {})
    && dispatched + Schedule(units, completed) == Schedule(units, {})
  }

  /** Every dispatched unit has its bundle once the round is over. */
  ghost predicate BagInv(bundles: seq<Bundle>, dispatched: seq<QueryUnit>, o: Outcomes) {
    multiset(bundles) == multiset(BundlesOf(Numbered(dispatched, 0), o))
  }

  lemma DispatchedAreResolved(bundles: seq<Bundle>, dispatched: seq<QueryUnit>, o: Outcomes)
    requires BagInv(bundles, dispatched, o)
    ensures forall b :: b in bundles ==> b.status != UnresolvedDependency
  {
    var expected := BundlesOf(Numbered(dispatched, 0), o);
    forall b | b in bundles ensures b.status != UnresolvedDependency {
      assert b in multiset(expected);
    }
  }

  lemma {:induction false} LeftoversAre(units: seq<QueryUnit>, completed: set<Id>)
    ensures forall x :: x in LeftoverIds(units, completed) <==> x in IdsOf(units) && x !in completed
    ensures Distinct(LeftoverIds(units, completed))
  {
    if units != [] {
      var id := units[0].id;
      assert units == [units[0]] + units[1..];
      assert IdsOf(units) == {id} + IdsOf(units[1..]);
      LeftoversAre(units[1..], completed);
      LeftoversAre(units[1..], completed + {id});
    }
  }

  lemma BundleIdsConcat(a: seq<Bundle>, b: seq<Bundle>)
    ensures BundleIds(a + b) == BundleIds(a) + BundleIds(b)
  {
  }

  /** After the rounds and the leftovers, the bundles account for every id. */
  lemma AllAccounted(units: seq<QueryUnit>, settled: set<Id>, dispatched: seq<QueryUnit>, bundles: seq<Bundle>,
                     extra: seq<Bundle>, o: Outcomes)
    requires ScheduleInv(units, settled, dispatched) && ReadyUnits(units, settled) == []
    requires BagInv(bundles, dispatched, o)
    requires extra == Unresolved(BundleIds(extra)) && BundleIds(extra) == LeftoverIds(units, settled)
    ensures settled == Settled(units, {}) && dispatched == Schedule(units, {})
    ensures multiset(bundles + extra) == multiset(AllBundles(units, o))
  {
    assert dispatched + [] == dispatched;
  }

  lemma AllIds(units: seq<QueryUnit>, o: Outcomes)
    ensures BundleIds(AllBundles(units, o)) == BundledIds(units)
  {
  }

  /** Exactly the leftovers carry the unresolved status. */
  lemma UnresolvedAreUnsettled(units: seq<QueryUnit>, settled: set<Id>, dispatched: seq<Bundle>, extra: seq<Bundle>)
    requires forall x :: x in settled <==> x in BundleIds(dispatched)
    requires forall b :: b in dispatched ==> b.status != UnresolvedDependency
    requires extra == Unresolved(BundleIds(extra)) && BundleIds(extra) == LeftoverIds(units, settled)
    ensures forall b :: b in dispatched + extra ==> (b.status == UnresolvedDependency <==> b.unitId !in settled)
  {
    LeftoversAre(units, settled);
    forall b | b in dispatched + extra ensures b.status == UnresolvedDependency <==> b.unitId !in settled {
      if b in dispatched {
        var k :| 0 <= k < |dispatched| && dispatched[k] == b;
        assert BundleIds(dispatched)[k] == b.unitId;
      } else {
        var k :| 0 <= k < |extra| && extra[k] == b;
        assert BundleIds(extra)[k] == b.unitId;
      }
    }
  }

  lemma FirstId(s: seq<Bundle>)
    requires s != []
    ensures multiset(BundleIds(s)) == multiset{s[0].unitId} + multiset(BundleIds(s[1..]))
  {
    assert s == [s[0]] + s[1..];
    BundleIdsConcat([s[0]], s[1..]);
    assert BundleIds([s[0]]) == [s[0].unitId];
  }

  lemma WithoutOne(s: seq<Bundle>, k: nat)
    requires k < |s|
    ensures multiset(s) == multiset{s[k]} + multiset(s[..k] + s[k + 1..])
    ensures multiset(BundleIds(s)) == multiset{s[k].unitId} + multiset(BundleIds(s[..k] + s[k + 1..]))
  {
    assert s == s[..k] + ([s[k]] + s[k + 1..]);
    BundleIdsConcat(s[..k], [s[k]] + s[k + 1..]);
    BundleIdsConcat([s[k]], s[k + 1..]);
    BundleIdsConcat(s[..k], s[k + 1..]);
    assert BundleIds([s[k]]) == [s[k].unitId];
  }

  lemma SameWithoutOne(a: seq<Bundle>, b: seq<Bundle>, k: nat)
    requires multiset(a) == multiset(b) && a != [] && k < |b| && b[k] == a[0]
    ensures multiset(a[1..]) == multiset(b[..k] + b[k + 1..])
  {
    assert a == [a[0]] + a[1..];
    WithoutOne(b, k);
    assert multiset(a[1..]) == multiset(a) - multiset{a[0]};
    assert multiset(b[..k] + b[k + 1..]) == multiset(b) - multiset{b[k]};
  }

  /** The same bundles in another order have the same ids. */
  lemma {:induction false} SameBagIds(a: seq<Bundle>, b: seq<Bundle>)
    requires multiset(a) == multiset(b)
    ensures multiset(BundleIds(a)) == multiset(BundleIds(b))
    decreases |a|
  {
    if a == [] {
      assert |multiset(b)| == 0;
    } else {
      FirstId(a);
      assert a[0] in multiset(b);
      var k :| 0 <= k < |b| && b[k] == a[0];
      WithoutOne(b, k);
      SameWithoutOne(a, b, k);
      SameBagIds(a[1..], b[..k] + b[k + 1..]);
    }
  }

  lemma SortBundles(units: seq<QueryUnit>, bundles: seq<Bundle>)
    ensures var sorted := StableSort(bundles, InPlanOrder(units));
      && Sorted(sorted, InPlanOrder(units))
      && multiset(sorted) == multiset(bundles)
      && forall b :: b in sorted <==> b in bundles
  {
    StableSortSorted(bundles, InPlanOrder(units));
    MemberKept(bundles, InPlanOrder(units));
    StableSortKeeps(bundles, InPlanOrder(units));
  }

  lemma SortKeepsConsistent(units: seq<QueryUnit>, bundles: seq<Bundle>, records: map<Id, seq<string>>, errors: map<Id, Status>, timedOut: seq<Id>)
    requires Consistent(bundles, records, errors, timedOut)
    ensures Consistent(StableSort(bundles, InPlanOrder(units)), records, errors, timedOut)
  {
    MemberKept(bundles, InPlanOrder(units));
  }

  lemma KeepScheduleInv(units: seq<QueryUnit>, completed: set<Id>, dispatched: seq<QueryUnit>, ready: seq<QueryUnit>)
    requires ScheduleInv(units, completed, dispatched)
    requires ready == ReadyUnits(units, completed) && ready != []
    ensures ScheduleInv(units, completed + IdsOf(ready), dispatched + ready)
  {
    UnfoldRound(units, completed);
    var rest := Schedule(units, completed + IdsOf(ready));
    assert (dispatched + ready) + rest == dispatched + (ready + rest);
  }

  lemma UnfoldRound(units: seq<QueryUnit>, completed: set<Id>)
    requires ReadyUnits(units, completed) != []
    ensures var ready := ReadyUnits(units, completed);
      && Settled(units, completed) == Settled(units, completed + IdsOf(ready))
      && Schedule(units, completed) == ready + Schedule(units, completed + IdsOf(ready))
  {
  }

  lemma KeepBagInv(bundles: seq<Bundle>, added: seq<Bundle>, dispatched: seq<QueryUnit>, ready: seq<QueryUnit>, o: Outcomes)
    requires BagInv(bundles, dispatched, o)
    requires multiset(added) == multiset(BundlesOf(Numbered(ready, |dispatched|), o))
    ensures BagInv(bundles + added, dispatched + ready, o)
  {
    assert BundlesOf(Numbered(dispatched + ready, 0), o) ==
      BundlesOf(Numbered(dispatched, 0), o) + BundlesOf(Numbered(ready, |dispatched|), o);
  }

  lemma IdsConcat(a: seq<QueryUnit>, b: seq<QueryUnit>)
    ensures Ids(a + b) == Ids(a) + Ids(b)
  {
  }

  lemma RoundIds(ready: seq<QueryUnit>, from: nat, o: Outcomes, added: seq<Bundle>)
    requires multiset(added) == multiset(BundlesOf(Numbered(ready, from), o))
    ensures IdsIn(added) == IdsOf(ready)
  {
    var expected := BundlesOf(Numbered(ready, from), o);
    forall x | x in IdsIn(added) ensures x in IdsOf(ready) {
      var b :| b in added && b.unitId == x;
      assert b in multiset(expected);
      var k :| 0 <= k < |expected| && expected[k] == b;
      assert ready[k] in ready && ready[k].id == x;
    }
    forall x | x in IdsOf(ready) ensures x in IdsIn(added) {
      var u :| u in ready && u.id == x;
      var k :| 0 <= k < |ready| && ready[k] == u;
      assert expected[k] in multiset(added) && expected[k].unitId == x;
    }
  }

  lemma MoveOne(rest: seq<Future>, i: nat, added: seq<Bundle>, o: Outcomes)
    requires i < |rest|
    ensures var b := BundleOf(rest[i].unit, o(rest[i].number));
      && multiset(BundlesOf(rest[..i] + rest[i + 1..], o)) + multiset(added + [b])
        == multiset(BundlesOf(rest, o)) + multiset(added)
  {
    var b := BundleOf(rest[i].unit, o(rest[i].number));
    WithoutOne(BundlesOf(rest, o), i);
    assert BundlesOf(rest[..i] + rest[i + 1..], o) == BundlesOf(rest, o)[..i] + BundlesOf(rest, o)[i + 1..];
  }

  lemma ExtendCausal(trace: seq<Event>, e: Event)
    requires Causal(trace)
    requires e.Dispatched? ==> forall d :: d in e.unit.dependsOn ==> Bundled(d) in trace
    ensures Causal(trace + [e])
  {
    var longer := trace + [e];
    forall i, d | 0 <= i < |longer| && longer[i].Dispatched? && d in longer[i].unit.dependsOn
      ensures Bundled(d) in longer[..i]
    {
      if i < |trace| {
        assert longer[..i] == trace[..i];
      } else {
        assert longer[..i] == trace;
      }
    }
  }

  lemma StoreKeepsConsistent(bundles: seq<Bundle>, records: map<Id, seq<string>>, errors: map<Id, Status>, timedOut: seq<Id>, b: Bundle)
    requires Consistent(bundles, records, errors, timedOut)
    requires b.status in {DomainError, ExecutorTimeout, UnresolvedDependency} ==> b.records == []
    requires b.status == UnresolvedDependency ==> b.unitId !in BundleIds(bundles)
    ensures Consistent(
      bundles + [b],
      if b.status != UnresolvedDependency then records[b.unitId := b.records] else records,
      if b.status == DomainError || b.status == ExecutorTimeout then errors[b.unitId := b.status] else errors,
      if b.status == ExecutorTimeout then timedOut + [b.unitId] else timedOut)
  {
  }
}
