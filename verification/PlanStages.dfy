/** Plans in which several units share an id, which validation does not rule out: when every
    unit still gets its bundle. */
module PlanStages {
  import opened Options
  import opened Ordering
  import opened PlanGraph
  import opened PlanValidator
  import opened PlanExecutor
  import opened PlanSchedule

  // ----- stages, from the dependencies alone -----

  predicate DependsOnly(u: QueryUnit, known: set<Id>) {
    forall d :: d in u.dependsOn ==> d in known
  }

  /** The ids of units all of whose dependencies are reached in fewer than `k` steps. */
  function Reached(units: seq<QueryUnit>, k: nat): set<Id> {
    if k == 0 then {}
    else Next(units, Reached(units, k - 1))
  }

  /** The ids of units that depend on known ids only. */
  function Next(units: seq<QueryUnit>, known: set<Id>): set<Id> {
    set u | u in units && DependsOnly(u, known) :: u.id
  }

  function StageFrom(units: seq<QueryUnit>, u: QueryUnit, k: nat): Option<nat>
    requires k <= |units|
    decreases |units| - k
  {
    if DependsOnly(u, Reached(units, k)) then Some(k)
    else if k == |units| then None
    else StageFrom(units, u, k + 1)
  }

  /** The number of stages before all dependencies of a unit are reached; None if they never are. */
  function Stage(units: seq<QueryUnit>, u: QueryUnit): Option<nat> {
    StageFrom(units, u, 0)
  }

  /** Units that share an id have the same stage. */
  ghost predicate StagesAgree(units: seq<QueryUnit>) {
    forall i, j :: 0 <= i < j < |units| && units[i].id == units[j].id ==>
      Stage(units, units[i]).Some? && Stage(units, units[i]) == Stage(units, units[j])
  }

  lemma {:induction false} ReachedGrows(units: seq<QueryUnit>, j: nat, k: nat)
    requires j <= k
    ensures Reached(units, j) <= Reached(units, k)
  {
    if 0 < j {
      ReachedGrows(units, j - 1, k - 1);
    }
  }

  lemma ReachedKnown(units: seq<QueryUnit>, k: nat)
    ensures Reached(units, k) <= IdsOf(units)
  {
  }

  lemma ProperlySmaller<T>(a: set<T>, b: set<T>)
    requires a <= b && a != b
    ensures |a| < |b|
  {
    var more := b - a;
    assert b == a + more && more != {};
  }

  /** A chain of sets that stops for good once it does not grow. */
  ghost predicate Growing(chain: nat -> set<Id>) {
    && (forall k: nat :: chain(k) <= chain(k + 1))
    && (forall k: nat :: chain(k) == chain(k + 1) ==> chain(k + 1) == chain(k + 2))
  }

  lemma {:induction false} ChainFills(chain: nat -> set<Id>, k: nat)
    requires Growing(chain) && chain(k) != chain(k + 1)
    ensures |chain(k + 1)| >= k + 1
  {
    ProperlySmaller(chain(k), chain(k + 1));
    if k > 0 {
      ChainFills(chain, k - 1);
    }
  }

  /** Each stage adds an id until nothing more is reached. */
  lemma StagesFill(units: seq<QueryUnit>, k: nat)
    requires Reached(units, k) != Reached(units, k + 1)
    ensures |Reached(units, k + 1)| >= k + 1
  {
    var chain := (j: nat) => Reached(units, j);
    forall j: nat ensures chain(j) <= chain(j + 1) { ReachedGrows(units, j, j + 1); }
    ChainFills(chain, k);
  }

  lemma StagesStop(units: seq<QueryUnit>)
    ensures Reached(units, |units| + 1) == Reached(units, |units|)
  {
    var n := |units|;
    if Reached(units, n) != Reached(units, n + 1) {
      StagesFill(units, n);
      ReachedKnown(units, n + 1);
      IdCount(units);
      SubsetSize(Reached(units, n + 1), IdsOf(units));
    }
  }

  lemma NextStageWithin(units: seq<QueryUnit>, j: nat, k: nat)
    requires Reached(units, j) <= Reached(units, k)
    ensures Reached(units, j + 1) <= Reached(units, k + 1)
  {
  }

  /** After as many stages as there are units nothing more is reached. */
  lemma {:induction false} StagesEnd(units: seq<QueryUnit>, k: nat)
    ensures Reached(units, k) <= Reached(units, |units|)
  {
    if k <= |units| {
      ReachedGrows(units, k, |units|);
    } else {
      StagesEnd(units, k - 1);
      NextStageWithin(units, k - 1, |units|);
      StagesStop(units);
    }
  }

  /** A stage is the first from which all dependencies are reached; without one they never are. */
  lemma {:induction false} StageFromIs(units: seq<QueryUnit>, u: QueryUnit, from: nat, k: nat)
    requires from <= |units|
    requires forall j: nat :: j < from ==> !DependsOnly(u, Reached(units, j))
    ensures var stage := StageFrom(units, u, from);
      DependsOnly(u, Reached(units, k)) <==> stage.Some? && stage.value <= k
    decreases |units| - from
  {
    if DependsOnly(u, Reached(units, from)) {
      if from <= k { ReachedGrows(units, from, k); }
    } else if from == |units| {
      StagesEnd(units, k);
    } else {
      StageFromIs(units, u, from + 1, k);
    }
  }

  lemma StageIs(units: seq<QueryUnit>, u: QueryUnit, k: nat)
    ensures DependsOnly(u, Reached(units, k)) <==> Stage(units, u).Some? && Stage(units, u).value <= k
  {
    StageFromIs(units, u, 0, k);
  }

  // ----- the rounds go through the stages -----

  /** A round settles exactly the next stage. */
  lemma RoundIsStage(units: seq<QueryUnit>, k: nat)
    ensures Reached(units, k) + IdsOf(ReadyUnits(units, Reached(units, k))) == Reached(units, k + 1)
  {
    var now := Reached(units, k);
    ReachedGrows(units, k, k + 1);
    forall x | x in Reached(units, k + 1) && x !in now ensures x in IdsOf(ReadyUnits(units, now)) {
      var u :| u in units && DependsOnly(u, now) && u.id == x;
      assert IsReady(u, now);
    }
  }

  /** How many units carry an id. */
  function Total(units: seq<QueryUnit>, x: Id): nat {
    if units == [] then 0 else (if units[0].id == x then 1 else 0) + Total(units[1..], x)
  }

  /** How many of them depend on known ids only. */
  function Able(units: seq<QueryUnit>, known: set<Id>, x: Id): nat {
    if units == [] then 0
    else (if units[0].id == x && DependsOnly(units[0], known) then 1 else 0) + Able(units[1..], known, x)
  }

  lemma FirstIdCount(u: QueryUnit, rest: seq<QueryUnit>, x: Id)
    ensures multiset(Ids([u] + rest))[x] == (if u.id == x then 1 else 0) + multiset(Ids(rest))[x]
  {
    assert Ids([u] + rest) == [u.id] + Ids(rest);
  }

  lemma {:induction false} TotalCounts(units: seq<QueryUnit>, x: Id)
    ensures multiset(Ids(units))[x] == Total(units, x)
  {
    if units != [] {
      TotalCounts(units[1..], x);
      FirstIdCount(units[0], units[1..], x);
      assert units == [units[0]] + units[1..];
    }
  }

  lemma {:induction false} ReadyCounts(units: seq<QueryUnit>, completed: set<Id>, x: Id)
    ensures multiset(Ids(ReadyUnits(units, completed)))[x] == if x in completed then 0 else Able(units, completed, x)
  {
    if units != [] {
      ReadyCounts(units[1..], completed, x);
      FirstIdCount(units[0], ReadyUnits(units[1..], completed), x);
    }
  }

  /** All units with an id are able exactly when each of them is. */
  lemma {:induction false} AbleAll(units: seq<QueryUnit>, known: set<Id>, x: Id)
    ensures Able(units, known, x) <= Total(units, x)
    ensures Able(units, known, x) == Total(units, x) <==> forall u :: u in units && u.id == x ==> DependsOnly(u, known)
  {
    if units != [] {
      assert units == [units[0]] + units[1..];
      AbleAll(units[1..], known, x);
    }
  }

  lemma {:induction false} TotalPositive(units: seq<QueryUnit>, x: Id)
    ensures Total(units, x) > 0 <==> exists i :: 0 <= i < |units| && units[i].id == x
  {
    if units != [] {
      var rest := units[1..];
      TotalPositive(rest, x);
      if i :| 0 <= i < |units| && units[i].id == x { assert i > 0 ==> rest[i - 1].id == x; }
      if i :| 0 <= i < |rest| && rest[i].id == x { assert units[i + 1].id == x; }
    }
  }

  ghost predicate Twice(units: seq<QueryUnit>, x: Id) {
    exists i, j :: 0 <= i < j < |units| && units[i].id == x && units[j].id == x
  }

  lemma {:induction false} TotalTwice(units: seq<QueryUnit>, x: Id)
    ensures Total(units, x) >= 2 <==> Twice(units, x)
  {
    if units != [] {
      var rest := units[1..];
      TotalTwice(rest, x);
      TotalPositive(rest, x);
      if i, j :| 0 <= i < j < |units| && units[i].id == x && units[j].id == x {
        assert rest[j - 1].id == x;
        assert i > 0 ==> rest[i - 1].id == x;
      }
      if i, j :| 0 <= i < j < |rest| && rest[i].id == x && rest[j].id == x {
        assert units[i + 1].id == x && units[j + 1].id == x;
      }
      if units[0].id == x && exists i :: 0 <= i < |rest| && rest[i].id == x {
        var i :| 0 <= i < |rest| && rest[i].id == x;
        assert units[0].id == x && units[i + 1].id == x;
      }
    }
  }

  lemma ScheduleRound(units: seq<QueryUnit>, completed: set<Id>, x: Id)
    requires ReadyUnits(units, completed) != []
    ensures var ready := ReadyUnits(units, completed);
      multiset(Ids(Schedule(units, completed)))[x] ==
        multiset(Ids(ready))[x] + multiset(Ids(Schedule(units, completed + IdsOf(ready))))[x]
  {
    var ready := ReadyUnits(units, completed);
    UnfoldRound(units, completed);
    IdsConcat(ready, Schedule(units, completed + IdsOf(ready)));
  }

  /** A completed id is never dispatched again. */
  lemma {:induction false} NoSecondDispatch(units: seq<QueryUnit>, completed: set<Id>, x: Id)
    requires x in completed
    ensures multiset(Ids(Schedule(units, completed)))[x] == 0
    decreases |IdsOf(units) - completed|
  {
    var ready := ReadyUnits(units, completed);
    if ready != [] {
      RoundProgress(units, completed);
      ScheduleRound(units, completed, x);
      ReadyCounts(units, completed, x);
      NoSecondDispatch(units, completed + IdsOf(ready), x);
    }
  }

  /** `m` is the stage at which an id is reached. */
  ghost predicate ReachedAt(units: seq<QueryUnit>, m: nat, x: Id) {
    x !in Reached(units, m) && x in Reached(units, m + 1)
  }

  /** Of the units with an id, exactly those able at the stage that reaches it are dispatched;
      an id that no stage reaches is not settled. */
  lemma {:induction false} DispatchCounts(units: seq<QueryUnit>, k: nat, x: Id) returns (m: Option<nat>)
    requires x !in Reached(units, k)
    ensures var count := multiset(Ids(Schedule(units, Reached(units, k))))[x];
      match m
      case Some(at) =>
        ReachedAt(units, at, x) && x in Settled(units, Reached(units, k)) && count == Able(units, Reached(units, at), x)
      case None => x !in Settled(units, Reached(units, k)) && count == 0
    decreases |IdsOf(units) - Reached(units, k)|
  {
    var now := Reached(units, k);
    var ready := ReadyUnits(units, now);
    if ready == [] {
      m := None;
    } else {
      RoundProgress(units, now);
      RoundIsStage(units, k);
      ScheduleRound(units, now, x);
      ReadyCounts(units, now, x);
      UnfoldRound(units, now);
      if x in Reached(units, k + 1) {
        m := Some(k);
        NoSecondDispatch(units, Reached(units, k + 1), x);
        StaysSettled(units, Reached(units, k + 1), x);
      } else {
        m := DispatchCounts(units, k + 1, x);
        NotReadyNotCounted(units, now, x);
      }
    }
  }

  lemma {:induction false} StaysSettled(units: seq<QueryUnit>, completed: set<Id>, x: Id)
    requires x in completed
    ensures x in Settled(units, completed)
    decreases |IdsOf(units) - completed|
  {
    if ReadyUnits(units, completed) != [] {
      RoundProgress(units, completed);
      StaysSettled(units, completed + IdsOf(ReadyUnits(units, completed)), x);
    }
  }

  lemma {:induction false} AbleSome(units: seq<QueryUnit>, known: set<Id>, x: Id)
    ensures Able(units, known, x) > 0 ==> exists u :: u in units && u.id == x && DependsOnly(u, known)
  {
    if units != [] {
      AbleSome(units[1..], known, x);
      assert units == [units[0]] + units[1..];
    }
  }

  lemma NotReadyNotCounted(units: seq<QueryUnit>, completed: set<Id>, x: Id)
    requires x !in completed && x !in IdsOf(ReadyUnits(units, completed))
    ensures Able(units, completed, x) == 0
  {
    AbleSome(units, completed, x);
    forall u | u in units && u.id == x ensures !DependsOnly(u, completed) {
      assert u in ReadyUnits(units, completed) ==> u.id in IdsOf(ReadyUnits(units, completed));
    }
  }

  // ----- one bundle per unit -----

  ghost predicate AgreeOn(units: seq<QueryUnit>, x: Id) {
    forall i, j :: 0 <= i < j < |units| && units[i].id == units[j].id == x ==>
      Stage(units, units[i]).Some? && Stage(units, units[i]) == Stage(units, units[j])
  }

  /** A unit whose id is reached at stage `m` has that stage or a later one. */
  lemma StageAtLeast(units: seq<QueryUnit>, m: nat, u: QueryUnit)
    requires u in units && u.id !in Reached(units, m)
    ensures Stage(units, u).Some? ==> Stage(units, u).value >= m
  {
    if Stage(units, u).Some? {
      var s := Stage(units, u).value;
      StageIs(units, u, s);
      assert u.id in Reached(units, s + 1);
      if s < m { ReachedGrows(units, s + 1, m); }
    }
  }

  lemma AbleMeansStage(units: seq<QueryUnit>, m: nat, u: QueryUnit)
    requires u in units && u.id !in Reached(units, m)
    ensures DependsOnly(u, Reached(units, m)) <==> Stage(units, u) == Some(m)
  {
    StageIs(units, u, m);
    StageAtLeast(units, m, u);
  }

  /** All units of an id reached at stage `m` are able then exactly when their stages agree. */
  lemma AbleIffAgree(units: seq<QueryUnit>, m: nat, x: Id)
    requires ReachedAt(units, m, x)
    ensures (forall u :: u in units && u.id == x ==> DependsOnly(u, Reached(units, m))) <==> AgreeOn(units, x)
  {
    forall u | u in units && u.id == x ensures DependsOnly(u, Reached(units, m)) <==> Stage(units, u) == Some(m) {
      AbleMeansStage(units, m, u);
    }
    var first :| first in units && DependsOnly(first, Reached(units, m)) && first.id == x;
    var i :| 0 <= i < |units| && units[i] == first;
    if AgreeOn(units, x) {
      forall u | u in units && u.id == x ensures Stage(units, u) == Some(m) {
        var j :| 0 <= j < |units| && units[j] == u;
        assert i < j || j < i || i == j;
      }
    }
  }

  /** An id no stage reaches: its units have no stage. */
  lemma NeverReached(units: seq<QueryUnit>, x: Id)
    requires forall k: nat :: x !in Reached(units, k)
    ensures AgreeOn(units, x) <==> !Twice(units, x)
  {
    forall u | u in units && u.id == x ensures Stage(units, u).None? {
      if Stage(units, u).Some? {
        StageIs(units, u, Stage(units, u).value);
        assert x in Reached(units, Stage(units, u).value + 1);
      }
    }
  }

  lemma LeftoverCount(units: seq<QueryUnit>, x: Id)
    ensures multiset(LeftoverIds(units, Settled(units, {})))[x] ==
      if x in Settled(units, {}) || Total(units, x) == 0 then 0 else 1
  {
    var settled := Settled(units, {});
    LeftoversAre(units, settled);
    CountDistinct(LeftoverIds(units, settled), x);
    TotalPositive(units, x);
    if x in Ids(units) {
      var k :| 0 <= k < |units| && Ids(units)[k] == x;
      assert units[k].id == x;
    } else {
      forall i | 0 <= i < |units| ensures units[i].id != x { assert Ids(units)[i] == units[i].id; }
    }
  }

  lemma AbleIsSettled(units: seq<QueryUnit>, completed: set<Id>, u: QueryUnit)
    requires ReadyUnits(units, completed) == [] && u in units && DependsOnly(u, completed)
    ensures u.id in completed
  {
    assert u !in ReadyUnits(units, completed);
  }

  lemma NextIsSettled(units: seq<QueryUnit>, known: set<Id>, completed: set<Id>)
    requires ReadyUnits(units, completed) == [] && known <= completed
    ensures Next(units, known) <= completed
  {
    forall u | u in units && DependsOnly(u, known) ensures u.id in completed { AbleIsSettled(units, completed, u); }
  }

  lemma {:induction false} ReachedIsSettled(units: seq<QueryUnit>, k: nat)
    ensures Reached(units, k) <= Settled(units, {})
  {
    if k > 0 {
      ReachedIsSettled(units, k - 1);
      SettledIsFixpoint(units, {});
      NextIsSettled(units, Reached(units, k - 1), Settled(units, {}));
    }
  }

  // ----- what is left unresolved, in any plan -----

  lemma SettledWithinStages(units: seq<QueryUnit>)
    ensures Settled(units, {}) <= Reached(units, |units|)
  {
    StagesStop(units);
    SettledIsLeast(units, {}, Reached(units, |units|));
  }

  lemma StagesSettle(units: seq<QueryUnit>)
    ensures Settled(units, {}) == Reached(units, |units|)
  {
    SettledWithinStages(units);
    ReachedIsSettled(units, |units|);
  }

  /** A unit has no stage exactly when it depends on an id that is never settled. */
  lemma NoStageIff(units: seq<QueryUnit>, u: QueryUnit)
    ensures Stage(units, u).None? <==> exists d :: d in u.dependsOn && d !in Settled(units, {})
  {
    StagesSettle(units);
    StageFromBounded(units, u, 0);
    StageIs(units, u, |units|);
  }

  lemma {:induction false} StageFromBounded(units: seq<QueryUnit>, u: QueryUnit, from: nat)
    requires from <= |units|
    ensures StageFrom(units, u, from).Some? ==> StageFrom(units, u, from).value <= |units|
    decreases |units| - from
  {
    if from < |units| {
      StageFromBounded(units, u, from + 1);
    }
  }

  /** An id is left unresolved exactly when every unit that carries it has no stage. */
  lemma UnsettledIffNoStage(units: seq<QueryUnit>, x: Id)
    ensures x !in Settled(units, {}) <==> forall u :: u in units && u.id == x ==> Stage(units, u).None?
  {
    StagesSettle(units);
    StagesStop(units);
    forall u | u in units ensures DependsOnly(u, Reached(units, |units|)) <==> Stage(units, u).Some? {
      StageFromBounded(units, u, 0);
      StageIs(units, u, |units|);
    }
    assert Reached(units, |units| + 1) == Next(units, Reached(units, |units|));
  }

  /** An id gets one bundle for each unit that carries it exactly when their stages agree. */
  lemma BundlesOfId(units: seq<QueryUnit>, x: Id)
    ensures multiset(BundledIds(units))[x] == multiset(Ids(units))[x] <==> AgreeOn(units, x)
  {
    var m := DispatchCounts(units, 0, x);
    LeftoverCount(units, x);
    TotalCounts(units, x);
    if m.Some? {
      AbleAll(units, Reached(units, m.value), x);
      AbleIffAgree(units, m.value, x);
    } else {
      forall k: nat ensures x !in Reached(units, k) { ReachedIsSettled(units, k); }
      NeverReached(units, x);
      TotalTwice(units, x);
    }
  }

  /** Every unit of a plan gets a bundle of its own exactly when units that share an id have the
      same stage. */
  lemma OneBundleIffStagesAgree(units: seq<QueryUnit>)
    ensures multiset(BundledIds(units)) == multiset(Ids(units)) <==> StagesAgree(units)
  {
    forall x ensures multiset(BundledIds(units))[x] == multiset(Ids(units))[x] <==> AgreeOn(units, x) {
      BundlesOfId(units, x);
    }
    if multiset(BundledIds(units)) == multiset(Ids(units)) {
      forall i, j | 0 <= i < j < |units| && units[i].id == units[j].id
        ensures Stage(units, units[i]).Some? && Stage(units, units[i]) == Stage(units, units[j])
      {
        assert AgreeOn(units, units[i].id);
      }
    }
    if StagesAgree(units) {
      forall x ensures multiset(BundledIds(units))[x] == multiset(Ids(units))[x] {
        assert AgreeOn(units, x);
      }
    }
  }

  // ----- plans that can be executed -----

  /** Validation makes the executor's safety branch dead for every plan the model wrote, shared
      ids or not. */
  lemma ValidatedNeverUnresolved(raw: Option<AskPlan>, r: Reading, maxUnits: int)
    requires Validated(raw, r, maxUnits).Ok?
    ensures var units := Validated(raw, r, maxUnits).value.units;
      Settled(units, {}) == IdsOf(units) && LeftoverIds(units, Settled(units, {})) == []
  {
    var units := Validated(raw, r, maxUnits).value.units;
    ValidatedIsExecutable(raw, r, maxUnits);
    ExecutableSettlesAll(units);
    LeftoversAre(units, Settled(units, {}));
    IdsOfIds(units);
    NoMembers(LeftoverIds(units, Settled(units, {})));
  }

  /** Every unit of an executable plan has a stage. */
  lemma ExecutableStages(units: seq<QueryUnit>, u: QueryUnit)
    requires Executable(units) && u in units
    ensures Stage(units, u).Some?
  {
    ExecutableSettlesAll(units);
    SettledWithinStages(units);
    IdsOfIds(units);
    assert DependsOnly(u, Reached(units, |units|));
    StageIs(units, u, |units|);
  }

  /** A validated plan gets one bundle for each of its units exactly when any two units with the
      same id have the same stage. */
  lemma ValidatedOneBundleIff(raw: Option<AskPlan>, r: Reading, maxUnits: int)
    requires Validated(raw, r, maxUnits).Ok?
    ensures var units := Validated(raw, r, maxUnits).value.units;
      multiset(BundledIds(units)) == multiset(Ids(units)) <==>
        forall i, j :: 0 <= i < j < |units| && units[i].id == units[j].id ==> Stage(units, units[i]) == Stage(units, units[j])
  {
    var units := Validated(raw, r, maxUnits).value.units;
    ValidatedIsExecutable(raw, r, maxUnits);
    OneBundleIffStagesAgree(units);
    forall i | 0 <= i < |units| ensures Stage(units, units[i]).Some? { ExecutableStages(units, units[i]); }
  }

  lemma AllBundlesSettled(units: seq<QueryUnit>, bundles: seq<Bundle>)
    requires Settled(units, {}) == IdsOf(units) && multiset(BundleIds(bundles)) == multiset(BundledIds(units))
    requires LeftoverIds(units, Settled(units, {})) == []
    requires forall b :: b in bundles ==> (b.status == UnresolvedDependency <==> b.unitId !in Settled(units, {}))
    ensures forall b :: b in bundles ==> b.status != UnresolvedDependency
  {
    forall b | b in bundles ensures b.unitId in IdsOf(units) {
      var k :| 0 <= k < |bundles| && bundles[k] == b;
      assert BundleIds(bundles)[k] == b.unitId && b.unitId in multiset(BundledIds(units));
      DispatchedIsKnown(units, b.unitId);
    }
  }

  lemma DispatchedIsKnown(units: seq<QueryUnit>, x: Id)
    requires x in Ids(Schedule(units, {}))
    ensures x in IdsOf(units)
  {
    var m := DispatchCounts(units, 0, x);
    SettledGrows(units, {});
  }

  /** Validation and execution in sequence, for every payload, shared ids or not, and every
      pattern of outcomes. */
  method AnswerAnyPlan(raw: Option<AskPlan>, r: Reading, maxUnits: int, o: Outcomes) returns (plan: Result<AskPlan, PlanError>, run: Execution)
    ensures plan == Validated(raw, r, maxUnits)
    ensures plan.Ok? ==>
      && (forall b :: b in run.bundles ==> b.status != UnresolvedDependency)
      && Causal(run.trace)
      && multiset(run.bundles) == multiset(AllBundles(plan.value.units, o))
      && (multiset(BundleIds(run.bundles)) == multiset(Ids(plan.value.units)) <==> StagesAgree(plan.value.units))
  {
    plan := ValidateAskPlan(raw, r, maxUnits);
    run := new Execution();
    if plan.Ok? {
      ValidatedNeverUnresolved(raw, r, maxUnits);
      OneBundleIffStagesAgree(plan.value.units);
      run.Execute(plan.value.units, o);
      AllBundlesSettled(plan.value.units, run.bundles);
    }
  }

  // ----- a plan that loses a unit -----

  /** Three different questions. The first two share the id "a"; the first waits for "b". */
  function SharedIds(): seq<QueryUnit> {
    [
      QueryUnit("a", "q", ["q"], NoteLookup, None, Some("x"), AllTime, Aggregate, false, ["b"]),
      QueryUnit("a", "q", ["q"], NoteLookup, None, Some("y"), AllTime, Aggregate, false, []),
      QueryUnit("b", "q", ["q"], NoteLookup, None, Some("z"), AllTime, Aggregate, false, [])
    ]
  }

  /** A question that contains every span and no cue. */
  function PlainReading(): Reading {
    Reading("q", false, false, false, false, false, false, false, false, _ => false, _ => true, (_, _) => false, s => s)
  }

  lemma SharedIdsGraph()
    ensures GraphOf(SharedIds()) == map["a" := {}, "b" := {}]
    ensures Ids(SharedIds()) == ["a", "a", "b"]
  {
    var units := SharedIds();
    var two, one := units[..2], units[..1];
    assert two[..1] == one && one[..0] == [];
    assert GraphOf(one) == map["a" := DependencySet(["b"])];
    assert GraphOf(two) == GraphOf(one)["a" := DependencySet([])];
    assert GraphOf(units) == GraphOf(two)["b" := DependencySet([])];
    assert DependencySet([]) == {};
  }

  lemma SharedIdsAcyclic()
    ensures !Cyclic(GraphOf(SharedIds()))
  {
    SharedIdsGraph();
    var g := GraphOf(SharedIds());
    forall a, p ensures !Leads(g, p, a, a) {
      assert IsPath(g, p) && |p| >= 2 ==> Edge(g, p[0], p[1]);
    }
  }

  lemma PlainAdmits(u: QueryUnit, known: set<Id>)
    requires u in SharedIds() && "b" in known
    ensures Admit(u, PlainReading(), known) == Some(u) && CloseUnit(u, known) == u
  {
    var r, units := PlainReading(), SharedIds();
    assert RepairIntent(u, r) == u;
    assert FirstSupported(u.sourceSpans, r) == Some("q");
    assert RepairAnchor(u, r) == u;
    assert ["b"][1..] == [];
    assert KeepDependencies(["b"], "a", known) == ["b"];
    assert KeepDependencies(u.dependsOn, u.id, known) == u.dependsOn;
  }

  lemma SharedIdsAccepted(known: set<Id>)
    requires "b" in known
    ensures Accepted(SharedIds(), PlainReading(), known, {}) == SharedIds()
  {
    var units, r := SharedIds(), PlainReading();
    forall u | u in units ensures Admit(u, r, known) == Some(u) { PlainAdmits(u, known); }
    assert units[0] in units && units[1] in units && units[2] in units;
    var x, y, z := IdentityOf(units[0], r), IdentityOf(units[1], r), IdentityOf(units[2], r);
    assert x.1 == "x" && y.1 == "y" && z.1 == "z";
    assert units[2..][1..] == [];
    assert Accepted(units[2..], r, known, {x} + {y}) == [units[2]];
    assert units[1..][1..] == units[2..];
    assert Accepted(units[1..], r, known, {x}) == [units[1]] + [units[2]];
    assert {} + {x} == {x};
  }

  /** The validator returns this plan as it is, with its shared id. */
  lemma SharedIdsPassValidation(maxUnits: int)
    requires maxUnits >= 3
    ensures var plan := AskPlan("q", SharedIds(), "direct");
      Validated(Some(plan), PlainReading(), maxUnits) == Ok(plan)
  {
    var units, r := SharedIds(), PlainReading();
    assert Window(units, maxUnits) == units;
    assert units[2].id in IdsOf(units);
    SharedIdsAccepted(IdsOf(units));
    var closed := CloseDependencies(units, IdsOf(units));
    forall k | 0 <= k < |units| ensures closed[k] == units[k] { PlainAdmits(units[k], IdsOf(units)); }
    assert closed == units;
    SharedIdsAcyclic();
  }

  lemma SharedIdsFirstRound()
    ensures ReadyUnits(SharedIds(), {}) == SharedIds()[1..] && IdsOf(SharedIds()[1..]) == {"a", "b"}
  {
    var units := SharedIds();
    var two, one := units[1..], units[2..];
    assert "b" in units[0].dependsOn;
    assert two[1..] == one && one[1..] == [];
    assert ReadyUnits(one, {}) == one && ReadyUnits(two, {}) == two;
    assert two[0] in two && two[1] in two;
    assert forall u :: u in two ==> u == two[0] || u == two[1];
  }

  /** Its first unit is one stage behind its namesake and gets lost: three units, two bundles. */
  lemma SharedIdsLoseAUnit()
    ensures !StagesAgree(SharedIds())
    ensures |SharedIds()| == 3 && |BundledIds(SharedIds())| == 2
  {
    var units, settled := SharedIds(), {"a", "b"};
    SharedIdsFirstRound();
    SharedIdsGraph();
    IdsOfIds(units);
    LeftoversAre(units, settled);
    NoMembers(LeftoverIds(units, settled));
    forall u ensures u !in ReadyUnits(units, settled) {
      assert u in units ==> u.id in IdsOf(units);
    }
    NoMembers(ReadyUnits(units, settled));
    UnfoldRound(units, {});
    assert {} + IdsOf(units[1..]) == settled;
    assert Schedule(units, {}) == units[1..] + Schedule(units, settled);
    StageIs(units, units[0], 0);
    StageIs(units, units[1], 0);
    assert units[0].id == units[1].id && "b" in units[0].dependsOn;
  }
}
