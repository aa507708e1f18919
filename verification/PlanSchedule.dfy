/** What the rounds of the executor reach, and what every run therefore returns. */
module PlanSchedule {
  import opened Options
  import opened Ordering
  import opened PlanGraph
  import opened PlanValidator
  import opened PlanExecutor

  // ----- one bundle per unit -----

  lemma TailDistinct(units: seq<QueryUnit>)
    requires units != [] && DistinctIds(units)
    ensures DistinctIds(units[1..]) && forall u :: u in units[1..] ==> u.id != units[0].id
  {
    var tail := units[1..];
    assert forall k :: 0 <= k < |tail| ==> Ids(tail)[k] == Ids(units)[k + 1];
    forall u | u in tail ensures u.id != units[0].id {
      var m :| 0 <= m < |tail| && tail[m] == u;
      assert Ids(units)[0] != Ids(units)[m + 1];
    }
  }

  lemma HeadDistinct(head: QueryUnit, rest: seq<QueryUnit>)
    requires DistinctIds(rest) && forall u :: u in rest ==> u.id != head.id
    ensures DistinctIds([head] + rest)
  {
    assert Ids([head] + rest) == [head.id] + Ids(rest);
    forall k | 0 <= k < |rest| ensures Ids(rest)[k] != head.id { assert rest[k] in rest; }
  }

  lemma {:induction false} ReadyDistinct(units: seq<QueryUnit>, completed: set<Id>)
    requires DistinctIds(units)
    ensures DistinctIds(ReadyUnits(units, completed))
  {
    if units != [] {
      TailDistinct(units);
      ReadyDistinct(units[1..], completed);
      if IsReady(units[0], completed) { HeadDistinct(units[0], ReadyUnits(units[1..], completed)); }
    }
  }

  lemma {:induction false} SettledGrows(units: seq<QueryUnit>, completed: set<Id>)
    requires completed <= IdsOf(units)
    ensures completed <= Settled(units, completed) <= IdsOf(units)
    decreases |IdsOf(units) - completed|
  {
    if ReadyUnits(units, completed) != [] {
      RoundProgress(units, completed);
      SettledGrows(units, completed + IdsOf(ReadyUnits(units, completed)));
    }
  }

  lemma DistinctConcat(a: seq<Id>, b: seq<Id>)
    requires Distinct(a) && Distinct(b)
    requires forall x :: x in a ==> x !in b
    ensures Distinct(a + b)
  {
    var all := a + b;
    forall i, j | 0 <= i < j < |all| ensures all[i] != all[j] {
      if i < |a| <= j {
        assert a[i] in a && b[j - |a|] in b;
      }
    }
  }

  /** Dispatching settles each id once, and everything dispatched is settled. */
  lemma {:induction false} ScheduleSettles(units: seq<QueryUnit>, completed: set<Id>)
    requires DistinctIds(units) && completed <= IdsOf(units)
    ensures forall x :: x in Ids(Schedule(units, completed)) <==> x in Settled(units, completed) && x !in completed
    ensures Distinct(Ids(Schedule(units, completed)))
    decreases |IdsOf(units) - completed|
  {
    var ready := ReadyUnits(units, completed);
    if ready != [] {
      var next := completed + IdsOf(ready);
      RoundProgress(units, completed);
      ScheduleSettles(units, next);
      SettledGrows(units, next);
      UnfoldRound(units, completed);
      ScheduleStep(units, completed, ready, Schedule(units, next));
    }
  }

  lemma ScheduleStep(units: seq<QueryUnit>, completed: set<Id>, ready: seq<QueryUnit>, rest: seq<QueryUnit>)
    requires DistinctIds(units) && ready == ReadyUnits(units, completed)
    requires Distinct(Ids(rest)) && forall x :: x in Ids(rest) ==> x !in completed + IdsOf(ready)
    ensures Distinct(Ids(ready + rest))
    ensures forall x :: x in Ids(ready + rest) <==> x in IdsOf(ready) || x in Ids(rest)
    ensures forall x :: x in IdsOf(ready) ==> x !in completed
  {
    ReadyDistinct(units, completed);
    IdsConcat(ready, rest);
    IdsOfIds(ready);
    DistinctConcat(Ids(ready), Ids(rest));
  }

  lemma BundledAll(units: seq<QueryUnit>)
    requires DistinctIds(units)
    ensures multiset(BundledIds(units)) == multiset(Ids(units))
  {
    ScheduleSettles(units, {});
    SettledGrows(units, {});
    LeftoversAre(units, Settled(units, {}));
    IdsOfIds(units);
    DistinctConcat(Ids(Schedule(units, {})), LeftoverIds(units, Settled(units, {})));
    DistinctSameBag(BundledIds(units), Ids(units));
  }

  lemma {:induction false} PositionOf(units: seq<QueryUnit>, k: nat)
    requires DistinctIds(units) && k < |units|
    ensures Position(units, units[k].id) == k
  {
    var n := |units| - 1;
    assert Ids(units)[k] == units[k].id && Ids(units)[n] == units[n].id;
    if k < n {
      var front := units[..n];
      assert forall i :: 0 <= i < n ==> Ids(front)[i] == Ids(units)[i];
      PositionOf(front, k);
    }
  }

  function IdOrder(units: seq<QueryUnit>): (Id, Id) -> bool {
    (a: Id, b: Id) => Position(units, a) < Position(units, b)
  }

  /** With distinct ids, sorted bundles that account for every id are the units' bundles in
      plan order, one each. */
  lemma OneBundlePerUnit(units: seq<QueryUnit>, bundles: seq<Bundle>)
    requires DistinctIds(units)
    requires multiset(BundleIds(bundles)) == multiset(BundledIds(units))
    requires Sorted(bundles, InPlanOrder(units))
    ensures BundleIds(bundles) == Ids(units)
  {
    BundledAll(units);
    var order := IdOrder(units);
    forall i, j | 0 <= i < j < |units| ensures !order(Ids(units)[j], Ids(units)[i]) {
      PositionOf(units, i);
      PositionOf(units, j);
    }
    forall i, j | 0 <= i < j < |bundles| ensures !order(BundleIds(bundles)[j], BundleIds(bundles)[i]) {
      assert !InPlanOrder(units)(bundles[j], bundles[i]);
    }
    forall x, y | x in Ids(units) && y in Ids(units) && x != y ensures order(x, y) || order(y, x) {
      var i :| 0 <= i < |units| && Ids(units)[i] == x;
      var j :| 0 <= j < |units| && Ids(units)[j] == y;
      PositionOf(units, i);
      PositionOf(units, j);
    }
    SortedUnique(Ids(units), BundleIds(bundles), order);
  }

  // ----- what the rounds reach -----

  lemma {:induction false} GraphLookup(units: seq<QueryUnit>, u: QueryUnit)
    requires DistinctIds(units) && u in units
    ensures u.id in GraphOf(units) && GraphOf(units)[u.id] == DependencySet(u.dependsOn)
  {
    var n := |units| - 1;
    var last, front := units[n], units[..n];
    assert units == front + [last];
    if u != last {
      var k :| 0 <= k < n && units[k] == u;
      assert front[k] == u;
      assert Ids(units)[k] != Ids(units)[n];
      assert forall i :: 0 <= i < n ==> Ids(front)[i] == Ids(units)[i];
      GraphLookup(front, u);
    }
  }

  /** `order` lists exactly the settled ids so far; their dependencies come earlier. */
  ghost predicate SettleOrder(g: Graph, settled: set<Id>, order: seq<Id>) {
    && TopoOrder(g, order)
    && (forall x :: x in order <==> x in settled)
    && (forall a, b :: a in settled && Edge(g, a, b) ==> b in settled)
  }

  lemma {:induction false} ExtendOrder(g: Graph, settled: set<Id>, order: seq<Id>, more: seq<Id>)
    requires SettleOrder(g, settled, order)
    requires Distinct(more) && forall x :: x in more ==> x in g && x !in settled && g[x] <= settled
    ensures SettleOrder(g, settled + (set x | x in more), order + more)
  {
    var all := order + more;
    forall k, b | 0 <= k < |all| && Edge(g, all[k], b) ensures b in all[..k] {
      if k < |order| {
        assert all[k] in order && b in order;
        assert b in g;
        assert all[..k] == order[..k];
      } else {
        assert all[k] == more[k - |order|] && all[k] in more;
        assert b in order;
        assert all[..k] == order + more[..k - |order|];
      }
    }
  }

  /** The rounds produce a topological order of everything they settle. */
  lemma {:induction false} SettledInOrder(units: seq<QueryUnit>, completed: set<Id>, order: seq<Id>) returns (final: seq<Id>)
    requires DistinctIds(units) && SettleOrder(GraphOf(units), completed, order)
    ensures SettleOrder(GraphOf(units), Settled(units, completed), final)
    decreases |IdsOf(units) - completed|
  {
    var ready := ReadyUnits(units, completed);
    if ready == [] {
      final := order;
    } else {
      RoundProgress(units, completed);
      OrderRound(units, completed, order);
      final := SettledInOrder(units, completed + IdsOf(ready), order + Ids(ready));
    }
  }

  lemma OrderRound(units: seq<QueryUnit>, completed: set<Id>, order: seq<Id>)
    requires DistinctIds(units) && SettleOrder(GraphOf(units), completed, order)
    ensures var ready := ReadyUnits(units, completed);
      SettleOrder(GraphOf(units), completed + IdsOf(ready), order + Ids(ready))
  {
    var g, ready := GraphOf(units), ReadyUnits(units, completed);
    ReadyDistinct(units, completed);
    forall x | x in Ids(ready) ensures x in g && x !in completed && g[x] <= completed {
      var k :| 0 <= k < |ready| && Ids(ready)[k] == x;
      assert ready[k] in ready;
      GraphLookup(units, ready[k]);
    }
    IdsOfIds(ready);
    assert (set x | x in Ids(ready)) == IdsOf(ready);
    ExtendOrder(g, completed, order, Ids(ready));
  }

  /** `a` leads to a unit on a cycle or to an id that no unit carries (or is one itself). */
  ghost predicate Blocked(g: Graph, a: Id) {
    exists p :: IsPath(g, p) && p[0] == a && (p[|p| - 1] !in g || OnCycle(g, p[|p| - 1]))
  }

  lemma PathTail(g: Graph, p: seq<Id>, i: nat)
    requires IsPath(g, p) && i < |p|
    ensures IsPath(g, p[i..])
  {
    var tail := p[i..];
    forall k | 0 <= k < |tail| - 1 ensures Edge(g, tail[k], tail[k + 1]) {
      assert Edge(g, p[i + k], p[i + k + 1]);
    }
  }

  lemma {:induction false} PathStaysSettled(g: Graph, settled: set<Id>, p: seq<Id>)
    requires IsPath(g, p) && p[0] in settled
    requires forall a, b :: a in settled && Edge(g, a, b) ==> b in settled
    ensures p[|p| - 1] in settled
  {
    if |p| > 1 {
      assert Edge(g, p[0], p[1]);
      PathTail(g, p, 1);
      PathStaysSettled(g, settled, p[1..]);
    }
  }

  /** No settled id leads to a cycle or to an unknown id. */
  lemma SettledNotBlocked(units: seq<QueryUnit>, a: Id)
    requires DistinctIds(units) && a in Settled(units, {})
    ensures !Blocked(GraphOf(units), a)
  {
    var g := GraphOf(units);
    var order := SettledInOrder(units, {}, []);
    var settled := Settled(units, {});
    forall p | IsPath(g, p) && p[0] == a
      ensures p[|p| - 1] in g && !OnCycle(g, p[|p| - 1])
    {
      PathStaysSettled(g, settled, p);
      TopoOrderExcludesCycles(g, order, p[|p| - 1]);
    }
  }

  /** At the fixpoint an unsettled known id depends on some unsettled id. */
  lemma UnsettledParent(units: seq<QueryUnit>, completed: set<Id>, u: QueryUnit) returns (d: Id)
    requires ReadyUnits(units, completed) == [] && u in units && u.id !in completed
    ensures d in u.dependsOn && d !in completed
  {
    assert u !in ReadyUnits(units, completed);
    d :| d in u.dependsOn && d !in completed;
  }

  lemma {:induction false} SettledIsFixpoint(units: seq<QueryUnit>, completed: set<Id>)
    ensures ReadyUnits(units, Settled(units, completed)) == []
    decreases |IdsOf(units) - completed|
  {
    var ready := ReadyUnits(units, completed);
    if ready != [] {
      RoundProgress(units, completed);
      SettledIsFixpoint(units, completed + IdsOf(ready));
    }
  }

  /** An unsettled known id has an edge to an unsettled id. */
  lemma UnsettledEdge(units: seq<QueryUnit>, x: Id) returns (d: Id)
    requires DistinctIds(units) && x in GraphOf(units) && x !in Settled(units, {})
    ensures Edge(GraphOf(units), x, d) && d !in Settled(units, {})
  {
    var k :| 0 <= k < |units| && Ids(units)[k] == x;
    SettledIsFixpoint(units, {});
    d := UnsettledParent(units, Settled(units, {}), units[k]);
    GraphLookup(units, units[k]);
  }

  lemma LongerPath(g: Graph, p: seq<Id>, d: Id)
    requires IsPath(g, p) && Edge(g, p[|p| - 1], d)
    ensures IsPath(g, p + [d])
  {
  }

  lemma BlockedBy(g: Graph, p: seq<Id>)
    requires IsPath(g, p) && (p[|p| - 1] !in g || OnCycle(g, p[|p| - 1]))
    ensures Blocked(g, p[0])
  {
  }

  /** A path that comes back to one of its nodes leads to a cycle. */
  lemma ClosesCycle(g: Graph, p: seq<Id>, i: nat)
    requires IsPath(g, p) && i < |p| - 1 && p[i] == p[|p| - 1]
    ensures Blocked(g, p[0])
  {
    PathTail(g, p, i);
    assert Leads(g, p[i..], p[i], p[i]);
    BlockedBy(g, p);
  }

  /** Every member has an edge that stays inside or leaves the graph. */
  ghost predicate Stuck(g: Graph, stuck: set<Id>) {
    stuck <= g.Keys && forall x :: x in stuck ==> exists d :: Edge(g, x, d) && (d in stuck || d !in g)
  }

  /** Walking along edges inside `stuck`, whose every member has an edge that stays in it or
      leaves the graph, must end at an unknown id or close a cycle. */
  lemma {:induction false} Walk(g: Graph, stuck: set<Id>, p: seq<Id>)
    requires Stuck(g, stuck) && Distinct(p) && IsPath(g, p) && forall x :: x in p ==> x in stuck
    ensures Blocked(g, p[0])
    decreases |stuck| - |p|
  {
    assert p[|p| - 1] in p;
    var d :| Edge(g, p[|p| - 1], d) && (d in stuck || d !in g);
    var longer := p + [d];
    LongerPath(g, p, d);
    assert longer[0] == p[0];
    if d in p {
      var i :| 0 <= i < |p| && p[i] == d;
      ClosesCycle(g, longer, i);
    } else if d in g {
      DistinctBounded(longer, stuck);
      Walk(g, stuck, longer);
    } else {
      BlockedBy(g, longer);
    }
  }

  /** For any plan with distinct ids, the units left unresolved are exactly those that reach
      a cycle or an unknown id; every other unit is settled by dispatch. */
  lemma UnsettledExactlyBlocked(units: seq<QueryUnit>, u: QueryUnit)
    requires DistinctIds(units) && u in units
    ensures u.id in Settled(units, {}) <==> !Blocked(GraphOf(units), u.id)
  {
    GraphLookup(units, u);
    if u.id in Settled(units, {}) {
      SettledNotBlocked(units, u.id);
    } else {
      var g := GraphOf(units);
      var stuck := g.Keys - Settled(units, {});
      forall x | x in stuck ensures exists d :: Edge(g, x, d) && (d in stuck || d !in g) {
        var d := UnsettledEdge(units, x);
      }
      Walk(g, stuck, [u.id]);
    }
  }

  /** The rounds compute the least set that contains every unit whose dependencies it contains. */
  lemma {:induction false} SettledIsLeast(units: seq<QueryUnit>, completed: set<Id>, closed: set<Id>)
    requires completed <= closed
    requires forall u :: u in units && (forall d :: d in u.dependsOn ==> d in closed) ==> u.id in closed
    ensures Settled(units, completed) <= closed
    decreases |IdsOf(units) - completed|
  {
    var ready := ReadyUnits(units, completed);
    if ready != [] {
      RoundProgress(units, completed);
      forall x | x in IdsOf(ready) ensures x in closed {
        var u :| u in ready && u.id == x;
        assert IsReady(u, completed);
      }
      SettledIsLeast(units, completed + IdsOf(ready), closed);
    }
  }

  /** The dictionary of the cycle check speaks of some unit with the id. */
  lemma {:induction false} LastUnit(units: seq<QueryUnit>, x: Id) returns (u: QueryUnit)
    requires x in GraphOf(units)
    ensures u in units && u.id == x && GraphOf(units)[x] == DependencySet(u.dependsOn)
  {
    var last, front := units[|units| - 1], units[..|units| - 1];
    if last.id == x {
      u := last;
    } else {
      u := LastUnit(front, x);
    }
  }

  lemma StuckEdge(units: seq<QueryUnit>, x: Id) returns (d: Id)
    requires Executable(units) && x in GraphOf(units) && x !in Settled(units, {})
    ensures Edge(GraphOf(units), x, d) && d in GraphOf(units) && d !in Settled(units, {})
  {
    var u := LastUnit(units, x);
    SettledIsFixpoint(units, {});
    d := UnsettledParent(units, Settled(units, {}), u);
  }

  lemma KnownEdges(units: seq<QueryUnit>, a: Id, b: Id)
    requires Executable(units) && Edge(GraphOf(units), a, b)
    ensures b in GraphOf(units)
  {
    var u := LastUnit(units, a);
  }

  lemma KnownPath(units: seq<QueryUnit>, p: seq<Id>)
    requires Executable(units) && IsPath(GraphOf(units), p) && p[0] in GraphOf(units)
    ensures p[|p| - 1] in GraphOf(units)
  {
    var g := GraphOf(units);
    forall x, y | x in g.Keys && Edge(g, x, y) ensures y in g.Keys { KnownEdges(units, x, y); }
    PathStaysSettled(g, g.Keys, p);
  }

  lemma NoCycleAt(g: Graph, x: Id)
    requires !Cyclic(g)
    ensures !OnCycle(g, x)
  {
  }

  /** In an executable plan nothing is blocked. */
  lemma ExecutableNotBlocked(units: seq<QueryUnit>, a: Id)
    requires Executable(units) && a in GraphOf(units)
    ensures !Blocked(GraphOf(units), a)
  {
    var g := GraphOf(units);
    forall p | IsPath(g, p) && p[0] == a ensures p[|p| - 1] in g && !OnCycle(g, p[|p| - 1]) {
      KnownPath(units, p);
      NoCycleAt(g, p[|p| - 1]);
    }
  }

  lemma StuckEdges(units: seq<QueryUnit>)
    requires Executable(units)
    ensures Stuck(GraphOf(units), GraphOf(units).Keys - Settled(units, {}))
  {
    var g := GraphOf(units);
    forall x | x in g.Keys - Settled(units, {})
      ensures exists d :: Edge(g, x, d) && (d in g.Keys - Settled(units, {}) || d !in g)
    {
      var d := StuckEdge(units, x);
    }
  }

  lemma ExecutableSettles(units: seq<QueryUnit>, x: Id)
    requires Executable(units) && x in GraphOf(units)
    ensures x in Settled(units, {})
  {
    if x !in Settled(units, {}) {
      StuckEdges(units);
      ExecutableNotBlocked(units, x);
      Walk(GraphOf(units), GraphOf(units).Keys - Settled(units, {}), [x]);
      assert false;
    }
  }

  /** An executable plan never reaches the safety branch, whether ids are shared or not. */
  lemma ExecutableSettlesAll(units: seq<QueryUnit>)
    requires Executable(units)
    ensures Settled(units, {}) == IdsOf(units)
  {
    SettledGrows(units, {});
    IdsOfIds(units);
    forall x | x in IdsOf(units) ensures x in Settled(units, {}) { ExecutableSettles(units, x); }
  }

  lemma NoMembers<T>(s: seq<T>)
    ensures s == [] || exists x :: x in s
  {
    if s != [] {
      assert s[0] in s;
    }
  }

  /** Validation makes the executor's safety branch dead: whatever plan the model wrote, with
      distinct ids, every unit of the validated plan is dispatched exactly once and none is
      left over. */
  lemma ValidatedPlanRunsThrough(raw: AskPlan, r: Reading, maxUnits: int)
    requires DistinctIds(raw.units)
    requires Validated(Some(raw), r, maxUnits).Ok?
    ensures var units := Validated(Some(raw), r, maxUnits).value.units;
      && Settled(units, {}) == IdsOf(units)
      && multiset(Ids(Schedule(units, {}))) == multiset(Ids(units))
      && LeftoverIds(units, Settled(units, {})) == []
  {
    var units := Validated(Some(raw), r, maxUnits).value.units;
    ValidatedIsExecutable(Some(raw), r, maxUnits);
    ValidatedKeepsDistinctIds(Some(raw), r, maxUnits);
    ExecutableSettlesAll(units);
    LeftoversAre(units, Settled(units, {}));
    NoMembers(LeftoverIds(units, Settled(units, {})));
    ScheduleSettles(units, {});
    IdsOfIds(units);
    DistinctSameBag(Ids(Schedule(units, {})), Ids(units));
  }

  /** Validation and execution in sequence, for every payload and every pattern of outcomes. */
  method AnswerPlan(raw: AskPlan, r: Reading, maxUnits: int, o: Outcomes) returns (plan: Result<AskPlan, PlanError>, run: Execution)
    requires DistinctIds(raw.units)
    ensures plan == Validated(Some(raw), r, maxUnits)
    ensures plan.Ok? ==>
      && BundleIds(run.bundles) == Ids(plan.value.units)
      && (forall b :: b in run.bundles ==> b.status != UnresolvedDependency)
      && Causal(run.trace)
      && multiset(run.bundles) == multiset(AllBundles(plan.value.units, o))
  {
    plan := ValidateAskPlan(Some(raw), r, maxUnits);
    run := new Execution();
    if plan.Ok? {
      ValidatedPlanRunsThrough(raw, r, maxUnits);
      ValidatedKeepsDistinctIds(Some(raw), r, maxUnits);
      run.Execute(plan.value.units, o);
      OneBundlePerUnit(plan.value.units, run.bundles);
      NothingUnresolved(plan.value.units, run.bundles);
    }
  }

  lemma NothingUnresolved(units: seq<QueryUnit>, bundles: seq<Bundle>)
    requires Settled(units, {}) == IdsOf(units) && BundleIds(bundles) == Ids(units)
    requires forall b :: b in bundles ==> (b.status == UnresolvedDependency <==> b.unitId !in Settled(units, {}))
    ensures forall b :: b in bundles ==> b.status != UnresolvedDependency
  {
    IdsOfIds(units);
    forall b | b in bundles ensures b.unitId in Ids(units) {
      var k :| 0 <= k < |bundles| && bundles[k] == b;
      assert BundleIds(bundles)[k] == b.unitId;
    }
  }
}
