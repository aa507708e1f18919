/** Validation of model-written query plans (agent/ask_plan_validator.py).

    Text tests (cue lists, whitespace folding, span search) are answered by a `Reading`
    of the question and session; everything decided from those answers is modelled. */
module PlanValidator {
  import opened Options
  import opened Ordering
  import opened PlanGraph

  datatype Intent =
    | TaskState | TaskInventory | PreferenceCurrent | SemanticCurrent
    | SemanticHistory | EpisodicHistory | NoteLookup | MemoryHistory
  datatype MemoryType = Task | Preference | Semantic | Episodic
  datatype TimeMode = Current | Recent | History | AllTime
  datatype EvidenceMode = CurrentState | Inventory | Timeline | SourceQuote | Aggregate

  datatype QueryUnit = QueryUnit(
    id: Id,
    question: string,
    sourceSpans: seq<string>,
    intent: Intent,
    memoryType: Option<MemoryType>,
    topic: Option<string>,
    timeMode: TimeMode,
    evidenceMode: EvidenceMode,
    needSourceEvidence: bool,
    dependsOn: seq<Id>)

  datatype AskPlan = AskPlan(originalQuery: string, units: seq<QueryUnit>, answerMode: string)

  /** What the text tests say about one question and its session. */
  datatype Reading = Reading(
    normalized: string,
    ambiguousReference: bool,
    taskStateCue: bool,
    timelineCue: bool,
    happeningCue: bool,
    eventTimeCue: bool,
    eventActionCue: bool,
    inventoryCue: bool,
    inventoryDomain: bool,
    asksNow: string -> bool,
    supports: string -> bool,
    detached: (string, string) -> bool,
    compact: string -> string)

  const DEFAULT_QUESTION := "查询相关记录"

  /** A schema limit of the plan types was violated. */
  datatype PlanError = InvalidOriginalQuery | InvalidUnitQuestion

  const MAX_UNIT_QUESTION := 500
  const MAX_ORIGINAL_QUERY := 2000

  /** The plan schema bounds the text of the query (agent/ask_models.py). */
  function MakePlan(originalQuery: string, units: seq<QueryUnit>, answerMode: string): Result<AskPlan, PlanError> {
    if 1 <= |originalQuery| <= MAX_ORIGINAL_QUERY then Ok(AskPlan(originalQuery, units, answerMode))
    else Raised(InvalidOriginalQuery)
  }

  function SafeFallbackPlan(r: Reading): Result<AskPlan, PlanError> {
    var question := if r.normalized == "" then DEFAULT_QUESTION else r.normalized;
    if |question| > MAX_UNIT_QUESTION then Raised(InvalidUnitQuestion)
    else
      MakePlan(
        question,
        [QueryUnit("u1", question, [question], NoteLookup, None, None, AllTime, SourceQuote, true, [])],
        "direct")
  }

  function ExpectedType(i: Intent): Option<MemoryType> {
    match i
    case TaskState => Some(Task)
    case TaskInventory => Some(Task)
    case PreferenceCurrent => Some(Preference)
    case SemanticCurrent => Some(Semantic)
    case SemanticHistory => Some(Semantic)
    case EpisodicHistory => Some(Episodic)
    case NoteLookup => None
    case MemoryHistory => None
  }

  function RepairIntent(u: QueryUnit, r: Reading): QueryUnit {
    var asksCurrentState := u.timeMode == Current && r.asksNow(u.question);
    var timeline := r.timelineCue && !asksCurrentState;
    if r.ambiguousReference && r.taskStateCue then
      u.(intent := TaskInventory, memoryType := Some(Task), timeMode := Current, evidenceMode := Inventory)
    else if timeline && u.intent == NoteLookup && r.happeningCue then
      u.(intent := EpisodicHistory, memoryType := Some(Episodic), timeMode := Recent,
         evidenceMode := Timeline, needSourceEvidence := true)
    else if timeline && u.intent != EpisodicHistory && u.intent != NoteLookup then
      u.(intent := MemoryHistory, memoryType := None, timeMode := History,
         evidenceMode := Timeline, needSourceEvidence := true)
    else if r.eventTimeCue && r.eventActionCue && (u.intent == SemanticCurrent || u.intent == NoteLookup) then
      u.(intent := TaskState, memoryType := Some(Task), timeMode := Current, evidenceMode := CurrentState)
    else if (u.evidenceMode == Inventory || (r.inventoryCue && r.inventoryDomain))
         && u.intent in {TaskState, SemanticCurrent, SemanticHistory, NoteLookup} then
      u.(intent := TaskInventory, memoryType := Some(Task), timeMode := Current, evidenceMode := Inventory)
    else u
  }

  function FirstSupported(spans: seq<string>, r: Reading): Option<string> {
    if spans == [] then None
    else if r.supports(spans[0]) then Some(spans[0])
    else FirstSupported(spans[1..], r)
  }

  function RepairAnchor(u: QueryUnit, r: Reading): QueryUnit {
    match FirstSupported(u.sourceSpans, r)
    case None => u
    case Some(anchor) =>
      if r.detached(anchor, u.question) then u.(question := anchor, topic := Some(anchor)) else u
  }

  function KeepDependencies(deps: seq<Id>, self: Id, known: set<Id>): (kept: seq<Id>)
    ensures forall d :: d in kept <==> d in deps && d in known && d != self
    ensures Distinct(deps) ==> Distinct(kept)
  {
    if deps == [] then []
    else
      var rest := KeepDependencies(deps[1..], self, known);
      assert deps == [deps[0]] + deps[1..];
      if deps[0] in known && deps[0] != self then [deps[0]] + rest else rest
  }

  function Ids(units: seq<QueryUnit>): (ids: seq<Id>)
    ensures |ids| == |units| && forall k :: 0 <= k < |units| ==> ids[k] == units[k].id
  {
    seq(|units|, k requires 0 <= k < |units| => units[k].id)
  }

  function IdsOf(units: seq<QueryUnit>): set<Id> {
    set u | u in units :: u.id
  }

  type Identity = (Intent, string, TimeMode, EvidenceMode)

  function IdentityOf(u: QueryUnit, r: Reading): Identity {
    (u.intent, r.compact(if u.topic.Some? then u.topic.value else ""), u.timeMode, u.evidenceMode)
  }

  /** One pass of the filtering loop up to the duplicate test. */
  function Admit(raw: QueryUnit, r: Reading, known: set<Id>): Option<QueryUnit> {
    var u := RepairIntent(raw, r);
    var expected := ExpectedType(u.intent);
    if expected.Some? && u.memoryType.Some? && u.memoryType != expected then None
    else
      var typed := if expected.Some? then u.(memoryType := expected) else u;
      if FirstSupported(typed.sourceSpans, r).None? then None
      else
        var anchored := RepairAnchor(typed, r);
        Some(anchored.(dependsOn := KeepDependencies(anchored.dependsOn, anchored.id, known)))
  }

  /** What the filtering loop accepts: admitted units whose identity is new. */
  function Accepted(units: seq<QueryUnit>, r: Reading, known: set<Id>, seen: set<Identity>): seq<QueryUnit> {
    if units == [] then []
    else match Admit(units[0], r, known)
      case None => Accepted(units[1..], r, known, seen)
      case Some(u) =>
        var identity := IdentityOf(u, r);
        if identity in seen then Accepted(units[1..], r, known, seen)
        else [u] + Accepted(units[1..], r, known, seen + {identity})
  }

  function CloseUnit(u: QueryUnit, known: set<Id>): QueryUnit {
    u.(dependsOn := KeepDependencies(u.dependsOn, u.id, known))
  }

  /** Dependencies restricted to accepted ids. */
  function CloseDependencies(units: seq<QueryUnit>, known: set<Id>): (closed: seq<QueryUnit>)
    ensures |closed| == |units|
    ensures forall k :: 0 <= k < |units| ==> closed[k] == CloseUnit(units[k], known)
  {
    if units == [] then []
    else [CloseUnit(units[0], known)] + CloseDependencies(units[1..], known)
  }

  function DependencySet(deps: seq<Id>): (s: set<Id>)
    ensures forall d :: d in s <==> d in deps
  {
    set d | d in deps
  }

  /** The dictionary built by the cycle check; a later unit with the same id wins. */
  function GraphOf(units: seq<QueryUnit>): (g: Graph)
    ensures forall x :: x in g <==> x in Ids(units)
  {
    if units == [] then map[]
    else
      var last := units[|units| - 1];
      assert units == units[..|units| - 1] + [last];
      assert Ids(units) == Ids(units[..|units| - 1]) + [last.id];
      GraphOf(units[..|units| - 1])[last.id := DependencySet(last.dependsOn)]
  }

  function Window(units: seq<QueryUnit>, maxUnits: int): seq<QueryUnit> {
    var capped := if maxUnits < 6 then maxUnits else 6;
    var limit := if capped < 1 then 1 else capped;
    if |units| <= limit then units else units[..limit]
  }

  ghost function AcceptedClosed(plan: AskPlan, r: Reading, maxUnits: int): seq<QueryUnit> {
    var accepted := Accepted(Window(plan.units, maxUnits), r, IdsOf(plan.units), {});
    CloseDependencies(accepted, IdsOf(accepted))
  }

  ghost function Validated(raw: Option<AskPlan>, r: Reading, maxUnits: int): Result<AskPlan, PlanError> {
    if raw.None? then SafeFallbackPlan(r)
    else
      var units := AcceptedClosed(raw.value, r, maxUnits);
      if units == [] || Cyclic(GraphOf(units)) then SafeFallbackPlan(r)
      else MakePlan(r.normalized, units, raw.value.answerMode)
  }

  method HasCycle(units: seq<QueryUnit>) returns (found: bool)
    ensures found <==> Cyclic(GraphOf(units))
  {
    var graph: Graph := map[];
    for i := 0 to |units|
      invariant graph == GraphOf(units[..i])
    {
      assert units[..i + 1][..i] == units[..i];
      graph := graph[units[i].id := DependencySet(units[i].dependsOn)];
    }
    assert units[..|units|] == units;
    var search := new CycleSearch(graph);
    found := search.Run();
  }

  lemma AcceptedFrom(window: seq<QueryUnit>, i: nat, r: Reading, known: set<Id>, seen: set<Identity>)
    requires i < |window|
    ensures var admitted := Admit(window[i], r, known);
      Accepted(window[i..], r, known, seen) ==
        if admitted.None? || IdentityOf(admitted.value, r) in seen then Accepted(window[i + 1..], r, known, seen)
        else [admitted.value] + Accepted(window[i + 1..], r, known, seen + {IdentityOf(admitted.value, r)})
  {
    assert window[i..][0] == window[i] && window[i..][1..] == window[i + 1..];
  }

  lemma OneAccepted(done: seq<QueryUnit>, u: QueryUnit, rest: seq<QueryUnit>)
    ensures done + ([u] + rest) == (done + [u]) + rest
  {
  }

  /** The filtering loop. */
  method AcceptUnits(window: seq<QueryUnit>, r: Reading, known: set<Id>) returns (accepted: seq<QueryUnit>)
    ensures accepted == Accepted(window, r, known, {})
  {
    accepted := [];
    var seen: set<Identity> := {};
    assert window[0..] == window;
    for i := 0 to |window|
      invariant accepted + Accepted(window[i..], r, known, seen) == Accepted(window, r, known, {})
    {
      AcceptedFrom(window, i, r, known, seen);
      var admitted := Admit(window[i], r, known);
      if admitted.Some? {
        var identity := IdentityOf(admitted.value, r);
        if identity !in seen {
          OneAccepted(accepted, admitted.value, Accepted(window[i + 1..], r, known, seen + {identity}));
          seen := seen + {identity};
          accepted := accepted + [admitted.value];
        }
      }
    }
  }

  /** The second loop, which rewrites every accepted unit's dependencies. */
  method CloseUnits(accepted: seq<QueryUnit>, known: set<Id>) returns (closed: seq<QueryUnit>)
    ensures closed == CloseDependencies(accepted, known)
  {
    closed := [];
    for i := 0 to |accepted|
      invariant |closed| == i
      invariant forall k :: 0 <= k < i ==> closed[k] == CloseUnit(accepted[k], known)
    {
      closed := closed + [CloseUnit(accepted[i], known)];
    }
  }

  /** `raw` is None when the payload does not parse into a plan. */
  method ValidateAskPlan(raw: Option<AskPlan>, r: Reading, maxUnits: int)
    returns (plan: Result<AskPlan, PlanError>)
    ensures plan == Validated(raw, r, maxUnits)
  {
    if raw.None? {
      return SafeFallbackPlan(r);
    }
    var units := raw.value.units;
    var known := set u | u in units :: u.id;
    assert known == IdsOf(units);
    var accepted := AcceptUnits(Window(units, maxUnits), r, known);
    var acceptedIds := set u | u in accepted :: u.id;
    assert acceptedIds == IdsOf(accepted);
    var closed := CloseUnits(accepted, acceptedIds);
    var cyclic := HasCycle(closed);
    if closed == [] || cyclic {
      return SafeFallbackPlan(r);
    }
    return MakePlan(r.normalized, closed, raw.value.answerMode);
  }

  /** A plan the executor can finish: at least one unit, dependencies on other units of the
      plan only, and no cycle. */
  ghost predicate Executable(units: seq<QueryUnit>) {
    && units != []
    && (forall u, d :: u in units && d in u.dependsOn ==> d in Ids(units) && d != u.id)
    && !Cyclic(GraphOf(units))
  }

  ghost predicate DistinctIds(units: seq<QueryUnit>) {
    Distinct(Ids(units))
  }

  lemma ClosedAmongThemselves(accepted: seq<QueryUnit>, u: QueryUnit, d: Id)
    requires u in CloseDependencies(accepted, IdsOf(accepted)) && d in u.dependsOn
    ensures d in Ids(CloseDependencies(accepted, IdsOf(accepted))) && d != u.id
  {
    var closed := CloseDependencies(accepted, IdsOf(accepted));
    var k :| 0 <= k < |closed| && closed[k] == u;
    assert u == CloseUnit(accepted[k], IdsOf(accepted));
    var j :| 0 <= j < |accepted| && accepted[j].id == d;
    assert Ids(closed)[j] == closed[j].id == d;
  }

  /** Whatever the model wrote, the returned plan can be executed. */
  lemma ValidatedIsExecutable(raw: Option<AskPlan>, r: Reading, maxUnits: int)
    requires Validated(raw, r, maxUnits).Ok?
    ensures Executable(Validated(raw, r, maxUnits).value.units)
  {
    var plan := Validated(raw, r, maxUnits).value;
    if raw.Some? && plan.units == AcceptedClosed(raw.value, r, maxUnits) && !Cyclic(GraphOf(plan.units)) {
      var accepted := Accepted(Window(raw.value.units, maxUnits), r, IdsOf(raw.value.units), {});
      forall u, d | u in plan.units && d in u.dependsOn ensures d in Ids(plan.units) && d != u.id {
        ClosedAmongThemselves(accepted, u, d);
      }
    } else {
      FallbackAcyclic(plan.units);
    }
  }

  lemma FallbackAcyclic(units: seq<QueryUnit>)
    requires |units| == 1 && units[0].dependsOn == []
    ensures !Cyclic(GraphOf(units))
  {
    var g := GraphOf(units);
    assert g[units[0].id] == DependencySet([]);
    forall a, p ensures !Leads(g, p, a, a) {
      assert IsPath(g, p) && |p| >= 2 ==> Edge(g, p[0], p[1]);
    }
  }

  /** `at` holds increasing positions whose units are admitted as `accepted`. */
  ghost predicate AdmittedAt(units: seq<QueryUnit>, r: Reading, known: set<Id>, accepted: seq<QueryUnit>, at: seq<nat>) {
    && |at| == |accepted|
    && Increasing(at)
    && (forall i :: 0 <= i < |at| ==> at[i] < |units| && Admit(units[at[i]], r, known) == Some(accepted[i]))
  }

  ghost predicate Increasing(at: seq<nat>) {
    forall i, j :: 0 <= i < j < |at| ==> at[i] < at[j]
  }

  lemma IncreasingFromZero(at: seq<nat>)
    requires Increasing(at) && forall i :: 0 <= i < |at| ==> at[i] > 0
    ensures Increasing([0] + at)
  {
  }

  lemma ShiftAdmitted(units: seq<QueryUnit>, r: Reading, known: set<Id>, accepted: seq<QueryUnit>, at: seq<nat>)
    requires units != [] && AdmittedAt(units[1..], r, known, accepted, at)
    ensures AdmittedAt(units, r, known, accepted, Shifted(at))
  {
    forall i | 0 <= i < |at| ensures Shifted(at)[i] < |units| && Admit(units[Shifted(at)[i]], r, known) == Some(accepted[i]) {
      assert units[1..][at[i]] == units[Shifted(at)[i]];
    }
  }

  lemma AddAdmitted(units: seq<QueryUnit>, r: Reading, known: set<Id>, u: QueryUnit, accepted: seq<QueryUnit>, at: seq<nat>)
    requires units != [] && Admit(units[0], r, known) == Some(u) && AdmittedAt(units, r, known, accepted, at)
    requires forall i :: 0 <= i < |at| ==> at[i] > 0
    ensures AdmittedAt(units, r, known, [u] + accepted, [0] + at)
  {
    var all, places := [u] + accepted, [0] + at;
    IncreasingFromZero(at);
    forall i | 0 <= i < |places| ensures places[i] < |units| && Admit(units[places[i]], r, known) == Some(all[i]) {
      if i > 0 {
        assert places[i] == at[i - 1] && all[i] == accepted[i - 1];
      }
    }
  }

  /** The accepted units, as positions of the raw list. */
  lemma {:induction false} AcceptedPositions(units: seq<QueryUnit>, r: Reading, known: set<Id>, seen: set<Identity>)
    returns (at: seq<nat>)
    ensures AdmittedAt(units, r, known, Accepted(units, r, known, seen), at)
  {
    at := [];
    if units != [] {
      var admitted := Admit(units[0], r, known);
      if admitted.Some? && IdentityOf(admitted.value, r) !in seen {
        var now := seen + {IdentityOf(admitted.value, r)};
        var rest := AcceptedPositions(units[1..], r, known, now);
        ShiftAdmitted(units, r, known, Accepted(units[1..], r, known, now), rest);
        AddAdmitted(units, r, known, admitted.value, Accepted(units[1..], r, known, now), Shifted(rest));
        at := [0] + Shifted(rest);
      } else {
        var rest := AcceptedPositions(units[1..], r, known, seen);
        ShiftAdmitted(units, r, known, Accepted(units[1..], r, known, seen), rest);
        at := Shifted(rest);
      }
    }
  }

  /** Admission never renames a unit. */
  lemma AdmitKeepsId(raw: QueryUnit, r: Reading, known: set<Id>)
    ensures Admit(raw, r, known).Some? ==> Admit(raw, r, known).value.id == raw.id
  {
  }

  /** A returned plan is the fallback's one unit or the accepted units. */
  lemma ValidatedUnits(raw: Option<AskPlan>, r: Reading, maxUnits: int)
    requires Validated(raw, r, maxUnits).Ok?
    ensures var units := Validated(raw, r, maxUnits).value.units;
      |units| == 1 || (raw.Some? && units != [] && units == AcceptedClosed(raw.value, r, maxUnits))
  {
  }

  /** Units at increasing positions of a list with distinct ids have distinct ids. */
  lemma SelectedDistinct(units: seq<QueryUnit>, at: seq<nat>, ids: seq<Id>)
    requires DistinctIds(units) && |ids| == |at|
    requires forall i, j :: 0 <= i < j < |at| ==> at[i] < at[j]
    requires forall i :: 0 <= i < |at| ==> at[i] < |units| && units[at[i]].id == ids[i]
    ensures Distinct(ids)
  {
    forall i, j | 0 <= i < j < |ids| ensures ids[i] != ids[j] {
      assert Ids(units)[at[i]] != Ids(units)[at[j]];
    }
  }

  lemma WindowPrefix(units: seq<QueryUnit>, maxUnits: int)
    ensures Window(units, maxUnits) <= units && |Window(units, maxUnits)| <= 6
  {
  }

  lemma ClosedDistinct(plan: AskPlan, r: Reading, maxUnits: int)
    requires DistinctIds(plan.units)
    ensures Distinct(Ids(AcceptedClosed(plan, r, maxUnits))) && |AcceptedClosed(plan, r, maxUnits)| <= 6
  {
    var units, window, known := plan.units, Window(plan.units, maxUnits), IdsOf(plan.units);
    var accepted, ids := Accepted(window, r, known, {}), Ids(AcceptedClosed(plan, r, maxUnits));
    var at := AcceptedPositions(window, r, known, {});
    WindowPrefix(units, maxUnits);
    forall i | 0 <= i < |at| ensures at[i] < |units| && units[at[i]].id == ids[i] {
      AdmitKeepsId(window[at[i]], r, known);
    }
    SelectedDistinct(units, at, ids);
    PositionsBounded(at, |window|);
  }

  /** Distinct raw ids stay distinct, so the executor's precondition carries over. */
  lemma ValidatedKeepsDistinctIds(raw: Option<AskPlan>, r: Reading, maxUnits: int)
    requires Validated(raw, r, maxUnits).Ok?
    requires raw.Some? ==> DistinctIds(raw.value.units)
    ensures DistinctIds(Validated(raw, r, maxUnits).value.units)
    ensures 1 <= |Validated(raw, r, maxUnits).value.units| <= 6
  {
    ValidatedUnits(raw, r, maxUnits);
    if raw.Some? { ClosedDistinct(raw.value, r, maxUnits); }
  }

  lemma {:induction false} PositionsBounded(at: seq<nat>, n: nat)
    requires forall i :: 0 <= i < |at| ==> at[i] < n
    requires forall i, j :: 0 <= i < j < |at| ==> at[i] < at[j]
    ensures |at| <= n
  {
    if at != [] {
      var last := at[|at| - 1];
      PositionsBounded(at[..|at| - 1], last);
    }
  }

  ghost predicate WellTyped(u: QueryUnit) {
    ExpectedType(u.intent).Some? ==> u.memoryType == ExpectedType(u.intent)
  }

  lemma {:induction false} AcceptedIdentities(units: seq<QueryUnit>, r: Reading, known: set<Id>, seen: set<Identity>)
    ensures forall u :: u in Accepted(units, r, known, seen) ==> IdentityOf(u, r) !in seen
    ensures forall i, j :: 0 <= i < j < |Accepted(units, r, known, seen)| ==>
      IdentityOf(Accepted(units, r, known, seen)[i], r) != IdentityOf(Accepted(units, r, known, seen)[j], r)
    ensures forall u :: u in Accepted(units, r, known, seen) ==> WellTyped(u)
  {
    if units != [] {
      var admitted := Admit(units[0], r, known);
      if admitted.Some? && IdentityOf(admitted.value, r) !in seen {
        var identity := IdentityOf(admitted.value, r);
        AcceptedIdentities(units[1..], r, known, seen + {identity});
        var rest := Accepted(units[1..], r, known, seen + {identity});
        forall j | 0 <= j < |rest| ensures IdentityOf(rest[j], r) != identity {
          assert rest[j] in rest;
        }
      } else {
        AcceptedIdentities(units[1..], r, known, seen);
      }
    }
  }

  lemma ClosingKeepsIdentities(units: seq<QueryUnit>, known: set<Id>, r: Reading)
    ensures var closed := CloseDependencies(units, known);
      && (forall k :: 0 <= k < |units| ==> IdentityOf(closed[k], r) == IdentityOf(units[k], r))
      && ((forall u :: u in units ==> WellTyped(u)) ==> forall u :: u in closed ==> WellTyped(u))
  {
    var closed := CloseDependencies(units, known);
    assert forall k :: 0 <= k < |units| ==> closed[k] == CloseUnit(units[k], known) && units[k] in units;
  }

  /** No two units of a validated plan ask for the same thing, and every unit's memory type
      is the one its intent demands. */
  lemma ValidatedIsWellTyped(raw: Option<AskPlan>, r: Reading, maxUnits: int)
    requires Validated(raw, r, maxUnits).Ok?
    ensures var units := Validated(raw, r, maxUnits).value.units;
      && (forall u :: u in units ==> WellTyped(u))
      && (forall i, j :: 0 <= i < j < |units| ==> IdentityOf(units[i], r) != IdentityOf(units[j], r))
  {
    if raw.Some? {
      var accepted := Accepted(Window(raw.value.units, maxUnits), r, IdsOf(raw.value.units), {});
      AcceptedIdentities(Window(raw.value.units, maxUnits), r, IdsOf(raw.value.units), {});
      ClosingKeepsIdentities(accepted, IdsOf(accepted), r);
    }
  }
}
