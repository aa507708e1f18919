/** Which raw units a validated plan keeps and what it makes of them, in terms of the cues and spans
    of the question (agent/ask_plan_validator.py). */
module PlanMeaning {
  import opened Options
  import opened Ordering
  import opened PlanGraph
  import opened PlanValidator

  // ----- repairs -----

  /** What a unit asks for. */
  function Asks(u: QueryUnit): (Intent, Option<MemoryType>, TimeMode, EvidenceMode) {
    (u.intent, u.memoryType, u.timeMode, u.evidenceMode)
  }

  /** The question is about the past, and the unit does not ask for the present. */
  predicate AboutThePast(u: QueryUnit, r: Reading) {
    r.timelineCue && !(u.timeMode == Current && r.asksNow(u.question))
  }

  /** A pronoun with a word for progress asks for the list of current tasks, whatever else the
      question says. */
  lemma PronounAsksForTasks(u: QueryUnit, r: Reading)
    requires r.ambiguousReference && r.taskStateCue
    ensures Asks(RepairIntent(u, r)) == (TaskInventory, Some(Task), Current, Inventory)
    ensures RepairIntent(u, r).needSourceEvidence == u.needSourceEvidence
  {
  }

  /** A question about the past is answered from a timeline with its sources: a note lookup about
      what happened becomes recent episodes, and every other state becomes history. */
  lemma PastAsksForTimeline(u: QueryUnit, r: Reading)
    requires !(r.ambiguousReference && r.taskStateCue) && AboutThePast(u, r)
    ensures u.intent == NoteLookup && r.happeningCue ==>
      && Asks(RepairIntent(u, r)) == (EpisodicHistory, Some(Episodic), Recent, Timeline)
      && RepairIntent(u, r).needSourceEvidence
    ensures u.intent !in {NoteLookup, EpisodicHistory} ==>
      && Asks(RepairIntent(u, r)) == (MemoryHistory, None, History, Timeline)
      && RepairIntent(u, r).needSourceEvidence
  {
  }

  /** The timeline rules have nothing to say about the unit. */
  predicate NoTimelineRule(u: QueryUnit, r: Reading) {
    && !(r.ambiguousReference && r.taskStateCue)
    && (AboutThePast(u, r) ==> u.intent == EpisodicHistory || (u.intent == NoteLookup && !r.happeningCue))
  }

  /** Otherwise a date of an action asks for the state of a task, a list of tasks for the inventory,
      and any other unit is left as it is. */
  lemma OtherRules(u: QueryUnit, r: Reading)
    requires NoTimelineRule(u, r)
    ensures var dated := r.eventTimeCue && r.eventActionCue && u.intent in {SemanticCurrent, NoteLookup};
      var listed := (u.evidenceMode == Inventory || (r.inventoryCue && r.inventoryDomain))
        && u.intent in {TaskState, SemanticCurrent, SemanticHistory, NoteLookup};
      && (dated ==> Asks(RepairIntent(u, r)) == (TaskState, Some(Task), Current, CurrentState))
      && (!dated && listed ==> Asks(RepairIntent(u, r)) == (TaskInventory, Some(Task), Current, Inventory))
      && (!dated && !listed ==> RepairIntent(u, r) == u)
      && RepairIntent(u, r).needSourceEvidence == u.needSourceEvidence
  {
  }

  /** Repairing the intent changes only what the unit asks for. */
  lemma RepairKeepsText(u: QueryUnit, r: Reading)
    ensures var v := RepairIntent(u, r);
      && v.id == u.id && v.question == u.question && v.sourceSpans == u.sourceSpans
      && v.topic == u.topic && v.dependsOn == u.dependsOn
  {
  }

  /** Some source span is contained in the question or the session. */
  predicate Supported(u: QueryUnit, r: Reading) {
    exists k :: 0 <= k < |u.sourceSpans| && r.supports(u.sourceSpans[k])
  }

  /** Span `k` is the first supported one. */
  ghost predicate FirstAt(spans: seq<string>, r: Reading, k: nat) {
    k < |spans| && r.supports(spans[k]) && forall i :: 0 <= i < k ==> !r.supports(spans[i])
  }

  lemma {:induction false} FirstSupportedIs(spans: seq<string>, r: Reading) returns (k: nat)
    ensures FirstSupported(spans, r).Some? ==> FirstAt(spans, r, k) && FirstSupported(spans, r).value == spans[k]
    ensures FirstSupported(spans, r).None? <==> forall i :: 0 <= i < |spans| ==> !r.supports(spans[i])
  {
    k := 0;
    if spans != [] && !r.supports(spans[0]) {
      var j := FirstSupportedIs(spans[1..], r);
      k := j + 1;
      assert forall i :: 1 <= i < |spans| ==> spans[i] == spans[1..][i - 1];
    }
  }

  /** A unit whose question has lost its first supported span asks for that span itself. */
  ghost predicate Anchored(raw: QueryUnit, u: QueryUnit, r: Reading) {
    exists k: nat :: FirstAt(raw.sourceSpans, r, k) && AnchoredAt(raw, u, r, raw.sourceSpans[k])
  }

  ghost predicate AnchoredAt(raw: QueryUnit, u: QueryUnit, r: Reading, anchor: string) {
    if r.detached(anchor, raw.question) then u.question == anchor && u.topic == Some(anchor)
    else u.question == raw.question && u.topic == raw.topic
  }

  lemma RepairAnchorIs(u: QueryUnit, r: Reading)
    requires Supported(u, r)
    ensures Anchored(u, RepairAnchor(u, r), r)
    ensures RepairAnchor(u, r) == u.(question := RepairAnchor(u, r).question, topic := RepairAnchor(u, r).topic)
  {
    var k := FirstSupportedIs(u.sourceSpans, r);
    assert AnchoredAt(u, RepairAnchor(u, r), r, u.sourceSpans[k]);
  }

  // ----- which units are kept -----

  /** The declared memory type is not the one the intent demands. */
  predicate Mistyped(u: QueryUnit) {
    u.memoryType.Some? && (
      || (u.intent in {TaskState, TaskInventory} && u.memoryType.value != Task)
      || (u.intent == PreferenceCurrent && u.memoryType.value != Preference)
      || (u.intent in {SemanticCurrent, SemanticHistory} && u.memoryType.value != Semantic)
      || (u.intent == EpisodicHistory && u.memoryType.value != Episodic))
  }

  predicate Keepable(raw: QueryUnit, r: Reading) {
    Supported(raw, r) && !Mistyped(RepairIntent(raw, r))
  }

  /** `u` is what a kept unit becomes when only the ids in `known` may be depended on. */
  ghost predicate Becomes(raw: QueryUnit, u: QueryUnit, r: Reading, known: set<Id>) {
    var v := RepairIntent(raw, r);
    && u.id == raw.id && u.sourceSpans == raw.sourceSpans
    && u.intent == v.intent && u.timeMode == v.timeMode && u.evidenceMode == v.evidenceMode
    && u.needSourceEvidence == v.needSourceEvidence
    && (u.intent in {NoteLookup, MemoryHistory} ==> u.memoryType == v.memoryType)
    && (u.intent in {TaskState, TaskInventory} ==> u.memoryType == Some(Task))
    && (u.intent == PreferenceCurrent ==> u.memoryType == Some(Preference))
    && (u.intent in {SemanticCurrent, SemanticHistory} ==> u.memoryType == Some(Semantic))
    && (u.intent == EpisodicHistory ==> u.memoryType == Some(Episodic))
    && Anchored(raw, u, r)
    && (forall d :: d in u.dependsOn <==> d in raw.dependsOn && d in known && d != raw.id)
  }

  /** A unit with its repaired intent and the memory type that demands. */
  function Typed(v: QueryUnit): QueryUnit {
    if ExpectedType(v.intent).Some? then v.(memoryType := ExpectedType(v.intent)) else v
  }

  lemma MistypedIs(v: QueryUnit)
    ensures Mistyped(v) <==> ExpectedType(v.intent).Some? && v.memoryType.Some? && v.memoryType != ExpectedType(v.intent)
  {
  }

  lemma AdmitUnfolds(raw: QueryUnit, v: QueryUnit, r: Reading, known: set<Id>)
    requires v == RepairIntent(raw, r)
    ensures Admit(raw, r, known).Some? <==> Supported(v, r) && !Mistyped(v)
    ensures Admit(raw, r, known).Some? ==>
      var u := RepairAnchor(Typed(v), r);
      Admit(raw, r, known).value == u.(dependsOn := KeepDependencies(u.dependsOn, u.id, known))
  {
    MistypedIs(v);
    var k := FirstSupportedIs(v.sourceSpans, r);
  }

  lemma AdmitIs(raw: QueryUnit, r: Reading, known: set<Id>)
    ensures Admit(raw, r, known).Some? <==> Keepable(raw, r)
    ensures Keepable(raw, r) ==> Becomes(raw, Admit(raw, r, known).value, r, known)
  {
    var v := RepairIntent(raw, r);
    RepairKeepsText(raw, r);
    AdmitUnfolds(raw, v, r, known);
    if Keepable(raw, r) {
      RepairAnchorIs(Typed(v), r);
      BecomesTyped(raw, v, Admit(raw, r, known).value, r, known);
    }
  }

  lemma BecomesTyped(raw: QueryUnit, v: QueryUnit, u: QueryUnit, r: Reading, known: set<Id>)
    requires v == RepairIntent(raw, r) && Anchored(raw, u, r)
    requires v.id == raw.id && v.sourceSpans == raw.sourceSpans && v.dependsOn == raw.dependsOn
    requires u == Typed(v).(question := u.question, topic := u.topic, dependsOn := KeepDependencies(raw.dependsOn, raw.id, known))
    ensures Becomes(raw, u, r, known)
  {
  }

  /** The identity under which a unit is kept, if it can be. */
  function IdentityAt(units: seq<QueryUnit>, r: Reading, known: set<Id>, i: nat): Option<Identity>
    requires i < |units|
  {
    match Admit(units[i], r, known)
    case None => None
    case Some(u) => Some(IdentityOf(u, r))
  }

  /** A kept unit before position `i` has the same identity. */
  ghost predicate TakenBefore(units: seq<QueryUnit>, r: Reading, known: set<Id>, at: seq<nat>, i: nat)
    requires i < |units|
  {
    exists j :: j in at && 0 <= j < i && IdentityAt(units, r, known, j) == IdentityAt(units, r, known, i)
  }

  ghost predicate KeptAt(units: seq<QueryUnit>, r: Reading, known: set<Id>, seen: set<Identity>, at: seq<nat>, i: nat)
    requires i < |units|
  {
    && IdentityAt(units, r, known, i).Some? && IdentityAt(units, r, known, i).value !in seen
    && !TakenBefore(units, r, known, at, i)
  }

  ghost predicate KeptExactly(units: seq<QueryUnit>, r: Reading, known: set<Id>, seen: set<Identity>, at: seq<nat>) {
    forall i: nat :: i < |units| ==> (i in at <==> KeptAt(units, r, known, seen, at, i))
  }

  lemma ShiftedMember(at: seq<nat>, i: nat)
    ensures i in Shifted(at) <==> i > 0 && i - 1 in at
  {
    if i > 0 && i - 1 in at {
      var k :| 0 <= k < |at| && at[k] == i - 1;
      assert Shifted(at)[k] == i;
    }
  }

  /** `all` is `rest` one place on, with or without place 0. */
  ghost predicate OneOn(all: seq<nat>, rest: seq<nat>) {
    forall i: nat :: i + 1 in all <==> i in rest
  }

  lemma ShiftedIsOneOn(rest: seq<nat>)
    ensures OneOn(Shifted(rest), rest) && OneOn([0] + Shifted(rest), rest)
    ensures 0 !in Shifted(rest)
  {
    forall i: nat ensures i + 1 in Shifted(rest) <==> i in rest { ShiftedMember(rest, i + 1); }
    ShiftedMember(rest, 0);
  }

  /** What is taken before place `i + 1` is taken at place 0 or taken in the rest. */
  lemma TakenShifts(units: seq<QueryUnit>, r: Reading, known: set<Id>, all: seq<nat>, rest: seq<nat>, i: nat)
    requires i + 1 < |units| && OneOn(all, rest)
    ensures TakenBefore(units, r, known, all, i + 1) <==>
      TakenBefore(units[1..], r, known, rest, i)
      || (0 in all && IdentityAt(units, r, known, 0) == IdentityAt(units, r, known, i + 1))
  {
    if TakenBefore(units, r, known, all, i + 1) {
      var j :| j in all && 0 <= j < i + 1 && IdentityAt(units, r, known, j) == IdentityAt(units, r, known, i + 1);
      if j > 0 {
        assert (j - 1) + 1 in all && IdentityAt(units[1..], r, known, j - 1) == IdentityAt(units[1..], r, known, i);
      }
    }
    if TakenBefore(units[1..], r, known, rest, i) {
      var j :| j in rest && 0 <= j < i && IdentityAt(units[1..], r, known, j) == IdentityAt(units[1..], r, known, i);
      assert j + 1 in all && IdentityAt(units, r, known, j + 1) == IdentityAt(units, r, known, i + 1);
    }
  }

  lemma KeptStep(units: seq<QueryUnit>, r: Reading, known: set<Id>, seen: set<Identity>, rest: seq<nat>)
    requires units != []
    requires var first := IdentityAt(units, r, known, 0);
      KeptExactly(units[1..], r, known, if first.Some? then seen + {first.value} else seen, rest)
    ensures var first := IdentityAt(units, r, known, 0);
      KeptExactly(units, r, known, seen, if first.Some? && first.value !in seen then [0] + Shifted(rest) else Shifted(rest))
  {
    var first := IdentityAt(units, r, known, 0);
    var all := if first.Some? && first.value !in seen then [0] + Shifted(rest) else Shifted(rest);
    ShiftedIsOneOn(rest);
    forall i: nat | i < |units| ensures i in all <==> KeptAt(units, r, known, seen, all, i) {
      if i > 0 {
        assert IdentityAt(units, r, known, i) == IdentityAt(units[1..], r, known, i - 1);
        TakenShifts(units, r, known, all, rest, i - 1);
        assert (i - 1) + 1 in all <==> i - 1 in rest;
      }
    }
  }

  /** Of the units that can be kept, exactly the first of each identity is kept, in the order of
      the list. */
  lemma {:induction false} KeptPositions(units: seq<QueryUnit>, r: Reading, known: set<Id>, seen: set<Identity>)
    returns (at: seq<nat>)
    ensures AdmittedAt(units, r, known, Accepted(units, r, known, seen), at)
    ensures KeptExactly(units, r, known, seen, at)
  {
    at := [];
    if units != [] {
      var admitted, first := Admit(units[0], r, known), IdentityAt(units, r, known, 0);
      var now := if first.Some? then seen + {first.value} else seen;
      assert first.Some? && first.value in seen ==> now == seen;
      var rest := KeptPositions(units[1..], r, known, now);
      var accepted := Accepted(units[1..], r, known, now);
      ShiftAdmitted(units, r, known, accepted, rest);
      KeptStep(units, r, known, seen, rest);
      if first.Some? && first.value !in seen {
        AddAdmitted(units, r, known, admitted.value, accepted, Shifted(rest));
        at := [0] + Shifted(rest);
      } else {
        at := Shifted(rest);
      }
    }
  }
  // ----- the returned plan -----

  /** How many raw units are looked at: as many as asked for, at least one and at most six. */
  lemma WindowIs(units: seq<QueryUnit>, maxUnits: int)
    ensures Window(units, maxUnits) <= units
    ensures |Window(units, maxUnits)| <= 6
    ensures 1 <= maxUnits <= 6 ==> |Window(units, maxUnits)| == if |units| <= maxUnits then |units| else maxUnits
    ensures maxUnits < 1 && units != [] ==> |Window(units, maxUnits)| == 1
    ensures maxUnits > 6 && |units| >= 6 ==> |Window(units, maxUnits)| == 6
    ensures maxUnits > 6 && |units| < 6 ==> Window(units, maxUnits) == units
  {
  }

  function TopicText(u: QueryUnit): string {
    if u.topic.Some? then u.topic.value else ""
  }

  /** Two units ask for the same thing: same intent, time and kind of evidence, and topics that
      differ in white space and case only. */
  predicate SameQuestion(u: QueryUnit, v: QueryUnit, r: Reading) {
    && u.intent == v.intent && u.timeMode == v.timeMode && u.evidenceMode == v.evidenceMode
    && r.compact(TopicText(u)) == r.compact(TopicText(v))
  }

  lemma SameQuestionIs(u: QueryUnit, v: QueryUnit, r: Reading)
    ensures SameQuestion(u, v, r) <==> IdentityOf(u, r) == IdentityOf(v, r)
  {
  }

  /** A raw unit would become a unit that asks the same as `u`. */
  ghost predicate WouldRepeat(raw: QueryUnit, u: QueryUnit, r: Reading, known: set<Id>) {
    exists v :: Becomes(raw, v, r, known) && SameQuestion(v, u, r)
  }

  lemma OneAnchor(spans: seq<string>, r: Reading, j: nat, k: nat)
    requires FirstAt(spans, r, j) && FirstAt(spans, r, k)
    ensures j == k
  {
  }

  /** What a raw unit becomes asks one thing. */
  lemma BecomesAsksOne(raw: QueryUnit, u: QueryUnit, v: QueryUnit, r: Reading, known: set<Id>, known': set<Id>)
    requires Becomes(raw, u, r, known) && Becomes(raw, v, r, known')
    ensures IdentityOf(u, r) == IdentityOf(v, r)
  {
    var j: nat :| FirstAt(raw.sourceSpans, r, j) && AnchoredAt(raw, u, r, raw.sourceSpans[j]);
    var k: nat :| FirstAt(raw.sourceSpans, r, k) && AnchoredAt(raw, v, r, raw.sourceSpans[k]);
    OneAnchor(raw.sourceSpans, r, j, k);
  }

  lemma WouldRepeatIs(raw: QueryUnit, u: QueryUnit, r: Reading, known: set<Id>)
    requires Keepable(raw, r)
    ensures Admit(raw, r, known).Some?
    ensures WouldRepeat(raw, u, r, known) <==> IdentityOf(Admit(raw, r, known).value, r) == IdentityOf(u, r)
  {
    AdmitIs(raw, r, known);
    var a := Admit(raw, r, known).value;
    SameQuestionIs(a, u, r);
    forall v | Becomes(raw, v, r, known) && SameQuestion(v, u, r) ensures IdentityOf(a, r) == IdentityOf(u, r) {
      BecomesAsksOne(raw, a, v, r, known, known);
      SameQuestionIs(v, u, r);
    }
  }

  /** `units` are what the raw units at `at` become, and every other raw unit of the window has no
      supported span, contradicts its intent, or repeats the question of a kept one before it. */
  ghost predicate KeepsExactly(plan: AskPlan, r: Reading, maxUnits: int, at: seq<nat>, units: seq<QueryUnit>) {
    var window := Window(plan.units, maxUnits);
    && |at| == |units|
    && (forall i, j :: 0 <= i < j < |at| ==> at[i] < at[j])
    && (forall k :: 0 <= k < |at| ==> at[k] < |window| && Becomes(window[at[k]], units[k], r, IdsOf(units)))
    && (forall i: nat :: i < |window| ==> (i in at <==>
          Keepable(window[i], r) && !RepeatsKept(window, r, IdsOf(plan.units), at, units, i)))
  }

  ghost predicate RepeatsKept(window: seq<QueryUnit>, r: Reading, known: set<Id>, at: seq<nat>, units: seq<QueryUnit>, i: nat)
    requires |at| == |units| && i < |window|
  {
    exists k :: 0 <= k < |at| && at[k] < i && WouldRepeat(window[i], units[k], r, known)
  }

  lemma ClosedBecomes(raw: QueryUnit, u: QueryUnit, r: Reading, known: set<Id>, kept: set<Id>)
    requires Becomes(raw, u, r, known) && kept <= known
    ensures Becomes(raw, CloseUnit(u, kept), r, kept)
    ensures IdentityOf(CloseUnit(u, kept), r) == IdentityOf(u, r)
  {
    var k: nat :| FirstAt(raw.sourceSpans, r, k) && AnchoredAt(raw, u, r, raw.sourceSpans[k]);
    assert AnchoredAt(raw, CloseUnit(u, kept), r, raw.sourceSpans[k]);
  }

  lemma TakenIsRepeated(window: seq<QueryUnit>, r: Reading, known: set<Id>, accepted: seq<QueryUnit>, at: seq<nat>,
                        units: seq<QueryUnit>, i: nat)
    requires AdmittedAt(window, r, known, accepted, at) && |units| == |accepted| && i < |window| && Keepable(window[i], r)
    requires forall k :: 0 <= k < |units| ==> IdentityOf(units[k], r) == IdentityOf(accepted[k], r)
    ensures TakenBefore(window, r, known, at, i) <==> RepeatsKept(window, r, known, at, units, i)
  {
    forall k | 0 <= k < |at|
      ensures WouldRepeat(window[i], units[k], r, known) <==> IdentityAt(window, r, known, at[k]) == IdentityAt(window, r, known, i)
    {
      WouldRepeatIs(window[i], units[k], r, known);
    }
    if j :| j in at && 0 <= j < i && IdentityAt(window, r, known, j) == IdentityAt(window, r, known, i) {
      var k :| 0 <= k < |at| && at[k] == j;
      assert WouldRepeat(window[i], units[k], r, known);
    }
    if k :| 0 <= k < |at| && at[k] < i && WouldRepeat(window[i], units[k], r, known) {
      assert at[k] in at;
    }
  }

  lemma AcceptedIdsKnown(plan: AskPlan, r: Reading, maxUnits: int, accepted: seq<QueryUnit>, at: seq<nat>)
    requires AdmittedAt(Window(plan.units, maxUnits), r, IdsOf(plan.units), accepted, at)
    ensures IdsOf(accepted) <= IdsOf(plan.units)
  {
    forall x | x in IdsOf(accepted) ensures x in IdsOf(plan.units) {
      var u :| u in accepted && u.id == x;
      var k :| 0 <= k < |accepted| && accepted[k] == u;
      AdmitKeepsId(Window(plan.units, maxUnits)[at[k]], r, IdsOf(plan.units));
      assert plan.units[at[k]] in plan.units;
    }
  }

  lemma ClosedIds(accepted: seq<QueryUnit>)
    ensures IdsOf(CloseDependencies(accepted, IdsOf(accepted))) == IdsOf(accepted)
  {
    var closed := CloseDependencies(accepted, IdsOf(accepted));
    forall x | x in IdsOf(accepted) ensures x in IdsOf(closed) {
      var u :| u in accepted && u.id == x;
      var k :| 0 <= k < |accepted| && accepted[k] == u;
      assert closed[k] in closed && closed[k].id == x;
    }
    forall x | x in IdsOf(closed) ensures x in IdsOf(accepted) {
      var u :| u in closed && u.id == x;
      var k :| 0 <= k < |closed| && closed[k] == u;
      assert accepted[k] in accepted && accepted[k].id == x;
    }
  }

  /** Which units of the model's plan survive, and what becomes of them. */
  lemma KeptUnits(plan: AskPlan, r: Reading, maxUnits: int) returns (at: seq<nat>)
    ensures KeepsExactly(plan, r, maxUnits, at, AcceptedClosed(plan, r, maxUnits))
  {
    var window, known := Window(plan.units, maxUnits), IdsOf(plan.units);
    var accepted := Accepted(window, r, known, {});
    var kept, units := IdsOf(accepted), AcceptedClosed(plan, r, maxUnits);
    at := KeptPositions(window, r, known, {});
    AcceptedIdsKnown(plan, r, maxUnits, accepted, at);
    ClosedIds(accepted);
    forall k | 0 <= k < |at|
      ensures Becomes(window[at[k]], units[k], r, kept) && IdentityOf(units[k], r) == IdentityOf(accepted[k], r)
    {
      AdmitIs(window[at[k]], r, known);
      ClosedBecomes(window[at[k]], accepted[k], r, known, kept);
    }
    forall i: nat | i < |window|
      ensures i in at <==> Keepable(window[i], r) && !RepeatsKept(window, r, known, at, units, i)
    {
      AdmitIs(window[i], r, known);
      if Keepable(window[i], r) {
        TakenIsRepeated(window, r, known, accepted, at, units, i);
      }
    }
  }

  /** The answer when no plan of the model is used: the question itself as one note lookup. */
  lemma FallbackIs(r: Reading)
    ensures var question := if r.normalized == "" then "查询相关记录" else r.normalized;
      SafeFallbackPlan(r) ==
        if |question| > 500 then Raised(InvalidUnitQuestion)
        else Ok(AskPlan(question, [QueryUnit("u1", question, [question], NoteLookup, None, None, AllTime, SourceQuote, true, [])], "direct"))
  {
  }

  /** The model's plan is replaced by the fallback exactly when it does not parse, when none of the
      units looked at can be kept, or when what is kept depends on itself. */
  lemma ValidatedIs(raw: Option<AskPlan>, r: Reading, maxUnits: int) returns (at: seq<nat>)
    ensures raw.None? ==> Validated(raw, r, maxUnits) == SafeFallbackPlan(r)
    ensures raw.Some? ==>
      var window, units := Window(raw.value.units, maxUnits), AcceptedClosed(raw.value, r, maxUnits);
      && KeepsExactly(raw.value, r, maxUnits, at, units)
      && (units == [] <==> forall i :: 0 <= i < |window| ==> !Keepable(window[i], r))
      && Validated(raw, r, maxUnits) ==
        if units == [] || Cyclic(GraphOf(units)) then SafeFallbackPlan(r)
        else if 1 <= |r.normalized| <= 2000 then Ok(AskPlan(r.normalized, units, raw.value.answerMode))
        else Raised(InvalidOriginalQuery)
  {
    at := [];
    if raw.Some? {
      at := KeptUnits(raw.value, r, maxUnits);
      var window, units := Window(raw.value.units, maxUnits), AcceptedClosed(raw.value, r, maxUnits);
      if units == [] {
        assert forall i: nat :: i < |window| ==> i !in at;
      } else {
        assert at[0] in at;
      }
    }
  }
}
