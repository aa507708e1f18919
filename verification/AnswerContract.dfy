/** The answer contract, as one fused loop (agent/ask_workflow.py:355-402) and as validation
    followed by rendering (655-734). */
module AnswerContract {
  import opened Options
  import opened AnswerText

  datatype RawClaim = ClaimObject(text: string, evidenceIds: seq<string>) | OtherClaim
  datatype RawAnswer =
    | AnswerObject(unitId: string, evidenceIds: seq<string>, answer: string, claims: Option<seq<RawClaim>>)
    | OtherAnswer

  /** `unit_answers` of the model's reply. */
  datatype Payload = NotAList | Answers(items: seq<RawAnswer>)

  /** Evidence ids that may be cited, by unit. */
  type Allowed = map<string, set<string>>

  datatype Claim = Claim(text: string, evidenceIds: seq<string>)
  datatype Rendered = Rendered(unitId: string, answer: string, claims: seq<Claim>)

  predicate Within(ids: seq<string>, bound: set<string>) {
    forall x :: x in ids ==> x in bound
  }

  // ----- claims of one answer, the same in both forms -----

  predicate ClaimHolds(t: Alphabet, c: Claim, answer: string, cited: seq<string>, allowed: set<string>) {
    && c.text != "" && c.evidenceIds != []
    && Contains(Identity(t, answer), Identity(t, c.text))
    && Within(c.evidenceIds, set x | x in cited)
    && Within(c.evidenceIds, allowed)
  }

  function CheckedClaims(t: Alphabet, raw: seq<RawClaim>, answer: string, cited: seq<string>, allowed: set<string>): (r: seq<Claim>)
    ensures forall c :: c in r ==> ClaimHolds(t, c, answer, cited, allowed)
  {
    if raw == [] then []
    else
      var before, last := CheckedClaims(t, raw[..|raw| - 1], answer, cited, allowed), raw[|raw| - 1];
      if last.OtherClaim? then before
      else
        var c := Claim(Strip(t, last.text), Unique(last.evidenceIds));
        if ClaimHolds(t, c, answer, cited, allowed) then before + [c] else before
  }

  /** An answer none of whose claims holds is its own claim. */
  function UnitClaims(t: Alphabet, claims: Option<seq<RawClaim>>, answer: string, cited: seq<string>, allowed: set<string>): seq<Claim> {
    var checked := if claims.Some? then CheckedClaims(t, claims.value, answer, cited, allowed) else [];
    if checked == [] then [Claim(answer, cited)] else checked
  }

  lemma CheckedStep(t: Alphabet, raw: seq<RawClaim>, i: nat, answer: string, cited: seq<string>, allowed: set<string>)
    requires i < |raw|
    ensures var before := CheckedClaims(t, raw[..i], answer, cited, allowed);
      CheckedClaims(t, raw[..i + 1], answer, cited, allowed) ==
        if raw[i].OtherClaim? then before
        else
          var c := Claim(Strip(t, raw[i].text), Unique(raw[i].evidenceIds));
          if ClaimHolds(t, c, answer, cited, allowed) then before + [c] else before
  {
    assert raw[..i + 1][..i] == raw[..i];
  }

  method CollectClaims(t: Alphabet, claims: Option<seq<RawClaim>>, answer: string, cited: seq<string>, allowed: set<string>)
    returns (r: seq<Claim>)
    ensures r == UnitClaims(t, claims, answer, cited, allowed)
  {
    r := [];
    if claims.Some? {
      var raw := claims.value;
      for i := 0 to |raw|
        invariant r == CheckedClaims(t, raw[..i], answer, cited, allowed)
      {
        CheckedStep(t, raw, i, answer, cited, allowed);
        if raw[i].ClaimObject? {
          var c := Claim(Strip(t, raw[i].text), Unique(raw[i].evidenceIds));
          if ClaimHolds(t, c, answer, cited, allowed) {
            r := r + [c];
          }
        }
      }
      assert raw[..|raw|] == raw;
    }
    if r == [] {
      r := [Claim(answer, cited)];
    }
  }

  /** `c` is the claim of a raw object, cleaned: its text is not blank and, after folding, part of the
      folded answer; it cites something, and only what the answer cites and the unit may cite. */
  ghost predicate Qualifies(t: Alphabet, raw: RawClaim, answer: string, cited: seq<string>, allowed: set<string>, c: Claim) {
    && raw.ClaimObject? && c.text == Strip(t, raw.text) && c.evidenceIds == Unique(raw.evidenceIds)
    && c.text != "" && c.evidenceIds != []
    && (exists a, b :: Identity(t, answer) == a + Identity(t, c.text) + b)
    && forall e :: e in c.evidenceIds ==> e in cited && e in allowed
  }

  lemma QualifiesIs(t: Alphabet, raw: RawClaim, answer: string, cited: seq<string>, allowed: set<string>, c: Claim)
    ensures Qualifies(t, raw, answer, cited, allowed, c) <==>
      && raw.ClaimObject? && c == Claim(Strip(t, raw.text), Unique(raw.evidenceIds))
      && ClaimHolds(t, c, answer, cited, allowed)
  {
    ContainsIs(Identity(t, answer), Identity(t, c.text));
  }

  /** Some raw claim qualifies as `c`. */
  ghost predicate Claimed(t: Alphabet, raw: seq<RawClaim>, answer: string, cited: seq<string>, allowed: set<string>, c: Claim) {
    exists r :: r in raw && Qualifies(t, r, answer, cited, allowed, c)
  }

  lemma ClaimedMore(t: Alphabet, raw: seq<RawClaim>, answer: string, cited: seq<string>, allowed: set<string>, c: Claim)
    requires raw != []
    ensures Claimed(t, raw, answer, cited, allowed, c) <==>
      Claimed(t, raw[..|raw| - 1], answer, cited, allowed, c) || Qualifies(t, raw[|raw| - 1], answer, cited, allowed, c)
  {
    assert raw == raw[..|raw| - 1] + [raw[|raw| - 1]];
  }

  lemma LastChecked(t: Alphabet, raw: seq<RawClaim>, answer: string, cited: seq<string>, allowed: set<string>, c: Claim)
    requires raw != []
    ensures var last := raw[|raw| - 1];
      c in CheckedClaims(t, raw, answer, cited, allowed) <==>
        || c in CheckedClaims(t, raw[..|raw| - 1], answer, cited, allowed)
        || (last.ClaimObject? && c == Claim(Strip(t, last.text), Unique(last.evidenceIds))
            && ClaimHolds(t, c, answer, cited, allowed))
  {
  }

  lemma {:induction false} CheckedAre(t: Alphabet, raw: seq<RawClaim>, answer: string, cited: seq<string>, allowed: set<string>, c: Claim)
    ensures c in CheckedClaims(t, raw, answer, cited, allowed) <==> Claimed(t, raw, answer, cited, allowed, c)
  {
    if raw != [] {
      var last := raw[|raw| - 1];
      CheckedAre(t, raw[..|raw| - 1], answer, cited, allowed, c);
      ClaimedMore(t, raw, answer, cited, allowed, c);
      QualifiesIs(t, last, answer, cited, allowed, c);
      LastChecked(t, raw, answer, cited, allowed, c);
    }
  }

  /** The claims of a unit are the raw claims that qualify; only when none does, the answer itself,
      with all that it cites. */
  lemma UnitClaimsAre(t: Alphabet, claims: Option<seq<RawClaim>>, answer: string, cited: seq<string>, allowed: set<string>, c: Claim)
    ensures var raw := if claims.Some? then claims.value else [];
      c in UnitClaims(t, claims, answer, cited, allowed) <==>
        Claimed(t, raw, answer, cited, allowed, c)
        || (c == Claim(answer, cited) && forall d :: !Claimed(t, raw, answer, cited, allowed, d))
  {
    var raw := if claims.Some? then claims.value else [];
    var checked := CheckedClaims(t, raw, answer, cited, allowed);
    forall d ensures d in checked <==> Claimed(t, raw, answer, cited, allowed, d) {
      CheckedAre(t, raw, answer, cited, allowed, d);
    }
    if checked != [] {
      assert checked[0] in checked;
    }
  }

  // ----- validation -----

  datatype Reason = UnitAnswersNotList | NotObject | UnitNotAllowed | DuplicateUnit
    | EvidenceEmpty | EvidenceNotAllowed | AnswerEmpty | NoUnitAnswers

  datatype Verdict = Accept | Reject(reason: Reason)

  function Judge(t: Alphabet, item: RawAnswer, allowed: Allowed, seen: set<string>): Verdict {
    if item.OtherAnswer? then Reject(NotObject)
    else
      var cited := Unique(item.evidenceIds);
      if item.unitId == "" || item.unitId !in allowed then Reject(UnitNotAllowed)
      else if item.unitId in seen then Reject(DuplicateUnit)
      else if cited == [] then Reject(EvidenceEmpty)
      else if !Within(cited, allowed[item.unitId]) then Reject(EvidenceNotAllowed)
      else if Strip(t, item.answer) == "" then Reject(AnswerEmpty)
      else Accept
  }

  /** The reason given is the first that applies: not an object, a unit that may not be answered, one
      answered before, no evidence, evidence the unit may not cite, no text. */
  lemma JudgeIs(t: Alphabet, item: RawAnswer, allowed: Allowed, seen: set<string>)
    ensures var verdict := Judge(t, item, allowed, seen);
      && (verdict == Reject(NotObject) <==> item.OtherAnswer?)
      && (item.AnswerObject? ==>
            var known := item.unitId != "" && item.unitId in allowed;
            var cites, fits := (exists e :: e in item.evidenceIds && e != ""),
              known && forall e :: e in item.evidenceIds && e != "" ==> e in allowed[item.unitId];
            && (verdict == Reject(UnitNotAllowed) <==> !known)
            && (verdict == Reject(DuplicateUnit) <==> known && item.unitId in seen)
            && (verdict == Reject(EvidenceEmpty) <==> known && item.unitId !in seen && !cites)
            && (verdict == Reject(EvidenceNotAllowed) <==> known && item.unitId !in seen && cites && !fits)
            && (verdict == Reject(AnswerEmpty) <==> known && item.unitId !in seen && cites && fits && Strip(t, item.answer) == "")
            && (verdict == Accept <==> known && item.unitId !in seen && cites && fits && Strip(t, item.answer) != ""))
  {
    if item.AnswerObject? {
      var cited := Unique(item.evidenceIds);
      if cited != [] {
        assert cited[0] in cited;
      }
    }
  }

  /** The units answered so far. */
  function Seen(accepted: seq<RawAnswer>): set<string> {
    set item | item in accepted && item.AnswerObject? :: item.unitId
  }

  function Accepted(t: Alphabet, items: seq<RawAnswer>, allowed: Allowed): (r: seq<RawAnswer>)
    ensures forall item :: item in r ==> item.AnswerObject? && item in items
  {
    if items == [] then []
    else
      var before, last := Accepted(t, items[..|items| - 1], allowed), items[|items| - 1];
      assert items == items[..|items| - 1] + [last];
      if Judge(t, last, allowed, Seen(before)).Accept? then before + [last] else before
  }

  /** How many items were rejected for a reason. */
  function RejectedFor(t: Alphabet, items: seq<RawAnswer>, allowed: Allowed, reason: Reason): nat {
    if items == [] then 0
    else
      var front, last := items[..|items| - 1], items[|items| - 1];
      RejectedFor(t, front, allowed, reason)
      + if Judge(t, last, allowed, Seen(Accepted(t, front, allowed))) == Reject(reason) then 1 else 0
  }

  function Count(rejected: map<Reason, nat>, reason: Reason): nat {
    if reason in rejected then rejected[reason] else 0
  }

  function Add(rejected: map<Reason, nat>, reason: Reason): map<Reason, nat> {
    rejected[reason := Count(rejected, reason) + 1]
  }

  /** The two results of validating `items`. */
  ghost predicate Validated(t: Alphabet, items: seq<RawAnswer>, allowed: Allowed, accepted: seq<RawAnswer>, rejected: map<Reason, nat>) {
    && accepted == Accepted(t, items, allowed)
    && (forall reason :: Count(rejected, reason) == RejectedFor(t, items, allowed, reason))
    && if items == [] then rejected == map[] else accepted != [] || rejected != map[]
  }

  lemma JudgeNext(t: Alphabet, items: seq<RawAnswer>, i: nat, allowed: Allowed, reason: Reason)
    requires i < |items|
    ensures var accepted := Accepted(t, items[..i], allowed);
      var verdict := Judge(t, items[i], allowed, Seen(accepted));
      && Accepted(t, items[..i + 1], allowed) == (if verdict.Accept? then accepted + [items[i]] else accepted)
      && RejectedFor(t, items[..i + 1], allowed, reason) ==
        RejectedFor(t, items[..i], allowed, reason) + if verdict == Reject(reason) then 1 else 0
  {
    assert items[..i + 1][..i] == items[..i];
  }

  lemma ValidateStep(t: Alphabet, items: seq<RawAnswer>, i: nat, allowed: Allowed, accepted: seq<RawAnswer>, rejected: map<Reason, nat>)
    requires i < |items| && Validated(t, items[..i], allowed, accepted, rejected)
    ensures var verdict := Judge(t, items[i], allowed, Seen(accepted));
      && (verdict.Accept? ==> Validated(t, items[..i + 1], allowed, accepted + [items[i]], rejected))
      && (verdict.Reject? ==> Validated(t, items[..i + 1], allowed, accepted, Add(rejected, verdict.reason)))
  {
    var verdict := Judge(t, items[i], allowed, Seen(accepted));
    var rejected' := if verdict.Reject? then Add(rejected, verdict.reason) else rejected;
    JudgeNext(t, items, i, allowed, NotObject);
    forall reason ensures Count(rejected', reason) == RejectedFor(t, items[..i + 1], allowed, reason) {
      JudgeNext(t, items, i, allowed, reason);
    }
    if verdict.Reject? {
      assert verdict.reason in rejected';
    }
  }

  /** Validation counts each rejection under its reason; a reply without a list, or with an empty
      one, is one rejection of its own. */
  method Validate(t: Alphabet, data: Payload, allowed: Allowed) returns (accepted: seq<RawAnswer>, rejected: map<Reason, nat>)
    ensures data.NotAList? ==> accepted == [] && rejected == map[UnitAnswersNotList := 1]
    ensures data.Answers? ==> accepted == Accepted(t, data.items, allowed)
    ensures data.Answers? && data.items == [] ==> rejected == map[NoUnitAnswers := 1]
    ensures data.Answers? && data.items != [] ==>
      forall reason :: Count(rejected, reason) == RejectedFor(t, data.items, allowed, reason)
  {
    rejected, accepted := map[], [];
    if data.NotAList? {
      rejected := Add(rejected, UnitAnswersNotList);
      return;
    }
    var items := data.items;
    var seen: set<string> := {};
    for i := 0 to |items|
      invariant Validated(t, items[..i], allowed, accepted, rejected) && seen == Seen(accepted)
    {
      ValidateStep(t, items, i, allowed, accepted, rejected);
      var verdict := Judge(t, items[i], allowed, seen);
      if verdict.Accept? {
        SeenMore(accepted, items[i]);
        seen := seen + {items[i].unitId};
        accepted := accepted + [items[i]];
      } else {
        rejected := Add(rejected, verdict.reason);
      }
    }
    assert items[..|items|] == items;
    if accepted == [] && rejected == map[] {
      rejected := Add(rejected, NoUnitAnswers);
    }
  }

  /** Every raw item of a list is accepted once or rejected once. */
  lemma {:induction false} AcceptedOrRejectedOnce(t: Alphabet, items: seq<RawAnswer>, allowed: Allowed)
    ensures |Accepted(t, items, allowed)|
      + RejectedFor(t, items, allowed, NotObject) + RejectedFor(t, items, allowed, UnitNotAllowed)
      + RejectedFor(t, items, allowed, DuplicateUnit) + RejectedFor(t, items, allowed, EvidenceEmpty)
      + RejectedFor(t, items, allowed, EvidenceNotAllowed) + RejectedFor(t, items, allowed, AnswerEmpty)
      == |items|
    ensures RejectedFor(t, items, allowed, UnitAnswersNotList) == RejectedFor(t, items, allowed, NoUnitAnswers) == 0
  {
    if items != [] {
      AcceptedOrRejectedOnce(t, items[..|items| - 1], allowed);
    }
  }

  // ----- rendering -----

  function Render(t: Alphabet, item: RawAnswer, allowed: Allowed): Rendered
    requires item.AnswerObject?
  {
    var answer, cited := Strip(t, item.answer), Unique(item.evidenceIds);
    Rendered(item.unitId, answer,
      UnitClaims(t, item.claims, answer, cited, if item.unitId in allowed then allowed[item.unitId] else {}))
  }

  function RenderAll(t: Alphabet, items: seq<RawAnswer>, allowed: Allowed): seq<Rendered>
    requires forall item :: item in items ==> item.AnswerObject?
  {
    if items == [] then []
    else
      var before, last := RenderAll(t, items[..|items| - 1], allowed), items[|items| - 1];
      if last.unitId == "" || Strip(t, last.answer) == "" then before else before + [Render(t, last, allowed)]
  }

  lemma RenderStep(t: Alphabet, items: seq<RawAnswer>, i: nat, allowed: Allowed)
    requires i < |items| && forall item :: item in items ==> item.AnswerObject?
    ensures items[i].AnswerObject?
    ensures forall item :: item in items[..i] || item in items[..i + 1] ==> item.AnswerObject?
    ensures RenderAll(t, items[..i + 1], allowed) == RenderAll(t, items[..i], allowed)
      + if items[i].unitId == "" || Strip(t, items[i].answer) == "" then [] else [Render(t, items[i], allowed)]
  {
    assert items[i] in items && items[..i + 1][..i] == items[..i];
  }

  method RenderValidated(t: Alphabet, items: seq<RawAnswer>, allowed: Allowed) returns (rendered: seq<Rendered>)
    requires forall item :: item in items ==> item.AnswerObject?
    ensures rendered == RenderAll(t, items, allowed)
  {
    rendered := [];
    for i := 0 to |items|
      invariant rendered == RenderAll(t, items[..i], allowed)
    {
      RenderStep(t, items, i, allowed);
      var item := items[i];
      var answer, cited := Strip(t, item.answer), Unique(item.evidenceIds);
      if item.unitId != "" && answer != "" {
        var claims := CollectClaims(t, item.claims, answer, cited, if item.unitId in allowed then allowed[item.unitId] else {});
        rendered := rendered + [Rendered(item.unitId, answer, claims)];
      }
    }
    assert items[..|items|] == items;
  }

  // ----- the fused loop -----

  /** The units rendered so far. */
  function Done(rendered: seq<Rendered>): set<string> {
    set r | r in rendered :: r.unitId
  }

  predicate Usable(t: Alphabet, item: RawAnswer, allowed: Allowed, seen: set<string>) {
    && item.AnswerObject?
    && item.unitId != "" && item.unitId !in seen && item.unitId in allowed
    && Unique(item.evidenceIds) != [] && Within(Unique(item.evidenceIds), allowed[item.unitId])
    && Strip(t, item.answer) != ""
  }

  function Fused(t: Alphabet, items: seq<RawAnswer>, allowed: Allowed): seq<Rendered> {
    if items == [] then []
    else
      var before, last := Fused(t, items[..|items| - 1], allowed), items[|items| - 1];
      if Usable(t, last, allowed, Done(before)) then before + [Render(t, last, allowed)] else before
  }

  /** One turn of the fused loop. */
  method AnswerUnit(t: Alphabet, item: RawAnswer, allowed: Allowed, seen: set<string>) returns (r: Option<Rendered>)
    ensures r == if Usable(t, item, allowed, seen) then Some(Render(t, item, allowed)) else None
  {
    r := None;
    if item.OtherAnswer? {
      return;
    }
    var unitId, cited := item.unitId, Unique(item.evidenceIds);
    if unitId == "" || unitId in seen || unitId !in allowed || cited == [] || !Within(cited, allowed[unitId]) {
      return;
    }
    var answer := Strip(t, item.answer);
    if answer == "" {
      return;
    }
    var claims := CollectClaims(t, item.claims, answer, cited, allowed[unitId]);
    r := Some(Rendered(unitId, answer, claims));
  }

  lemma DoneMore(rendered: seq<Rendered>, r: Rendered)
    ensures Done(rendered + [r]) == Done(rendered) + {r.unitId}
  {
    var more := rendered + [r];
    assert more[|rendered|] == r && r in more;
    forall x | x in Done(rendered) ensures x in Done(more) {
      var y :| y in rendered && y.unitId == x;
      assert y in more;
    }
  }

  lemma SeenMore(accepted: seq<RawAnswer>, item: RawAnswer)
    requires item.AnswerObject?
    ensures Seen(accepted + [item]) == Seen(accepted) + {item.unitId}
  {
    var more := accepted + [item];
    assert more[|accepted|] == item && item in more;
    forall x | x in Seen(accepted) ensures x in Seen(more) {
      var y :| y in accepted && y.AnswerObject? && y.unitId == x;
      assert y in more;
    }
  }

  lemma FusedStep(t: Alphabet, items: seq<RawAnswer>, i: nat, allowed: Allowed)
    requires i < |items|
    ensures var before := Fused(t, items[..i], allowed);
      Fused(t, items[..i + 1], allowed) ==
        if Usable(t, items[i], allowed, Done(before)) then before + [Render(t, items[i], allowed)] else before
  {
    assert items[..i + 1][..i] == items[..i];
  }

  method AnswerUnits(t: Alphabet, data: Payload, allowed: Allowed) returns (rendered: seq<Rendered>)
    ensures rendered == if data.Answers? then Fused(t, data.items, allowed) else []
  {
    rendered := [];
    if data.NotAList? {
      return;
    }
    var items := data.items;
    var seen: set<string> := {};
    for i := 0 to |items|
      invariant rendered == Fused(t, items[..i], allowed) && seen == Done(rendered)
    {
      FusedStep(t, items, i, allowed);
      var r := AnswerUnit(t, items[i], allowed, seen);
      if r.Some? {
        DoneMore(rendered, r.value);
        seen := seen + {r.value.unitId};
        rendered := rendered + [r.value];
      }
    }
    assert items[..|items|] == items;
  }

  // ----- the two forms agree -----

  /** Both forms accept the same items. */
  lemma JudgeIsUsable(t: Alphabet, item: RawAnswer, allowed: Allowed, seen: set<string>)
    ensures Judge(t, item, allowed, seen).Accept? <==> Usable(t, item, allowed, seen)
  {
  }

  lemma RenderMore(t: Alphabet, before: seq<RawAnswer>, last: RawAnswer, allowed: Allowed)
    requires (forall item :: item in before ==> item.AnswerObject?) && last.AnswerObject?
    requires last.unitId != "" && Strip(t, last.answer) != ""
    ensures forall item :: item in before + [last] ==> item.AnswerObject?
    ensures RenderAll(t, before + [last], allowed) == RenderAll(t, before, allowed) + [Render(t, last, allowed)]
  {
    assert (before + [last])[..|before|] == before;
  }

  /** Validation and the fused loop are in step. */
  ghost predicate InStep(t: Alphabet, accepted: seq<RawAnswer>, rendered: seq<Rendered>, allowed: Allowed) {
    && (forall item :: item in accepted ==> item.AnswerObject?)
    && RenderAll(t, accepted, allowed) == rendered
    && |accepted| == |rendered| && Seen(accepted) == Done(rendered)
  }

  lemma StayInStep(t: Alphabet, before: seq<RawAnswer>, rendered: seq<Rendered>, last: RawAnswer, allowed: Allowed)
    requires InStep(t, before, rendered, allowed) && Usable(t, last, allowed, Seen(before))
    ensures InStep(t, before + [last], rendered + [Render(t, last, allowed)], allowed)
  {
    RenderMore(t, before, last, allowed);
    SeenMore(before, last);
    DoneMore(rendered, Render(t, last, allowed));
  }

  /** Rendering what validation accepts is what the fused loop renders. */
  lemma {:induction false} Agree(t: Alphabet, items: seq<RawAnswer>, allowed: Allowed)
    ensures InStep(t, Accepted(t, items, allowed), Fused(t, items, allowed), allowed)
  {
    if items != [] {
      var front, last := items[..|items| - 1], items[|items| - 1];
      Agree(t, front, allowed);
      var before := Accepted(t, front, allowed);
      JudgeIsUsable(t, last, allowed, Seen(before));
      if Usable(t, last, allowed, Seen(before)) {
        StayInStep(t, before, Fused(t, front, allowed), last, allowed);
      }
    }
  }
}
