/** Diversified reranking of scored notes and selection of answer evidence
    (agent/note_reranker.py:171-320). The scores themselves come from the text and are inputs. */
module NoteRerank {
  import opened Ordering

  datatype Row = Row(score: real, ts: string, id: string, terms: set<string>)

  // ----- overlap of term sets -----

  function Jaccard(a: set<string>, b: set<string>): real {
    |a * b| as real / (if |a + b| > 1 then |a + b| else 1) as real
  }

  function MaxJaccard(terms: set<string>, selected: seq<set<string>>): real {
    if terms == {} || selected == [] then 0.0
    else
      var j := Jaccard(terms, selected[|selected| - 1]);
      var before := MaxJaccard(terms, selected[..|selected| - 1]);
      if j > before then j else before
  }

  lemma Sizes(a: set<string>, b: set<string>)
    ensures |a * b| <= |a + b|
    ensures |a * b| == |a + b| ==> a == b
    ensures |a * b| == 0 <==> a !! b
  {
    var both, only := a * b, (a + b) - a * b;
    assert a + b == both + only && both !! only;
    assert |a + b| == |both| + |only|;
    if |only| == 0 { assert only == {}; }
    assert a !! b <==> both == {};
  }

  /** Overlap is a fraction: 0 exactly for disjoint sets, 1 exactly for the same non-empty set. */
  lemma JaccardRange(a: set<string>, b: set<string>)
    ensures 0.0 <= Jaccard(a, b) <= 1.0
    ensures Jaccard(a, b) == 0.0 <==> a !! b
    ensures Jaccard(a, b) == 1.0 <==> a == b != {}
  {
    Sizes(a, b);
    var n, m := |a * b|, if |a + b| > 1 then |a + b| else 1;
    Ratio(n, m);
    if a == b { assert a * b == a && a + b == a; }
    assert |a + b| == 0 <==> a + b == {};
  }

  lemma Ratio(n: nat, m: nat)
    requires n <= m && m >= 1
    ensures 0.0 <= n as real / m as real <= 1.0
    ensures n as real / m as real == 0.0 <==> n == 0
    ensures n as real / m as real == 1.0 <==> n == m
  {
    var q, x, y := n as real / m as real, n as real, m as real;
    assert q * y == x;
    assert (1.0 - q) * y == y - x >= 0.0;
  }

  /** The largest overlap is a fraction, 0 exactly when nothing selected shares a term. */
  lemma {:induction false} MaxJaccardRange(terms: set<string>, selected: seq<set<string>>)
    ensures 0.0 <= MaxJaccard(terms, selected) <= 1.0
    ensures MaxJaccard(terms, selected) == 0.0 <==> forall i :: 0 <= i < |selected| ==> terms !! selected[i]
  {
    if terms != {} && selected != [] {
      var last := |selected| - 1;
      JaccardRange(terms, selected[last]);
      MaxJaccardRange(terms, selected[..last]);
      assert forall i :: 0 <= i < last ==> selected[..last][i] == selected[i];
    }
  }

  // ----- ordering and picking -----

  /** Higher score, then later time, then greater id. */
  predicate Above(a: Row, b: Row) {
    if a.score != b.score then a.score > b.score
    else if a.ts != b.ts then StrLess(b.ts, a.ts)
    else StrLess(b.id, a.id)
  }

  function Ranked(rows: seq<Row>): seq<Row> {
    StableSort(rows, Above)
  }

  function TermsOf(rows: seq<Row>): (terms: seq<set<string>>)
    ensures |terms| == |rows| && forall i :: 0 <= i < |rows| ==> terms[i] == rows[i].terms
  {
    if rows == [] then [] else TermsOf(rows[..|rows| - 1]) + [rows[|rows| - 1].terms]
  }

  lemma TermsOfMore(rows: seq<Row>, r: Row)
    ensures TermsOf(rows + [r]) == TermsOf(rows) + [r.terms]
  {
    assert (rows + [r])[..|rows|] == rows;
  }

  /** A row's score less the penalty for overlapping with what is selected. */
  function Value(r: Row, selected: seq<set<string>>, penalty: real): real {
    r.score - penalty * MaxJaccard(r.terms, selected)
  }

  predicate Better(a: Row, b: Row, selected: seq<set<string>>, penalty: real) {
    var x, y := Value(a, selected, penalty), Value(b, selected, penalty);
    if x != y then x > y else StrLess(b.ts, a.ts)
  }

  /** The first row that no other is better than. */
  function Pick(rows: seq<Row>, selected: seq<set<string>>, penalty: real): (k: nat)
    requires rows != []
    ensures k < |rows| && forall i :: 0 <= i < |rows| ==> Value(rows[i], selected, penalty) <= Value(rows[k], selected, penalty)
  {
    var last := |rows| - 1;
    if last == 0 then 0
    else
      var k := Pick(rows[..last], selected, penalty);
      assert forall i :: 0 <= i < last ==> rows[..last][i] == rows[i];
      if Better(rows[last], rows[k], selected, penalty) then last else k
  }

  function Without(rows: seq<Row>, k: nat): seq<Row>
    requires k < |rows|
  {
    rows[..k] + rows[k + 1..]
  }

  datatype Split = Split(selected: seq<Row>, left: seq<Row>)

  /** Greedy selection until there is nothing left or enough is selected. */
  function Select(s: Split, penalty: real, target: nat): Split
    decreases |s.left|
  {
    if s.left == [] || |s.selected| >= target then s
    else Select(Step(s, penalty), penalty, target)
  }

  /** One turn of the selection loop. */
  function Step(s: Split, penalty: real): (next: Split)
    requires s.left != []
    ensures |next.left| == |s.left| - 1 && |next.selected| == |s.selected| + 1
  {
    var k := Pick(s.left, TermsOf(s.selected), penalty);
    Split(s.selected + [s.left[k]], Without(s.left, k))
  }

  /** The best row comes first unconditionally. */
  function Diversified(rows: seq<Row>, penalty: real, target: nat): Split {
    var ranked := Ranked(rows);
    if ranked == [] || target == 0 then Split([], ranked) else Select(Split([ranked[0]], ranked[1..]), penalty, target)
  }

  function Reranked(rows: seq<Row>, multi: bool): seq<Row> {
    if !multi || |rows| < 3 then Ranked(rows) else Diversified(rows, 0.12, |rows|).selected
  }

  function EvidenceTarget(limit: int, multi: bool): (n: nat)
    ensures 1 <= n <= 5
  {
    var most := if multi then 5 else 3;
    if limit < 1 then 1 else if limit < most then limit else most
  }

  function EvidencePenalty(multi: bool): real {
    if multi then 0.10 else 0.18
  }

  function Evidence(rows: seq<Row>, limit: int, multi: bool): Split {
    Diversified(rows, EvidencePenalty(multi), EvidenceTarget(limit, multi))
  }

  // ----- nothing is lost, and the penalty bounds every inversion -----

  /** No row stands before one whose score is more than `gap` higher. */
  ghost predicate WithinGap(s: Split, gap: real) {
    && (forall i, j :: 0 <= i < j < |s.selected| ==> s.selected[j].score <= s.selected[i].score + gap)
    && (forall i, j :: 0 <= i < |s.selected| && 0 <= j < |s.left| ==> s.left[j].score <= s.selected[i].score + gap)
  }

  lemma Scaled(p: real, j: real)
    requires p >= 0.0 && 0.0 <= j <= 1.0
    ensures 0.0 <= p * j <= p
  {
  }

  lemma ValueRange(r: Row, selected: seq<set<string>>, penalty: real)
    requires penalty >= 0.0
    ensures r.score - penalty <= Value(r, selected, penalty) <= r.score
  {
    var j := MaxJaccard(r.terms, selected);
    MaxJaccardRange(r.terms, selected);
    Scaled(penalty, j);
    assert Value(r, selected, penalty) == r.score - penalty * j;
  }

  lemma PickWithinGap(rows: seq<Row>, selected: seq<set<string>>, penalty: real, i: nat)
    requires i < |rows| && penalty >= 0.0
    ensures rows[i].score <= rows[Pick(rows, selected, penalty)].score + penalty
  {
    var k := Pick(rows, selected, penalty);
    var x, y := rows[i], rows[k];
    ValueRange(x, selected, penalty);
    ValueRange(y, selected, penalty);
  }

  lemma MovedWithinGap(s: Split, k: nat, gap: real)
    requires WithinGap(s, gap) && k < |s.left|
    requires forall j :: 0 <= j < |s.left| ==> s.left[j].score <= s.left[k].score + gap
    ensures WithinGap(Split(s.selected + [s.left[k]], Without(s.left, k)), gap)
  {
    var next := Split(s.selected + [s.left[k]], Without(s.left, k));
    forall i, j | 0 <= i < |next.selected| && 0 <= j < |next.left| ensures next.left[j].score <= next.selected[i].score + gap {
      var was := if j < k then j else j + 1;
      assert next.left[j] == s.left[was];
    }
  }

  lemma StepWithinGap(s: Split, penalty: real)
    requires WithinGap(s, penalty) && s.left != [] && penalty >= 0.0
    ensures WithinGap(Step(s, penalty), penalty)
  {
    var terms := TermsOf(s.selected);
    var k := Pick(s.left, terms, penalty);
    forall j | 0 <= j < |s.left| ensures s.left[j].score <= s.left[k].score + penalty {
      PickWithinGap(s.left, terms, penalty, j);
    }
    MovedWithinGap(s, k, penalty);
  }

  lemma StepKeeps(s: Split, k: nat)
    requires k < |s.left|
    ensures multiset(s.selected + [s.left[k]]) + multiset(Without(s.left, k)) == multiset(s.selected) + multiset(s.left)
  {
    assert s.left == s.left[..k] + ([s.left[k]] + s.left[k + 1..]);
  }

  lemma {:induction false} SelectIs(s: Split, penalty: real, target: nat)
    requires WithinGap(s, penalty) && penalty >= 0.0 && |s.selected| <= target
    ensures var out := Select(s, penalty, target);
      && WithinGap(out, penalty)
      && multiset(out.selected) + multiset(out.left) == multiset(s.selected) + multiset(s.left)
      && |out.selected| == (if |s.selected| + |s.left| < target then |s.selected| + |s.left| else target)
      && s.selected <= out.selected
    decreases |s.left|
  {
    if s.left != [] && |s.selected| < target {
      StepWithinGap(s, penalty);
      StepKeeps(s, Pick(s.left, TermsOf(s.selected), penalty));
      SelectIs(Step(s, penalty), penalty, target);
    }
  }

  lemma AboveIsOrder()
    ensures StrictWeak(Above)
  {
    forall a: Row, b: Row ensures Above(a, b) ==> !Above(b, a) {
      StrLessTotal(a.ts, b.ts);
      StrLessTotal(a.id, b.id);
    }
    forall a: Row, b: Row, c: Row ensures Above(a, c) ==> Above(a, b) || Above(b, c) {
      StrLessSplits(a.ts, b.ts, c.ts);
      StrLessSplits(a.id, b.id, c.id);
    }
  }

  lemma RankedIs(rows: seq<Row>)
    ensures multiset(Ranked(rows)) == multiset(rows) && |Ranked(rows)| == |rows|
    ensures forall i, j :: 0 <= i < j < |rows| ==> Ranked(rows)[j].score <= Ranked(rows)[i].score
  {
    AboveIsOrder();
    StableSortSorted(rows, Above);
    StableSortKeeps(rows, Above);
  }

  /** Selected and left rows together are the input; the selection has the size asked for; and no
      row is passed over for one whose score is more than the penalty lower. */
  lemma DiversifiedIs(rows: seq<Row>, penalty: real, target: nat)
    requires penalty >= 0.0 && target >= 1
    ensures var out := Diversified(rows, penalty, target);
      && multiset(out.selected) + multiset(out.left) == multiset(rows)
      && |out.selected| == (if |rows| < target then |rows| else target)
      && WithinGap(out, penalty)
      && (rows != [] ==> out.selected[0] == Ranked(rows)[0])
  {
    var ranked := Ranked(rows);
    RankedIs(rows);
    if ranked != [] {
      assert ranked == [ranked[0]] + ranked[1..];
      SelectIs(Split([ranked[0]], ranked[1..]), penalty, target);
    }
  }

  lemma AllSelected(rows: seq<Row>, penalty: real)
    requires penalty >= 0.0 && rows != []
    ensures multiset(Diversified(rows, penalty, |rows|).selected) == multiset(rows)
  {
    var out := Diversified(rows, penalty, |rows|);
    DiversifiedIs(rows, penalty, |rows|);
    assert |multiset(out.selected)| + |multiset(out.left)| == |multiset(rows)|;
    assert out.left == [];
  }

  /** No row stands before one whose score is more than `gap` higher. */
  ghost predicate OrderedUpTo(out: seq<Row>, gap: real) {
    forall i, j :: 0 <= i < j < |out| ==> out[j].score <= out[i].score + gap
  }

  /** Reranking permutes its input, keeps the best row first, and puts a row whose score is more
      than 0.12 higher before the other. */
  lemma RerankIsBounded(rows: seq<Row>, multi: bool)
    ensures multiset(Reranked(rows, multi)) == multiset(rows)
    ensures rows != [] ==> |Reranked(rows, multi)| > 0 && Reranked(rows, multi)[0] == Ranked(rows)[0]
    ensures OrderedUpTo(Reranked(rows, multi), if multi then 0.12 else 0.0)
  {
    RankedIs(rows);
    if multi && |rows| >= 3 {
      DiversifiedIs(rows, 0.12, |rows|);
      AllSelected(rows, 0.12);
    }
  }

  /** Evidence selection takes min(target, number of rows) rows of the input; whatever exceeds a
      selected row by more than the penalty is selected before it. */
  lemma EvidenceIsBounded(rows: seq<Row>, limit: int, multi: bool)
    ensures var out, target := Evidence(rows, limit, multi), EvidenceTarget(limit, multi);
      && multiset(out.selected) + multiset(out.left) == multiset(rows)
      && |out.selected| == (if |rows| < target then |rows| else target)
      && OrderedUpTo(out.selected, EvidencePenalty(multi))
      && forall b, a :: b in out.selected && a in out.left ==> a.score <= b.score + EvidencePenalty(multi)
  {
    DiversifiedIs(rows, EvidencePenalty(multi), EvidenceTarget(limit, multi));
  }

  /** The bound is sharp: of two rows exactly the penalty apart, the lower and later one comes
      first when the higher one repeats what is selected. */
  lemma GapIsSharp(penalty: real)
    requires 0.0 < penalty <= 0.18
    ensures var best, repeat, unlike := Row(0.7, "1", "a", {"x"}), Row(0.5, "1", "b", {"x"}), Row(0.5 - penalty, "2", "c", {"y"});
      Diversified([best, repeat, unlike], penalty, 3).selected == [best, unlike, repeat]
  {
    var best, repeat, unlike := Row(0.7, "1", "a", {"x"}), Row(0.5, "1", "b", {"x"}), Row(0.5 - penalty, "2", "c", {"y"});
    var rows := [best, repeat, unlike];
    assert StableSort(rows[2..], Above) == [unlike];
    assert StableSort(rows[1..], Above) == [repeat, unlike];
    assert Ranked(rows) == rows;
    SharpValues(best, repeat, unlike);
    var left := [repeat, unlike];
    TermsOfMore([], best);
    assert [] + [best] == [best] && TermsOf([best]) == [{"x"}];
    assert left[..1] == [repeat] && StrLess("1", "2");
    assert Pick(left, [{"x"}], penalty) == 1;
    assert Without(left, 1) == [repeat];
    LastStep([best, unlike], repeat, penalty);
    assert [best] + [unlike] == [best, unlike] && [best, unlike] + [repeat] == [best, unlike, repeat];
  }

  lemma LastStep(selected: seq<Row>, last: Row, penalty: real)
    requires |selected| == 2
    ensures Select(Split(selected, [last]), penalty, 3) == Split(selected + [last], [])
  {
    assert Without([last], 0) == [];
  }

  lemma SharpValues(best: Row, repeat: Row, other: Row)
    requires best.terms == repeat.terms == {"x"} && other.terms == {"y"}
    ensures MaxJaccard(repeat.terms, [{"x"}]) == 1.0 && MaxJaccard(other.terms, [{"x"}]) == 0.0
  {
    var sel := [{"x"}];
    assert sel[..0] == [];
    JaccardRange({"x"}, {"x"});
    JaccardRange({"y"}, {"x"});
  }

  // ----- when diversification changes nothing -----

  lemma {:induction false} PickFirst(rows: seq<Row>, selected: seq<set<string>>, penalty: real)
    requires rows != [] && forall i :: 0 < i < |rows| ==> !Better(rows[i], rows[0], selected, penalty)
    ensures Pick(rows, selected, penalty) == 0
  {
    if |rows| > 1 {
      PickFirst(rows[..|rows| - 1], selected, penalty);
    }
  }

  /** What is left shares no term with itself or the selection. */
  ghost predicate Disjoint(s: Split) {
    && (forall i, j :: 0 <= i < |s.selected| && 0 <= j < |s.left| ==> s.selected[i].terms !! s.left[j].terms)
    && (forall i, j :: 0 <= i < j < |s.left| ==> s.left[i].terms !! s.left[j].terms)
  }

  lemma StepDisjoint(s: Split)
    requires Disjoint(s) && s.left != [] && Sorted(s.left, Above)
    ensures Disjoint(Split(s.selected + [s.left[0]], s.left[1..])) && Sorted(s.left[1..], Above)
  {
    var next := Split(s.selected + [s.left[0]], s.left[1..]);
    forall i, j | 0 <= i < |next.selected| && 0 <= j < |next.left| ensures next.selected[i].terms !! next.left[j].terms {
      assert next.left[j] == s.left[j + 1];
    }
  }

  lemma PlainValue(s: Split, j: nat, penalty: real)
    requires Disjoint(s) && j < |s.left|
    ensures Value(s.left[j], TermsOf(s.selected), penalty) == s.left[j].score
  {
    var terms := TermsOf(s.selected);
    MaxJaccardRange(s.left[j].terms, terms);
    assert forall i :: 0 <= i < |terms| ==> terms[i] == s.selected[i].terms;
  }

  lemma DisjointPick(s: Split, penalty: real)
    requires Disjoint(s) && s.left != [] && Sorted(s.left, Above)
    ensures Pick(s.left, TermsOf(s.selected), penalty) == 0
  {
    var terms := TermsOf(s.selected);
    PlainValue(s, 0, penalty);
    forall i | 0 < i < |s.left| ensures !Better(s.left[i], s.left[0], terms, penalty) {
      PlainValue(s, i, penalty);
      assert !Above(s.left[i], s.left[0]);
      StrLessTotal(s.left[0].ts, s.left[0].ts);
    }
    PickFirst(s.left, terms, penalty);
  }

  lemma DisjointStep(s: Split, penalty: real)
    requires Disjoint(s) && s.left != [] && Sorted(s.left, Above)
    ensures Step(s, penalty) == Split(s.selected + [s.left[0]], s.left[1..])
  {
    DisjointPick(s, penalty);
    assert Without(s.left, 0) == s.left[1..];
  }

  lemma MoveFirst(selected: seq<Row>, left: seq<Row>)
    requires left != []
    ensures (selected + [left[0]]) + left[1..] == selected + left
  {
  }

  lemma {:induction false} SelectInOrder(s: Split, penalty: real, target: nat)
    requires Sorted(s.left, Above) && Disjoint(s)
    ensures Select(s, penalty, target).selected + Select(s, penalty, target).left == s.selected + s.left
    decreases |s.left|
  {
    if s.left != [] && |s.selected| < target {
      DisjointStep(s, penalty);
      StepDisjoint(s);
      MoveFirst(s.selected, s.left);
      SelectInOrder(Step(s, penalty), penalty, target);
    }
  }

  /** Rows that share no terms with one another are taken in order of score. */
  lemma DisjointKeepsOrder(rows: seq<Row>, penalty: real, target: nat)
    requires target >= 1
    requires forall i, j :: 0 <= i < j < |Ranked(rows)| ==> Ranked(rows)[i].terms !! Ranked(rows)[j].terms
    ensures Diversified(rows, penalty, target).selected <= Ranked(rows)
  {
    var ranked := Ranked(rows);
    AboveIsOrder();
    StableSortSorted(rows, Above);
    if ranked != [] {
      var s := Split([ranked[0]], ranked[1..]);
      SelectInOrder(s, penalty, target);
      assert s.selected + s.left == ranked;
    }
  }

  // ----- the loops of the source -----

  method Diversify(ranked: seq<Row>, penalty: real, target: nat) returns (selected: seq<Row>)
    requires ranked != [] && target >= 1
    ensures selected == Select(Split([ranked[0]], ranked[1..]), penalty, target).selected
  {
    var remaining := ranked[1..];
    selected := [ranked[0]];
    var selectedTerms := [ranked[0].terms];
    ghost var goal := Select(Split(selected, remaining), penalty, target);
    TermsOfMore([], ranked[0]);
    assert [] + [ranked[0]] == selected;
    while remaining != [] && |selected| < target
      invariant selectedTerms == TermsOf(selected)
      invariant goal == Select(Split(selected, remaining), penalty, target)
      decreases |remaining|
    {
      var index := Pick(remaining, selectedTerms, penalty);
      var choice := remaining[index];
      assert Step(Split(selected, remaining), penalty) == Split(selected + [choice], Without(remaining, index));
      TermsOfMore(selected, choice);
      remaining := Without(remaining, index);
      selected := selected + [choice];
      selectedTerms := selectedTerms + [choice.terms];
    }
  }

  method RerankNoteRecords(rows: seq<Row>, multi: bool) returns (out: seq<Row>)
    ensures out == Reranked(rows, multi)
  {
    var ranked := StableSort(rows, Above);
    StableSortKeeps(rows, Above);
    if !multi || |ranked| < 3 {
      return ranked;
    }
    out := Diversify(ranked, 0.12, |ranked|);
  }

  method SelectAnswerEvidence(rows: seq<Row>, limit: int, multi: bool) returns (out: seq<Row>)
    ensures out == Evidence(rows, limit, multi).selected
  {
    if rows == [] {
      return [];
    }
    StableSortKeeps(rows, Above);
    var most := if multi then 5 else 3;
    var target := if limit < 1 then 1 else if limit < most then limit else most;
    out := Diversify(StableSort(rows, Above), if multi then 0.10 else 0.18, target);
  }
  // ----- the rule of each choice -----

  /** The overlap of two term sets: shared terms over all terms, nothing over nothing being 0. */
  lemma JaccardIs(a: set<string>, b: set<string>)
    ensures Jaccard(a, b) * |a + b| as real == |a * b| as real
    ensures a + b == {} ==> Jaccard(a, b) == 0.0
  {
    Sizes(a, b);
    var x, y := |a * b| as real, (if |a + b| > 1 then |a + b| else 1) as real;
    assert (x / y) * y == x;
    assert a + b == {} ==> |a * b| == 0;
  }

  /** `m` is the largest overlap of `terms` with one of the rows. */
  ghost predicate LargestOverlap(terms: set<string>, rows: seq<Row>, m: real) {
    && m >= 0.0
    && (forall i :: 0 <= i < |rows| ==> Jaccard(terms, rows[i].terms) <= m)
    && (m > 0.0 ==> exists i :: 0 <= i < |rows| && Jaccard(terms, rows[i].terms) == m)
  }

  lemma {:induction false} MaxJaccardAttained(terms: set<string>, seen: seq<set<string>>)
    ensures forall i :: 0 <= i < |seen| ==> Jaccard(terms, seen[i]) <= MaxJaccard(terms, seen)
    ensures MaxJaccard(terms, seen) > 0.0 ==> exists i :: 0 <= i < |seen| && Jaccard(terms, seen[i]) == MaxJaccard(terms, seen)
  {
    if terms == {} {
      forall i | 0 <= i < |seen| ensures Jaccard(terms, seen[i]) <= 0.0 { JaccardRange(terms, seen[i]); }
    } else if seen != [] {
      var last := |seen| - 1;
      MaxJaccardAttained(terms, seen[..last]);
      assert forall i :: 0 <= i < last ==> seen[..last][i] == seen[i];
    }
  }

  lemma LargestIs(terms: set<string>, rows: seq<Row>, m: real)
    requires LargestOverlap(terms, rows, m)
    ensures m == MaxJaccard(terms, TermsOf(rows))
  {
    var seen := TermsOf(rows);
    MaxJaccardRange(terms, seen);
    MaxJaccardAttained(terms, seen);
    assert forall i :: 0 <= i < |rows| ==> Jaccard(terms, seen[i]) == Jaccard(terms, rows[i].terms);
  }

  lemma BetterSplits(a: Row, b: Row, c: Row, selected: seq<set<string>>, penalty: real)
    ensures Better(a, c, selected, penalty) ==> Better(a, b, selected, penalty) || Better(b, c, selected, penalty)
    ensures !Better(a, a, selected, penalty)
  {
    StrLessSplits(a.ts, b.ts, c.ts);
    ValuesSplit(Value(a, selected, penalty), a.ts, Value(b, selected, penalty), b.ts, Value(c, selected, penalty), c.ts);
  }

  lemma ValuesSplit(x: real, xTs: string, y: real, yTs: string, z: real, zTs: string)
    requires StrLess(zTs, xTs) ==> StrLess(zTs, yTs) || StrLess(yTs, xTs)
    ensures (if x != z then x > z else StrLess(zTs, xTs)) ==>
      (if x != y then x > y else StrLess(yTs, xTs)) || (if y != z then y > z else StrLess(zTs, yTs))
  {
  }

  lemma {:induction false} PickIsBest(rows: seq<Row>, selected: seq<set<string>>, penalty: real, i: nat)
    requires i < |rows|
    ensures !Better(rows[i], rows[Pick(rows, selected, penalty)], selected, penalty)
  {
    var last := |rows| - 1;
    var picked := rows[Pick(rows, selected, penalty)];
    BetterSplits(rows[i], rows[i], picked, selected, penalty);
    if last > 0 {
      var k := Pick(rows[..last], selected, penalty);
      if i < last {
        PickIsBest(rows[..last], selected, penalty, i);
        BetterSplits(rows[i], rows[k], rows[last], selected, penalty);
        BetterSplits(rows[i], rows[last], rows[k], selected, penalty);
        BetterIsStrict(rows[last], rows[k], selected, penalty);
      }
    }
  }

  lemma BetterIsStrict(a: Row, b: Row, selected: seq<set<string>>, penalty: real)
    ensures Better(a, b, selected, penalty) ==> !Better(b, a, selected, penalty)
  {
    StrLessTotal(a.ts, b.ts);
  }

  /** From the second on, no selected row is worse than one selected later or left over. */
  ghost predicate Greedy(s: Split, penalty: real) {
    forall i, b :: 1 <= i < |s.selected| ==> RightlyBefore(s, penalty, i, b)
  }

  ghost predicate RightlyBefore(s: Split, penalty: real, i: nat, b: Row)
    requires i < |s.selected|
  {
    b in s.selected[i + 1..] || b in s.left ==> !Better(b, s.selected[i], TermsOf(s.selected[..i]), penalty)
  }

  lemma StepIsGreedy(s: Split, penalty: real)
    requires Greedy(s, penalty) && s.left != []
    ensures Greedy(Step(s, penalty), penalty)
  {
    var k, next := Pick(s.left, TermsOf(s.selected), penalty), Step(s, penalty);
    forall i, b | 1 <= i < |next.selected| && (b in next.selected[i + 1..] || b in next.left)
      ensures RightlyBefore(next, penalty, i, b)
    {
      LeftOrLater(s, k, i, b);
      if i < |s.selected| {
        assert RightlyBefore(s, penalty, i, b);
        assert next.selected[..i] == s.selected[..i];
      } else {
        assert next.selected[..i] == s.selected;
        var j :| 0 <= j < |s.left| && s.left[j] == b;
        PickIsBest(s.left, TermsOf(s.selected), penalty, j);
      }
    }
  }

  lemma LeftOrLater(s: Split, k: nat, i: nat, b: Row)
    requires k < |s.left| && i <= |s.selected|
    requires b in (s.selected + [s.left[k]])[i + 1..] || b in Without(s.left, k)
    ensures b in s.left || (i < |s.selected| && b in s.selected[i + 1..])
  {
    if b in Without(s.left, k) {
      var j :| 0 <= j < |Without(s.left, k)| && Without(s.left, k)[j] == b;
      assert s.left[if j < k then j else j + 1] == b;
    } else {
      var later := (s.selected + [s.left[k]])[i + 1..];
      var j :| 0 <= j < |later| && later[j] == b;
      if i + 1 + j < |s.selected| {
        assert s.selected[i + 1..][j] == b;
      } else {
        assert b == s.left[k];
      }
    }
  }

  lemma {:induction false} SelectIsGreedy(s: Split, penalty: real, target: nat)
    requires Greedy(s, penalty)
    ensures Greedy(Select(s, penalty, target), penalty)
    decreases |s.left|
  {
    if s.left != [] && |s.selected| < target {
      StepIsGreedy(s, penalty);
      SelectIsGreedy(Step(s, penalty), penalty, target);
    }
  }

  lemma DiversifiedIsGreedy(rows: seq<Row>, penalty: real, target: nat)
    ensures Greedy(Diversified(rows, penalty, target), penalty)
  {
    var ranked := Ranked(rows);
    if ranked != [] && target > 0 {
      SelectIsGreedy(Split([ranked[0]], ranked[1..]), penalty, target);
    }
  }

  /** A row was chosen rightly over another: its score less the penalty for its largest overlap with
      what was selected before is greater, or equal and its time is not earlier. */
  ghost predicate ChosenOver(a: Row, b: Row, before: seq<Row>, penalty: real) {
    forall m, n :: LargestOverlap(a.terms, before, m) && LargestOverlap(b.terms, before, n) ==>
      && b.score - penalty * n <= a.score - penalty * m
      && (b.score - penalty * n == a.score - penalty * m ==> !StrLess(a.ts, b.ts))
  }

  lemma NotBetterIsChosen(a: Row, b: Row, before: seq<Row>, penalty: real)
    requires !Better(b, a, TermsOf(before), penalty)
    ensures ChosenOver(a, b, before, penalty)
  {
    forall m, n | LargestOverlap(a.terms, before, m) && LargestOverlap(b.terms, before, n)
      ensures b.score - penalty * n <= a.score - penalty * m
      ensures b.score - penalty * n == a.score - penalty * m ==> !StrLess(a.ts, b.ts)
    {
      ValueIs(a, before, m, penalty);
      ValueIs(b, before, n, penalty);
    }
  }

  lemma ValueIs(r: Row, before: seq<Row>, m: real, penalty: real)
    requires LargestOverlap(r.terms, before, m)
    ensures Value(r, TermsOf(before), penalty) == r.score - penalty * m
  {
    LargestIs(r.terms, before, m);
    ValueAt(r, TermsOf(before), m, penalty);
  }

  lemma ValueAt(r: Row, selected: seq<set<string>>, m: real, penalty: real)
    requires m == MaxJaccard(r.terms, selected)
    ensures Value(r, selected, penalty) == r.score - penalty * m
  {
  }

  lemma GreedyChooses(s: Split, penalty: real, i: nat, b: Row)
    requires Greedy(s, penalty) && 1 <= i < |s.selected| && (b in s.selected[i + 1..] || b in s.left)
    ensures ChosenOver(s.selected[i], b, s.selected[..i], penalty)
  {
    assert RightlyBefore(s, penalty, i, b);
    NotBetterIsChosen(s.selected[i], b, s.selected[..i], penalty);
  }

  /** Reranking for several pieces of evidence: each row after the first is chosen over every later
      one, with a penalty of 0.12. */
  lemma RerankChooses(rows: seq<Row>, i: nat, j: nat)
    requires |rows| >= 3 && 1 <= i < j < |Reranked(rows, true)|
    ensures var out := Reranked(rows, true); ChosenOver(out[i], out[j], out[..i], 0.12)
  {
    var out := Reranked(rows, true);
    DiversifiedIsGreedy(rows, 0.12, |rows|);
    assert out[i + 1..][j - i - 1] == out[j] && out[j] in out[i + 1..];
    GreedyChooses(Diversified(rows, 0.12, |rows|), 0.12, i, out[j]);
  }

  /** Selecting evidence: at most five rows when several pieces are needed and three otherwise; each
      after the first is chosen over every later one and every one left over, with a penalty of 0.10
      and 0.18. */
  lemma EvidenceChooses(rows: seq<Row>, limit: int, multi: bool, i: nat, b: Row)
    requires var out := Evidence(rows, limit, multi);
      1 <= i < |out.selected| && (b in out.selected[i + 1..] || b in out.left)
    ensures var out := Evidence(rows, limit, multi);
      && ChosenOver(out.selected[i], b, out.selected[..i], if multi then 0.10 else 0.18)
      && |out.selected| <= (if multi then 5 else 3) && |out.selected| <= limit
  {
    var out := Evidence(rows, limit, multi);
    DiversifiedIsGreedy(rows, EvidencePenalty(multi), EvidenceTarget(limit, multi));
    DiversifiedIs(rows, EvidencePenalty(multi), EvidenceTarget(limit, multi));
    GreedyChooses(out, EvidencePenalty(multi), i, b);
  }

  /** As many rows as asked for, at least one, within three or five and what there is. */
  lemma EvidenceCount(rows: seq<Row>, limit: int, multi: bool)
    ensures var most := if multi then 5 else 3;
      var asked := if limit < 1 then 1 else if limit > most then most else limit;
      |Evidence(rows, limit, multi).selected| == if |rows| < asked then |rows| else asked
  {
    DiversifiedIs(rows, EvidencePenalty(multi), EvidenceTarget(limit, multi));
  }

  /** Otherwise, and for the first row, the order is that of scores, then of later times, then of
      greater ids. */
  lemma PlainOrder(rows: seq<Row>, i: nat, j: nat)
    requires i < j < |Ranked(rows)|
    ensures var a, b := Ranked(rows)[i], Ranked(rows)[j];
      a.score > b.score || (a.score == b.score && (StrLess(b.ts, a.ts) || (a.ts == b.ts && !StrLess(a.id, b.id))))
  {
    AboveIsOrder();
    StableSortSorted(rows, Above);
    StrLessTotal(Ranked(rows)[i].ts, Ranked(rows)[j].ts);
  }
}
