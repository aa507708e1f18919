/** Fusing the original query's notes with those of its rewrites (agent/note_reranker.py:127-159).
    Scores are exact fractions here. */
module NoteFusion {
  import opened Options
  import opened Ordering

  datatype Note = Note(id: string, ts: string)

  type Lanes = seq<seq<Note>>

  /** The first lane is the user's wording; later ones count less. */
  function Weight(lane: nat): (w: real)
    ensures 0.58 <= w <= 1.0
  {
    if lane == 0 then 1.0
    else if 0.82 - 0.08 * (lane - 1) as real > 0.58 then 0.82 - 0.08 * (lane - 1) as real
    else 0.58
  }

  /** The user's wording counts fully, the first rewrites 0.82, 0.74 and 0.66, any other 0.58. */
  lemma WeightIs(lane: nat)
    ensures Weight(0) == 1.0 && Weight(1) == 0.82 && Weight(2) == 0.74 && Weight(3) == 0.66
    ensures lane >= 4 ==> Weight(lane) == 0.58
  {
  }

  function Share(lane: nat, rank: nat): real {
    Weight(lane) / (60.0 + rank as real)
  }

  /** What a lane gives a note: a share for each of its occurrences. */
  function Gain(index: nat, lane: seq<Note>, id: string): real {
    if lane == [] then 0.0
    else
      var before := Gain(index, lane[..|lane| - 1], id);
      if lane[|lane| - 1].id == id then before + Share(index, |lane|) else before
  }

  function Score(lanes: Lanes, id: string): real {
    if lanes == [] then 0.0
    else Score(lanes[..|lanes| - 1], id) + Gain(|lanes| - 1, lanes[|lanes| - 1], id)
  }

  // ----- weights and ranks -----

  lemma DivisionFalls(w: real, x: real, y: real)
    requires w > 0.0 && 0.0 < x < y
    ensures w / x > w / y > 0.0
  {
    var a, b := w / x, w / y;
    assert a * x == w && b * y == w;
    assert b > 0.0;
    assert (a - b) * x == b * (y - x) > 0.0;
  }

  lemma SharesFall(lane: nat, rank: nat, later: nat)
    requires rank < later
    ensures Share(lane, rank) > Share(lane, later) > 0.0
  {
    DivisionFalls(Weight(lane), 60.0 + rank as real, 60.0 + later as real);
  }

  ghost predicate In(lane: seq<Note>, id: string) {
    exists i :: 0 <= i < |lane| && lane[i].id == id
  }

  ghost predicate At(lane: seq<Note>, id: string, rank: nat) {
    0 < rank <= |lane| && lane[rank - 1].id == id
  }

  /** The lane lists a note at most once. */
  ghost predicate Once(lane: seq<Note>, id: string) {
    forall i, j :: 0 <= i < j < |lane| ==> !(lane[i].id == id && lane[j].id == id)
  }

  lemma {:induction false} GainOfAbsent(index: nat, lane: seq<Note>, id: string)
    requires !In(lane, id)
    ensures Gain(index, lane, id) == 0.0
  {
    if lane != [] {
      var front := lane[..|lane| - 1];
      forall i | 0 <= i < |front| ensures front[i] == lane[i] {}
      GainOfAbsent(index, front, id);
    }
  }

  lemma {:induction false} GainIsPositive(index: nat, lane: seq<Note>, id: string)
    ensures Gain(index, lane, id) >= 0.0
  {
    if lane != [] {
      GainIsPositive(index, lane[..|lane| - 1], id);
      SharesFall(index, |lane|, |lane| + 1);
    }
  }

  lemma {:induction false} GainAt(index: nat, lane: seq<Note>, id: string, rank: nat)
    requires At(lane, id, rank)
    ensures Gain(index, lane, id) >= Share(index, rank)
    ensures Once(lane, id) ==> Gain(index, lane, id) == Share(index, rank)
  {
    var front := lane[..|lane| - 1];
    if rank == |lane| {
      GainIsPositive(index, front, id);
      if Once(lane, id) {
        forall i | 0 <= i < |front| ensures front[i].id != id { assert front[i] == lane[i]; }
        GainOfAbsent(index, front, id);
      }
    } else {
      GainAt(index, front, id, rank);
      SharesFall(index, |lane|, |lane| + 1);
      assert Once(lane, id) ==> Once(front, id);
    }
  }

  // ----- the fused order -----

  function RowIn(lane: seq<Note>, id: string): Option<Note> {
    if lane == [] then None
    else
      var before := RowIn(lane[..|lane| - 1], id);
      if before.Some? then before
      else if lane[|lane| - 1].id == id then Some(lane[|lane| - 1])
      else None
  }

  /** The row kept for a note is the first one met. */
  function RowOf(lanes: Lanes, id: string): Option<Note> {
    if lanes == [] then None
    else
      var before := RowOf(lanes[..|lanes| - 1], id);
      if before.Some? then before else RowIn(lanes[|lanes| - 1], id)
  }

  function Ts(lanes: Lanes, id: string): string {
    var row := RowOf(lanes, id);
    if row.Some? then row.value.ts else ""
  }

  /** Higher score first, then later time, then greater id. */
  function Above(lanes: Lanes): (string, string) -> bool {
    (a, b) => Outranks(Score(lanes, a), Ts(lanes, a), a, Score(lanes, b), Ts(lanes, b), b)
  }

  predicate Outranks(s: real, ts: string, id: string, s': real, ts': string, id': string) {
    if s != s' then s > s' else if ts != ts' then StrLess(ts', ts) else StrLess(id', id)
  }

  lemma AboveIsOrder(lanes: Lanes)
    ensures StrictWeak(Above(lanes))
    ensures forall a, b :: a != b ==> Above(lanes)(a, b) || Above(lanes)(b, a)
  {
    forall a, b ensures Above(lanes)(a, b) ==> !Above(lanes)(b, a)
      ensures a != b ==> Above(lanes)(a, b) || Above(lanes)(b, a)
    {
      StrLessSplits(Ts(lanes, a), Ts(lanes, b), "");
      StrLessSplits(a, b, "");
    }
    forall a, b, c ensures Above(lanes)(a, c) ==> Above(lanes)(a, b) || Above(lanes)(b, c) {
      StrLessSplits(Ts(lanes, a), Ts(lanes, b), Ts(lanes, c));
      StrLessSplits(a, b, c);
      StrLessSplits(Ts(lanes, b), Ts(lanes, c), "");
    }
  }

  function IdsFrom(ids: seq<string>, lane: seq<Note>): seq<string> {
    if lane == [] then ids
    else
      var before := IdsFrom(ids, lane[..|lane| - 1]);
      var id := lane[|lane| - 1].id;
      if id == "" || id in before then before else before + [id]
  }

  function Ids(lanes: Lanes): seq<string> {
    if lanes == [] then [] else IdsFrom(Ids(lanes[..|lanes| - 1]), lanes[|lanes| - 1])
  }

  lemma {:induction false} IdsFromIs(ids: seq<string>, lane: seq<Note>, id: string)
    requires Distinct(ids)
    ensures Distinct(IdsFrom(ids, lane))
    ensures id in IdsFrom(ids, lane) <==> id in ids || (id != "" && In(lane, id))
  {
    if lane != [] {
      var front := lane[..|lane| - 1];
      IdsFromIs(ids, front, id);
      assert In(lane, id) <==> In(front, id) || lane[|lane| - 1].id == id by {
        if i :| 0 <= i < |front| && front[i].id == id { assert lane[i].id == id; }
        if i :| 0 <= i < |lane| && lane[i].id == id { assert i < |front| ==> front[i].id == id; }
      }
    }
  }

  /** Some lane lists the note. */
  ghost predicate Listed(lanes: Lanes, id: string) {
    exists g :: 0 <= g < |lanes| && In(lanes[g], id)
  }

  /** The ids are those of all notes with an id, each once. */
  lemma {:induction false} IdsAre(lanes: Lanes, id: string)
    ensures Distinct(Ids(lanes))
    ensures id in Ids(lanes) <==> id != "" && Listed(lanes, id)
  {
    if lanes != [] {
      var front := lanes[..|lanes| - 1];
      IdsAre(front, id);
      IdsFromIs(Ids(front), lanes[|lanes| - 1], id);
      assert Listed(lanes, id) <==> Listed(front, id) || In(lanes[|lanes| - 1], id) by {
        if g :| 0 <= g < |front| && In(front[g], id) { assert In(lanes[g], id); }
        if g :| 0 <= g < |lanes| && In(lanes[g], id) { assert g < |front| ==> In(front[g], id); }
      }
    }
  }

  function Cap(limit: int): (n: nat)
    ensures 1 <= n <= 50
  {
    if limit < 1 then 1 else if limit > 50 then 50 else limit
  }

  function Ranked(lanes: Lanes): seq<string> {
    StableSort(Ids(lanes), Above(lanes))
  }

  function Fused(lanes: Lanes, limit: int): seq<string> {
    var ranked := Ranked(lanes);
    ranked[..if |ranked| < Cap(limit) then |ranked| else Cap(limit)]
  }

  // ----- what fusion guarantees -----

  /** `a` is listed before `b` in the output, or `b` is cut. */
  ghost predicate Precedes(out: seq<string>, a: string, b: string) {
    b in out ==> exists i, j :: 0 <= i < j < |out| && out[i] == a && out[j] == b
  }

  lemma SortedPositions(ranked: seq<string>, above: (string, string) -> bool, i: nat, j: nat)
    requires StrictWeak(above) && Sorted(ranked, above)
    requires i < |ranked| && j < |ranked| && above(ranked[i], ranked[j])
    ensures i < j
  {
  }

  /** Notes that must come first come first, whatever the cut. */
  lemma AbovePrecedes(lanes: Lanes, limit: int, a: string, b: string)
    requires a in Ids(lanes) && b in Ids(lanes) && Above(lanes)(a, b)
    ensures Precedes(Fused(lanes, limit), a, b)
  {
    var ranked, out := Ranked(lanes), Fused(lanes, limit);
    AboveIsOrder(lanes);
    StableSortSorted(Ids(lanes), Above(lanes));
    MemberKept(Ids(lanes), Above(lanes));
    assert a in ranked;
    if b in out {
      var j :| 0 <= j < |out| && out[j] == b;
      var i :| 0 <= i < |ranked| && ranked[i] == a;
      SortedPositions(ranked, Above(lanes), i, j);
      assert out[i] == a;
    }
  }

  /** In every lane that lists `b`, `a` is listed at a better rank. */
  ghost predicate Dominates(lanes: Lanes, a: string, b: string) {
    forall g :: 0 <= g < |lanes| && In(lanes[g], b) ==>
      exists r, s :: 0 < r < s && At(lanes[g], a, r) && At(lanes[g], b, s)
  }

  lemma GainDominates(index: nat, lane: seq<Note>, a: string, b: string)
    requires Once(lane, b)
    requires In(lane, b) ==> exists r, s :: 0 < r < s && At(lane, a, r) && At(lane, b, s)
    ensures Gain(index, lane, a) >= Gain(index, lane, b)
    ensures In(lane, b) ==> Gain(index, lane, a) > Gain(index, lane, b)
  {
    if In(lane, b) {
      var r, s :| 0 < r < s && At(lane, a, r) && At(lane, b, s);
      GainAt(index, lane, a, r);
      GainAt(index, lane, b, s);
      SharesFall(index, r, s);
    } else {
      GainOfAbsent(index, lane, b);
      GainIsPositive(index, lane, a);
    }
  }

  lemma {:induction false} ScoreDominates(lanes: Lanes, a: string, b: string)
    requires Dominates(lanes, a, b) && forall g :: 0 <= g < |lanes| ==> Once(lanes[g], b)
    ensures Score(lanes, a) >= Score(lanes, b)
    ensures Listed(lanes, b) ==> Score(lanes, a) > Score(lanes, b)
  {
    if lanes != [] {
      var last := |lanes| - 1;
      var front := lanes[..last];
      forall g | 0 <= g < |front| ensures front[g] == lanes[g] {}
      ScoreDominates(front, a, b);
      GainDominates(last, lanes[last], a, b);
      if Listed(lanes, b) {
        var g :| 0 <= g < |lanes| && In(lanes[g], b);
        assert g < last ==> In(front[g], b);
      }
    }
  }

  /** A note ranked better in every lane where another one appears precedes it. */
  lemma DominanceIsRespected(lanes: Lanes, limit: int, a: string, b: string)
    requires Dominates(lanes, a, b) && forall g :: 0 <= g < |lanes| ==> Once(lanes[g], b)
    requires a != "" && b in Ids(lanes)
    ensures Precedes(Fused(lanes, limit), a, b)
  {
    ScoreDominates(lanes, a, b);
    IdsAre(lanes, b);
    var g :| 0 <= g < |lanes| && In(lanes[g], b);
    var r, s :| 0 < r < s && At(lanes[g], a, r) && At(lanes[g], b, s);
    assert lanes[g][r - 1].id == a;
    IdsAre(lanes, a);
    AbovePrecedes(lanes, limit, a, b);
  }

  /** Exactly when an original hit at rank `r` outweighs a rewrite hit at rank `s`, and when they tie. */
  lemma ShareThreshold(r: nat, s: nat)
    ensures Share(0, r) > Share(1, s) <==> 41 * (60 + r) < 50 * (60 + s)
    ensures Share(0, r) == Share(1, s) <==> 41 * (60 + r) == 50 * (60 + s)
  {
    var x, y := 60.0 + r as real, 60.0 + s as real;
    var a, b := 1.0 / x, 0.82 / y;
    assert a * x == 1.0 && b * y == 0.82;
    Cross(a, b, x, y);
    assert 41.0 * x == (41 * (60 + r)) as real && 50.0 * y == (50 * (60 + s)) as real;
  }

  lemma Cross(a: real, b: real, x: real, y: real)
    requires x > 0.0 && y > 0.0 && a * x == 1.0 && b * y == 0.82
    ensures a > b <==> 41.0 * x < 50.0 * y
    ensures a == b <==> 41.0 * x == 50.0 * y
  {
    assert (a - b) * (x * y) == (a * x) * y - (b * y) * x == y - 0.82 * x;
    SignOfProduct(a - b, x * y);
  }

  lemma SignOfProduct(d: real, m: real)
    requires m > 0.0
    ensures d * m > 0.0 <==> d > 0.0
    ensures d * m == 0.0 <==> d == 0.0
  {
  }

  lemma TwoLaneScores(lanes: Lanes, id: string)
    requires |lanes| == 2
    ensures Score(lanes, id) == Gain(0, lanes[0], id) + Gain(1, lanes[1], id)
  {
    var front := lanes[..1];
    assert front[..0] == [] && front[0] == lanes[0];
    assert Score(front, id) == Score(front[..0], id) + Gain(0, front[0], id);
  }

  /** With one rewrite lane, an original hit at rank `r` precedes a note that only the rewrite
      found, at rank `s`, whenever 41(60 + r) < 50(60 + s). */
  lemma OriginalPrecedesRewrite(lanes: Lanes, limit: int, a: string, r: nat, b: string, s: nat)
    requires |lanes| == 2 && a != "" && b != ""
    requires At(lanes[0], a, r) && At(lanes[1], b, s) && !In(lanes[0], b) && Once(lanes[1], b)
    requires 41 * (60 + r) < 50 * (60 + s)
    ensures Precedes(Fused(lanes, limit), a, b)
  {
    TwoLaneScores(lanes, a);
    TwoLaneScores(lanes, b);
    GainAt(0, lanes[0], a, r);
    GainIsPositive(1, lanes[1], a);
    GainOfAbsent(0, lanes[0], b);
    GainAt(1, lanes[1], b, s);
    ShareThreshold(r, s);
    assert In(lanes[0], a) && In(lanes[1], b);
    IdsAre(lanes, a);
    IdsAre(lanes, b);
    AbovePrecedes(lanes, limit, a, b);
  }

  /** What decides between notes of equal score: the later time, then the greater id. */
  predicate WinsTie(lanes: Lanes, a: string, b: string) {
    if Ts(lanes, a) != Ts(lanes, b) then StrLess(Ts(lanes, b), Ts(lanes, a)) else StrLess(b, a)
  }

  /** Of a note only the user's wording found, at rank `r`, and one only the rewrite found, at
      rank `s`, the first precedes exactly when 41(60 + r) < 50(60 + s), or when these are equal
      and it wins the tie; otherwise the second precedes. */
  lemma OriginalAgainstRewrite(lanes: Lanes, limit: int, a: string, r: nat, b: string, s: nat)
    requires |lanes| == 2 && a != "" && b != ""
    requires At(lanes[0], a, r) && Once(lanes[0], a) && !In(lanes[1], a)
    requires At(lanes[1], b, s) && Once(lanes[1], b) && !In(lanes[0], b)
    ensures if 41 * (60 + r) < 50 * (60 + s) || (41 * (60 + r) == 50 * (60 + s) && WinsTie(lanes, a, b))
      then Precedes(Fused(lanes, limit), a, b)
      else Precedes(Fused(lanes, limit), b, a)
  {
    assert In(lanes[0], a) && In(lanes[1], b);
    IdsAre(lanes, a);
    IdsAre(lanes, b);
    OnlyLaneScores(lanes, a, r, b, s);
    ShareThreshold(r, s);
    StrLessTotal(Ts(lanes, a), Ts(lanes, b));
    StrLessTotal(a, b);
    if Above(lanes)(a, b) { AbovePrecedes(lanes, limit, a, b); } else { AbovePrecedes(lanes, limit, b, a); }
  }

  lemma OnlyLaneScores(lanes: Lanes, a: string, r: nat, b: string, s: nat)
    requires |lanes| == 2
    requires At(lanes[0], a, r) && Once(lanes[0], a) && !In(lanes[1], a)
    requires At(lanes[1], b, s) && Once(lanes[1], b) && !In(lanes[0], b)
    ensures Score(lanes, a) == Share(0, r) && Score(lanes, b) == Share(1, s) && a != b
  {
    TwoLaneScores(lanes, a);
    TwoLaneScores(lanes, b);
    GainAt(0, lanes[0], a, r);
    GainOfAbsent(1, lanes[1], a);
    GainOfAbsent(0, lanes[0], b);
    GainAt(1, lanes[1], b, s);
    assert In(lanes[0], a);
  }

  /** What an original hit at rank `r` that the rewrite also lists at rank `t` weighs against a hit
      of the rewrite alone at rank `s`, over the common denominator. */
  function BothWeight(r: nat, t: nat, s: nat): int {
    50 * ((60 + t) * (60 + s)) + 41 * ((60 + r) * (60 + s)) - 41 * ((60 + r) * (60 + t))
  }

  lemma WeightAsReal(r: nat, t: nat, s: nat, x: real, y: real, z: real)
    requires x == (60 + r) as real && y == (60 + s) as real && z == (60 + t) as real
    ensures BothWeight(r, t, s) as real == 50.0 * (z * y + 0.82 * (x * y) - 0.82 * (x * z))
  {
    ProductAsReal(60 + t, 60 + s);
    ProductAsReal(60 + r, 60 + s);
    ProductAsReal(60 + r, 60 + t);
    LinearAsReal((60 + t) * (60 + s), (60 + r) * (60 + s), (60 + r) * (60 + t));
  }

  lemma LinearAsReal(p: int, q: int, m: int)
    ensures (50 * p + 41 * q - 41 * m) as real == 50.0 * (p as real + 0.82 * q as real - 0.82 * m as real)
  {
  }

  /** Exactly when an original hit that the rewrite also lists outweighs a hit of the rewrite alone. */
  lemma BothThreshold(r: nat, t: nat, s: nat)
    ensures Share(0, r) + Share(1, t) > Share(1, s) <==> BothWeight(r, t, s) > 0
    ensures Share(0, r) + Share(1, t) == Share(1, s) <==> BothWeight(r, t, s) == 0
  {
    var x, y, z := (60 + r) as real, (60 + s) as real, (60 + t) as real;
    var a, b, c := 1.0 / x, 0.82 / y, 0.82 / z;
    assert a * x == 1.0 && b * y == 0.82 && c * z == 0.82;
    SharesAgainst(a, b, c, x, y, z);
    WeightAsReal(r, t, s, x, y, z);
  }

  lemma SharesAgainst(a: real, b: real, c: real, x: real, y: real, z: real)
    requires x > 0.0 && y > 0.0 && z > 0.0 && a * x == 1.0 && b * y == 0.82 && c * z == 0.82
    ensures a + c > b <==> z * y + 0.82 * (x * y) - 0.82 * (x * z) > 0.0
    ensures a + c == b <==> z * y + 0.82 * (x * y) - 0.82 * (x * z) == 0.0
  {
    ProductIsPositive(y, z);
    ProductIsPositive(x, y * z);
    CommonDenominator(a, b, c, x, y, z);
    SignOfProduct(a + c - b, x * (y * z));
  }

  lemma CommonDenominator(a: real, b: real, c: real, x: real, y: real, z: real)
    requires a * x == 1.0 && b * y == 0.82 && c * z == 0.82
    ensures (a + c - b) * (x * (y * z)) == z * y + 0.82 * (x * y) - 0.82 * (x * z)
  {
    assert a * (x * (y * z)) == (a * x) * (y * z) == z * y;
    assert c * (x * (y * z)) == (c * z) * (x * y) == 0.82 * (x * y);
    assert b * (x * (y * z)) == (b * y) * (x * z) == 0.82 * (x * z);
  }

  lemma ProductIsPositive(m: real, n: real)
    requires m > 0.0 && n > 0.0
    ensures m * n > 0.0
  {
  }

  lemma ProductAsReal(m: int, n: int)
    ensures (m * n) as real == m as real * n as real
  {
  }

  /** An original hit at rank `r` that the rewrite lists too, at rank `t`, precedes a note only the
      rewrite found, at rank `s`, exactly when its weight over the common denominator is positive,
      or zero and it wins the tie; otherwise the second precedes. */
  lemma SharedAgainstRewrite(lanes: Lanes, limit: int, a: string, r: nat, t: nat, b: string, s: nat)
    requires |lanes| == 2 && a != "" && b != ""
    requires At(lanes[0], a, r) && Once(lanes[0], a) && At(lanes[1], a, t) && Once(lanes[1], a)
    requires At(lanes[1], b, s) && Once(lanes[1], b) && !In(lanes[0], b)
    ensures if BothWeight(r, t, s) > 0 || (BothWeight(r, t, s) == 0 && WinsTie(lanes, a, b))
      then Precedes(Fused(lanes, limit), a, b)
      else Precedes(Fused(lanes, limit), b, a)
  {
    assert In(lanes[0], a) && In(lanes[1], b);
    IdsAre(lanes, a);
    IdsAre(lanes, b);
    SharedScores(lanes, a, r, t, b, s);
    BothThreshold(r, t, s);
    StrLessTotal(Ts(lanes, a), Ts(lanes, b));
    StrLessTotal(a, b);
    if Above(lanes)(a, b) { AbovePrecedes(lanes, limit, a, b); } else { AbovePrecedes(lanes, limit, b, a); }
  }

  lemma SharedScores(lanes: Lanes, a: string, r: nat, t: nat, b: string, s: nat)
    requires |lanes| == 2
    requires At(lanes[0], a, r) && Once(lanes[0], a) && At(lanes[1], a, t) && Once(lanes[1], a)
    requires At(lanes[1], b, s) && Once(lanes[1], b) && !In(lanes[0], b)
    ensures Score(lanes, a) == Share(0, r) + Share(1, t) && Score(lanes, b) == Share(1, s) && a != b
  {
    TwoLaneScores(lanes, a);
    TwoLaneScores(lanes, b);
    GainAt(0, lanes[0], a, r);
    GainAt(1, lanes[1], a, t);
    GainOfAbsent(0, lanes[0], b);
    GainAt(1, lanes[1], b, s);
    assert In(lanes[0], a);
  }

  /** Each of the first 14 hits of the user's wording precedes every note found only by the
      rewrite, because 1/74 > 0.82/61. */
  lemma TopFourteenAreSafe(lanes: Lanes, limit: int, a: string, r: nat, b: string)
    requires |lanes| == 2 && a != "" && b != "" && r <= 14
    requires At(lanes[0], a, r) && In(lanes[1], b) && !In(lanes[0], b) && Once(lanes[1], b)
    ensures Precedes(Fused(lanes, limit), a, b)
  {
    var i :| 0 <= i < |lanes[1]| && lanes[1][i].id == b;
    OriginalPrecedesRewrite(lanes, limit, a, r, b, i + 1);
  }

  /** Fourteen is sharp: from rank 15 on, an original hit that the rewrite misses is overtaken by
      the best hit of the rewrite. */
  lemma FifteenthIsOvertaken(lanes: Lanes, limit: int, a: string, r: nat, b: string)
    requires |lanes| == 2 && a != "" && b != "" && r >= 15
    requires At(lanes[0], a, r) && Once(lanes[0], a) && !In(lanes[1], a) && At(lanes[1], b, 1)
    ensures Precedes(Fused(lanes, limit), b, a)
  {
    TwoLaneScores(lanes, a);
    TwoLaneScores(lanes, b);
    GainAt(0, lanes[0], a, r);
    GainOfAbsent(1, lanes[1], a);
    GainIsPositive(0, lanes[0], b);
    GainAt(1, lanes[1], b, 1);
    ShareThreshold(r, 1);
    assert In(lanes[0], a) && In(lanes[1], b);
    IdsAre(lanes, a);
    IdsAre(lanes, b);
    AbovePrecedes(lanes, limit, b, a);
  }

  // ----- the fusion as the source performs it -----

  /** The dictionaries `rows` and `scores`, and the insertion order of `rows`. */
  datatype Tally = Tally(order: seq<string>, rows: map<string, Note>, scores: map<string, real>)

  ghost predicate Entry(lanes: Lanes, t: Tally, id: string) {
    id in t.rows && id in t.scores && RowOf(lanes, id) == Some(t.rows[id]) && t.scores[id] == Score(lanes, id)
  }

  ghost predicate AllEntries(lanes: Lanes, t: Tally) {
    forall id :: id in t.order ==> Entry(lanes, t, id)
  }

  ghost predicate OnlyKnown(t: Tally) {
    forall id :: id in t.rows || id in t.scores ==> id in t.order
  }

  ghost predicate Tallied(lanes: Lanes, t: Tally) {
    t.order == Ids(lanes) && AllEntries(lanes, t) && OnlyKnown(t)
  }

  /** The dictionary updates for one row. */
  function Counted(t: Tally, x: Note, g: nat, rank: nat): Tally {
    if x.id == "" then t
    else
      Tally(
        if x.id in t.rows then t.order else t.order + [x.id],
        if x.id in t.rows then t.rows else t.rows[x.id := x],
        t.scores[x.id := (if x.id in t.scores then t.scores[x.id] else 0.0) + Share(g, rank)])
  }

  lemma Unfold(done: Lanes, lane: seq<Note>, id: string)
    ensures var lanes := done + [lane];
      && Ids(lanes) == IdsFrom(Ids(done), lane)
      && Score(lanes, id) == Score(done, id) + Gain(|done|, lane, id)
      && RowOf(lanes, id) == if RowOf(done, id).Some? then RowOf(done, id) else RowIn(lane, id)
  {
    assert (done + [lane])[..|done|] == done;
  }

  /** What one row more changes, id by id. */
  lemma OneRow(done: Lanes, lane: seq<Note>, x: Note, id: string)
    ensures var before, after := done + [lane], done + [lane + [x]];
      && Score(after, id) == (if x.id == id then Score(before, id) + Share(|done|, |lane| + 1) else Score(before, id))
      && RowOf(after, id) == (if RowOf(before, id).None? && x.id == id then Some(x) else RowOf(before, id))
      && Ids(after) == (if x.id == "" || x.id in Ids(before) then Ids(before) else Ids(before) + [x.id])
  {
    assert (lane + [x])[..|lane|] == lane;
    Unfold(done, lane, id);
    Unfold(done, lane + [x], id);
  }

  lemma {:induction false} ListedHasRow(lane: seq<Note>, id: string)
    ensures RowIn(lane, id).Some? <==> In(lane, id)
    ensures RowIn(lane, id).Some? ==> RowIn(lane, id).value.id == id
  {
    if lane != [] {
      var front := lane[..|lane| - 1];
      ListedHasRow(front, id);
      assert In(lane, id) <==> In(front, id) || lane[|lane| - 1].id == id by {
        if i :| 0 <= i < |front| && front[i].id == id { assert lane[i].id == id; }
        if i :| 0 <= i < |lane| && lane[i].id == id { assert i < |front| ==> front[i].id == id; }
      }
    }
  }

  /** Ids, rows and scores speak of the same notes. */
  lemma {:induction false} KnownHasRow(lanes: Lanes, id: string)
    requires id != ""
    ensures id in Ids(lanes) <==> RowOf(lanes, id).Some?
    ensures RowOf(lanes, id).Some? ==> RowOf(lanes, id).value.id == id
    ensures id !in Ids(lanes) ==> Score(lanes, id) == 0.0
  {
    if lanes != [] {
      var front, last := lanes[..|lanes| - 1], lanes[|lanes| - 1];
      KnownHasRow(front, id);
      ListedHasRow(last, id);
      IdsAre(front, id);
      IdsFromIs(Ids(front), last, id);
      if !In(last, id) { GainOfAbsent(|lanes| - 1, last, id); }
    }
  }

  lemma CountedEntry(done: Lanes, lane: seq<Note>, x: Note, t: Tally, id: string)
    requires Tallied(done + [lane], t) && x.id != "" && (id == x.id || id in t.order)
    ensures Entry(done + [lane + [x]], Counted(t, x, |done|, |lane| + 1), id)
  {
    OneRow(done, lane, x, id);
    KnownHasRow(done + [lane], x.id);
    assert id in t.order ==> Entry(done + [lane], t, id);
  }

  lemma CountedOrder(done: Lanes, lane: seq<Note>, x: Note, t: Tally)
    requires Tallied(done + [lane], t)
    ensures Counted(t, x, |done|, |lane| + 1).order == Ids(done + [lane + [x]])
  {
    OneRow(done, lane, x, x.id);
    assert x.id in t.order ==> Entry(done + [lane], t, x.id);
  }

  lemma CountedKnown(t: Tally, x: Note, g: nat, rank: nat)
    requires OnlyKnown(t)
    ensures OnlyKnown(Counted(t, x, g, rank))
  {
    var next := Counted(t, x, g, rank);
    if x.id != "" {
      assert x.id in next.order;
      forall id | id in next.rows || id in next.scores ensures id in next.order {
        assert id == x.id || id in t.order;
      }
    }
  }

  lemma CountedKeeps(done: Lanes, lane: seq<Note>, x: Note, t: Tally)
    requires Tallied(done + [lane], t)
    ensures Tallied(done + [lane + [x]], Counted(t, x, |done|, |lane| + 1))
  {
    var next, after := Counted(t, x, |done|, |lane| + 1), done + [lane + [x]];
    CountedOrder(done, lane, x, t);
    CountedKnown(t, x, |done|, |lane| + 1);
    if x.id == "" {
      forall id | id in t.order ensures Entry(after, t, id) {
        assert Entry(done + [lane], t, id);
        OneRow(done, lane, x, id);
        IdsAre(done + [lane], id);
      }
    } else {
      forall id | id in next.order ensures Entry(after, next, id) {
        assert id == x.id || id in t.order;
        CountedEntry(done, lane, x, t, id);
      }
    }
  }

  lemma NewLane(done: Lanes, t: Tally)
    requires Tallied(done, t)
    ensures Tallied(done + [[]], t)
  {
    Unfold(done, [], "");
    forall id | id in t.order ensures Entry(done + [[]], t, id) {
      assert Entry(done, t, id);
      Unfold(done, [], id);
    }
  }

  method CountRow(t: Tally, x: Note, g: nat, rank: nat) returns (next: Tally)
    ensures next == Counted(t, x, g, rank)
  {
    next := t;
    if x.id == "" {
      return;
    }
    if x.id !in next.rows {
      next := next.(order := next.order + [x.id], rows := next.rows[x.id := x]);
    }
    var before := if x.id in next.scores then next.scores[x.id] else 0.0;
    next := next.(scores := next.scores[x.id := before + Share(g, rank)]);
  }

  method CountLane(t: Tally, lane: seq<Note>, g: nat, ghost done: Lanes) returns (next: Tally)
    requires Tallied(done, t) && g == |done|
    ensures Tallied(done + [lane], next)
  {
    next := t;
    NewLane(done, t);
    assert lane[..0] == [];
    for i := 0 to |lane|
      invariant Tallied(done + [lane[..i]], next)
    {
      CountedKeeps(done, lane[..i], lane[i], next);
      next := CountRow(next, lane[i], g, i + 1);
      assert lane[..i + 1] == lane[..i] + [lane[i]];
    }
    assert lane[..|lane|] == lane;
  }

  method Count(lanes: Lanes) returns (t: Tally)
    ensures Tallied(lanes, t)
  {
    t := Tally([], map[], map[]);
    assert lanes[..0] == [];
    for g := 0 to |lanes|
      invariant Tallied(lanes[..g], t)
    {
      t := CountLane(t, lanes[g], g, lanes[..g]);
      assert lanes[..g + 1] == lanes[..g] + [lanes[g]];
    }
    assert lanes[..|lanes|] == lanes;
  }

  function TsIn(t: Tally, id: string): string {
    if id in t.rows then t.rows[id].ts else ""
  }

  function ScoreIn(t: Tally, id: string): real {
    if id in t.scores then t.scores[id] else 0.0
  }

  function AboveIn(t: Tally): (string, string) -> bool {
    (a, b) => Outranks(ScoreIn(t, a), TsIn(t, a), a, ScoreIn(t, b), TsIn(t, b), b)
  }

  lemma TallyEntry(lanes: Lanes, t: Tally, id: string)
    requires Tallied(lanes, t) && id in t.order
    ensures ScoreIn(t, id) == Score(lanes, id) && TsIn(t, id) == Ts(lanes, id)
  {
    assert Entry(lanes, t, id);
  }

  lemma TallyOrder(lanes: Lanes, t: Tally)
    requires Tallied(lanes, t)
    ensures StableSort(t.order, AboveIn(t)) == Ranked(lanes)
  {
    forall a, b | a in t.order && b in t.order ensures AboveIn(t)(a, b) == Above(lanes)(a, b) {
      TallyEntry(lanes, t, a);
      TallyEntry(lanes, t, b);
    }
    SortSame(t.order, AboveIn(t), Above(lanes));
  }

  lemma EntryRow(lanes: Lanes, t: Tally, id: string)
    requires Tallied(lanes, t) && id in t.order
    ensures id in t.rows && RowOf(lanes, id) == Some(t.rows[id])
  {
    assert Entry(lanes, t, id);
  }

  lemma FusedAreKnown(lanes: Lanes, limit: int)
    ensures forall id :: id in Fused(lanes, limit) ==> id in Ids(lanes)
  {
    MemberKept(Ids(lanes), Above(lanes));
    assert forall id :: id in Fused(lanes, limit) ==> id in Ranked(lanes);
  }

  method RowsFor(lanes: Lanes, t: Tally, ids: seq<string>) returns (out: seq<Note>)
    requires Tallied(lanes, t) && forall id :: id in ids ==> id in t.order
    ensures |out| == |ids| && forall i :: 0 <= i < |out| ==> RowOf(lanes, ids[i]) == Some(out[i])
  {
    out := [];
    for i := 0 to |ids|
      invariant |out| == i && forall k :: 0 <= k < i ==> RowOf(lanes, ids[k]) == Some(out[k])
    {
      EntryRow(lanes, t, ids[i]);
      out := out + [t.rows[ids[i]]];
    }
  }

  /** Fusion returns the first rows of the best-scored notes. */
  method FuseNoteVariants(lanes: Lanes, limit: int) returns (out: seq<Note>)
    ensures |out| == |Fused(lanes, limit)|
    ensures forall i :: 0 <= i < |out| ==> RowOf(lanes, Fused(lanes, limit)[i]) == Some(out[i])
  {
    var t := Count(lanes);
    TallyOrder(lanes, t);
    var ordered := StableSort(t.order, AboveIn(t));
    var cap := if limit < 1 then 1 else if limit > 50 then 50 else limit;
    var ids := ordered[..if |ordered| < cap then |ordered| else cap];
    FusedAreKnown(lanes, limit);
    out := RowsFor(lanes, t, ids);
  }

  // ----- the lanes of a query unit -----

  /** The user's wording, then the planner's topic unless it is the same (agent/ask_executor.py:331-335). */
  function QueryVariants(question: string, topic: string, blank: string -> bool): seq<string> {
    (if blank(question) then [] else [question]) + (if blank(topic) || (topic == question && !blank(question)) then [] else [topic])
  }

  /** There is at most one rewrite lane, and the first lane is the user's wording if it has any. */
  lemma AtMostOneRewrite(question: string, topic: string, blank: string -> bool)
    ensures var variants := QueryVariants(question, topic, blank);
      && |variants| <= 2 && Distinct(variants)
      && (forall v :: v in variants <==> !blank(v) && (v == question || v == topic))
      && (!blank(question) ==> variants[0] == question)
  {
  }
}
