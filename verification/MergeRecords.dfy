/** Fusing the recall lanes of one query unit (agent/ask_executor.py:384-436). Lane 0 is the
    user's own wording; scores are exact fractions here. */
module MergeRecords {
  import opened Options
  import opened Ordering

  datatype Item = Item(id: string, memoryId: string, content: string)

  type Lanes = seq<seq<Item>>

  function Key(x: Item): string {
    if x.id != "" then x.id else if x.memoryId != "" then x.memoryId else x.content
  }

  function Weight(lane: nat): real {
    if lane == 0 then 1.15 else 1.0
  }

  // ----- what a lane says about a key -----

  /** Position, from 1, of the first item with this key; 0 when there is none. */
  function Rank(lane: seq<Item>, key: string): (r: nat)
    ensures r <= |lane| && (r > 0 ==> Key(lane[r - 1]) == key)
  {
    if lane == [] then 0
    else
      var r := Rank(lane[..|lane| - 1], key);
      if r > 0 then r else if Key(lane[|lane| - 1]) == key then |lane| else 0
  }

  /** What a hit at some rank of a lane is worth. */
  function Share(lane: nat, rank: nat): real {
    Weight(lane) / (60 + rank) as real
  }

  /** Exactly when a hit of the original query outweighs a hit of another lane. */
  lemma ShareThreshold(g: nat, r: nat, s: nat)
    requires g > 0
    ensures Share(0, r) > Share(g, s) <==> 20 * (60 + r) < 23 * (60 + s)
  {
    var x, y := (60 + r) as real, (60 + s) as real;
    var a, b := 1.15 / x, 1.0 / y;
    assert a * x == 1.15 && b * y == 1.0;
    Cross(a, b, x, y);
    assert 20.0 * x == (20 * (60 + r)) as real && 23.0 * y == (23 * (60 + s)) as real;
  }

  lemma Cross(a: real, b: real, x: real, y: real)
    requires x > 0.0 && y > 0.0 && a * x == 1.15 && b * y == 1.0
    ensures a > b <==> x < 1.15 * y
  {
    assert (a - b) * (x * y) == (a * x) * y - (b * y) * x == 1.15 * y - x;
    assert x * y > 0.0;
    if a > b { assert (a - b) * (x * y) > 0.0; }
    if a <= b { assert (b - a) * (x * y) >= 0.0; }
  }

  function Gain(index: nat, lane: seq<Item>, key: string): real {
    if Rank(lane, key) > 0 then Share(index, Rank(lane, key)) else 0.0
  }

  /** Reciprocal rank fusion: the sum of the lanes' weighted reciprocal ranks. */
  function Score(lanes: Lanes, key: string): real {
    if lanes == [] then 0.0
    else Score(lanes[..|lanes| - 1], key) + Gain(|lanes| - 1, lanes[|lanes| - 1], key)
  }

  function RanksOf(lanes: Lanes, key: string): map<nat, nat> {
    if lanes == [] then map[]
    else
      var before, last := RanksOf(lanes[..|lanes| - 1], key), |lanes| - 1;
      if Rank(lanes[last], key) > 0 then before[last := Rank(lanes[last], key)] else before
  }

  lemma {:induction false} RanksAre(lanes: Lanes, key: string, g: nat)
    ensures g in RanksOf(lanes, key) <==> g < |lanes| && Rank(lanes[g], key) > 0
    ensures g in RanksOf(lanes, key) ==> RanksOf(lanes, key)[g] == Rank(lanes[g], key)
  {
    if lanes != [] {
      RanksAre(lanes[..|lanes| - 1], key, g);
    }
  }

  /** The record kept for a key is the first one met. */
  function ItemOf(lanes: Lanes, key: string): Option<Item> {
    if lanes == [] then None
    else if ItemOf(lanes[..|lanes| - 1], key).Some? then ItemOf(lanes[..|lanes| - 1], key)
    else if Rank(lanes[|lanes| - 1], key) > 0 then Some(lanes[|lanes| - 1][Rank(lanes[|lanes| - 1], key) - 1])
    else None
  }

  function KeysFrom(keys: seq<string>, lane: seq<Item>): seq<string> {
    if lane == [] then keys
    else
      var before := KeysFrom(keys, lane[..|lane| - 1]);
      var key := Key(lane[|lane| - 1]);
      if key == "" || key in before then before else before + [key]
  }

  /** Every key, in the order in which it is first met. */
  function Keys(lanes: Lanes): seq<string> {
    if lanes == [] then [] else KeysFrom(Keys(lanes[..|lanes| - 1]), lanes[|lanes| - 1])
  }

  lemma {:induction false} KeysFromIs(keys: seq<string>, lane: seq<Item>, key: string)
    requires Distinct(keys) && "" !in keys
    ensures Distinct(KeysFrom(keys, lane)) && "" !in KeysFrom(keys, lane)
    ensures key in KeysFrom(keys, lane) <==> key in keys || (key != "" && Rank(lane, key) > 0)
  {
    if lane != [] {
      KeysFromIs(keys, lane[..|lane| - 1], key);
    }
  }

  lemma {:induction false} KeysDistinct(lanes: Lanes)
    ensures Distinct(Keys(lanes)) && "" !in Keys(lanes)
  {
    if lanes != [] {
      KeysDistinct(lanes[..|lanes| - 1]);
      KeysFromIs(Keys(lanes[..|lanes| - 1]), lanes[|lanes| - 1], "");
    }
  }

  /** Some lane has an item with this key. */
  ghost predicate Met(lanes: Lanes, key: string) {
    exists g: nat :: g < |lanes| && Rank(lanes[g], key) > 0
  }

  lemma MetSplit(lanes: Lanes, key: string)
    requires lanes != []
    ensures Met(lanes, key) <==> Met(lanes[..|lanes| - 1], key) || Rank(lanes[|lanes| - 1], key) > 0
  {
    var front := lanes[..|lanes| - 1];
    if Met(front, key) {
      var g: nat :| g < |front| && Rank(front[g], key) > 0;
      assert Rank(lanes[g], key) > 0;
    }
    if Met(lanes, key) {
      var g: nat :| g < |lanes| && Rank(lanes[g], key) > 0;
      assert g < |front| ==> front[g] == lanes[g];
    }
  }

  /** The keys are the non-empty keys of all items, each once. */
  lemma {:induction false} KeysAre(lanes: Lanes, key: string)
    ensures key in Keys(lanes) <==> key != "" && Met(lanes, key)
  {
    if lanes != [] {
      var front := lanes[..|lanes| - 1];
      KeysAre(front, key);
      KeysDistinct(front);
      KeysFromIs(Keys(front), lanes[|lanes| - 1], key);
      MetSplit(lanes, key);
    }
  }

  /** Every key that is met has a record, and the record has that key. */
  lemma {:induction false} ItemHasKey(lanes: Lanes, key: string)
    ensures ItemOf(lanes, key).Some? <==> Met(lanes, key)
    ensures ItemOf(lanes, key).Some? ==> Key(ItemOf(lanes, key).value) == key
  {
    if lanes != [] {
      ItemHasKey(lanes[..|lanes| - 1], key);
      MetSplit(lanes, key);
    }
  }

  // ----- the final order -----

  /** The least of the ranks in the first `n` lanes. */
  function BestRank(ranks: map<nat, nat>, n: nat): (best: Option<nat>)
    ensures best.None? <==> forall g: nat :: g < n ==> g !in ranks
    ensures best.Some? ==> forall g: nat :: g < n && g in ranks ==> best.value <= ranks[g]
    ensures best.Some? ==> exists g: nat :: g < n && g in ranks && ranks[g] == best.value
  {
    if n == 0 then None
    else
      var before := BestRank(ranks, n - 1);
      if n - 1 !in ranks then before
      else if before.None? || ranks[n - 1] < before.value then Some(ranks[n - 1])
      else before
  }

  datatype Standing = Standing(score: real, primary: bool, best: nat)

  function StandingOf(score: real, ranks: map<nat, nat>, count: nat): Standing {
    var best := BestRank(ranks, count);
    Standing(score, 0 in ranks, if best.None? then 10000 else best.value)
  }

  /** Higher score first; then keys of the original query; then the better best rank; then the
      greater key. */
  predicate Outranks(a: Standing, aKey: string, b: Standing, bKey: string) {
    if a.score != b.score then a.score > b.score
    else if a.primary != b.primary then a.primary
    else if a.best != b.best then a.best < b.best
    else StrLess(bKey, aKey)
  }

  function Rated(lanes: Lanes, key: string): Standing {
    StandingOf(Score(lanes, key), RanksOf(lanes, key), |lanes|)
  }

  function Above(lanes: Lanes): (string, string) -> bool {
    (a, b) => Outranks(Rated(lanes, a), a, Rated(lanes, b), b)
  }

  lemma OutranksIsOrder(a: Standing, aKey: string, b: Standing, bKey: string, c: Standing, cKey: string)
    ensures !(Outranks(a, aKey, b, bKey) && Outranks(b, bKey, a, aKey))
    ensures aKey != bKey ==> Outranks(a, aKey, b, bKey) || Outranks(b, bKey, a, aKey)
    ensures Outranks(a, aKey, c, cKey) && aKey != bKey && !Outranks(a, aKey, b, bKey) ==> Outranks(b, bKey, c, cKey)
    ensures Outranks(a, aKey, c, cKey) && aKey == bKey && a == b ==> Outranks(b, bKey, c, cKey)
  {
    StrLessTotal(aKey, bKey);
    StrLessTotal(bKey, cKey);
    StrLessTotal(aKey, cKey);
    if StrLess(bKey, cKey) && StrLess(aKey, bKey) { StrLessTransitive(aKey, bKey, cKey); }
    if StrLess(cKey, aKey) && StrLess(aKey, bKey) { StrLessTransitive(cKey, aKey, bKey); }
  }

  lemma AboveIsOrder(lanes: Lanes)
    ensures StrictWeak(Above(lanes))
    ensures forall a, b :: a != b ==> Above(lanes)(a, b) || Above(lanes)(b, a)
  {
    forall a, b ensures Above(lanes)(a, b) ==> !Above(lanes)(b, a)
      ensures a != b ==> Above(lanes)(a, b) || Above(lanes)(b, a)
    {
      OutranksIsOrder(Rated(lanes, a), a, Rated(lanes, b), b, Rated(lanes, a), a);
    }
    forall a, b, c ensures Above(lanes)(a, c) ==> Above(lanes)(a, b) || Above(lanes)(b, c) {
      OutranksIsOrder(Rated(lanes, a), a, Rated(lanes, b), b, Rated(lanes, c), c);
    }
  }

  // ----- the merge -----

  function Target(limit: int): (t: nat)
    ensures t >= 1
  {
    if limit > 1 then limit else 1
  }

  /** How many hits of the original query are safe. */
  function Floor(primary: seq<string>, target: nat): nat {
    var half := if target / 2 > 1 then target / 2 else 1;
    if |primary| < half then |primary| else half
  }

  function Primary(lanes: Lanes): seq<string> {
    if lanes == [] then [] else KeysFrom([], lanes[0])
  }

  /** The key with the smallest rank in a lane. */
  function Closest(available: seq<string>, rank: string -> nat): (key: string)
    requires available != []
    ensures key in available && forall other :: other in available ==> rank(key) <= rank(other)
  {
    if |available| == 1 then available[0]
    else
      var rest := Closest(available[1..], rank);
      if rank(available[0]) <= rank(rest) then available[0] else rest
  }

  /** The keys a lane could still contribute. */
  function Available(keys: seq<string>, lane: seq<Item>, selected: seq<string>): seq<string> {
    Filter(keys, k => k !in selected && Rank(lane, k) > 0)
  }

  /** What the turn of a lane adds. */
  function Turn(keys: seq<string>, lane: seq<Item>, selected: seq<string>, target: nat): seq<string> {
    var available := Available(keys, lane, selected);
    if available != [] && |selected| < target then selected + [Closest(available, k => Rank(lane, k))] else selected
  }

  /** Each lane from `g` on contributes its best key that is not selected yet, while there is room. */
  function WithLanes(lanes: Lanes, keys: seq<string>, selected: seq<string>, g: nat, target: nat): seq<string>
    decreases |lanes| - g
  {
    if g >= |lanes| then selected
    else WithLanes(lanes, keys, Turn(keys, lanes[g], selected, target), g + 1, target)
  }

  function Laned(lanes: Lanes, target: nat): seq<string> {
    WithLanes(lanes, Keys(lanes), Primary(lanes)[..Floor(Primary(lanes), target)], 1, target)
  }

  function Remaining(lanes: Lanes, laned: seq<string>): seq<string> {
    StableSort(Filter(Keys(lanes), k => k !in laned), Above(lanes))
  }

  function Merged(lanes: Lanes, limit: int): seq<string> {
    var target := Target(limit);
    if |lanes| <= 1 then Primary(lanes)[..if |Primary(lanes)| < target then |Primary(lanes)| else target]
    else
      var laned := Laned(lanes, target);
      var rest := Remaining(lanes, laned);
      var room := if target > |laned| then target - |laned| else 0;
      laned + rest[..if |rest| < room then |rest| else room]
  }

  // ----- what the merge guarantees -----

  lemma PrimaryIs(lanes: Lanes, key: string)
    ensures Distinct(Primary(lanes))
    ensures lanes != [] ==> (key in Primary(lanes) <==> key != "" && Rank(lanes[0], key) > 0)
    ensures key in Primary(lanes) ==> key in Keys(lanes)
  {
    if lanes != [] {
      KeysFromIs([], lanes[0], key);
      KeysAre(lanes, key);
    }
  }

  /** The selection of keys so far: no duplicates, only known keys, within the target. */
  ghost predicate Chosen(keys: seq<string>, selected: seq<string>, target: nat) {
    Distinct(selected) && |selected| <= target && forall k :: k in selected ==> k in keys
  }

  lemma AvailableAre(keys: seq<string>, lane: seq<Item>, selected: seq<string>, key: string)
    ensures key in Available(keys, lane, selected) <==> key in keys && key !in selected && Rank(lane, key) > 0
  {
    FilterMembers(keys, k => k !in selected && Rank(lane, k) > 0);
  }

  lemma TurnIs(keys: seq<string>, lane: seq<Item>, selected: seq<string>, target: nat)
    requires Chosen(keys, selected, target)
    ensures var next := Turn(keys, lane, selected, target);
      Chosen(keys, next, target) && selected <= next && |next| <= |selected| + 1
  {
    var available := Available(keys, lane, selected);
    if available != [] {
      AvailableAre(keys, lane, selected, Closest(available, k => Rank(lane, k)));
    }
  }

  lemma {:induction false} WithLanesChosen(lanes: Lanes, keys: seq<string>, selected: seq<string>, g: nat, target: nat)
    requires Chosen(keys, selected, target)
    ensures Chosen(keys, WithLanes(lanes, keys, selected, g, target), target)
    ensures selected <= WithLanes(lanes, keys, selected, g, target)
    decreases |lanes| - g
  {
    if g < |lanes| {
      TurnIs(keys, lanes[g], selected, target);
      WithLanesChosen(lanes, keys, Turn(keys, lanes[g], selected, target), g + 1, target);
    }
  }

  /** With room left, a lane that has any hit is heard. */
  lemma TurnIsHeard(keys: seq<string>, lane: seq<Item>, selected: seq<string>, target: nat, key: string)
    requires |selected| < target && key in keys && Rank(lane, key) > 0
    ensures exists k :: k in Turn(keys, lane, selected, target) && Rank(lane, k) > 0
  {
    var available, next := Available(keys, lane, selected), Turn(keys, lane, selected, target);
    AvailableAre(keys, lane, selected, key);
    if key in selected {
      assert key in next;
    } else {
      var picked := Closest(available, k => Rank(lane, k));
      AvailableAre(keys, lane, selected, picked);
      assert next[|selected|] == picked && picked in next;
    }
  }

  /** Lane `h` gets a key in while the lanes before it cannot have used the room up. */
  lemma {:induction false} LaneContributes(lanes: Lanes, selected: seq<string>, g: nat, h: nat, key: string, target: nat)
    requires g <= h < |lanes| && key in Keys(lanes) && Rank(lanes[h], key) > 0
    requires Chosen(Keys(lanes), selected, target) && |selected| + (h - g) < target
    ensures exists k :: k in WithLanes(lanes, Keys(lanes), selected, g, target) && Rank(lanes[h], k) > 0
    decreases h - g
  {
    var keys := Keys(lanes);
    var next := Turn(keys, lanes[g], selected, target);
    TurnIs(keys, lanes[g], selected, target);
    if g < h {
      LaneContributes(lanes, next, g + 1, h, key, target);
    } else {
      TurnIsHeard(keys, lanes[g], selected, target, key);
      WithLanesChosen(lanes, keys, next, g + 1, target);
    }
  }

  lemma FloorChosen(lanes: Lanes, target: nat)
    requires target >= 1
    ensures Chosen(Keys(lanes), Primary(lanes)[..Floor(Primary(lanes), target)], target)
  {
    forall k | k in Primary(lanes) ensures k in Keys(lanes) { PrimaryIs(lanes, k); }
    PrimaryIs(lanes, "");
  }

  lemma RemainingAre(lanes: Lanes, laned: seq<string>)
    requires Distinct(laned) && forall k :: k in laned ==> k in Keys(lanes)
    ensures |Remaining(lanes, laned)| == |Keys(lanes)| - |laned|
    ensures Distinct(Remaining(lanes, laned)) && Sorted(Remaining(lanes, laned), Above(lanes))
    ensures forall k :: k in Remaining(lanes, laned) <==> k in Keys(lanes) && k !in laned
  {
    var keys, rest := Keys(lanes), k => k !in laned;
    KeysDistinct(lanes);
    RestCount(keys, laned, rest);
    FilterDistinct(keys, rest);
    FilterMembers(keys, rest);
    StableSortKeeps(Filter(keys, rest), Above(lanes));
    SortDistinct(Filter(keys, rest), Above(lanes));
    MemberKept(Filter(keys, rest), Above(lanes));
    AboveIsOrder(lanes);
    StableSortSorted(Filter(keys, rest), Above(lanes));
  }

  lemma OneLane(lanes: Lanes)
    requires |lanes| <= 1
    ensures Primary(lanes) == Keys(lanes)
  {
    if |lanes| == 1 { assert lanes[..0] == []; }
  }

  lemma LanedChosen(lanes: Lanes, target: nat)
    requires target >= 1
    ensures Chosen(Keys(lanes), Laned(lanes, target), target)
    ensures Primary(lanes)[..Floor(Primary(lanes), target)] <= Laned(lanes, target)
  {
    FloorChosen(lanes, target);
    WithLanesChosen(lanes, Keys(lanes), Primary(lanes)[..Floor(Primary(lanes), target)], 1, target);
  }

  lemma JoinChosen(keys: seq<string>, laned: seq<string>, rest: seq<string>, n: nat, target: nat)
    requires Chosen(keys, laned, target) && Distinct(rest) && n <= |rest| && |laned| + n <= target
    requires forall k :: k in rest ==> k in keys && k !in laned
    ensures Chosen(keys, laned + rest[..n], target)
  {
    var out := laned + rest[..n];
    forall k | k in out ensures k in keys {
      assert k in laned || k in rest;
    }
    forall i, j | 0 <= i < j < |out| ensures out[i] != out[j] {
      assert j >= |laned| ==> out[j] == rest[j - |laned|] && out[j] in rest;
      assert i < |laned| ==> out[i] in laned;
    }
  }

  /** The output has exactly min(target, number of distinct keys) keys, all known, none twice. */
  lemma MergedCount(lanes: Lanes, limit: int)
    ensures |Merged(lanes, limit)| == if |Keys(lanes)| < Target(limit) then |Keys(lanes)| else Target(limit)
    ensures Chosen(Keys(lanes), Merged(lanes, limit), Target(limit))
  {
    var target := Target(limit);
    if |lanes| <= 1 {
      OneLane(lanes);
      KeysDistinct(lanes);
    } else {
      var laned := Laned(lanes, target);
      LanedChosen(lanes, target);
      RemainingAre(lanes, laned);
      var rest := Remaining(lanes, laned);
      JoinChosen(Keys(lanes), laned, rest, if |rest| < target - |laned| then |rest| else target - |laned|, target);
    }
  }

  /** The first max(1, target/2) hits of the original query lead, in their order. */
  lemma PrimaryLeads(lanes: Lanes, limit: int)
    ensures Primary(lanes)[..Floor(Primary(lanes), Target(limit))] <= Merged(lanes, limit)
  {
    if |lanes| > 1 {
      LanedChosen(lanes, Target(limit));
    }
  }

  /** Every lane up to number target − floor that has any hit has one in the output, so all of
      them do when there are no more extra lanes than that. */
  lemma LanesAreHeard(lanes: Lanes, limit: int, h: nat, key: string)
    requires h < |lanes| && key != "" && Rank(lanes[h], key) > 0
    requires h <= Target(limit) - Floor(Primary(lanes), Target(limit))
    ensures exists k :: k in Merged(lanes, limit) && Rank(lanes[h], k) > 0
  {
    var target := Target(limit);
    var lead := Primary(lanes)[..Floor(Primary(lanes), target)];
    if h == 0 {
      PrimaryIs(lanes, key);
      PrimaryLeads(lanes, limit);
      var first := Primary(lanes)[0];
      assert first == lead[0] == Merged(lanes, limit)[0];
      PrimaryIs(lanes, first);
    } else {
      FloorChosen(lanes, target);
      KeysAre(lanes, key);
      LaneContributes(lanes, lead, 1, h, key, target);
      var k :| k in Laned(lanes, target) && Rank(lanes[h], k) > 0;
      assert k in Merged(lanes, limit);
    }
  }

  lemma CutIsBest(rest: seq<string>, n: nat, above: (string, string) -> bool, k: string, d: string)
    requires n <= |rest| && Sorted(rest, above)
    requires k in rest[..n] && d in rest && d !in rest[..n]
    requires k != d ==> above(k, d) || above(d, k)
    ensures above(k, d)
  {
    assert rest == rest[..n] + rest[n..] && d in rest[n..];
    var i :| 0 <= i < n && rest[i] == k;
    var j :| n <= j < |rest| && rest[j] == d;
  }

  lemma TailOf(lanes: Lanes, limit: int) returns (n: nat)
    requires |lanes| > 1
    ensures var rest := Remaining(lanes, Laned(lanes, Target(limit)));
      n <= |rest| && Merged(lanes, limit) == Laned(lanes, Target(limit)) + rest[..n]
  {
    n := |Merged(lanes, limit)| - |Laned(lanes, Target(limit))|;
  }

  /** What follows the safe hits and the lanes' hits is in order of standing, and stands above
      everything that was left out. */
  lemma TailIsBest(lanes: Lanes, limit: int)
    requires |lanes| > 1
    ensures var laned, out := Laned(lanes, Target(limit)), Merged(lanes, limit);
      && laned <= out && Sorted(out[|laned|..], Above(lanes))
      && forall k, d :: k in out[|laned|..] && d in Keys(lanes) && d !in out ==> Above(lanes)(k, d)
  {
    var laned, out := Laned(lanes, Target(limit)), Merged(lanes, limit);
    LanedChosen(lanes, Target(limit));
    RemainingAre(lanes, laned);
    var rest := Remaining(lanes, laned);
    var n := TailOf(lanes, limit);
    assert out[|laned|..] == rest[..n];
    forall k, d | k in rest[..n] && d in Keys(lanes) && d !in out ensures Above(lanes)(k, d) {
      OutranksIsOrder(Rated(lanes, k), k, Rated(lanes, d), d, Rated(lanes, k), k);
      CutIsBest(rest, n, Above(lanes), k, d);
    }
  }
  // ----- the same, in terms of the hits of each lane -----

  /** A record is known by its id, or else by its memory id, or else by its content. */
  lemma KeyIs(x: Item)
    ensures x.id != "" ==> Key(x) == x.id
    ensures x.id == "" && x.memoryId != "" ==> Key(x) == x.memoryId
    ensures x.id == "" && x.memoryId == "" ==> Key(x) == x.content
  {
  }

  /** The rank of a key is the place, from 1, of its first record in the lane. */
  lemma {:induction false} RankIs(lane: seq<Item>, key: string)
    ensures Rank(lane, key) == 0 <==> forall i :: 0 <= i < |lane| ==> Key(lane[i]) != key
    ensures Rank(lane, key) > 0 ==>
      Key(lane[Rank(lane, key) - 1]) == key && forall i :: 0 <= i < Rank(lane, key) - 1 ==> Key(lane[i]) != key
  {
    if lane != [] {
      var front := lane[..|lane| - 1];
      RankIs(front, key);
      assert forall i :: 0 <= i < |front| ==> lane[i] == front[i];
      assert Rank(lane, key) == if Rank(front, key) > 0 then Rank(front, key) else if Key(lane[|front|]) == key then |lane| else 0;
    }
  }

  /** The record kept for a key is its first one in the first lane that has it. */
  lemma {:induction false} ItemIsFirst(lanes: Lanes, key: string, g: nat)
    requires g < |lanes| && Rank(lanes[g], key) > 0 && forall h :: 0 <= h < g ==> Rank(lanes[h], key) == 0
    ensures ItemOf(lanes, key) == Some(lanes[g][Rank(lanes[g], key) - 1])
  {
    var front := lanes[..|lanes| - 1];
    if g < |front| {
      ItemIsFirst(front, key, g);
    } else {
      ItemHasKey(front, key);
      assert !Met(front, key);
    }
  }

  /** What the lanes from 1 to `n` are worth for a key: 1/(60 + r) for each that lists it at rank r. */
  function OthersScore(lanes: Lanes, key: string, n: nat): real
    requires n <= |lanes|
  {
    if n <= 1 then 0.0
    else
      OthersScore(lanes, key, n - 1)
      + if Rank(lanes[n - 1], key) > 0 then 1.0 / (60 + Rank(lanes[n - 1], key)) as real else 0.0
  }

  lemma {:induction false} ScoreUpTo(lanes: Lanes, key: string, n: nat)
    requires 1 <= n <= |lanes|
    ensures Score(lanes[..n], key) == OthersScore(lanes, key, n)
      + if Rank(lanes[0], key) > 0 then 1.15 / (60 + Rank(lanes[0], key)) as real else 0.0
  {
    assert lanes[..n][..n - 1] == lanes[..n - 1] && lanes[..n][n - 1] == lanes[n - 1];
    if n > 1 {
      ScoreUpTo(lanes, key, n - 1);
    }
  }

  /** The score: 1.15/(60 + r) for the original lane and 1/(60 + r) for each other lane that lists
      the key at rank r. */
  lemma ScoreIs(lanes: Lanes, key: string)
    requires lanes != []
    ensures Score(lanes, key) == OthersScore(lanes, key, |lanes|)
      + if Rank(lanes[0], key) > 0 then 1.15 / (60 + Rank(lanes[0], key)) as real else 0.0
  {
    ScoreUpTo(lanes, key, |lanes|);
    assert lanes[..|lanes|] == lanes;
  }

  /** `m` is the best rank any lane gives the key. */
  ghost predicate LeastRank(lanes: Lanes, key: string, m: nat) {
    && m > 0
    && (exists g :: 0 <= g < |lanes| && Rank(lanes[g], key) == m)
    && forall g :: 0 <= g < |lanes| && Rank(lanes[g], key) > 0 ==> m <= Rank(lanes[g], key)
  }

  /** The greater score; on equal scores a hit of the original query; then the better best rank; then
      the greater key. */
  ghost predicate StandsAbove(lanes: Lanes, a: string, m: nat, b: string, n: nat)
    requires lanes != []
  {
    var inOriginal, otherInOriginal := Rank(lanes[0], a) > 0, Rank(lanes[0], b) > 0;
    || Score(lanes, a) > Score(lanes, b)
    || (Score(lanes, a) == Score(lanes, b) && (
          || (inOriginal && !otherInOriginal)
          || (inOriginal == otherInOriginal && (m < n || (m == n && StrLess(b, a))))))
  }

  /** The best rank of a key, as the dictionary of its ranks gives it. */
  lemma BestIsLeast(lanes: Lanes, key: string) returns (m: nat)
    requires Met(lanes, key)
    ensures LeastRank(lanes, key, m) && Rated(lanes, key).best == m
  {
    var g: nat :| g < |lanes| && Rank(lanes[g], key) > 0;
    forall h: nat ensures h in RanksOf(lanes, key) <==> h < |lanes| && Rank(lanes[h], key) > 0
      ensures h in RanksOf(lanes, key) ==> RanksOf(lanes, key)[h] == Rank(lanes[h], key)
    {
      RanksAre(lanes, key, h);
    }
    assert g in RanksOf(lanes, key);
    m := BestRank(RanksOf(lanes, key), |lanes|).value;
  }

  lemma LeastIsOne(lanes: Lanes, key: string, m: nat, n: nat)
    requires LeastRank(lanes, key, m) && LeastRank(lanes, key, n)
    ensures m == n
  {
  }

  lemma RatedIs(lanes: Lanes, key: string, m: nat)
    requires lanes != [] && LeastRank(lanes, key, m)
    ensures Rated(lanes, key) == Standing(Score(lanes, key), Rank(lanes[0], key) > 0, m)
  {
    var least := BestIsLeast(lanes, key);
    LeastIsOne(lanes, key, m, least);
    RanksAre(lanes, key, 0);
  }

  lemma AboveIs(lanes: Lanes, a: string, m: nat, b: string, n: nat)
    requires lanes != [] && LeastRank(lanes, a, m) && LeastRank(lanes, b, n)
    ensures Above(lanes)(a, b) <==> StandsAbove(lanes, a, m, b, n)
  {
    RatedIs(lanes, a, m);
    RatedIs(lanes, b, n);
  }

  lemma LaterPlace(out: seq<string>, i: nat, d: string) returns (j: nat)
    requires i < |out| && d in out[i + 1..]
    ensures i < j < |out| && out[j] == d
  {
    var k :| 0 <= k < |out[i + 1..]| && out[i + 1..][k] == d;
    j := i + 1 + k;
  }

  lemma AboveUnlessBelow(lanes: Lanes, k: string, d: string)
    requires k != d && !Above(lanes)(d, k)
    ensures Above(lanes)(k, d)
  {
    OutranksIsOrder(Rated(lanes, k), k, Rated(lanes, d), d, Rated(lanes, k), k);
  }

  lemma SortedFrom(out: seq<string>, n: nat, above: (string, string) -> bool, i: nat, j: nat)
    requires n <= i < j < |out| && Sorted(out[n..], above)
    ensures !above(out[j], out[i])
  {
    assert out[n..][i - n] == out[i] && out[n..][j - n] == out[j];
  }

  lemma TailAboveLater(lanes: Lanes, limit: int, i: nat, j: nat)
    requires |lanes| > 1 && |Laned(lanes, Target(limit))| <= i < j < |Merged(lanes, limit)|
    ensures Above(lanes)(Merged(lanes, limit)[i], Merged(lanes, limit)[j])
  {
    var out := Merged(lanes, limit);
    TailIsBest(lanes, limit);
    MergedCount(lanes, limit);
    SortedFrom(out, |Laned(lanes, Target(limit))|, Above(lanes), i, j);
    AboveUnlessBelow(lanes, out[i], out[j]);
  }

  lemma TailAboveRest(lanes: Lanes, limit: int, i: nat, d: string)
    requires |lanes| > 1 && |Laned(lanes, Target(limit))| <= i < |Merged(lanes, limit)|
    requires d in Keys(lanes) && d !in Merged(lanes, limit)
    ensures Above(lanes)(Merged(lanes, limit)[i], d)
  {
    var out, n := Merged(lanes, limit), |Laned(lanes, Target(limit))|;
    TailIsBest(lanes, limit);
    assert out[n..][i - n] == out[i] && out[i] in out[n..];
  }

  lemma TailAbove(lanes: Lanes, limit: int, i: nat, d: string)
    requires |lanes| > 1 && |Laned(lanes, Target(limit))| <= i < |Merged(lanes, limit)|
    requires d in Merged(lanes, limit)[i + 1..] || (d in Keys(lanes) && d !in Merged(lanes, limit))
    ensures Above(lanes)(Merged(lanes, limit)[i], d)
  {
    if d in Merged(lanes, limit)[i + 1..] {
      var j := LaterPlace(Merged(lanes, limit), i, d);
      TailAboveLater(lanes, limit, i, j);
    } else {
      TailAboveRest(lanes, limit, i, d);
    }
  }

  /** In the tail a record never stands behind a later one or one that was left out. */
  lemma TailStandsAbove(lanes: Lanes, limit: int, i: nat, d: string, m: nat, n: nat)
    requires |lanes| > 1
    requires var out := Merged(lanes, limit);
      && |Laned(lanes, Target(limit))| <= i < |out|
      && (d in out[i + 1..] || (d in Keys(lanes) && d !in out))
      && LeastRank(lanes, out[i], m) && LeastRank(lanes, d, n)
    ensures StandsAbove(lanes, Merged(lanes, limit)[i], m, d, n)
  {
    TailAbove(lanes, limit, i, d);
    AboveIs(lanes, Merged(lanes, limit)[i], m, d, n);
  }

  lemma {:induction false} FirstsInOrder(lane: seq<Item>, i: nat, j: nat)
    requires i < j < |KeysFrom([], lane)|
    ensures 0 < Rank(lane, KeysFrom([], lane)[i]) < Rank(lane, KeysFrom([], lane)[j])
  {
    var front, keys := lane[..|lane| - 1], KeysFrom([], lane);
    var before := KeysFrom([], front);
    if j < |before| {
      FirstsInOrder(front, i, j);
    } else {
      assert keys == before + [keys[j]];
      KeysFromIs([], front, keys[i]);
      KeysFromIs([], front, keys[j]);
      assert keys[i] in before;
    }
  }

  /** The first hit of the original query leads, and so do its first limit/2 distinct hits, in the
      order of their ranks. */
  lemma LeadersAre(lanes: Lanes, limit: int, i: nat)
    requires lanes != [] && i < |Primary(lanes)| && (i == 0 || i < limit / 2)
    ensures i < |Merged(lanes, limit)| && Merged(lanes, limit)[i] == Primary(lanes)[i]
    ensures Rank(lanes[0], Primary(lanes)[i]) > 0
    ensures forall j :: i < j < |Primary(lanes)| ==> Rank(lanes[0], Primary(lanes)[i]) < Rank(lanes[0], Primary(lanes)[j])
  {
    PrimaryLeads(lanes, limit);
    PrimaryIs(lanes, Primary(lanes)[i]);
    forall j | i < j < |Primary(lanes)| ensures Rank(lanes[0], Primary(lanes)[i]) < Rank(lanes[0], Primary(lanes)[j]) {
      FirstsInOrder(lanes[0], i, j);
    }
  }

  /** As many records as asked for, at least one, and no more than there are. */
  lemma MergedLength(lanes: Lanes, limit: int)
    ensures var asked := if limit >= 1 then limit else 1;
      |Merged(lanes, limit)| == if |Keys(lanes)| < asked then |Keys(lanes)| else asked
  {
    MergedCount(lanes, limit);
  }
}
