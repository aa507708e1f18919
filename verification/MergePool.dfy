/** The merge as the source performs it, over dictionaries filled in one pass
    (agent/ask_executor.py:384-436). */
module MergePool {
  import opened Options
  import opened Ordering
  import opened MergeRecords

  /** The dictionaries `items`, `scores` and `ranks`, the insertion order of their keys, and
      `primary_order`. */
  datatype Pool = Pool(
    order: seq<string>,
    items: map<string, Item>,
    scores: map<string, real>,
    ranks: map<string, map<nat, nat>>,
    primary: seq<string>)

  ghost predicate Entry(lanes: Lanes, p: Pool, key: string) {
    && key in p.items && key in p.scores && key in p.ranks
    && ItemOf(lanes, key) == Some(p.items[key])
    && p.scores[key] == Score(lanes, key)
    && p.ranks[key] == RanksOf(lanes, key)
  }

  ghost predicate AllEntries(lanes: Lanes, p: Pool) {
    forall key :: key in p.order ==> Entry(lanes, p, key)
  }

  ghost predicate OnlyKnown(p: Pool) {
    forall key :: key in p.items || key in p.scores || key in p.ranks ==> key in p.order
  }

  /** The pool holds what the lanes read so far say. */
  ghost predicate Pooled(lanes: Lanes, p: Pool) {
    p.order == Keys(lanes) && p.primary == Primary(lanes) && AllEntries(lanes, p) && OnlyKnown(p)
  }

  // ----- reading one item more -----

  lemma Unfold(done: Lanes, lane: seq<Item>, key: string)
    ensures var lanes := done + [lane];
      && Keys(lanes) == KeysFrom(Keys(done), lane)
      && Score(lanes, key) == Score(done, key) + Gain(|done|, lane, key)
      && ItemOf(lanes, key) ==
        if ItemOf(done, key).Some? then ItemOf(done, key)
        else if Rank(lane, key) > 0 then Some(lane[Rank(lane, key) - 1])
        else None
  {
    assert (done + [lane])[..|done|] == done;
  }

  lemma RankOfLonger(lane: seq<Item>, x: Item, key: string)
    ensures Rank(lane + [x], key) ==
      if Rank(lane, key) > 0 then Rank(lane, key) else if Key(x) == key then |lane| + 1 else 0
  {
    assert (lane + [x])[..|lane|] == lane;
  }

  lemma KeysOfLonger(done: Lanes, lane: seq<Item>, x: Item)
    ensures var before := Keys(done + [lane]);
      Keys(done + [lane + [x]]) == if Key(x) == "" || Key(x) in before then before else before + [Key(x)]
  {
    assert (lane + [x])[..|lane|] == lane;
    Unfold(done, lane, "");
    Unfold(done, lane + [x], "");
  }

  lemma RanksUnfold(done: Lanes, lane: seq<Item>, key: string)
    ensures RanksOf(done + [lane], key) ==
      if Rank(lane, key) > 0 then RanksOf(done, key)[|done| := Rank(lane, key)] else RanksOf(done, key)
  {
    assert (done + [lane])[..|done|] == done;
  }

  /** An item says nothing about another key, nor about a key its lane has met already. */
  lemma Unaffected(done: Lanes, lane: seq<Item>, x: Item, key: string)
    requires Key(x) != key || Rank(lane, key) > 0
    ensures Score(done + [lane + [x]], key) == Score(done + [lane], key)
    ensures ItemOf(done + [lane + [x]], key) == ItemOf(done + [lane], key)
    ensures RanksOf(done + [lane + [x]], key) == RanksOf(done + [lane], key)
  {
    RankOfLonger(lane, x, key);
    Unfold(done, lane, key);
    Unfold(done, lane + [x], key);
    RanksUnfold(done, lane, key);
    RanksUnfold(done, lane + [x], key);
  }

  /** The first item of a lane with some key. */
  lemma Affected(done: Lanes, lane: seq<Item>, x: Item)
    requires Rank(lane, Key(x)) == 0
    ensures var before, after, key, rank := done + [lane], done + [lane + [x]], Key(x), |lane| + 1;
      && Score(after, key) == Score(before, key) + Share(|done|, rank)
      && ItemOf(after, key) == (if ItemOf(before, key).Some? then ItemOf(before, key) else Some(x))
      && RanksOf(after, key) == RanksOf(before, key)[|done| := rank]
  {
    var key := Key(x);
    RankOfLonger(lane, x, key);
    Unfold(done, lane, key);
    Unfold(done, lane + [x], key);
    RanksUnfold(done, lane, key);
    RanksUnfold(done, lane + [x], key);
  }

  lemma PrimaryOfLonger(done: Lanes, lane: seq<Item>, x: Item)
    ensures Primary(done + [lane + [x]]) ==
      if done == [] && Key(x) != "" && Rank(lane, Key(x)) == 0 then Primary(done + [lane]) + [Key(x)] else Primary(done + [lane])
  {
    if done == [] {
      assert (lane + [x])[..|lane|] == lane;
      KeysFromIs([], lane, Key(x));
    } else {
      assert (done + [lane])[0] == (done + [lane + [x]])[0];
    }
  }

  /** The dictionary updates for the first item of lane `g` with a key. */
  function Credit(p: Pool, x: Item, g: nat, rank: nat): Pool {
    var key := Key(x);
    Pool(
      if key in p.items then p.order else p.order + [key],
      if key in p.items then p.items else p.items[key := x],
      p.scores[key := (if key in p.scores then p.scores[key] else 0.0) + Share(g, rank)],
      p.ranks[key := (if key in p.ranks then p.ranks[key] else map[])[g := rank]],
      if g == 0 then p.primary + [key] else p.primary)
  }

  lemma SkipKeeps(done: Lanes, lane: seq<Item>, x: Item, p: Pool)
    requires Pooled(done + [lane], p)
    requires Key(x) == "" || Rank(lane, Key(x)) > 0
    ensures Pooled(done + [lane + [x]], p)
  {
    KeysOfLonger(done, lane, x);
    PrimaryOfLonger(done, lane, x);
    SkippedIsKnown(done, lane, Key(x));
    KeysDistinct(done + [lane]);
    forall k | k in p.order ensures Entry(done + [lane + [x]], p, k) { Unaffected(done, lane, x, k); }
  }

  lemma OtherEntry(done: Lanes, lane: seq<Item>, x: Item, p: Pool, k: string)
    requires k != Key(x) && Entry(done + [lane], p, k)
    ensures Entry(done + [lane + [x]], Credit(p, x, |done|, |lane| + 1), k)
  {
    Unaffected(done, lane, x, k);
  }

  lemma OwnScore(done: Lanes, lane: seq<Item>, x: Item, p: Pool)
    requires Pooled(done + [lane], p) && Key(x) != "" && Rank(lane, Key(x)) == 0
    ensures Credit(p, x, |done|, |lane| + 1).scores[Key(x)] == Score(done + [lane + [x]], Key(x))
  {
    Affected(done, lane, x);
    KnownHasItem(done + [lane], Key(x));
    assert Key(x) in p.order ==> Entry(done + [lane], p, Key(x));
  }

  lemma OwnRanks(done: Lanes, lane: seq<Item>, x: Item, p: Pool)
    requires Pooled(done + [lane], p) && Key(x) != "" && Rank(lane, Key(x)) == 0
    ensures Credit(p, x, |done|, |lane| + 1).ranks[Key(x)] == RanksOf(done + [lane + [x]], Key(x))
  {
    Affected(done, lane, x);
    KnownHasItem(done + [lane], Key(x));
    assert Key(x) in p.order ==> Entry(done + [lane], p, Key(x));
  }

  lemma OwnItem(done: Lanes, lane: seq<Item>, x: Item, p: Pool)
    requires Pooled(done + [lane], p) && Key(x) != "" && Rank(lane, Key(x)) == 0
    ensures ItemOf(done + [lane + [x]], Key(x)) == Some(Credit(p, x, |done|, |lane| + 1).items[Key(x)])
  {
    Affected(done, lane, x);
    KnownHasItem(done + [lane], Key(x));
    assert Key(x) in p.order ==> Entry(done + [lane], p, Key(x));
  }

  lemma CreditEntry(done: Lanes, lane: seq<Item>, x: Item, p: Pool, k: string)
    requires Pooled(done + [lane], p) && Key(x) != "" && Rank(lane, Key(x)) == 0
    requires k == Key(x) || k in p.order
    ensures Entry(done + [lane + [x]], Credit(p, x, |done|, |lane| + 1), k)
  {
    if k == Key(x) {
      OwnScore(done, lane, x, p);
      OwnRanks(done, lane, x, p);
      OwnItem(done, lane, x, p);
    } else {
      OtherEntry(done, lane, x, p, k);
    }
  }

  lemma CreditOrder(done: Lanes, lane: seq<Item>, x: Item, p: Pool)
    requires Pooled(done + [lane], p) && Key(x) != "" && Rank(lane, Key(x)) == 0
    ensures Credit(p, x, |done|, |lane| + 1).order == Keys(done + [lane + [x]])
    ensures Credit(p, x, |done|, |lane| + 1).primary == Primary(done + [lane + [x]])
  {
    KeysOfLonger(done, lane, x);
    PrimaryOfLonger(done, lane, x);
    assert Key(x) in p.order ==> Entry(done + [lane], p, Key(x));
  }

  lemma CreditEntries(done: Lanes, lane: seq<Item>, x: Item, p: Pool)
    requires Pooled(done + [lane], p) && Key(x) != "" && Rank(lane, Key(x)) == 0
    ensures AllEntries(done + [lane + [x]], Credit(p, x, |done|, |lane| + 1))
  {
    var next := Credit(p, x, |done|, |lane| + 1);
    forall k | k in next.order ensures Entry(done + [lane + [x]], next, k) {
      assert k == Key(x) || k in p.order;
      CreditEntry(done, lane, x, p, k);
    }
  }

  lemma CreditKnown(p: Pool, x: Item, g: nat, rank: nat)
    requires OnlyKnown(p)
    ensures OnlyKnown(Credit(p, x, g, rank))
  {
    var next := Credit(p, x, g, rank);
    assert Key(x) in next.order;
    forall k | k in next.items || k in next.scores || k in next.ranks ensures k in next.order {
      assert k == Key(x) || k in p.order;
    }
  }

  lemma CreditKeeps(done: Lanes, lane: seq<Item>, x: Item, p: Pool)
    requires Pooled(done + [lane], p) && Key(x) != "" && Rank(lane, Key(x)) == 0
    ensures Pooled(done + [lane + [x]], Credit(p, x, |done|, |lane| + 1))
  {
    CreditOrder(done, lane, x, p);
    CreditEntries(done, lane, x, p);
    CreditKnown(p, x, |done|, |lane| + 1);
  }

  /** The keys met in the current lane. */
  ghost predicate Seen(seen: set<string>, lane: seq<Item>) {
    forall k :: k in seen <==> k != "" && Rank(lane, k) > 0
  }

  function SeenAfter(seen: set<string>, x: Item): set<string> {
    if Key(x) == "" then seen else seen + {Key(x)}
  }

  lemma SeenGrows(seen: set<string>, lane: seq<Item>, x: Item)
    requires Seen(seen, lane)
    ensures Seen(SeenAfter(seen, x), lane + [x])
  {
    forall k ensures Rank(lane + [x], k) > 0 <==> Rank(lane, k) > 0 || Key(x) == k { RankOfLonger(lane, x, k); }
  }

  function PoolAfter(p: Pool, x: Item, g: nat, rank: nat, seen: set<string>): Pool {
    if Key(x) == "" || Key(x) in seen then p else Credit(p, x, g, rank)
  }

  lemma ItemKeeps(done: Lanes, lane: seq<Item>, x: Item, p: Pool, seen: set<string>)
    requires Pooled(done + [lane], p) && Seen(seen, lane)
    ensures Pooled(done + [lane + [x]], PoolAfter(p, x, |done|, |lane| + 1, seen))
  {
    if Key(x) == "" || Rank(lane, Key(x)) > 0 { SkipKeeps(done, lane, x, p); } else { CreditKeeps(done, lane, x, p); }
  }

  /** One turn of the inner loop. */
  method AddItem(p: Pool, x: Item, g: nat, rank: nat, seen: set<string>) returns (next: Pool, seenNext: set<string>)
    ensures next == PoolAfter(p, x, g, rank, seen)
    ensures seenNext == SeenAfter(seen, x)
  {
    var key := Key(x);
    next, seenNext := p, seen;
    if key == "" || key in seen {
      return;
    }
    seenNext := seenNext + {key};
    if key !in next.items {
      next := next.(order := next.order + [key], items := next.items[key := x]);
    }
    next := next.(ranks := next.ranks[key := (if key in next.ranks then next.ranks[key] else map[])[g := rank]]);
    next := next.(scores := next.scores[key := (if key in next.scores then next.scores[key] else 0.0) + Share(g, rank)]);
    if g == 0 {
      next := next.(primary := next.primary + [key]);
    }
  }

  lemma SkippedIsKnown(done: Lanes, lane: seq<Item>, key: string)
    requires key != "" ==> Rank(lane, key) > 0
    ensures key != "" ==> key in Keys(done + [lane])
  {
    if key != "" {
      assert (done + [lane])[|done|] == lane;
      KeysAre(done + [lane], key);
    }
  }

  /** Keys not met yet have no score, no ranks and no record. */
  lemma {:induction false} KnownHasItem(lanes: Lanes, key: string)
    ensures key != "" ==> (key in Keys(lanes) <==> ItemOf(lanes, key).Some?)
    ensures !Met(lanes, key) ==> Score(lanes, key) == 0.0 && RanksOf(lanes, key) == map[]
    ensures key != "" ==> (key in Keys(lanes) <==> Met(lanes, key))
  {
    KeysAre(lanes, key);
    ItemHasKey(lanes, key);
    if !Met(lanes, key) { NoScore(lanes, key); }
  }

  lemma {:induction false} NoScore(lanes: Lanes, key: string)
    requires !Met(lanes, key)
    ensures Score(lanes, key) == 0.0 && RanksOf(lanes, key) == map[]
  {
    if lanes != [] {
      MetSplit(lanes, key);
      NoScore(lanes[..|lanes| - 1], key);
    }
  }

  lemma NewLane(done: Lanes, p: Pool)
    requires Pooled(done, p)
    ensures Pooled(done + [[]], p)
  {
    Unfold(done, [], "");
    forall k | k in p.order ensures Entry(done + [[]], p, k) {
      Unfold(done, [], k);
      RanksUnfold(done, [], k);
    }
  }

  method AddLane(p: Pool, lane: seq<Item>, g: nat, ghost done: Lanes) returns (next: Pool)
    requires Pooled(done, p) && g == |done|
    ensures Pooled(done + [lane], next)
  {
    next := p;
    var seen: set<string> := {};
    NewLane(done, p);
    assert lane[..0] == [];
    for i := 0 to |lane|
      invariant Pooled(done + [lane[..i]], next)
      invariant Seen(seen, lane[..i])
    {
      ItemKeeps(done, lane[..i], lane[i], next, seen);
      SeenGrows(seen, lane[..i], lane[i]);
      next, seen := AddItem(next, lane[i], g, i + 1, seen);
      assert lane[..i + 1] == lane[..i] + [lane[i]];
    }
    assert lane[..|lane|] == lane;
  }

  method Collect(lanes: Lanes) returns (p: Pool)
    ensures Pooled(lanes, p)
  {
    p := Pool([], map[], map[], map[], []);
    assert lanes[..0] == [];
    for g := 0 to |lanes|
      invariant Pooled(lanes[..g], p)
    {
      p := AddLane(p, lanes[g], g, lanes[..g]);
      assert lanes[..g + 1] == lanes[..g] + [lanes[g]];
    }
    assert lanes[..|lanes|] == lanes;
  }

  // ----- selecting from the pool -----

  function RankIn(p: Pool, key: string, g: nat): nat {
    if key in p.ranks && g in p.ranks[key] then p.ranks[key][g] else 0
  }

  function StandingIn(p: Pool, key: string, count: nat): Standing {
    StandingOf(
      if key in p.scores then p.scores[key] else 0.0,
      if key in p.ranks then p.ranks[key] else map[],
      count)
  }

  lemma RankInIs(lanes: Lanes, p: Pool, key: string, g: nat)
    requires Pooled(lanes, p) && key in p.order && g < |lanes|
    ensures RankIn(p, key, g) == Rank(lanes[g], key)
  {
    assert Entry(lanes, p, key);
    RanksAre(lanes, key, g);
  }

  lemma StandingInIs(lanes: Lanes, p: Pool, key: string)
    requires Pooled(lanes, p) && key in p.order
    ensures StandingIn(p, key, |lanes|) == Rated(lanes, key)
  {
    assert Entry(lanes, p, key);
  }

  lemma {:induction false} ClosestSame(available: seq<string>, f: string -> nat, g: string -> nat)
    requires available != [] && forall k :: k in available ==> f(k) == g(k)
    ensures Closest(available, f) == Closest(available, g)
  {
    if |available| > 1 {
      ClosestSame(available[1..], f, g);
    }
  }

  function AvailableIn(p: Pool, selected: seq<string>, g: nat): seq<string> {
    Filter(p.order, k => k !in selected && RankIn(p, k, g) > 0)
  }

  lemma RanksInPool(lanes: Lanes, p: Pool, g: nat)
    requires Pooled(lanes, p) && g < |lanes|
    ensures forall k :: k in p.order ==> RankIn(p, k, g) == Rank(lanes[g], k)
  {
    forall k | k in p.order ensures RankIn(p, k, g) == Rank(lanes[g], k) { RankInIs(lanes, p, k, g); }
  }

  lemma AvailableInPool(lanes: Lanes, p: Pool, selected: seq<string>, g: nat)
    requires Pooled(lanes, p) && g < |lanes|
    ensures AvailableIn(p, selected, g) == Available(Keys(lanes), lanes[g], selected)
    ensures forall k :: k in AvailableIn(p, selected, g) ==> k in p.order
  {
    var inPool, inLane := k => k !in selected && RankIn(p, k, g) > 0, k => k !in selected && Rank(lanes[g], k) > 0;
    RanksInPool(lanes, p, g);
    FilterSame(p.order, inPool, inLane);
    FilterMembers(p.order, inPool);
  }

  lemma TurnInPool(lanes: Lanes, p: Pool, selected: seq<string>, g: nat, target: nat)
    requires Pooled(lanes, p) && g < |lanes|
    ensures var available := AvailableIn(p, selected, g);
      Turn(Keys(lanes), lanes[g], selected, target) ==
        if available != [] && |selected| < target then selected + [Closest(available, k => RankIn(p, k, g))] else selected
  {
    AvailableInPool(lanes, p, selected, g);
    RanksInPool(lanes, p, g);
    var available := AvailableIn(p, selected, g);
    if available != [] {
      ClosestSame(available, k => RankIn(p, k, g), k => Rank(lanes[g], k));
    }
  }

  function AboveIn(p: Pool, count: nat): (string, string) -> bool {
    (a, b) => Outranks(StandingIn(p, a, count), a, StandingIn(p, b, count), b)
  }

  lemma RemainingInPool(lanes: Lanes, p: Pool, selected: seq<string>)
    requires Pooled(lanes, p)
    ensures StableSort(Filter(p.order, k => k !in selected), AboveIn(p, |lanes|)) == Remaining(lanes, selected)
  {
    var rest := Filter(p.order, k => k !in selected);
    FilterMembers(p.order, k => k !in selected);
    forall a, b | a in rest && b in rest ensures AboveIn(p, |lanes|)(a, b) == Above(lanes)(a, b) {
      StandingInIs(lanes, p, a);
      StandingInIs(lanes, p, b);
    }
    SortSame(rest, AboveIn(p, |lanes|), Above(lanes));
  }

  /** Each extra lane in turn. */
  method HearLanes(lanes: Lanes, p: Pool, lead: seq<string>, target: nat) returns (selected: seq<string>)
    requires Pooled(lanes, p)
    ensures selected == WithLanes(lanes, Keys(lanes), lead, 1, target)
  {
    selected := lead;
    var g := 1;
    while g < |lanes|
      invariant 1 <= g && WithLanes(lanes, Keys(lanes), lead, 1, target) == WithLanes(lanes, Keys(lanes), selected, g, target)
    {
      TurnInPool(lanes, p, selected, g, target);
      var available := AvailableIn(p, selected, g);
      if available != [] && |selected| < target {
        selected := selected + [Closest(available, k => RankIn(p, k, g))];
      }
      g := g + 1;
    }
  }

  lemma NothingToMerge(lanes: Lanes, limit: int)
    requires Keys(lanes) == []
    ensures Merged(lanes, limit) == []
  {
    MergedCount(lanes, limit);
  }

  /** Two lanes or more: safe hits, then each lane's hit, then by standing. */
  method SelectFrom(lanes: Lanes, p: Pool, limit: int) returns (selected: seq<string>)
    requires Pooled(lanes, p) && |lanes| > 1
    ensures selected == Merged(lanes, limit)
  {
    var target := if limit > 1 then limit else 1;
    var half := if target / 2 > 1 then target / 2 else 1;
    var floor := if |p.primary| < half then |p.primary| else half;
    selected := HearLanes(lanes, p, p.primary[..floor], target);
    RemainingInPool(lanes, p, selected);
    var remaining := StableSort(Filter(p.order, k => k !in selected), AboveIn(p, |lanes|));
    var room := if target > |selected| then target - |selected| else 0;
    selected := selected + remaining[..if |remaining| < room then |remaining| else room];
  }

  method MergedKeys(lanes: Lanes, p: Pool, limit: int) returns (selected: seq<string>)
    requires Pooled(lanes, p)
    ensures selected == Merged(lanes, limit)
  {
    if p.order == [] {
      NothingToMerge(lanes, limit);
      selected := [];
    } else if |lanes| <= 1 {
      var target := if limit > 1 then limit else 1;
      selected := p.primary[..if |p.primary| < target then |p.primary| else target];
    } else {
      selected := SelectFrom(lanes, p, limit);
    }
  }

  /** The merge returns the records of the merged keys, in order. */
  method Merge(lanes: Lanes, limit: int) returns (records: seq<Item>)
    ensures |records| == |Merged(lanes, limit)|
    ensures forall i :: 0 <= i < |records| ==>
      ItemOf(lanes, Merged(lanes, limit)[i]) == Some(records[i]) && Key(records[i]) == Merged(lanes, limit)[i]
  {
    var p := Collect(lanes);
    var selected := MergedKeys(lanes, p, limit);
    MergedCount(lanes, limit);
    forall k | k in selected ensures k in p.items && ItemOf(lanes, k) == Some(p.items[k]) && Key(p.items[k]) == k {
      assert Entry(lanes, p, k);
      ItemHasKey(lanes, k);
    }
    records := seq(|selected|, i requires 0 <= i < |selected| && selected[i] in p.items => p.items[selected[i]]);
  }
}
