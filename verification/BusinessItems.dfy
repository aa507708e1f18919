/** The list of business items shown for a query (agent/query_agent.py:1524-1539): one item for
    each identity, best first. `higher` stands for the comparison of the score tuples. */
module BusinessItems {
  import opened Ordering

  /** A business record; `key` is its identity, `body` everything else. */
  datatype Item = Item(key: string, id: string, body: string)

  /** A raw entry is a record or something else, which is skipped. */
  datatype Entry = Record(item: Item) | NotARecord

  type Higher = (Item, Item) -> bool

  function Records(entries: seq<Entry>): seq<Item> {
    if entries == [] then []
    else
      var last := entries[|entries| - 1];
      Records(entries[..|entries| - 1]) + if last.Record? then [last.item] else []
  }

  // ----- the best item of each identity -----

  /** Position of an identity, or the length when it is absent. */
  function Position(items: seq<Item>, key: string): (k: nat)
    ensures k <= |items| && (k < |items| ==> items[k].key == key)
    ensures forall i :: 0 <= i < k ==> items[i].key != key
  {
    if items == [] then 0
    else if items[0].key == key then 0
    else
      assert forall i :: 1 <= i < |items| ==> items[i] == items[1..][i - 1];
      1 + Position(items[1..], key)
  }

  /** A new item replaces the one held for its identity only if it is higher. */
  function Consider(held: seq<Item>, x: Item, higher: Higher): seq<Item> {
    var k := Position(held, x.key);
    if k == |held| then held + [x]
    else if higher(x, held[k]) then held[k := x]
    else held
  }

  function Winners(items: seq<Item>, higher: Higher): seq<Item> {
    if items == [] then []
    else Consider(Winners(items[..|items| - 1], higher), items[|items| - 1], higher)
  }

  function ById(a: Item, b: Item): bool {
    StrLess(a.id, b.id)
  }

  function Ordered(items: seq<Item>, higher: Higher): seq<Item> {
    StableSort(StableSort(Winners(items, higher), ById), higher)
  }

  function Cap(limit: int): nat {
    if limit < 1 then 1 else if limit > 100 then 100 else limit
  }

  function Listed(items: seq<Item>, limit: int, higher: Higher): seq<Item> {
    var ordered := Ordered(items, higher);
    ordered[..if |ordered| < Cap(limit) then |ordered| else Cap(limit)]
  }

  // ----- what the winners are -----

  /** No item of the same identity is higher. */
  ghost predicate Top(items: seq<Item>, a: Item, higher: Higher) {
    a in items && forall b :: b in items && b.key == a.key ==> !higher(b, a)
  }

  ghost predicate OnePerKey(items: seq<Item>) {
    forall i, j :: 0 <= i < j < |items| ==> items[i].key != items[j].key
  }

  ghost predicate AllTop(held: seq<Item>, items: seq<Item>, higher: Higher) {
    forall w :: w in held ==> Top(items, w, higher)
  }

  ghost predicate Covered(held: seq<Item>, key: string) {
    exists w :: w in held && w.key == key
  }

  ghost predicate AllCovered(held: seq<Item>, items: seq<Item>) {
    forall a :: a in items ==> Covered(held, a.key)
  }

  ghost predicate Represents(held: seq<Item>, items: seq<Item>, higher: Higher) {
    OnePerKey(held) && AllTop(held, items, higher) && AllCovered(held, items)
  }

  /** The item held for an identity that occurs. */
  lemma HolderOf(held: seq<Item>, items: seq<Item>, higher: Higher, a: Item) returns (w: Item)
    requires Represents(held, items, higher) && a in items
    ensures w in held && w.key == a.key && Top(items, w, higher)
    ensures Position(held, a.key) < |held| && held[Position(held, a.key)] == w
  {
    assert Covered(held, a.key);
    w :| w in held && w.key == a.key;
    var j :| 0 <= j < |held| && held[j] == w;
    assert j == Position(held, a.key);
  }

  lemma Between(higher: Higher, x: Item, y: Item, z: Item)
    requires StrictWeak(higher) && higher(x, z)
    ensures higher(x, y) || higher(y, z)
  {
  }

  lemma NewTop(held: seq<Item>, items: seq<Item>, x: Item, higher: Higher, b: Item)
    requires StrictWeak(higher) && Represents(held, items, higher)
    requires Position(held, x.key) < |held| ==> higher(x, held[Position(held, x.key)])
    requires b in items && b.key == x.key
    ensures !higher(b, x)
  {
    var v := HolderOf(held, items, higher, b);
    if higher(b, x) {
      Between(higher, b, v, x);
      assert false;
    }
  }

  lemma Irreflexive(higher: Higher, x: Item)
    requires StrictWeak(higher)
    ensures !higher(x, x)
  {
  }

  lemma ConsiderTop(held: seq<Item>, items: seq<Item>, x: Item, higher: Higher, w: Item)
    requires StrictWeak(higher) && Represents(held, items, higher)
    requires w in Consider(held, x, higher)
    ensures Top(items + [x], w, higher)
  {
    var next, k := Consider(held, x, higher), Position(held, x.key);
    var j :| 0 <= j < |next| && next[j] == w;
    if j == k && (k == |held| || higher(x, held[k])) {
      forall b | b in items && b.key == w.key ensures !higher(b, w) { NewTop(held, items, x, higher, b); }
      Irreflexive(higher, x);
    } else {
      HeldStays(held, items, x, higher, j);
    }
  }

  lemma HeldStays(held: seq<Item>, items: seq<Item>, x: Item, higher: Higher, j: nat)
    requires Represents(held, items, higher) && j < |held|
    requires j == Position(held, x.key) ==> !higher(x, held[j])
    ensures Top(items + [x], held[j], higher)
  {
    var w := held[j];
    assert Top(items, w, higher);
    if w.key == x.key {
      var k := Position(held, x.key);
      assert k == j;
    }
  }

  lemma ConsiderKeys(held: seq<Item>, x: Item, higher: Higher)
    requires OnePerKey(held)
    ensures OnePerKey(Consider(held, x, higher))
  {
  }

  lemma ConsiderCovers(held: seq<Item>, x: Item, higher: Higher, key: string)
    requires key == x.key || Covered(held, key)
    ensures Covered(Consider(held, x, higher), key)
  {
    var next, k := Consider(held, x, higher), Position(held, x.key);
    if key == x.key {
      var at := if k == |held| then |held| else k;
      assert next[at].key == key && next[at] in next;
    } else {
      var w :| w in held && w.key == key;
      var j :| 0 <= j < |held| && held[j] == w;
      assert next[j] == w;
    }
  }

  /** The winners are one item for each identity, and no item of that identity is higher. */
  lemma {:induction false} WinnersAre(items: seq<Item>, higher: Higher)
    requires StrictWeak(higher)
    ensures Represents(Winners(items, higher), items, higher)
  {
    if items != [] {
      var front, x := items[..|items| - 1], items[|items| - 1];
      var held := Winners(front, higher);
      WinnersAre(front, higher);
      assert items == front + [x];
      ConsiderKeys(held, x, higher);
      forall w | w in Consider(held, x, higher) ensures Top(items, w, higher) { ConsiderTop(held, front, x, higher, w); }
      forall a | a in items ensures Covered(Consider(held, x, higher), a.key) {
        assert a == x || a in front;
        ConsiderCovers(held, x, higher, a.key);
      }
    }
  }

  // ----- the order shown -----

  lemma ByIdIsOrder()
    ensures StrictWeak(ById)
  {
    forall a: Item, b: Item ensures ById(a, b) ==> !ById(b, a) { StrLessTotal(a.id, b.id); }
    forall a: Item, b: Item, c: Item ensures ById(a, c) ==> ById(a, b) || ById(b, c) {
      StrLessTotal(a.id, b.id);
      StrLessTotal(b.id, c.id);
      if StrLess(b.id, a.id) && StrLess(a.id, c.id) { StrLessTransitive(b.id, a.id, c.id); }
    }
  }

  lemma OnePerKeyIsDistinct(items: seq<Item>)
    requires OnePerKey(items)
    ensures Distinct(items)
  {
  }

  /** The list holds the winners, by score descending and then by id ascending. */
  lemma OrderedIs(items: seq<Item>, higher: Higher)
    requires StrictWeak(higher)
    ensures multiset(Ordered(items, higher)) == multiset(Winners(items, higher))
    ensures Sorted(Ordered(items, higher), Lex(higher, ById))
  {
    var winners := Winners(items, higher);
    ByIdIsOrder();
    StableSortKeeps(winners, ById);
    StableSortSorted(winners, ById);
    StableSortKeeps(StableSort(winners, ById), higher);
    SortTwice(StableSort(winners, ById), higher, ById);
  }

  // ----- independence of the input order -----

  /** Two different top items have different identities, and different scores or ids. */
  ghost predicate Separated(items: seq<Item>, higher: Higher) {
    forall a, b :: Top(items, a, higher) && Top(items, b, higher) && a != b ==> Apart(a, b, higher)
  }

  ghost predicate Apart(a: Item, b: Item, higher: Higher) {
    a.key != b.key && (higher(a, b) || higher(b, a) || a.id != b.id)
  }

  lemma SameMembers(xs: seq<Item>, ys: seq<Item>)
    requires multiset(xs) == multiset(ys)
    ensures forall a :: a in xs <==> a in ys
  {
    forall a ensures a in xs <==> a in ys {
      assert a in xs <==> a in multiset(xs);
      assert a in ys <==> a in multiset(ys);
    }
  }

  lemma SameTops(xs: seq<Item>, ys: seq<Item>, higher: Higher)
    requires multiset(xs) == multiset(ys)
    ensures forall a :: Top(xs, a, higher) <==> Top(ys, a, higher)
  {
    SameMembers(xs, ys);
  }

  lemma TopIsUnique(items: seq<Item>, higher: Higher, a: Item, b: Item)
    requires Separated(items, higher) && Top(items, a, higher) && Top(items, b, higher) && a.key == b.key
    ensures a == b
  {
  }

  /** With no ties inside an identity, the winners are all the top items. */
  lemma WinnersAreTops(items: seq<Item>, higher: Higher, a: Item)
    requires StrictWeak(higher) && Separated(items, higher)
    ensures a in Winners(items, higher) <==> Top(items, a, higher)
  {
    WinnersAre(items, higher);
    if Top(items, a, higher) {
      var w := HolderOf(Winners(items, higher), items, higher, a);
      TopIsUnique(items, higher, a, w);
    }
  }

  lemma SameWinners(xs: seq<Item>, ys: seq<Item>, higher: Higher)
    requires StrictWeak(higher) && Separated(xs, higher) && multiset(xs) == multiset(ys)
    ensures multiset(Winners(xs, higher)) == multiset(Winners(ys, higher))
  {
    SameTops(xs, ys, higher);
    forall a ensures a in Winners(xs, higher) <==> a in Winners(ys, higher) {
      WinnersAreTops(xs, higher, a);
      WinnersAreTops(ys, higher, a);
    }
    WinnersAre(xs, higher);
    WinnersAre(ys, higher);
    DistinctSameBag(Winners(xs, higher), Winners(ys, higher));
  }

  lemma WinnersApart(items: seq<Item>, higher: Higher, a: Item, b: Item)
    requires StrictWeak(higher) && Separated(items, higher) && a != b
    requires a in Ordered(items, higher) && b in Ordered(items, higher)
    ensures Lex(higher, ById)(a, b) || Lex(higher, ById)(b, a)
  {
    OrderedIs(items, higher);
    SameMembers(Ordered(items, higher), Winners(items, higher));
    WinnersAreTops(items, higher, a);
    WinnersAreTops(items, higher, b);
    assert Apart(a, b, higher);
    StrLessTotal(a.id, b.id);
  }

  /** Without such ties every permutation of the input gives the same list, at every limit. */
  lemma OrderDoesNotMatter(xs: seq<Item>, ys: seq<Item>, limit: int, higher: Higher)
    requires StrictWeak(higher) && Separated(xs, higher) && multiset(xs) == multiset(ys)
    ensures Ordered(xs, higher) == Ordered(ys, higher) && Listed(xs, limit, higher) == Listed(ys, limit, higher)
  {
    SameWinners(xs, ys, higher);
    OrderedIs(xs, higher);
    OrderedIs(ys, higher);
    var a, b := Ordered(xs, higher), Ordered(ys, higher);
    forall x, y | x in a && y in a && x != y ensures Lex(higher, ById)(x, y) || Lex(higher, ById)(y, x) {
      WinnersApart(xs, higher, x, y);
    }
    SortedUnique(a, b, Lex(higher, ById));
  }

  // ----- and with ties it does matter -----

  /** A top item that comes first is the winner of its identity and leads the winners. */
  lemma {:induction false} FirstLeads(items: seq<Item>, higher: Higher)
    requires items != [] && StrictWeak(higher) && Top(items, items[0], higher)
    ensures Winners(items, higher) != [] && Winners(items, higher)[0] == items[0]
  {
    var front, x := items[..|items| - 1], items[|items| - 1];
    if |items| > 1 {
      assert Top(front, front[0], higher);
      FirstLeads(front, higher);
    } else {
      assert front == [];
    }
  }

  /** A second top item of another identity comes second. */
  lemma {:induction false} SecondFollows(items: seq<Item>, higher: Higher)
    requires |items| >= 2 && StrictWeak(higher) && items[0].key != items[1].key
    requires Top(items, items[0], higher) && Top(items, items[1], higher)
    ensures |Winners(items, higher)| >= 2 && Winners(items, higher)[1] == items[1]
  {
    var front := items[..|items| - 1];
    FirstLeads(items, higher);
    if |items| > 2 {
      assert Top(front, front[0], higher) && Top(front, front[1], higher);
      FirstLeads(front, higher);
      SecondFollows(front, higher);
    } else {
      FirstLeads(front, higher);
      assert front == [items[0]] && front[..0] == [];
      assert Winners(front, higher) == [items[0]];
    }
  }

  /** The relation that holds of one pair only. */
  function OnlyPair(a: Item, b: Item): (Item, Item) -> bool {
    (x, y) => x == a && y == b
  }

  lemma SortKeepsPair(s: seq<Item>, above: (Item, Item) -> bool, a: Item, b: Item)
    requires StrictWeak(above) && Sorted(s, OnlyPair(a, b)) && !above(a, b) && !above(b, a)
    ensures Sorted(StableSort(s, above), OnlyPair(a, b))
  {
    SortTwice(s, above, OnlyPair(a, b));
    var t := StableSort(s, above);
    forall i, j | 0 <= i < j < |t| ensures !OnlyPair(a, b)(t[j], t[i]) {
      assert !Lex(above, OnlyPair(a, b))(t[j], t[i]);
    }
  }

  /** Of two tied top items of different identities the earlier one is listed earlier. */
  lemma TiedKeepOrder(a: Item, b: Item, rest: seq<Item>, higher: Higher)
    requires StrictWeak(higher) && a.key != b.key && a.id == b.id && !higher(a, b) && !higher(b, a)
    requires Top([a, b] + rest, a, higher) && Top([a, b] + rest, b, higher)
    ensures var out := Ordered([a, b] + rest, higher);
      Sorted(out, OnlyPair(a, b)) && a in out && b in out
  {
    var items := [a, b] + rest;
    var winners := Winners(items, higher);
    FirstLeads(items, higher);
    SecondFollows(items, higher);
    WinnersAre(items, higher);
    assert Sorted(winners, OnlyPair(a, b)) by {
      OnePerKeyIsDistinct(winners);
      assert winners[0] == a && winners[1] == b;
    }
    ByIdIsOrder();
    StrLessTotal(a.id, a.id);
    SortKeepsPair(winners, ById, a, b);
    SortKeepsPair(StableSort(winners, ById), higher, a, b);
    OrderedIs(items, higher);
    SameMembers(Ordered(items, higher), winners);
  }

  /** Of two tied top items of one identity the earlier one is listed and the other is not. */
  lemma TiedKeepFirst(a: Item, b: Item, rest: seq<Item>, higher: Higher)
    requires StrictWeak(higher) && a.key == b.key && a != b
    requires Top([a, b] + rest, a, higher)
    ensures var out := Ordered([a, b] + rest, higher);
      a in out && b !in out
  {
    var items := [a, b] + rest;
    FirstLeads(items, higher);
    WinnersAre(items, higher);
    OrderedIs(items, higher);
    OneOfKey(Winners(items, higher), b);
    SameMembers(Ordered(items, higher), Winners(items, higher));
  }

  lemma OneOfKey(held: seq<Item>, b: Item)
    requires OnePerKey(held) && held != [] && held[0].key == b.key && held[0] != b
    ensures b !in held && held[0] in held
  {
  }

  lemma BothOrders(s: seq<Item>, a: Item, b: Item)
    requires a != b && a in s && b in s
    ensures !(Sorted(s, OnlyPair(a, b)) && Sorted(s, OnlyPair(b, a)))
  {
    var i :| 0 <= i < |s| && s[i] == a;
    var j :| 0 <= j < |s| && s[j] == b;
    assert OnlyPair(a, b)(s[i], s[j]) && OnlyPair(b, a)(s[j], s[i]);
  }

  lemma TiedPairShows(a: Item, b: Item, rest: seq<Item>, higher: Higher)
    requires StrictWeak(higher) && a != b && !Apart(a, b, higher)
    requires Top([a, b] + rest, a, higher) && Top([a, b] + rest, b, higher)
    ensures Ordered([a, b] + rest, higher) != Ordered([b, a] + rest, higher)
  {
    var xs, ys := [a, b] + rest, [b, a] + rest;
    assert multiset(xs) == multiset(ys);
    SameTops(xs, ys, higher);
    if a.key == b.key {
      TiedKeepFirst(a, b, rest, higher);
      TiedKeepFirst(b, a, rest, higher);
    } else {
      TiedKeepOrder(a, b, rest, higher);
      TiedKeepOrder(b, a, rest, higher);
      BothOrders(Ordered(xs, higher), a, b);
    }
  }

  lemma Front(xs: seq<Item>, a: Item) returns (rest: seq<Item>)
    requires a in xs
    ensures multiset([a] + rest) == multiset(xs)
  {
    var k :| 0 <= k < |xs| && xs[k] == a;
    rest := xs[..k] + xs[k + 1..];
    assert xs == xs[..k] + ([a] + xs[k + 1..]);
  }

  lemma FrontTwo(xs: seq<Item>, a: Item, b: Item) returns (rest: seq<Item>)
    requires a in xs && b in xs && a != b
    ensures multiset([a, b] + rest) == multiset(xs)
  {
    var one := Front(xs, a);
    SameMembers([a] + one, xs);
    rest := Front(one, b);
    assert [a, b] + rest == [a] + ([b] + rest);
  }

  /** Tied top items show in the list: some two orders of the same input give different lists. */
  lemma TiesShow(xs: seq<Item>, higher: Higher) returns (ys: seq<Item>, zs: seq<Item>)
    requires StrictWeak(higher) && !Separated(xs, higher)
    ensures multiset(ys) == multiset(xs) && multiset(zs) == multiset(xs)
    ensures Ordered(ys, higher) != Ordered(zs, higher)
  {
    var a, b :| Top(xs, a, higher) && Top(xs, b, higher) && a != b && !Apart(a, b, higher);
    var rest := FrontTwo(xs, a, b);
    ys, zs := [a, b] + rest, [b, a] + rest;
    SameTops(xs, ys, higher);
    TiedPairShows(a, b, rest, higher);
  }

  /** The full list is independent of the order of the input exactly when no two top items tie. */
  lemma OrderIndependentIffSeparated(xs: seq<Item>, higher: Higher)
    requires StrictWeak(higher)
    ensures Separated(xs, higher) <==>
      forall ys :: multiset(ys) == multiset(xs) ==> Ordered(ys, higher) == Ordered(xs, higher)
  {
    if Separated(xs, higher) {
      forall ys | multiset(ys) == multiset(xs) ensures Ordered(ys, higher) == Ordered(xs, higher) {
        OrderDoesNotMatter(xs, ys, 1, higher);
      }
    } else {
      var ys, zs := TiesShow(xs, higher);
    }
  }

  // ----- the loop of the source -----

  /** `best_by_key` with its insertion order; `keys[i]` is the identity of `held[i]`. */
  method SortedBusinessItems(entries: seq<Entry>, limit: int, higher: Higher) returns (out: seq<Item>)
    ensures out == Listed(Records(entries), limit, higher)
  {
    var keys: seq<string> := [];
    var best: map<string, Item> := map[];
    assert entries[..0] == [];
    for i := 0 to |entries|
      invariant Held(keys, best, Winners(Records(entries[..i]), higher))
    {
      assert entries[..i + 1][..i] == entries[..i];
      if entries[i].Record? {
        var x := entries[i].item;
        Considered(keys, best, Records(entries[..i]), x, higher);
        if x.key !in best {
          keys := keys + [x.key];
          best := best[x.key := x];
        } else if higher(x, best[x.key]) {
          best := best[x.key := x];
        }
      } else {
        assert Records(entries[..i]) + [] == Records(entries[..i]);
      }
    }
    assert entries[..|entries|] == entries;
    var values := seq(|keys|, i requires 0 <= i < |keys| && keys[i] in best => best[keys[i]]);
    assert values == Winners(Records(entries), higher);
    var ordered := StableSort(StableSort(values, ById), higher);
    var cap := if limit < 1 then 1 else if limit > 100 then 100 else limit;
    out := ordered[..if |ordered| < cap then |ordered| else cap];
  }

  ghost predicate Held(keys: seq<string>, best: map<string, Item>, winners: seq<Item>) {
    && |keys| == |winners| && OnePerKey(winners)
    && (forall i :: 0 <= i < |keys| ==> keys[i] == winners[i].key && keys[i] in best && best[keys[i]] == winners[i])
    && (forall key :: key in best ==> key in keys)
  }

  lemma Located(keys: seq<string>, best: map<string, Item>, held: seq<Item>, key: string)
    requires Held(keys, best, held)
    ensures var k := Position(held, key);
      (key in best <==> k < |held|) && (k < |held| ==> keys[k] == key && best[key] == held[k])
  {
    if key in best {
      var i :| 0 <= i < |keys| && keys[i] == key;
      assert held[i].key == key;
    }
  }

  lemma Replaced(keys: seq<string>, best: map<string, Item>, held: seq<Item>, x: Item)
    requires Held(keys, best, held) && Position(held, x.key) < |held|
    ensures Held(keys, best[x.key := x], held[Position(held, x.key) := x])
  {
  }

  lemma Added(keys: seq<string>, best: map<string, Item>, held: seq<Item>, x: Item)
    requires Held(keys, best, held) && Position(held, x.key) == |held|
    ensures Held(keys + [x.key], best[x.key := x], held + [x])
  {
  }

  lemma Considered(keys: seq<string>, best: map<string, Item>, items: seq<Item>, x: Item, higher: Higher)
    requires Held(keys, best, Winners(items, higher))
    ensures var next := Winners(items + [x], higher);
      if x.key !in best then Held(keys + [x.key], best[x.key := x], next)
      else if higher(x, best[x.key]) then Held(keys, best[x.key := x], next)
      else Held(keys, best, next)
  {
    var held := Winners(items, higher);
    assert (items + [x])[..|items|] == items;
    assert Winners(items + [x], higher) == Consider(held, x, higher);
    Located(keys, best, held, x.key);
    if x.key !in best { Added(keys, best, held, x); } else { Replaced(keys, best, held, x); }
  }
}
