/** When the order of the input shows in the list as cut to its limit (agent/query_agent.py:1524-1539). */
module BusinessCut {
  import opened Ordering
  import opened BusinessItems

  /** Before `a` in every list: higher in score, or tied in score with a smaller id. */
  predicate Beats(c: Item, a: Item, higher: Higher) {
    Lex(higher, ById)(c, a)
  }

  /** The identities whose every top item stands before `a`. */
  ghost function Outranking(items: seq<Item>, a: Item, higher: Higher): set<string> {
    set c | c in items && AlwaysBeats(items, c.key, a, higher) :: c.key
  }

  ghost predicate AlwaysBeats(items: seq<Item>, key: string, a: Item, higher: Higher) {
    forall t :: Top(items, t, higher) && t.key == key ==> Beats(t, a, higher)
  }

  /** Any two top items that are not apart are cut off: at least as many identities as the list
      may show stand before them. */
  ghost predicate TiesAreCut(items: seq<Item>, limit: int, higher: Higher) {
    forall a, b :: Top(items, a, higher) && Top(items, b, higher) && a != b && !Apart(a, b, higher) ==>
      |Outranking(items, a, higher)| >= Cap(limit)
  }

  function KeysOf(items: seq<Item>): set<string> {
    set c | c in items :: c.key
  }

  lemma {:induction false} KeysOfSize(items: seq<Item>)
    ensures |KeysOf(items)| <= |items|
  {
    if items != [] {
      KeysOfSize(items[1..]);
      assert items == [items[0]] + items[1..];
      assert KeysOf(items) == KeysOf(items[1..]) + {items[0].key};
    }
  }

  /** The item listed for an identity. */
  lemma ListedFor(items: seq<Item>, higher: Higher, key: string) returns (q: nat)
    requires StrictWeak(higher) && key in KeysOf(items)
    ensures var out := Ordered(items, higher);
      q < |out| && out[q].key == key && Top(items, out[q], higher)
  {
    var c :| c in items && c.key == key;
    WinnersAre(items, higher);
    var w := HolderOf(Winners(items, higher), items, higher, c);
    OrderedIs(items, higher);
    SameMembers(Ordered(items, higher), Winners(items, higher));
    q :| 0 <= q < |Ordered(items, higher)| && Ordered(items, higher)[q] == w;
  }

  lemma BeatsIsStrict(higher: Higher, a: Item)
    requires StrictWeak(higher)
    ensures !Beats(a, a, higher)
  {
    Irreflexive(higher, a);
    StrLessTotal(a.id, a.id);
  }

  lemma KeyOutranks(items: seq<Item>, a: Item, higher: Higher, key: string, t: Item)
    requires key in Outranking(items, a, higher) && Top(items, t, higher) && t.key == key
    ensures Beats(t, a, higher)
  {
    assert AlwaysBeats(items, key, a, higher);
  }

  lemma EarlierWhenSorted(out: seq<Item>, above: (Item, Item) -> bool, q: nat, p: nat)
    requires q < |out| && p < |out| && Sorted(out, above)
    requires above(out[q], out[p]) && !above(out[p], out[p])
    ensures q < p
  {
  }

  /** Every identity that outranks a listed item is listed before it. */
  lemma OutrankingComesFirst(items: seq<Item>, higher: Higher, p: nat, key: string)
    requires StrictWeak(higher) && p < |Ordered(items, higher)|
    requires key in Outranking(items, Ordered(items, higher)[p], higher)
    ensures key in KeysOf(Ordered(items, higher)[..p])
  {
    var out := Ordered(items, higher);
    var q := ListedFor(items, higher, key);
    OrderedIs(items, higher);
    BeatsIsStrict(higher, out[p]);
    KeyOutranks(items, out[p], higher, key, out[q]);
    EarlierWhenSorted(out, Lex(higher, ById), q, p);
    assert out[..p][q] == out[q];
  }

  /** So an item outranked by `n` identities is not among the first `n`. */
  lemma OutrankedIsLate(items: seq<Item>, higher: Higher, p: nat)
    requires StrictWeak(higher) && p < |Ordered(items, higher)|
    ensures |Outranking(items, Ordered(items, higher)[p], higher)| <= p
  {
    var out := Ordered(items, higher);
    var keys := Outranking(items, out[p], higher);
    forall key | key in keys ensures key in KeysOf(out[..p]) { OutrankingComesFirst(items, higher, p, key); }
    SubsetSize(keys, KeysOf(out[..p]));
    KeysOfSize(out[..p]);
  }

  /** Items shown are apart from all other top items. */
  lemma ShownIsApart(items: seq<Item>, limit: int, higher: Higher, p: nat, b: Item)
    requires StrictWeak(higher) && TiesAreCut(items, limit, higher)
    requires p < |Ordered(items, higher)| && p < Cap(limit)
    requires Top(items, b, higher) && b != Ordered(items, higher)[p]
    ensures Top(items, Ordered(items, higher)[p], higher) && Apart(Ordered(items, higher)[p], b, higher)
  {
    ListedIsTop(items, higher, p);
    OutrankedIsLate(items, higher, p);
  }

  lemma ListedIsTop(items: seq<Item>, higher: Higher, p: nat)
    requires StrictWeak(higher) && p < |Ordered(items, higher)|
    ensures Top(items, Ordered(items, higher)[p], higher)
  {
    WinnersAre(items, higher);
    OrderedIs(items, higher);
    SameMembers(Ordered(items, higher), Winners(items, higher));
    assert Ordered(items, higher)[p] in Winners(items, higher);
  }

  lemma OrderedIsDistinct(items: seq<Item>, higher: Higher)
    requires StrictWeak(higher)
    ensures Distinct(Ordered(items, higher))
  {
    WinnersAre(items, higher);
    OnePerKeyIsDistinct(Winners(items, higher));
    SortDistinct(Winners(items, higher), ById);
    SortDistinct(StableSort(Winners(items, higher), ById), higher);
  }

  /** An item shown by one order is listed by every order, and not before the place it has there
      if the lists agree so far. */
  lemma ShownIsListed(xs: seq<Item>, ys: seq<Item>, limit: int, higher: Higher, p: nat) returns (q: nat)
    requires StrictWeak(higher) && TiesAreCut(xs, limit, higher) && multiset(xs) == multiset(ys)
    requires p < |Ordered(xs, higher)| && p < Cap(limit)
    requires p <= |Ordered(ys, higher)| && Ordered(xs, higher)[..p] == Ordered(ys, higher)[..p]
    ensures p <= q < |Ordered(ys, higher)| && Ordered(ys, higher)[q] == Ordered(xs, higher)[p]
  {
    var a := Ordered(xs, higher)[p];
    ListedIsTop(xs, higher, p);
    SameTops(xs, ys, higher);
    SameMembers(xs, ys);
    assert a.key in KeysOf(ys);
    q := ListedFor(ys, higher, a.key);
    var b := Ordered(ys, higher)[q];
    assert Top(xs, b, higher);
    if b != a { ShownIsApart(xs, limit, higher, p, b); }
    OrderedIsDistinct(xs, higher);
    NotBefore(Ordered(xs, higher), Ordered(ys, higher), p, q);
  }

  lemma NotBefore(a: seq<Item>, b: seq<Item>, p: nat, q: nat)
    requires Distinct(a) && p < |a| && p <= |b| && a[..p] == b[..p]
    requires q < |b| && b[q] == a[p]
    ensures p <= q
  {
    forall i | 0 <= i < p ensures b[i] == a[i] { assert a[..p][i] == b[..p][i]; }
  }

  /** Two sorted lists cannot both put the other's element later. */
  lemma SortedAlike(a: seq<Item>, b: seq<Item>, above: (Item, Item) -> bool, p: nat, q: nat, r: nat)
    requires Sorted(a, above) && Sorted(b, above)
    requires p <= q < |b| && p <= r < |a| && b[q] == a[p] && a[r] == b[p]
    requires a[p] != b[p] ==> above(a[p], b[p]) || above(b[p], a[p])
    ensures a[p] == b[p]
  {
  }

  /** Lists that agree up to some place within the cut agree at that place. */
  lemma SamePlace(xs: seq<Item>, ys: seq<Item>, limit: int, higher: Higher, p: nat)
    requires StrictWeak(higher) && TiesAreCut(xs, limit, higher) && TiesAreCut(ys, limit, higher)
    requires multiset(xs) == multiset(ys)
    requires p < |Ordered(xs, higher)| && p < Cap(limit) && p < |Ordered(ys, higher)|
    requires Ordered(xs, higher)[..p] == Ordered(ys, higher)[..p]
    ensures Ordered(xs, higher)[p] == Ordered(ys, higher)[p]
  {
    var a, b := Ordered(xs, higher)[p], Ordered(ys, higher)[p];
    var q := ShownIsListed(xs, ys, limit, higher, p);
    var r := ShownIsListed(ys, xs, limit, higher, p);
    OrderedIs(xs, higher);
    OrderedIs(ys, higher);
    ListedIsTop(ys, higher, p);
    SameTops(xs, ys, higher);
    if a != b {
      ShownIsApart(xs, limit, higher, p, b);
      ApartIsOrdered(a, b, higher);
    }
    SortedAlike(Ordered(xs, higher), Ordered(ys, higher), Lex(higher, ById), p, q, r);
  }

  lemma ApartIsOrdered(a: Item, b: Item, higher: Higher)
    requires Apart(a, b, higher)
    ensures Lex(higher, ById)(a, b) || Lex(higher, ById)(b, a)
  {
    StrLessTotal(a.id, b.id);
  }

  lemma SameLength(xs: seq<Item>, ys: seq<Item>, higher: Higher)
    requires StrictWeak(higher) && multiset(xs) == multiset(ys)
    ensures |Ordered(xs, higher)| <= |Ordered(ys, higher)|
  {
    WinnersAre(xs, higher);
    var winners, out := Winners(xs, higher), Ordered(ys, higher);
    WinnerCount(winners);
    SameMembers(xs, ys);
    forall key | key in KeysOf(winners) ensures key in KeysOf(out) {
      var w :| w in winners && w.key == key;
      assert Top(xs, w, higher) && w in ys;
      var q := ListedFor(ys, higher, key);
      assert out[q] in out;
    }
    SubsetSize(KeysOf(winners), KeysOf(out));
    KeysOfSize(out);
    OrderedIs(xs, higher);
    assert |multiset(Ordered(xs, higher))| == |multiset(winners)|;
  }

  lemma {:induction false} WinnerCount(held: seq<Item>)
    requires OnePerKey(held)
    ensures |KeysOf(held)| == |held|
  {
    if held != [] {
      WinnerCount(held[1..]);
      assert held == [held[0]] + held[1..];
      assert KeysOf(held) == KeysOf(held[1..]) + {held[0].key};
      assert held[0].key !in KeysOf(held[1..]);
    }
  }

  lemma {:induction false} SamePrefix(xs: seq<Item>, ys: seq<Item>, limit: int, higher: Higher, p: nat)
    requires StrictWeak(higher) && TiesAreCut(xs, limit, higher) && TiesAreCut(ys, limit, higher)
    requires multiset(xs) == multiset(ys)
    requires p <= |Ordered(xs, higher)| && p <= Cap(limit) && p <= |Ordered(ys, higher)|
    ensures Ordered(xs, higher)[..p] == Ordered(ys, higher)[..p]
  {
    if p > 0 {
      SamePrefix(xs, ys, limit, higher, p - 1);
      SamePlace(xs, ys, limit, higher, p - 1);
      var a, b := Ordered(xs, higher), Ordered(ys, higher);
      assert a[..p] == a[..p - 1] + [a[p - 1]] && b[..p] == b[..p - 1] + [b[p - 1]];
    }
  }

  lemma SameOutranking(xs: seq<Item>, ys: seq<Item>, a: Item, higher: Higher)
    requires multiset(xs) == multiset(ys)
    ensures Outranking(xs, a, higher) == Outranking(ys, a, higher)
  {
    SameMembers(xs, ys);
    SameTops(xs, ys, higher);
    assert forall key :: AlwaysBeats(xs, key, a, higher) <==> AlwaysBeats(ys, key, a, higher);
  }

  lemma SameTiesCut(xs: seq<Item>, ys: seq<Item>, limit: int, higher: Higher)
    requires multiset(xs) == multiset(ys) && TiesAreCut(xs, limit, higher)
    ensures TiesAreCut(ys, limit, higher)
  {
    SameTops(xs, ys, higher);
    forall a ensures Outranking(xs, a, higher) == Outranking(ys, a, higher) { SameOutranking(xs, ys, a, higher); }
  }

  /** When all ties are cut off, every permutation of the input shows the same list. */
  lemma CutTiesDoNotMatter(xs: seq<Item>, ys: seq<Item>, limit: int, higher: Higher)
    requires StrictWeak(higher) && TiesAreCut(xs, limit, higher) && multiset(xs) == multiset(ys)
    ensures Listed(xs, limit, higher) == Listed(ys, limit, higher)
  {
    SameTiesCut(xs, ys, limit, higher);
    SameLength(xs, ys, higher);
    SameLength(ys, xs, higher);
    var n := |Ordered(xs, higher)|;
    SamePrefix(xs, ys, limit, higher, if n < Cap(limit) then n else Cap(limit));
  }

  /** A winner that stays a top item stays a winner. */
  lemma {:induction false} TopStays(front: seq<Item>, more: seq<Item>, higher: Higher, w: Item)
    requires StrictWeak(higher) && w in Winners(front, higher) && Top(front + more, w, higher)
    ensures w in Winners(front + more, higher)
    decreases |more|
  {
    if more == [] {
      assert front + more == front;
    } else {
      var less, x := more[..|more| - 1], more[|more| - 1];
      var all := front + more;
      assert all[..|all| - 1] == front + less && all[|all| - 1] == x && x in all;
      assert forall c :: c in front + less ==> c in all;
      WinnersAre(front, higher);
      TopStays(front, less, higher, w);
      WinnersAre(front + less, higher);
      HeldTopStays(Winners(front + less, higher), x, higher, w);
    }
  }

  lemma HeldTopStays(held: seq<Item>, x: Item, higher: Higher, w: Item)
    requires OnePerKey(held) && w in held && (x.key == w.key ==> !higher(x, w))
    ensures w in Consider(held, x, higher)
  {
    var j :| 0 <= j < |held| && held[j] == w;
    var next := Consider(held, x, higher);
    assert x.key == w.key ==> Position(held, x.key) == j;
    assert next[j] == w;
  }

  lemma NoHigherThanTop(items: seq<Item>, higher: Higher, w: Item, t: Item)
    requires StrictWeak(higher) && Top(items, t, higher) && w in items && w.key == t.key && !higher(t, w)
    ensures Top(items, w, higher)
  {
    forall b | b in items && b.key == w.key ensures !higher(b, w) {
      if higher(b, w) { Between(higher, b, t, w); }
    }
  }

  /** `front` holds no item of another identity that stands before `a`, and `back` only such items. */
  ghost predicate Favours(front: seq<Item>, back: seq<Item>, a: Item, higher: Higher) {
    && (forall c :: c in front ==> c.key == a.key || !Beats(c, a, higher))
    && (forall c :: c in back ==> Beats(c, a, higher))
  }

  /** In such an order only identities that always outrank `a` win with an item before it. */
  lemma FavouredWinner(front: seq<Item>, back: seq<Item>, a: Item, higher: Higher, w: Item)
    requires StrictWeak(higher) && Favours(front, back, a, higher)
    requires w in Winners(front + back, higher) && w.key != a.key && Beats(w, a, higher)
    ensures w.key in Outranking(front + back, a, higher)
  {
    var items := front + back;
    WinnersAre(items, higher);
    forall t | Top(items, t, higher) && t.key == w.key ensures Beats(t, a, higher) {
      if t in front {
        WinnersAre(front, higher);
        var held := HolderOf(Winners(front, higher), front, higher, t);
        NoHigherThanTop(items, higher, held, t);
        TopStays(front, back, higher, held);
        OneForKey(Winners(items, higher), held, w);
      }
    }
    assert AlwaysBeats(items, w.key, a, higher);
    assert w in items;
  }

  lemma OneForKey(held: seq<Item>, v: Item, w: Item)
    requires OnePerKey(held) && v in held && w in held && v.key == w.key
    ensures v == w
  {
    var i :| 0 <= i < |held| && held[i] == v;
    var j :| 0 <= j < |held| && held[j] == w;
    assert i < j || j < i || i == j;
  }

  /** The relation that puts one item before all others. */
  function First(a: Item): (Item, Item) -> bool {
    (x, y) => x == a && y != a
  }

  /** A winner that comes first in the input is preceded in the list only by items that beat it. */
  lemma BeforeFirst(items: seq<Item>, higher: Higher, p: nat, q: nat)
    requires StrictWeak(higher) && items != [] && Top(items, items[0], higher)
    requires q < p < |Ordered(items, higher)| && Ordered(items, higher)[p] == items[0]
    ensures Beats(Ordered(items, higher)[q], items[0], higher)
  {
    var a, winners, out := items[0], Winners(items, higher), Ordered(items, higher);
    FirstLeads(items, higher);
    WinnersAre(items, higher);
    OnePerKeyIsDistinct(winners);
    ByIdIsOrder();
    assert Sorted(winners, First(a));
    SortTwice(winners, ById, First(a));
    SortTwice(StableSort(winners, ById), higher, Lex(ById, First(a)));
    OrderedIsDistinct(items, higher);
    assert !Lex(higher, Lex(ById, First(a)))(out[p], out[q]);
  }

  lemma OrderedOnePerKey(items: seq<Item>, higher: Higher)
    requires StrictWeak(higher)
    ensures OnePerKey(Ordered(items, higher))
  {
    var out, winners := Ordered(items, higher), Winners(items, higher);
    WinnersAre(items, higher);
    OrderedIs(items, higher);
    SameMembers(out, winners);
    OrderedIsDistinct(items, higher);
    forall i, j | 0 <= i < j < |out| ensures out[i].key != out[j].key {
      assert out[i] in winners && out[j] in winners;
      if out[i].key == out[j].key { OneForKey(winners, out[i], out[j]); }
    }
  }

  /** An order that favours `a` lists it right after the identities that outrank it. */
  lemma FavouredPlace(front: seq<Item>, back: seq<Item>, a: Item, higher: Higher) returns (p: nat)
    requires StrictWeak(higher) && Favours(front, back, a, higher)
    requires front != [] && front[0] == a && Top(front + back, a, higher)
    ensures p < |Ordered(front + back, higher)| && Ordered(front + back, higher)[p] == a
    ensures p <= |Outranking(front + back, a, higher)|
  {
    var items := front + back;
    var out, winners := Ordered(items, higher), Winners(items, higher);
    FirstLeads(items, higher);
    OrderedIs(items, higher);
    SameMembers(out, winners);
    assert winners[0] == a && a in winners;
    p :| 0 <= p < |out| && out[p] == a;
    OrderedOnePerKey(items, higher);
    forall key | key in KeysOf(out[..p]) ensures key in Outranking(items, a, higher) {
      var c :| c in out[..p] && c.key == key;
      var q :| 0 <= q < p && out[q] == c;
      BeforeFirst(items, higher, p, q);
      FavouredWinner(front, back, a, higher, c);
    }
    SubsetSize(KeysOf(out[..p]), Outranking(items, a, higher));
    WinnerCount(out[..p]);
  }

  lemma {:induction false} FilterBags(s: seq<Item>, keep: Item -> bool, drop: Item -> bool)
    requires forall x :: x in s ==> drop(x) == !keep(x)
    ensures multiset(Filter(s, keep)) + multiset(Filter(s, drop)) == multiset(s)
  {
    if s != [] {
      assert s == [s[0]] + s[1..];
      FilterBags(s[1..], keep, drop);
    }
  }

  /** The rest of the input arranged in favour of `a`. */
  lemma FavouringTail(a: Item, b: Item, rest: seq<Item>, higher: Higher) returns (good: seq<Item>, back: seq<Item>)
    requires StrictWeak(higher) && (b.key == a.key || !Beats(b, a, higher))
    ensures Favours([a, b] + good, back, a, higher)
    ensures multiset(good + back) == multiset(rest)
  {
    var late, early := (c: Item) => !Beats(c, a, higher), (c: Item) => Beats(c, a, higher);
    good, back := Filter(rest, late), Filter(rest, early);
    FilterMembers(rest, late);
    FilterMembers(rest, early);
    FilterBags(rest, late, early);
  }

  lemma PairInOrder(s: seq<Item>, a: Item, b: Item, i: nat, j: nat)
    requires Sorted(s, OnlyPair(a, b)) && a != b
    requires i < |s| && j < |s| && s[i] == a && s[j] == b
    ensures i < j
  {
    assert OnlyPair(a, b)(s[i], s[j]);
  }

  lemma NotEarlier(s: seq<Item>, a: Item, b: Item, p: nat, j: nat)
    requires Sorted(s, OnlyPair(a, b)) && j < p < |s| && s[p] == a
    ensures s[j] != b
  {
    assert !OnlyPair(a, b)(s[p], s[j]);
  }

  lemma OppositeOrders(s: seq<Item>, t: seq<Item>, a: Item, b: Item, p: nat, cap: nat)
    requires Sorted(s, OnlyPair(a, b)) && Sorted(t, OnlyPair(b, a)) && a != b && b in t
    requires p < |s| && p < cap && s[p] == a
    ensures s[..if |s| < cap then |s| else cap] != t[..if |t| < cap then |t| else cap]
  {
    var x, y := s[..if |s| < cap then |s| else cap], t[..if |t| < cap then |t| else cap];
    assert x[p] == a;
    if p < |y| && y[p] == a {
      var j :| 0 <= j < |t| && t[j] == b;
      PairInOrder(t, b, a, j, p);
      assert y[j] == b;
      NotEarlier(s, a, b, p, j);
      assert x[j] == s[j];
    }
  }

  lemma FavouredIsShown(a: Item, b: Item, good: seq<Item>, back: seq<Item>, limit: int, higher: Higher) returns (p: nat)
    requires StrictWeak(higher) && Favours([a, b] + good, back, a, higher)
    requires Top([a, b] + (good + back), a, higher) && |Outranking([a, b] + (good + back), a, higher)| < Cap(limit)
    ensures var ys := [a, b] + (good + back);
      p < Cap(limit) && p < |Ordered(ys, higher)| && Ordered(ys, higher)[p] == a
  {
    assert ([a, b] + good) + back == [a, b] + (good + back);
    p := FavouredPlace([a, b] + good, back, a, higher);
  }

  lemma UncutPairShows(a: Item, b: Item, tail: seq<Item>, limit: int, higher: Higher, p: nat)
    requires StrictWeak(higher) && a != b && !Apart(a, b, higher)
    requires Top([a, b] + tail, a, higher) && Top([a, b] + tail, b, higher)
    requires p < Cap(limit) && p < |Ordered([a, b] + tail, higher)| && Ordered([a, b] + tail, higher)[p] == a
    ensures Listed([a, b] + tail, limit, higher) != Listed([b, a] + tail, limit, higher)
  {
    var ys, zs := [a, b] + tail, [b, a] + tail;
    assert multiset(ys) == multiset(zs);
    SameTops(ys, zs, higher);
    if a.key == b.key {
      TiedKeepFirst(b, a, tail, higher);
      assert Listed(ys, limit, higher)[p] == a;
    } else {
      TiedKeepOrder(a, b, tail, higher);
      TiedKeepOrder(b, a, tail, higher);
      OppositeOrders(Ordered(ys, higher), Ordered(zs, higher), a, b, p, Cap(limit));
    }
  }

  lemma TieBeatsNot(a: Item, b: Item, higher: Higher)
    requires !Apart(a, b, higher)
    ensures b.key == a.key || !Beats(b, a, higher)
  {
    StrLessTotal(a.id, a.id);
  }

  /** A tied item within the cut makes two orders show different lists. */
  lemma UncutTieShows(xs: seq<Item>, limit: int, higher: Higher) returns (ys: seq<Item>, zs: seq<Item>)
    requires StrictWeak(higher) && !TiesAreCut(xs, limit, higher)
    ensures multiset(ys) == multiset(xs) && multiset(zs) == multiset(xs)
    ensures Listed(ys, limit, higher) != Listed(zs, limit, higher)
  {
    var a, b :| Top(xs, a, higher) && Top(xs, b, higher) && a != b && !Apart(a, b, higher)
      && |Outranking(xs, a, higher)| < Cap(limit);
    var rest := FrontTwo(xs, a, b);
    TieBeatsNot(a, b, higher);
    var good, back := FavouringTail(a, b, rest, higher);
    ys, zs := [a, b] + (good + back), [b, a] + (good + back);
    SameTops(xs, ys, higher);
    SameOutranking(xs, ys, a, higher);
    var p := FavouredIsShown(a, b, good, back, limit, higher);
    UncutPairShows(a, b, good + back, limit, higher, p);
  }

  /** What the source shows is independent of the order of the input exactly when every two top
      items that are not apart are outranked by as many identities as the list may hold. */
  lemma ListIndependentIffTiesAreCut(xs: seq<Item>, limit: int, higher: Higher)
    requires StrictWeak(higher)
    ensures TiesAreCut(xs, limit, higher) <==>
      forall ys :: multiset(ys) == multiset(xs) ==> Listed(ys, limit, higher) == Listed(xs, limit, higher)
  {
    if TiesAreCut(xs, limit, higher) {
      forall ys | multiset(ys) == multiset(xs) ensures Listed(ys, limit, higher) == Listed(xs, limit, higher) {
        CutTiesDoNotMatter(xs, ys, limit, higher);
      }
    } else {
      var ys, zs := UncutTieShows(xs, limit, higher);
    }
  }
  /** Scores that never differ. */
  function AllLevel(): Higher {
    (a: Item, b: Item) => false
  }

  /** Two records of one identity with equal scores: at every limit the first is shown, so the tie
      is not cut and the order of the input shows. */
  lemma TieOnInput(limit: int)
    ensures var a, b := Item("k", "1", "x"), Item("k", "2", "y");
      && Listed([a, b], limit, AllLevel()) == [a] && Listed([b, a], limit, AllLevel()) == [b]
      && !TiesAreCut([a, b], limit, AllLevel())
  {
    var a, b := Item("k", "1", "x"), Item("k", "2", "y");
    OnlyFirst([a, b], a, b, AllLevel());
    OnlyFirst([b, a], b, a, AllLevel());
    assert multiset([b, a]) == multiset([a, b]);
    ListIndependentIffTiesAreCut([a, b], limit, AllLevel());
  }

  lemma OnlyFirst(items: seq<Item>, a: Item, b: Item, higher: Higher)
    requires items == [a, b] && a.key == b.key && !higher(b, a)
    ensures Ordered(items, higher) == [a]
  {
    WinnerAlone(items[..1], a, higher);
    SortAlone(Winners(items, higher), a, ById);
    SortAlone(Winners(items, higher), a, higher);
  }

  lemma WinnerAlone(items: seq<Item>, a: Item, higher: Higher)
    requires items == [a]
    ensures Winners(items, higher) == [a]
  {
    var none := items[..0];
    assert Winners(none, higher) == [];
  }

  lemma SortAlone(s: seq<Item>, a: Item, above: Higher)
    requires s == [a]
    ensures StableSort(s, above) == s
  {
    assert StableSort(s[1..], above) == [];
  }
}
