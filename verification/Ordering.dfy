/** Ordering and stable sorting, shared by every ranking step of the model.

    `sorted` and `list.sort` are modelled by one function, StableSort. Its second
    argument says which of two elements must come strictly first; elements that are
    not ordered by it keep their input order, as in the source language. */
module Ordering {

  /** Lexicographic order of strings by code point. */
  predicate StrLess(a: string, b: string) {
    if b == "" then false
    else if a == "" then true
    else if a[0] == b[0] then StrLess(a[1..], b[1..])
    else a[0] < b[0]
  }

  lemma {:induction false} StrLessTotal(a: string, b: string)
    ensures a == b || StrLess(a, b) || StrLess(b, a)
    ensures !(StrLess(a, b) && StrLess(b, a))
    ensures a == b ==> !StrLess(a, b)
  {
    if a != "" && b != "" && a[0] == b[0] {
      StrLessTotal(a[1..], b[1..]);
      assert a == [a[0]] + a[1..] && b == [b[0]] + b[1..];
    }
  }

  lemma {:induction false} StrLessTransitive(a: string, b: string, c: string)
    requires StrLess(a, b) && StrLess(b, c)
    ensures StrLess(a, c)
  {
    if a != "" && a[0] == b[0] && b[0] == c[0] {
      StrLessTransitive(a[1..], b[1..], c[1..]);
    }
  }

  /** The order of strings, as a strict total order. */
  lemma StrLessSplits(a: string, b: string, c: string)
    ensures a == b || StrLess(a, b) || StrLess(b, a)
    ensures b == c || StrLess(b, c) || StrLess(c, b)
    ensures !StrLess(a, a) && !(StrLess(a, b) && StrLess(b, a))
    ensures StrLess(c, a) ==> StrLess(b, a) || StrLess(c, b)
  {
    StrLessTotal(a, b);
    StrLessTotal(b, c);
    StrLessTotal(a, a);
    if StrLess(c, a) && StrLess(a, b) { StrLessTransitive(c, a, b); }
  }

  /** `above(x, y)`: x must come strictly before y. Incomparability is transitive. */
  ghost predicate StrictWeak<T(!new)>(above: (T, T) -> bool) {
    && (forall x, y :: above(x, y) ==> !above(y, x))
    && (forall x, y, z :: above(x, z) ==> above(x, y) || above(y, z))
  }

  ghost predicate Sorted<T>(s: seq<T>, above: (T, T) -> bool) {
    forall i, j :: 0 <= i < j < |s| ==> !above(s[j], s[i])
  }

  function Insert<T>(x: T, s: seq<T>, above: (T, T) -> bool): seq<T> {
    if s == [] then [x]
    else if above(s[0], x) then [s[0]] + Insert(x, s[1..], above)
    else [x] + s
  }

  function StableSort<T>(s: seq<T>, above: (T, T) -> bool): seq<T> {
    if s == [] then [] else Insert(s[0], StableSort(s[1..], above), above)
  }

  lemma {:induction false} InsertKeeps<T>(x: T, s: seq<T>, above: (T, T) -> bool)
    ensures multiset(Insert(x, s, above)) == multiset{x} + multiset(s)
  {
    if s != [] {
      assert s == [s[0]] + s[1..];
      if above(s[0], x) {
        InsertKeeps(x, s[1..], above);
      }
    }
  }

  /** Sorting loses, invents and repeats nothing. */
  lemma {:induction false} StableSortKeeps<T>(s: seq<T>, above: (T, T) -> bool)
    ensures multiset(StableSort(s, above)) == multiset(s)
    ensures |StableSort(s, above)| == |s|
  {
    if s != [] {
      StableSortKeeps(s[1..], above);
      InsertKeeps(s[0], StableSort(s[1..], above), above);
      assert s == [s[0]] + s[1..];
    }
    assert |multiset(StableSort(s, above))| == |multiset(s)|;
  }

  lemma {:induction false} MemberKept<T>(s: seq<T>, above: (T, T) -> bool)
    ensures forall x :: x in StableSort(s, above) <==> x in s
  {
    StableSortKeeps(s, above);
    forall x ensures x in StableSort(s, above) <==> x in s {
      assert x in multiset(s) <==> x in s;
      assert x in multiset(StableSort(s, above)) <==> x in StableSort(s, above);
    }
  }

  lemma {:induction false} InsertSorted<T(!new)>(x: T, s: seq<T>, above: (T, T) -> bool)
    requires StrictWeak(above) && Sorted(s, above)
    ensures Sorted(Insert(x, s, above), above)
  {
    if s != [] {
      var t := Insert(x, s[1..], above);
      InsertKeeps(x, s[1..], above);
      if above(s[0], x) {
        InsertSorted(x, s[1..], above);
        forall j | 0 <= j < |t| ensures !above(t[j], s[0]) {
          assert t[j] in multiset(t);
          if t[j] != x {
            assert t[j] in multiset(s[1..]);
            assert t[j] in s[1..];
          }
        }
        assert Insert(x, s, above) == [s[0]] + t;
      } else {
        forall j | 0 <= j < |s| ensures !above(s[j], x) {
          var y, head := s[j], s[0];
          assert above(y, x) ==> above(y, head) || above(head, x);
        }
      }
    }
  }

  lemma {:induction false} StableSortSorted<T(!new)>(s: seq<T>, above: (T, T) -> bool)
    requires StrictWeak(above)
    ensures Sorted(StableSort(s, above), above)
  {
    if s != [] {
      StableSortSorted(s[1..], above);
      InsertSorted(s[0], StableSort(s[1..], above), above);
    }
  }

  /** Two keys, the first one first. */
  function Lex<T>(above: (T, T) -> bool, lower: (T, T) -> bool): (T, T) -> bool {
    (x, y) => above(x, y) || (!above(y, x) && lower(x, y))
  }

  lemma SortedCons<T>(x: T, s: seq<T>, above: (T, T) -> bool)
    requires Sorted(s, above) && forall j :: 0 <= j < |s| ==> !above(s[j], x)
    ensures Sorted([x] + s, above)
  {
    var t := [x] + s;
    forall i, j | 0 <= i < j < |t| ensures !above(t[j], t[i]) {
      assert t[j] == s[j - 1];
    }
  }

  /** What an element is inserted in front of does not come before it. */
  lemma InsertInFront<T(!new)>(x: T, s: seq<T>, j: nat, above: (T, T) -> bool, lower: (T, T) -> bool)
    requires StrictWeak(above) && Sorted(s, Lex(above, lower)) && j < |s|
    requires !above(s[0], x) && !lower(s[j], x)
    ensures !Lex(above, lower)(s[j], x)
  {
    var y, head := s[j], s[0];
    assert above(y, x) ==> above(y, head) || above(head, x);
    assert j > 0 ==> !Lex(above, lower)(s[j], s[0]);
  }

  lemma {:induction false} InsertKeepsTies<T(!new)>(x: T, s: seq<T>, above: (T, T) -> bool, lower: (T, T) -> bool)
    requires StrictWeak(above)
    requires Sorted(s, Lex(above, lower))
    requires forall y :: y in s ==> !lower(y, x)
    ensures Sorted(Insert(x, s, above), Lex(above, lower))
  {
    if s != [] {
      var t := Insert(x, s[1..], above);
      InsertKeeps(x, s[1..], above);
      if above(s[0], x) {
        InsertKeepsTies(x, s[1..], above, lower);
        forall j | 0 <= j < |t| ensures !Lex(above, lower)(t[j], s[0]) {
          assert t[j] in multiset(t);
          if t[j] != x {
            assert t[j] in multiset(s[1..]);
            assert t[j] in s[1..];
            var k :| 0 <= k < |s[1..]| && s[1..][k] == t[j];
            assert s[k + 1] == t[j];
          }
        }
        SortedCons(s[0], t, Lex(above, lower));
      } else {
        forall j | 0 <= j < |s| ensures !Lex(above, lower)(s[j], x) {
          InsertInFront(x, s, j, above, lower);
        }
        SortedCons(x, s, Lex(above, lower));
      }
    }
  }

  /** Sorting by a minor key and then, stably, by a major key orders by both. */
  lemma {:induction false} SortTwice<T(!new)>(s: seq<T>, above: (T, T) -> bool, lower: (T, T) -> bool)
    requires StrictWeak(above) && Sorted(s, lower)
    ensures Sorted(StableSort(s, above), Lex(above, lower))
  {
    if s != [] {
      SortTwice(s[1..], above, lower);
      var t := StableSort(s[1..], above);
      MemberKept(s[1..], above);
      forall y | y in t ensures !lower(y, s[0]) {
        var k :| 0 <= k < |s[1..]| && s[1..][k] == y;
        assert s[k + 1] == y;
      }
      InsertKeepsTies(s[0], t, above, lower);
    }
  }

  lemma TailMultiset<T>(s: seq<T>)
    requires s != []
    ensures multiset(s[1..]) == multiset(s) - multiset{s[0]}
  {
    assert s == [s[0]] + s[1..];
  }

  /** The first of two equally sorted arrangements is the same element. */
  lemma FirstUnique<T(!new)>(a: seq<T>, b: seq<T>, above: (T, T) -> bool)
    requires a != [] && b != []
    requires a[0] in b && b[0] in a
    requires Sorted(a, above) && Sorted(b, above) && Separates(a, above)
    ensures a[0] == b[0]
  {
    var k :| 0 <= k < |b| && b[k] == a[0];
    var m :| 0 <= m < |a| && a[m] == b[0];
    assert k > 0 ==> !above(b[k], b[0]);
    assert m > 0 ==> !above(a[m], a[0]);
  }

  ghost predicate Separates<T>(s: seq<T>, above: (T, T) -> bool) {
    forall x, y :: x in s && y in s && x != y ==> above(x, y) || above(y, x)
  }

  lemma TailOfSorted<T(!new)>(s: seq<T>, above: (T, T) -> bool)
    requires s != [] && Sorted(s, above) && Separates(s, above)
    ensures Sorted(s[1..], above) && Separates(s[1..], above)
  {
    assert forall x :: x in s[1..] ==> x in s;
  }

  lemma SameFirst<T(!new)>(a: seq<T>, b: seq<T>, above: (T, T) -> bool)
    requires multiset(a) == multiset(b) && a != [] && b != []
    requires Sorted(a, above) && Sorted(b, above) && Separates(a, above)
    ensures a[0] == b[0] && multiset(a[1..]) == multiset(b[1..])
  {
    assert a[0] in multiset(b) && b[0] in multiset(a);
    FirstUnique(a, b, above);
    TailMultiset(a);
    TailMultiset(b);
  }

  lemma SameSize<T>(a: seq<T>, b: seq<T>)
    requires multiset(a) == multiset(b)
    ensures |a| == |b|
  {
    assert |b| == |multiset(b)| == |multiset(a)| == |a|;
  }

  /** Only one arrangement of given elements is sorted when the order separates them. */
  lemma {:induction false} SortedUnique<T(!new)>(a: seq<T>, b: seq<T>, above: (T, T) -> bool)
    requires multiset(a) == multiset(b)
    requires Sorted(a, above) && Sorted(b, above) && Separates(a, above)
    ensures a == b
  {
    SameSize(a, b);
    if a != [] {
      SameFirst(a, b, above);
      TailOfSorted(a, above);
      SortedTail(b, above);
      SortedUnique(a[1..], b[1..], above);
      assert a == [a[0]] + a[1..] && b == [b[0]] + b[1..];
    }
  }

  lemma SortedTail<T>(s: seq<T>, above: (T, T) -> bool)
    requires s != [] && Sorted(s, above)
    ensures Sorted(s[1..], above)
  {
  }

  lemma SubsetSize<T>(a: set<T>, b: set<T>)
    requires a <= b
    ensures |a| <= |b|
  {
    assert b == a + (b - a);
  }

  /** No element occurs twice. */
  ghost predicate Distinct<T>(s: seq<T>) {
    forall i, j :: 0 <= i < j < |s| ==> s[i] != s[j]
  }

  /** A duplicate-free sequence drawn from a finite set is no longer than the set. */
  lemma {:induction false} DistinctBounded<T>(s: seq<T>, bound: set<T>)
    requires Distinct(s)
    requires forall x :: x in s ==> x in bound
    ensures |s| <= |bound|
    ensures |s| == |bound| ==> forall x :: x in bound ==> x in s
  {
    if s == [] {
      if |bound| == 0 { assert bound == {}; }
    } else {
      var rest := bound - {s[0]};
      assert s[0] in s;
      forall x | x in s[1..] ensures x in rest {
        var k :| 0 <= k < |s[1..]| && s[1..][k] == x;
        assert x == s[k + 1];
      }
      DistinctBounded(s[1..], rest);
      assert bound == rest + {s[0]};
      assert |bound| == |rest| + 1;
      if |s| == |bound| {
        forall x | x in bound ensures x in s {
          if x != s[0] {
            assert x in rest;
            assert x in s[1..];
          }
        }
      }
    }
  }

  /** A list comprehension with one condition. */
  function Filter<T>(s: seq<T>, keep: T -> bool): seq<T> {
    if s == [] then []
    else if keep(s[0]) then [s[0]] + Filter(s[1..], keep)
    else Filter(s[1..], keep)
  }

  lemma {:induction false} FilterMembers<T>(s: seq<T>, keep: T -> bool)
    ensures forall x :: x in Filter(s, keep) <==> x in s && keep(x)
  {
    if s != [] {
      assert s == [s[0]] + s[1..];
      FilterMembers(s[1..], keep);
    }
  }

  lemma {:induction false} FilterTwice<T>(s: seq<T>, first: T -> bool, second: T -> bool, both: T -> bool)
    requires forall x :: x in s ==> both(x) == (first(x) && second(x))
    ensures Filter(Filter(s, first), second) == Filter(s, both)
  {
    if s != [] {
      assert s == [s[0]] + s[1..];
      FilterTwice(s[1..], first, second, both);
      var rest := Filter(s[1..], first);
      if first(s[0]) {
        assert ([s[0]] + rest)[1..] == rest;
      }
    }
  }

  lemma {:induction false} FilterAll<T>(s: seq<T>, keep: T -> bool)
    requires forall x :: x in s ==> keep(x)
    ensures Filter(s, keep) == s
  {
    if s != [] {
      assert s == [s[0]] + s[1..];
      FilterAll(s[1..], keep);
    }
  }

  lemma {:induction false} FilterSame<T>(s: seq<T>, f: T -> bool, g: T -> bool)
    requires forall x :: x in s ==> f(x) == g(x)
    ensures Filter(s, f) == Filter(s, g)
  {
    if s != [] {
      assert s == [s[0]] + s[1..];
      FilterSame(s[1..], f, g);
    }
  }

  /** The first element kept is the first one that satisfies the condition. */
  lemma {:induction false} FilterFirst<T>(s: seq<T>, keep: T -> bool, k: nat)
    requires k <= |s| && forall i :: 0 <= i < k ==> !keep(s[i])
    requires k < |s| ==> keep(s[k])
    ensures k < |s| ==> Filter(s, keep) != [] && Filter(s, keep)[0] == s[k]
    ensures k == |s| ==> Filter(s, keep) == []
  {
    if k > 0 {
      FilterFirst(s[1..], keep, k - 1);
    }
  }

  lemma {:induction false} FilterDistinct<T>(s: seq<T>, keep: T -> bool)
    requires Distinct(s)
    ensures Distinct(Filter(s, keep))
  {
    if s != [] {
      FilterDistinct(s[1..], keep);
      FilterMembers(s[1..], keep);
    }
  }

  lemma {:induction false} FilterCounts<T>(s: seq<T>, keep: T -> bool, drop: T -> bool)
    requires forall x :: x in s ==> drop(x) == !keep(x)
    ensures |Filter(s, keep)| + |Filter(s, drop)| == |s|
  {
    if s != [] {
      assert s == [s[0]] + s[1..];
      FilterCounts(s[1..], keep, drop);
    }
  }

  /** A duplicate-free list of members of another list is no longer than it. */
  lemma {:induction false} NoLonger<T>(a: seq<T>, b: seq<T>)
    requires Distinct(a) && forall x :: x in a ==> x in b
    ensures |a| <= |b|
  {
    if a != [] {
      assert a[0] in b;
      var k :| 0 <= k < |b| && b[k] == a[0];
      var rest := b[..k] + b[k + 1..];
      forall x | x in a[1..] ensures x in rest {
        assert x in a;
        var j :| 0 <= j < |b| && b[j] == x;
        assert j != k;
        assert j < k ==> rest[j] == x;
        assert j > k ==> rest[j - 1] == x;
      }
      NoLonger(a[1..], rest);
    }
  }

  /** Leaving a duplicate-free part of a duplicate-free list out leaves the rest. */
  lemma RestCount<T(!new)>(s: seq<T>, part: seq<T>, rest: T -> bool)
    requires Distinct(s) && Distinct(part) && forall x :: x in part ==> x in s
    requires forall x :: x in s ==> rest(x) == (x !in part)
    ensures |Filter(s, rest)| == |s| - |part|
  {
    var inPart := x => x in part;
    FilterDistinct(s, inPart);
    FilterMembers(s, inPart);
    forall x | x in Filter(s, inPart) ensures x in part { assert inPart(x); }
    NoLonger(Filter(s, inPart), part);
    NoLonger(part, Filter(s, inPart));
    FilterCounts(s, inPart, rest);
  }

  lemma {:induction false} InsertSame<T>(x: T, s: seq<T>, f: (T, T) -> bool, g: (T, T) -> bool)
    requires forall y :: y in s ==> f(y, x) == g(y, x)
    ensures Insert(x, s, f) == Insert(x, s, g)
  {
    if s != [] {
      InsertSame(x, s[1..], f, g);
    }
  }

  /** Sorting only asks about the elements. */
  lemma {:induction false} SortSame<T(!new)>(s: seq<T>, f: (T, T) -> bool, g: (T, T) -> bool)
    requires forall x, y :: x in s && y in s ==> f(x, y) == g(x, y)
    ensures StableSort(s, f) == StableSort(s, g)
  {
    if s != [] {
      SortSame(s[1..], f, g);
      MemberKept(s[1..], g);
      forall y | y in StableSort(s[1..], g) ensures f(y, s[0]) == g(y, s[0]) { assert y in s[1..] && y in s; }
      InsertSame(s[0], StableSort(s[1..], g), f, g);
    }
  }

  /** Sorting a duplicate-free list keeps it so. */
  lemma SortDistinct<T(!new)>(s: seq<T>, above: (T, T) -> bool)
    requires Distinct(s)
    ensures Distinct(StableSort(s, above))
  {
    var t := StableSort(s, above);
    StableSortKeeps(s, above);
    MemberKept(s, above);
    if i, j :| 0 <= i < j < |t| && t[i] == t[j] {
      var rest := t[..j] + t[j + 1..];
      forall x | x in s ensures x in rest {
        assert x in t;
        var k :| 0 <= k < |t| && t[k] == x;
        assert k < j ==> rest[k] == x;
        assert k > j ==> rest[k - 1] == x;
        assert k == j ==> rest[i] == x;
      }
      NoLonger(s, rest);
      assert false;
    }
  }

  lemma {:induction false} CountDistinct<T(!new)>(s: seq<T>, x: T)
    requires Distinct(s)
    ensures multiset(s)[x] == if x in s then 1 else 0
  {
    if s != [] {
      assert s == [s[0]] + s[1..];
      CountDistinct(s[1..], x);
    }
  }

  lemma DistinctSameBag<T(!new)>(a: seq<T>, b: seq<T>)
    requires Distinct(a) && Distinct(b)
    requires forall x :: x in a <==> x in b
    ensures multiset(a) == multiset(b)
  {
    forall x ensures multiset(a)[x] == multiset(b)[x] {
      CountDistinct(a, x);
      CountDistinct(b, x);
    }
  }

  /** `at` lists, in order, the positions of all elements that satisfy the condition. */
  ghost predicate SelectedAt<T>(s: seq<T>, keep: T -> bool, at: seq<nat>) {
    && (forall i, j :: 0 <= i < j < |at| ==> at[i] < at[j])
    && (forall k: nat :: k in at <==> k < |s| && keep(s[k]))
  }

  function Shifted(at: seq<nat>): (shifted: seq<nat>)
    ensures |shifted| == |at| && forall i :: 0 <= i < |at| ==> shifted[i] == at[i] + 1
  {
    seq(|at|, i requires 0 <= i < |at| => at[i] + 1)
  }

  lemma ShiftedMembers(at: seq<nat>, k: nat)
    ensures k in Shifted(at) <==> k > 0 && k - 1 in at
  {
    if k > 0 && k - 1 in at {
      var i :| 0 <= i < |at| && at[i] == k - 1;
      assert Shifted(at)[i] == k;
    }
  }

  /** Positions in a list, from those in its tail. */
  lemma SelectedStep<T(!new)>(s: seq<T>, keep: T -> bool, rest: seq<nat>)
    requires s != [] && SelectedAt(s[1..], keep, rest)
    ensures SelectedAt(s, keep, (if keep(s[0]) then [0] else []) + Shifted(rest))
  {
    var at := (if keep(s[0]) then [0] else []) + Shifted(rest);
    forall k: nat ensures k in at <==> k < |s| && keep(s[k]) {
      ShiftedMembers(rest, k);
      assert k in at <==> (keep(s[0]) && k == 0) || k in Shifted(rest);
      assert 0 < k < |s| ==> s[k] == s[1..][k - 1];
    }
  }

  /** `out` reads `s` at these positions. */
  ghost predicate ReadsAt<T>(out: seq<T>, s: seq<T>, at: seq<nat>) {
    |out| == |at| && forall i :: 0 <= i < |at| ==> at[i] < |s| && out[i] == s[at[i]]
  }

  lemma ReadsStep<T>(out: seq<T>, s: seq<T>, rest: seq<nat>)
    requires s != [] && ReadsAt(out, s[1..], rest)
    ensures ReadsAt(out, s, Shifted(rest)) && ReadsAt([s[0]] + out, s, [0] + Shifted(rest))
  {
    var at := Shifted(rest);
    forall i | 0 <= i < |at| ensures at[i] < |s| && out[i] == s[at[i]] {
      assert rest[i] < |s[1..]| && s[1..][rest[i]] == s[at[i]];
    }
  }

  /** A list comprehension takes the elements at those positions. */
  lemma {:induction false} FilterPositions<T(!new)>(s: seq<T>, keep: T -> bool) returns (at: seq<nat>)
    ensures SelectedAt(s, keep, at) && ReadsAt(Filter(s, keep), s, at)
  {
    at := [];
    if s != [] {
      var rest := FilterPositions(s[1..], keep);
      SelectedStep(s, keep, rest);
      ReadsStep(Filter(s[1..], keep), s, rest);
      at := (if keep(s[0]) then [0] else []) + Shifted(rest);
      assert !keep(s[0]) ==> at == Shifted(rest);
    }
  }
}
