/** Relative date expressions (core/time_tools.py), already recognised into a datatype.

    The reference is the local calendar day of the message. Results outside years 1 to 9999,
    which the source's date type cannot hold, raise. */
module TimeTools {
  import opened Options
  import opened Ordering
  import opened Calendar

  datatype Expr =
    | Blank
    | IsoDate(date: Date)
    | MonthDay(year: Option<int>, month: int, day: int)
    | Week(weeks: int, weekday: Option<int>)
    | MonthEnd
    | Relative(days: int)
    | MonthOf(months: int)
    | LastDays(count: nat)
    | Interval(left: Expr, right: Expr)
    | Unrecognized

  datatype Range = Range(start: Date, end: Date)

  datatype TimeError = MissingReference | BadDate | OutOfRange | EndBeforeStart | BadClock | NotQuoted

  predicate InRange(d: Date) {
    Calendar.Valid(d) && 1 <= d.year <= 9999
  }

  // ----- ISO text, on which the source compares -----

  function Digits(n: nat, width: nat): string
    decreases width, n
  {
    if width == 0 then "" else Digits(n / 10, width - 1) + [('0' as int + n % 10) as char]
  }

  /** Years have four digits, months and days two. */
  function Field(n: nat, isYear: bool): string {
    Digits(n, if isYear then 4 else 2)
  }

  function Iso(d: Date): string
    requires InRange(d)
  {
    Field(d.year, true) + "-" + Field(d.month, false) + "-" + Field(d.day, false)
  }

  function Pow10(w: nat): nat {
    if w == 0 then 1 else 10 * Pow10(w - 1)
  }

  lemma {:induction false} DigitsOrder(a: nat, b: nat, w: nat, x: string, y: string)
    requires a < Pow10(w) && b < Pow10(w)
    ensures StrLess(Digits(a, w) + x, Digits(b, w) + y) <==> a < b || (a == b && StrLess(x, y))
  {
    if w == 0 {
      assert Digits(a, 0) + x == x && Digits(b, 0) + y == y;
    } else {
      var c, d := [('0' as int + a % 10) as char], [('0' as int + b % 10) as char];
      assert Digits(a, w) + x == Digits(a / 10, w - 1) + (c + x);
      assert Digits(b, w) + y == Digits(b / 10, w - 1) + (d + y);
      DigitsOrder(a / 10, b / 10, w - 1, c + x, d + y);
      assert (c + x)[1..] == x && (d + y)[1..] == y;
    }
  }

  lemma DashOrder(x: string, y: string)
    ensures StrLess("-" + x, "-" + y) <==> StrLess(x, y)
  {
    assert ("-" + x)[1..] == x && ("-" + y)[1..] == y;
  }

  lemma DayOrder(a: Date, b: Date)
    requires InRange(a) && InRange(b)
    ensures StrLess(Field(a.day, false), Field(b.day, false)) <==> a.day < b.day
  {
    assert Pow10(2) == 10 * Pow10(1) == 100;
    var x, y := Field(a.day, false), Field(b.day, false);
    DigitsOrder(a.day, b.day, 2, "", "");
    assert x + "" == x && y + "" == y;
  }

  function MonthDayText(d: Date): string
    requires InRange(d)
  {
    Field(d.month, false) + ("-" + Field(d.day, false))
  }

  lemma MonthDayOrder(a: Date, b: Date)
    requires InRange(a) && InRange(b)
    ensures StrLess(MonthDayText(a), MonthDayText(b)) <==> a.month < b.month || (a.month == b.month && a.day < b.day)
  {
    assert Pow10(2) == 10 * Pow10(1) == 100;
    DayOrder(a, b);
    DashOrder(Field(a.day, false), Field(b.day, false));
    DigitsOrder(a.month, b.month, 2, "-" + Field(a.day, false), "-" + Field(b.day, false));
  }

  lemma IsoText(d: Date)
    requires InRange(d)
    ensures Iso(d) == Field(d.year, true) + ("-" + MonthDayText(d))
  {
  }

  /** Comparing ISO texts is comparing dates. */
  lemma IsoOrder(a: Date, b: Date)
    requires InRange(a) && InRange(b)
    ensures StrLess(Iso(a), Iso(b)) <==> Before(a, b)
  {
    assert Pow10(2) == 100 && Pow10(4) == 10 * Pow10(3) == 100 * Pow10(2);
    MonthDayOrder(a, b);
    DashOrder(MonthDayText(a), MonthDayText(b));
    IsoText(a);
    IsoText(b);
    DigitsOrder(a.year, b.year, 4, "-" + MonthDayText(a), "-" + MonthDayText(b));
  }

  // ----- resolving ranges -----

  function Span(start: Date, end: Date): Result<Option<Range>, TimeError> {
    if !InRange(start) || !InRange(end) then Raised(OutOfRange)
    else if StrLess(Iso(end), Iso(start)) then Raised(EndBeforeStart)
    else Ok(Some(Range(start, end)))
  }

  function OneDay(d: Date): Result<Option<Range>, TimeError> {
    if !InRange(d) then Raised(BadDate) else Span(d, d)
  }

  /** From the start of the left side to the end of the right side; the left side is resolved first. */
  function Between(left: Result<Option<Range>, TimeError>, right: Result<Option<Range>, TimeError>): Result<Option<Range>, TimeError> {
    if left.Raised? then left
    else if right.Raised? then right
    else if left.value.None? || right.value.None? then Ok(None)
    else Span(left.value.value.start, right.value.value.end)
  }

  /** Monday of the week `k` weeks away. */
  function WeekStart(today: Date, k: int): Date
    requires Calendar.Valid(today)
  {
    AddDays(today, 7 * k - Weekday(today))
  }

  /** First day of the month `k` months away. */
  function MonthStart(today: Date, k: int): Date {
    var index := today.year * 12 + today.month - 1 + k;
    Date(index / 12, index % 12 + 1, 1)
  }

  function MonthLast(d: Date): Date
    requires 1 <= d.month <= 12
  {
    d.(day := MonthLength(d.year, d.month))
  }

  function ResolveRange(e: Expr, reference: Option<Date>): Result<Option<Range>, TimeError>
    requires reference.Some? ==> InRange(reference.value)
  {
    if e == Blank then Ok(None)
    else if reference.None? then Raised(MissingReference)
    else
      var today := reference.value;
      match e
      case Interval(l, r) => Between(ResolveRange(l, reference), ResolveRange(r, reference))
      case IsoDate(d) => OneDay(d)
      case MonthDay(y, m, d) => OneDay(Date(if y.Some? then y.value else today.year, m, d))
      case Week(k, w) =>
        var start := WeekStart(today, k);
        AddDaysIs(today, 7 * k - Weekday(today));
        if !InRange(start) || !InRange(AddDays(start, 6)) then Raised(OutOfRange)
        else if w.Some? then Span(AddDays(start, w.value), AddDays(start, w.value))
        else Span(start, AddDays(start, 6))
      case MonthEnd => OneDay(MonthLast(today))
      case Relative(k) => Span(AddDays(today, k), AddDays(today, k))
      case MonthOf(k) => Span(MonthStart(today, k), MonthLast(MonthStart(today, k)))
      case LastDays(n) => if n < 1 then Ok(None) else Span(AddDays(today, 1 - n), today)
      case _ => Ok(None)
  }

  ghost predicate Resolves(e: Expr, today: Date, r: Range) {
    InRange(today) && ResolveRange(e, Some(today)) == Ok(Some(r))
  }

  lemma ComesFromSpan(e: Expr, today: Date, r: Range)
    requires Resolves(e, today, r)
    ensures Span(r.start, r.end) == Ok(Some(r))
  {
  }

  /** A resolved range is made of real dates and does not end before it starts. */
  lemma RangesAreOrdered(e: Expr, today: Date, r: Range)
    requires Resolves(e, today, r)
    ensures InRange(r.start) && InRange(r.end) && Ordinal(r.start) <= Ordinal(r.end)
  {
    ComesFromSpan(e, today, r);
    IsoOrder(r.end, r.start);
    OrdinalMonotone(r.end, r.start);
  }

  // ----- the calendar is tiled -----

  lemma WeekIs(today: Date, k: int, r: Range)
    requires Resolves(Week(k, None), today, r)
    ensures Ordinal(r.start) == Ordinal(today) + (7 * k - Weekday(today)) && Ordinal(r.end) == Ordinal(r.start) + 6
    ensures r.start == WeekStart(today, k)
  {
    AddDaysIs(today, 7 * k - Weekday(today));
    AddDaysIs(WeekStart(today, k), 6);
  }

  /** A span whose ends are in order resolves exactly when both are supported dates. */
  lemma SpanResolves(start: Date, end: Date)
    requires Calendar.Valid(start) && Calendar.Valid(end) && Ordinal(start) <= Ordinal(end)
    ensures Span(start, end) == if InRange(start) && InRange(end) then Ok(Some(Range(start, end))) else Raised(OutOfRange)
  {
    if InRange(start) && InRange(end) {
      IsoOrder(end, start);
      OrdinalMonotone(end, start);
    }
  }

  /** A week resolves exactly when it lies within the supported years. */
  lemma WeekResolves(today: Date, k: int)
    requires InRange(today)
    ensures var start, end := WeekStart(today, k), AddDays(today, 7 * k - Weekday(today) + 6);
      ResolveRange(Week(k, None), Some(today)) ==
        if InRange(start) && InRange(end) then Ok(Some(Range(start, end))) else Raised(OutOfRange)
  {
    var start := WeekStart(today, k);
    AddDaysIs(today, 7 * k - Weekday(today));
    AddDaysIs(today, 7 * k - Weekday(today) + 6);
    AddDaysIs(start, 6);
    SameOrdinal(AddDays(start, 6), AddDays(today, 7 * k - Weekday(today) + 6));
    SpanResolves(start, AddDays(start, 6));
  }

  /** A month resolves exactly when its year is supported. */
  lemma MonthResolves(today: Date, k: int)
    requires InRange(today)
    ensures var start := MonthStart(today, k);
      ResolveRange(MonthOf(k), Some(today)) ==
        if 1 <= start.year <= 9999 then Ok(Some(Range(start, MonthLast(start)))) else Raised(OutOfRange)
  {
    var start := MonthStart(today, k);
    SpanResolves(start, MonthLast(start));
  }

  lemma LastDaysFrom(today: Date, n: nat, start: Date)
    requires InRange(today) && n > 0 && start == AddDays(today, 1 - n)
    requires Calendar.Valid(start) && Ordinal(start) <= Ordinal(today)
    ensures Resolves(LastDays(n), today, Range(start, today)) <==> InRange(start)
  {
    SpanResolves(start, today);
  }

  /** "Last n days" resolves exactly when the day n - 1 days ago is supported. */
  lemma LastDaysResolves(today: Date, n: nat)
    requires InRange(today) && n > 0
    ensures Resolves(LastDays(n), today, Range(AddDays(today, 1 - n), today)) <==> InRange(AddDays(today, 1 - n))
  {
    AddDaysIs(today, 1 - n);
    LastDaysFrom(today, n, AddDays(today, 1 - n));
  }

  lemma SameOrdinal(a: Date, b: Date)
    requires Calendar.Valid(a) && Calendar.Valid(b) && Ordinal(a) == Ordinal(b)
    ensures a == b
  {
    OrdinalMonotone(a, b);
  }

  lemma WeekStartIsMonday(today: Date, k: int)
    requires Calendar.Valid(today)
    ensures var start := WeekStart(today, k); Calendar.Valid(start) && (Ordinal(start) + 6) % 7 == 0
  {
    var n := Ordinal(today);
    var w := (n + 6) % 7;
    assert Weekday(today) == w;
    AddDaysIs(today, 7 * k - w);
    MondayOffset(n, k);
    assert Ordinal(WeekStart(today, k)) == n + (7 * k - w);
  }

  /** Weeks run Monday to Sunday, and this week contains the reference day. */
  lemma WeekShape(today: Date, k: int, r: Range)
    requires Resolves(Week(k, None), today, r)
    ensures Weekday(r.start) == 0 && Ordinal(r.end) == Ordinal(r.start) + 6
    ensures k == 0 ==> Ordinal(r.start) <= Ordinal(today) <= Ordinal(r.end)
  {
    WeekIs(today, k, r);
    WeekStartIsMonday(today, k);
  }

  /** The day after the end of one week is the start of the next. */
  lemma WeeksTile(today: Date, k: int, r: Range, next: Range)
    requires Resolves(Week(k, None), today, r) && Resolves(Week(k + 1, None), today, next)
    ensures next.start == AddDays(r.end, 1)
  {
    WeekIs(today, k, r);
    WeekIs(today, k + 1, next);
    AddDaysIs(r.end, 1);
    SameOrdinal(next.start, AddDays(r.end, 1));
  }

  lemma MondayOffset(n: int, k: int)
    ensures (n + (7 * k - (n + 6) % 7) + 6) % 7 == 0
  {
    var w, q := (n + 6) % 7, (n + 6) / 7;
    assert n + 6 == 7 * q + w;
    assert n + (7 * k - w) + 6 == 7 * (q + k);
  }

  lemma WeekdayOffset(n: int, w: int)
    requires n % 7 == 0 && 0 <= w <= 6
    ensures (n + w) % 7 == w
  {
    assert n + w == 7 * (n / 7) + w;
  }

  lemma NamedDay(today: Date, k: int, w: int, r: Range)
    requires 0 <= w <= 6
    requires Resolves(Week(k, Some(w)), today, r)
    ensures r.start == r.end == AddDays(WeekStart(today, k), w)
  {
  }

  lemma DayOfWeek(start: Date, w: int)
    requires Calendar.Valid(start) && (Ordinal(start) + 6) % 7 == 0 && 0 <= w <= 6
    ensures var day := AddDays(start, w);
      Calendar.Valid(day) && Ordinal(day) == Ordinal(start) + w && Weekday(day) == w
  {
    AddDaysIs(start, w);
    WeekdayAt(AddDays(start, w), Ordinal(start), w);
  }

  lemma WeekdayAt(day: Date, monday: int, w: int)
    requires Calendar.Valid(day) && (monday + 6) % 7 == 0 && 0 <= w <= 6 && Ordinal(day) == monday + w
    ensures Weekday(day) == w
  {
    WeekdayOffset(monday + 6, w);
  }

  /** A named weekday is that day of that week. */
  lemma WeekdayInWeek(today: Date, k: int, w: int, r: Range)
    requires 0 <= w <= 6
    requires Resolves(Week(k, Some(w)), today, r)
    ensures var start, day := WeekStart(today, k), r.start;
      && r.end == day && Calendar.Valid(start) && Calendar.Valid(day)
      && Weekday(day) == w && Ordinal(day) == Ordinal(start) + w
  {
    var start := WeekStart(today, k);
    WeekStartIsMonday(today, k);
    DayOfWeek(start, w);
    NamedDay(today, k, w, r);
  }

  /** A month expression covers a whole calendar month; this month contains the reference day. */
  lemma MonthShape(today: Date, k: int, r: Range)
    requires Resolves(MonthOf(k), today, r)
    ensures r.start == MonthStart(today, k) && r.start.day == 1 && r.end == MonthLast(r.start)
    ensures k == 0 ==> Ordinal(r.start) <= Ordinal(today) <= Ordinal(r.end)
  {
    if k == 0 {
      ThisMonth(today);
    }
  }

  lemma ThisMonth(today: Date)
    requires 1 <= today.month <= 12
    ensures MonthStart(today, 0) == today.(day := 1)
  {
    var index := today.year * 12 + today.month - 1;
    assert index / 12 == today.year && index % 12 == today.month - 1;
  }

  /** Months follow one another without gap or overlap, across leap days and years too. */
  lemma MonthsTile(today: Date, k: int, r: Range, next: Range)
    requires Resolves(MonthOf(k), today, r) && Resolves(MonthOf(k + 1), today, next)
    ensures next.start == AddDays(r.end, 1)
  {
    MonthSuccessor(today, k, r.start, next.start);
    AddDaysIs(r.end, 1);
    SameOrdinal(next.start, AddDays(r.end, 1));
  }

  /** The first day of a month follows the last day of the month before. */
  lemma MonthSuccessor(today: Date, k: int, start: Date, next: Date)
    requires start == MonthStart(today, k) && next == MonthStart(today, k + 1)
    ensures Calendar.Valid(MonthLast(start)) && Calendar.Valid(next) && Ordinal(next) == Ordinal(MonthLast(start)) + 1
  {
    var index := today.year * 12 + today.month - 1 + k;
    if index % 12 == 11 {
      assert (index + 1) / 12 == index / 12 + 1 && (index + 1) % 12 == 0;
      YearStep(start.year);
      YearIsItsMonths(start.year);
    } else {
      assert (index + 1) / 12 == index / 12 && (index + 1) % 12 == index % 12 + 1;
    }
  }

  /** "Last n days" is n days ending on the reference day. */
  lemma LastDaysExact(today: Date, n: nat, r: Range)
    requires Resolves(LastDays(n), today, r)
    ensures n >= 1 && r.end == today && Ordinal(r.end) - Ordinal(r.start) + 1 == n
  {
    AddDaysIs(today, 1 - n);
  }

  /** 前天 to 后天: the one day so many days from the reference, if the calendar has it. */
  lemma RelativeIs(today: Date, k: int)
    requires InRange(today)
    ensures ResolveRange(Relative(k), Some(today)).Ok? <==> InRange(AddDays(today, k))
    ensures forall r :: Resolves(Relative(k), today, r) ==>
      r.start == r.end && Calendar.Valid(r.start) && Ordinal(r.start) == Ordinal(today) + k
  {
    AddDaysIs(today, k);
    SpanResolves(AddDays(today, k), AddDays(today, k));
  }

  lemma OneDayIs(d: Date)
    requires InRange(d)
    ensures OneDay(d) == Ok(Some(Range(d, d)))
  {
    IsoOrder(d, d);
  }

  /** 3月5日 is that day of the year named, or of the reference year; a day the month does not have
      raises. */
  lemma MonthDayIs(today: Date, year: Option<int>, month: int, day: int)
    requires InRange(today)
    ensures var y := if year.Some? then year.value else today.year;
      ResolveRange(MonthDay(year, month, day), Some(today)) ==
        if 1 <= y <= 9999 && 1 <= month <= 12 && 1 <= day <= MonthLength(y, month)
        then Ok(Some(Range(Date(y, month, day), Date(y, month, day))))
        else Raised(BadDate)
  {
    var d := Date(if year.Some? then year.value else today.year, month, day);
    if InRange(d) { OneDayIs(d); }
  }

  // ----- interval chains -----

  /** e1到e2到…到en: the text is split at its first separator. */
  function Chain(es: seq<Expr>): Expr
    requires es != []
  {
    if |es| == 1 then es[0] else Interval(es[0], Chain(es[1..]))
  }

  /** No part of the chain starts after `last`. */
  ghost predicate NoneAfter(parts: seq<Range>, last: Date) {
    forall i :: 0 <= i < |parts| ==> !Before(last, parts[i].start)
  }

  function ChainOutcome(parts: seq<Range>): Result<Option<Range>, TimeError>
    requires parts != []
  {
    var last := parts[|parts| - 1].end;
    if (forall i :: 0 <= i < |parts| ==> !Before(last, parts[i].start)) then Ok(Some(Range(parts[0].start, last)))
    else Raised(EndBeforeStart)
  }

  lemma NoneAfterSplit(parts: seq<Range>, last: Date)
    requires parts != []
    ensures NoneAfter(parts, last) <==> !Before(last, parts[0].start) && NoneAfter(parts[1..], last)
  {
    assert forall i :: 1 <= i < |parts| ==> parts[i] == parts[1..][i - 1];
  }

  lemma OutcomeStep(parts: seq<Range>)
    requires |parts| > 1 && InRange(parts[0].start) && InRange(parts[|parts| - 1].end)
    ensures Between(Ok(Some(parts[0])), ChainOutcome(parts[1..])) == ChainOutcome(parts)
  {
    var last := parts[|parts| - 1].end;
    IsoOrder(last, parts[0].start);
    NoneAfterSplit(parts, last);
  }

  lemma OutcomeOfOne(r: Range)
    requires InRange(r.start) && InRange(r.end) && Ordinal(r.start) <= Ordinal(r.end)
    ensures ChainOutcome([r]) == Ok(Some(r))
  {
    OrdinalMonotone(r.end, r.start);
  }

  lemma ChainUnfolds(es: seq<Expr>, today: Date)
    requires |es| > 1 && InRange(today)
    ensures ResolveRange(Chain(es), Some(today)) ==
      Between(ResolveRange(es[0], Some(today)), ResolveRange(Chain(es[1..]), Some(today)))
  {
  }

  /** A chain of parts that resolve is resolved exactly when none starts after the end of the
      last; it then runs from the first start to the last end, and otherwise it raises. */
  lemma {:induction false} ChainResolves(es: seq<Expr>, today: Date, parts: seq<Range>)
    requires es != [] && |parts| == |es| && InRange(today)
    requires forall i :: 0 <= i < |es| ==> Resolves(es[i], today, parts[i])
    ensures ResolveRange(Chain(es), Some(today)) == ChainOutcome(parts)
  {
    var last := |es| - 1;
    RangesAreOrdered(es[last], today, parts[last]);
    if last == 0 {
      OutcomeOfOne(parts[0]);
      assert parts == [parts[0]];
    } else {
      ChainResolves(es[1..], today, parts[1..]);
      RangesAreOrdered(es[0], today, parts[0]);
      OutcomeStep(parts);
      ChainUnfolds(es, today);
    }
  }

  /** The parts of a resolved chain resolve. */
  lemma {:induction false} ChainParts(es: seq<Expr>, today: Date, r: Range) returns (parts: seq<Range>)
    requires es != [] && Resolves(Chain(es), today, r)
    ensures |parts| == |es|
    ensures forall i :: 0 <= i < |es| ==> Resolves(es[i], today, parts[i])
  {
    if |es| == 1 {
      parts := [r];
    } else {
      var left := ResolveRange(es[0], Some(today)).value.value;
      var right := ResolveRange(Chain(es[1..]), Some(today)).value.value;
      var rest := ChainParts(es[1..], today, right);
      parts := [left] + rest;
    }
  }

  /** What a chain that neither raises nor is unresolved means. */
  lemma ChainMeans(es: seq<Expr>, today: Date, r: Range) returns (parts: seq<Range>)
    requires es != [] && Resolves(Chain(es), today, r)
    ensures |parts| == |es| && forall i :: 0 <= i < |es| ==> Resolves(es[i], today, parts[i])
    ensures r == Range(parts[0].start, parts[|parts| - 1].end)
    ensures NoneAfter(parts, r.end)
  {
    parts := ChainParts(es, today, r);
    ChainResolves(es, today, parts);
  }

  predicate IsSeparator(c: char) {
    c == '到' || c == '至' || c == '～' || c == '~'
  }

  /** The pattern's non-greedy split: the first separator with text on both sides. */
  function SplitAt(text: string, i: nat): Option<(string, string)>
    decreases |text| - i
  {
    if i + 1 >= |text| then None
    else if i >= 1 && IsSeparator(text[i]) then Some((text[..i], text[i + 1..]))
    else SplitAt(text, i + 1)
  }

  /** Both sides of a split are shorter, so the recursion ends; the left side cannot be split
      again, so recognised intervals are right-nested chains. */
  lemma {:induction false} SplitShrinks(text: string, i: nat)
    requires forall k :: 1 <= k < i && k + 1 < |text| ==> !IsSeparator(text[k])
    ensures var parts := SplitAt(text, i);
      parts.Some? ==> |parts.value.0| < |text| && |parts.value.1| < |text| && SplitAt(parts.value.0, 0).None?
    decreases |text| - i
  {
    if i + 1 < |text| {
      if i >= 1 && IsSeparator(text[i]) {
        NoSplit(text[..i], 0);
      } else {
        SplitShrinks(text, i + 1);
      }
    }
  }

  lemma {:induction false} NoSplit(text: string, i: nat)
    requires forall k :: 1 <= k < |text| - 1 ==> !IsSeparator(text[k])
    ensures SplitAt(text, i).None?
    decreases |text| - i
  {
    if i + 1 < |text| {
      NoSplit(text, i + 1);
    }
  }

  /** The recogniser over text: intervals are split first, everything else is recognised by
      the patterns `atom` stands for. */
  function Parse(text: string, atom: string -> Expr): Expr
    decreases |text|
  {
    SplitShrinks(text, 0);
    match SplitAt(text, 0)
    case Some((left, right)) => Interval(Parse(left, atom), Parse(right, atom))
    case None => if text == "" then Blank else atom(text)
  }

  /** The text has no separator with text on both sides. */
  ghost predicate Whole(text: string) {
    forall k :: 1 <= k < |text| - 1 ==> text[k] !in {'到', '至', '～', '~'}
  }

  /** A text is split at its first separator that has text on both sides, if any. */
  lemma {:induction false} SplitIs(text: string, i: nat)
    requires forall k :: 1 <= k < i && k < |text| - 1 ==> text[k] !in {'到', '至', '～', '~'}
    ensures SplitAt(text, i).None? ==> Whole(text)
    ensures SplitAt(text, i).Some? ==>
      var k := |SplitAt(text, i).value.0|;
      && 1 <= k < |text| - 1 && text[k] in {'到', '至', '～', '~'} && Whole(text[..k])
      && SplitAt(text, i).value == (text[..k], text[k + 1..])
    decreases |text| - i
  {
    if i + 1 < |text| && !(i >= 1 && IsSeparator(text[i])) {
      SplitIs(text, i + 1);
    }
  }

  /** The texts with a separator between each two. */
  function Join(texts: seq<string>, separators: string): string
    requires |texts| == |separators| + 1
  {
    if separators == "" then texts[0] else texts[0] + ([separators[0]] + Join(texts[1..], separators[1..]))
  }

  lemma JoinMore(left: string, c: char, texts: seq<string>, separators: string)
    requires |texts| == |separators| + 1
    ensures Join([left] + texts, [c] + separators) == left + ([c] + Join(texts, separators))
  {
    assert ([left] + texts)[1..] == texts && ([c] + separators)[1..] == separators;
  }

  /** Every text is a chain of texts without separators, joined by separators, and is read as the
      chain of what the patterns recognise in each of them. */
  lemma {:induction false} ParseIsChain(text: string, atom: string -> Expr)
    returns (es: seq<Expr>, texts: seq<string>, separators: string)
    ensures es != [] && |texts| == |es| == |separators| + 1 && Parse(text, atom) == Chain(es)
    ensures text == Join(texts, separators) && forall c :: c in separators ==> c in {'到', '至', '～', '~'}
    ensures forall i :: 0 <= i < |es| ==> Whole(texts[i]) && es[i] == if texts[i] == "" then Blank else atom(texts[i])
    decreases |text|
  {
    SplitShrinks(text, 0);
    SplitIs(text, 0);
    match SplitAt(text, 0)
    case None =>
      es, texts, separators := [Parse(text, atom)], [text], "";
    case Some((left, right)) =>
      var restEs, restTexts, rest := ParseIsChain(right, atom);
      var c := text[|left|];
      es, texts, separators := [Parse(left, atom)] + restEs, [left] + restTexts, [c] + rest;
      assert es[1..] == restEs;
      JoinMore(left, c, restTexts, rest);
      assert text == left + ([c] + right);
  }

  // ----- deadlines -----

  datatype Meridiem = Unstated | Morning | Afternoon
  datatype Clock = Clock(meridiem: Meridiem, hour: nat, minute: nat)
  /** The trailing word that `resolve_due` strips: none, 前, 之前, 以前 or 截止. */
  datatype Suffix = Bare | Qian | Zhiqian | Yiqian | Jiezhi
  /** `hasBlank`: the text as written contains white space, which resolving ignores. */
  datatype Due = Due(expr: Expr, clock: Option<Clock>, suffix: Suffix, hasBlank: bool)
  datatype DueAt = OnDay(day: Date) | AtTime(date: Date, hour: nat, minute: nat)

  function ResolveDue(due: Due, reference: Option<Date>): Result<Option<DueAt>, TimeError>
    requires reference.Some? ==> InRange(reference.value)
  {
    var period := ResolveRange(due.expr, reference);
    if period.Raised? then Raised(period.error)
    else if period.value.None? then Ok(None)
    else
      var end := period.value.value.end;
      match due.clock
      case None => Ok(Some(OnDay(end)))
      case Some(c) =>
        var hour := if c.meridiem == Afternoon && c.hour < 12 then c.hour + 12 else c.hour;
        if hour > 23 || c.minute > 59 then Raised(BadClock) else Ok(Some(AtTime(end, hour, c.minute)))
  }

  datatype Part = Period | Deadline
  datatype TaskTime = TaskTime(periodStart: Option<Date>, periodEnd: Option<Date>, dueAt: Option<DueAt>, unresolved: seq<Part>)

  /** An expression and whether its text occurs in the message. */
  datatype Phrase<T> = Phrase(meaning: T, quoted: bool)

  /** Whether the text of the expression contains 月. */
  predicate MentionsMonth(e: Expr) {
    match e
    case MonthDay(_, _, _) => true
    case MonthEnd => true
    case MonthOf(_) => true
    case Interval(l, r) => MentionsMonth(l) || MentionsMonth(r)
    case _ => false
  }

  /** The text as written is 月底 or 月末, alone or followed by 前 or 之前, without white space. */
  predicate IsMonthEndDeadline(d: Due) {
    d.expr == MonthEnd && d.clock == None && !d.hasBlank && (d.suffix == Bare || d.suffix == Qian || d.suffix == Zhiqian)
  }

  /** A month-end deadline of a period written with 月 is read from the start of the period. */
  function DueReference(found: Option<Range>, ofMonth: bool, due: Due, reference: Option<Date>): Option<Date> {
    if found.Some? && InRange(found.value.start) && ofMonth && IsMonthEndDeadline(due) then Some(found.value.start) else reference
  }

  function Assemble(hasPeriod: bool, found: Option<Range>, hasDue: bool, dueAt: Option<DueAt>): TaskTime {
    TaskTime(
      if found.Some? then Some(found.value.start) else None,
      if found.Some? then Some(found.value.end) else None,
      dueAt,
      (if hasPeriod && found.None? then [Period] else []) + (if hasDue && dueAt.None? then [Deadline] else []))
  }

  function TaskTimeFields(period: Option<Phrase<Expr>>, due: Option<Phrase<Due>>, reference: Option<Date>): Result<TaskTime, TimeError>
    requires reference.Some? ==> InRange(reference.value)
  {
    if (period.Some? && !period.value.quoted) || (due.Some? && !due.value.quoted) then Raised(NotQuoted)
    else
      var range := if period.Some? then ResolveRange(period.value.meaning, reference) else Ok(None);
      if range.Raised? then Raised(range.error)
      else
        var ofMonth := period.Some? && MentionsMonth(period.value.meaning);
        var dueAt :=
          if due.None? then Ok(None)
          else ResolveDue(due.value.meaning, DueReference(range.value, ofMonth, due.value.meaning, reference));
        if dueAt.Raised? then Raised(dueAt.error)
        else Ok(Assemble(period.Some?, range.value, due.Some?, dueAt.value))
  }

  /** A deadline falls on the last day of its period, at the hour and minute stated: 下午 and 晚上 count
      from noon, a time the day does not have raises, and without a time it is the whole day. */
  lemma ClockIs(due: Due, today: Date, r: Range)
    requires Resolves(due.expr, today, r)
    ensures due.clock.None? ==> ResolveDue(due, Some(today)) == Ok(Some(OnDay(r.end)))
    ensures due.clock.Some? ==>
      var c := due.clock.value;
      && (c.hour > 23 || c.minute > 59 ==> ResolveDue(due, Some(today)) == Raised(BadClock))
      && (c.minute <= 59 && c.meridiem != Afternoon && c.hour <= 23 ==>
            ResolveDue(due, Some(today)) == Ok(Some(AtTime(r.end, c.hour, c.minute))))
      && (c.minute <= 59 && c.meridiem == Afternoon && c.hour <= 11 ==>
            ResolveDue(due, Some(today)) == Ok(Some(AtTime(r.end, 12 + c.hour, c.minute))))
      && (c.minute <= 59 && c.meridiem == Afternoon && 12 <= c.hour <= 23 ==>
            ResolveDue(due, Some(today)) == Ok(Some(AtTime(r.end, c.hour, c.minute))))
  {
  }

  /** The texts with 月 are those of a month day, of the month end, of a month, and intervals of these. */
  lemma MonthIsMentioned(e: Expr)
    ensures e.MonthDay? || e.MonthEnd? || e.MonthOf? ==> MentionsMonth(e)
    ensures e.Interval? ==> (MentionsMonth(e) <==> MentionsMonth(e.left) || MentionsMonth(e.right))
    ensures MentionsMonth(e) ==> e.MonthDay? || e.MonthEnd? || e.MonthOf? || e.Interval?
  {
  }

  /** A wording that is not in the message is refused; what was worded and resolves to nothing is
      listed as unresolved. */
  lemma FieldsAre(period: Option<Phrase<Expr>>, due: Option<Phrase<Due>>, reference: Option<Date>)
    requires reference.Some? ==> InRange(reference.value)
    ensures var fields := TaskTimeFields(period, due, reference);
      && (fields == Raised(NotQuoted) <==> (period.Some? && !period.value.quoted) || (due.Some? && !due.value.quoted))
      && (fields.Ok? ==>
            var f := fields.value;
            && (f.periodStart.Some? <==> f.periodEnd.Some?)
            && (Period in f.unresolved <==> period.Some? && f.periodStart.None?)
            && (Deadline in f.unresolved <==> due.Some? && f.dueAt.None?))
  {
    if period.Some? { NeverNotQuoted(period.value.meaning, reference); }
    if due.Some? { NeverNotQuoted(due.value.meaning.expr, reference); }
    if due.Some? && period.Some? && period.value.quoted && due.value.quoted {
      var range := ResolveRange(period.value.meaning, reference);
      if range.Ok? {
        NeverNotQuoted(due.value.meaning.expr, DueReference(range.value, MentionsMonth(period.value.meaning), due.value.meaning, reference));
      }
    }
  }

  /** Resolving has other reasons to raise. */
  lemma {:induction false} NeverNotQuoted(e: Expr, reference: Option<Date>)
    requires reference.Some? ==> InRange(reference.value)
    ensures ResolveRange(e, reference) != Raised(NotQuoted)
    decreases e
  {
    if e.Interval? {
      NeverNotQuoted(e.left, reference);
      NeverNotQuoted(e.right, reference);
    }
  }

  /** 月底 is the last day of the reference month. */
  lemma MonthEndDue(suffix: Suffix, blank: bool, reference: Date)
    requires InRange(reference)
    ensures ResolveDue(Due(MonthEnd, None, suffix, blank), Some(reference)) == Ok(Some(OnDay(MonthLast(reference))))
  {
    OneDayIs(MonthLast(reference));
  }

  /** The fields hold the period and the day it is due, with nothing left unresolved. */
  predicate IsResolvedAs(fields: Result<TaskTime, TimeError>, r: Range, day: Date) {
    fields.Ok? && var f := fields.value;
      f.periodStart == Some(r.start) && f.periodEnd == Some(r.end) && f.dueAt == Some(OnDay(day)) && |f.unresolved| == 0
  }

  lemma AssembledIs(r: Range, day: Date)
    ensures IsResolvedAs(Ok(Assemble(true, Some(r), true, Some(OnDay(day)))), r, day)
  {
  }

  lemma FieldsUnfold(e: Expr, due: Due, today: Date, r: Range, dueAt: Option<DueAt>)
    requires Resolves(e, today, r) && InRange(r.start)
    requires ResolveDue(due, DueReference(Some(r), MentionsMonth(e), due, Some(today))) == Ok(dueAt)
    ensures TaskTimeFields(Some(Phrase(e, true)), Some(Phrase(due, true)), Some(today)) == Ok(Assemble(true, Some(r), true, dueAt))
  {
  }

  /** The deadline of a resolved period is resolved against the start of the period or against
      the message, never partly against each. */
  lemma DeadlineReference(e: Expr, due: Due, today: Date, r: Range, day: Date)
    requires Resolves(e, today, r) && InRange(r.start)
    requires ResolveDue(due, Some(if MentionsMonth(e) && IsMonthEndDeadline(due) then r.start else today)) == Ok(Some(OnDay(day)))
    ensures IsResolvedAs(TaskTimeFields(Some(Phrase(e, true)), Some(Phrase(due, true)), Some(today)), r, day)
  {
    FieldsUnfold(e, due, today, r, Some(OnDay(day)));
    AssembledIs(r, day);
  }

  lemma MonthIndex(today: Date, k: int)
    requires 1 <= today.month <= 12
    ensures k == 0 <==> MonthStart(today, k).year == today.year && MonthStart(today, k).month == today.month
  {
  }

  lemma SameMonthEnd(a: Date, b: Date)
    requires 1 <= a.month <= 12 && 1 <= b.month <= 12
    ensures MonthLast(a) == MonthLast(b) <==> a.year == b.year && a.month == b.month
  {
  }

  /** A month-end deadline of a month period is the end of that period, unless its suffix is
      以前 or 截止 or it is written with white space: then it is the end of the reference month,
      which agrees only for 本月. */
  lemma MonthEndOfPeriod(k: int, suffix: Suffix, blank: bool, today: Date, r: Range)
    requires Resolves(MonthOf(k), today, r)
    ensures var due := Due(MonthEnd, None, suffix, blank);
      var fields := TaskTimeFields(Some(Phrase(MonthOf(k), true)), Some(Phrase(due, true)), Some(today));
      && fields.Ok? && fields.value.periodEnd == Some(r.end)
      && (fields.value.dueAt == Some(OnDay(r.end)) <==> IsMonthEndDeadline(due) || k == 0)
  {
    var due := Due(MonthEnd, None, suffix, blank);
    MonthShape(today, k, r);
    ComesFromSpan(MonthOf(k), today, r);
    var from := if IsMonthEndDeadline(due) then r.start else today;
    MonthEndDue(suffix, blank, from);
    DeadlineReference(MonthOf(k), due, today, r, MonthLast(from));
    MonthIndex(today, k);
    SameMonthEnd(from, r.start);
  }

  /** More generally the deadline is the last day of the month the period starts in, whatever
      month expression or interval the period is. */
  lemma MonthEndOfPeriodStart(e: Expr, due: Due, today: Date, r: Range)
    requires Resolves(e, today, r) && MentionsMonth(e) && IsMonthEndDeadline(due)
    ensures InRange(r.start)
    ensures IsResolvedAs(TaskTimeFields(Some(Phrase(e, true)), Some(Phrase(due, true)), Some(today)), r, MonthLast(r.start))
  {
    ComesFromSpan(e, today, r);
    MonthEndDue(due.suffix, due.hasBlank, r.start);
    DeadlineReference(e, due, today, r, MonthLast(r.start));
  }
}
