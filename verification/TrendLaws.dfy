// What the trend chart shows, spelled out on days, weeks and calendar months.
module TrendLaws {
  import opened Common
  import opened Calendar
  import opened StatsColumns
  import opened Trend

  // ---- months ----------------------------------------------------------------------------------

  ghost predicate LeapYear(y: int) { y % 400 == 0 || (y % 4 == 0 && y % 100 != 0) }

  ghost function NextFirst(y: int, k: int): int
    requires y >= 1 && 0 <= k < 12
  {
    if k == 11 then FirstOf(y + 1, 0) else FirstOf(y, k + 1)
  }

  // Each month starts as many days after the one before as that one has.
  lemma MonthsAreAsLong(y: int, k: int)
    requires y >= 1 && 0 <= k < 12
    ensures k in {0, 2, 4, 6, 7, 9, 11} ==> NextFirst(y, k) == FirstOf(y, k) + 31
    ensures k in {3, 5, 8, 10} ==> NextFirst(y, k) == FirstOf(y, k) + 30
    ensures k == 1 ==> NextFirst(y, k) == FirstOf(y, k) + if LeapYear(y) then 29 else 28
  {
    DivMod(y * 12 + k, 12, y, k);
    DaysOfMonth(y * 12 + k, y, k);
    NextFirstIs(y, k);
  }

  lemma NextFirstIs(y: int, k: int)
    requires y >= 1 && 0 <= k < 12
    ensures NextFirst(y, k) == FirstOf(y, k) + MonthDays(y * 12 + k)
  {
    NextMonth(y, k);
  }

  // And the first day is 1 January of year 1.
  lemma DayOne()
    ensures FirstOf(1, 0) == 1
  {
  }

  lemma DaysOfMonth(m: Month, y: int, k: int)
    requires m / 12 == y && m % 12 == k
    ensures k in {0, 2, 4, 6, 7, 9, 11} ==> MonthDays(m) == 31
    ensures k in {3, 5, 8, 10} ==> MonthDays(m) == 30
    ensures k == 1 ==> MonthDays(m) == if LeapYear(y) then 29 else 28
  {
    LeapIs(y);
  }

  lemma LeapIs(y: int)
    ensures LeapYear(y) <==> Leap(y)
  {
    if y % 400 == 0 { assert y == 4 * (y / 400 * 100); }
  }

  // A month's index and the first day of that month of the year.
  lemma StartIsFirst(y: int, k: int)
    requires y >= 1 && 0 <= k < 12
    ensures MonthStart(y * 12 + k) == FirstOf(y, k)
  {
    DivMod(y * 12 + k, 12, y, k);
    MonthStartClosedForm(y * 12 + k);
  }

  // ---- where a bucket may start -------------------------------------------------------------------

  ghost predicate FirstOfMonth(d: int, y: int, k: int) { y >= 1 && 0 <= k < 12 && d == FirstOf(y, k) }

  // The day some month of the year among these starts on.
  ghost predicate FirstOfOne(d: int, months: set<int>) { exists y, k :: FirstOfMonth(d, y, k) && k in months }

  ghost function MonthsOf(unit: Unit): set<int> {
    match unit case Quarterly => {0, 3, 6, 9} case Yearly => {0} case _ => {0, 1, 2, 3, 4, 5, 6, 7, 8, 9, 10, 11}
  }

  lemma FloorIsMonth(unit: Unit, m: int)
    requires ByMonth(unit) && m >= 12
    ensures Floor(unit, m) == m <==> m % 12 in MonthsOf(unit)
  {
    assert m % 12 == m - m / 12 * 12;
  }

  lemma MonthlyIs(unit: Unit, d: int)
    requires ByMonth(unit)
    ensures Boundary(unit, d) <==> FirstOfOne(d, MonthsOf(unit))
  {
    if Boundary(unit, d) {
      var m: int :| m >= 12 && Floor(unit, m) == m && Starts()(m) == d;
      MonthStartClosedForm(m);
      FloorIsMonth(unit, m);
      assert FirstOfMonth(d, m / 12, m % 12);
    }
    if FirstOfOne(d, MonthsOf(unit)) {
      var y, k :| FirstOfMonth(d, y, k) && k in MonthsOf(unit);
      MonthStartsOne(unit, y, k);
    }
  }

  lemma MonthStartsOne(unit: Unit, y: int, k: int)
    requires ByMonth(unit) && y >= 1 && 0 <= k < 12 && k in MonthsOf(unit)
    ensures StartsUnit(Starts(), unit, FirstOf(y, k))
  {
    var m := y * 12 + k;
    StartIsFirst(y, k);
    DivMod(m, 12, y, k);
    FloorIsMonth(unit, m);
    assert Floor(unit, m) == m && Starts()(m) == FirstOf(y, k);
  }

  // Days start anywhere, weeks on Sundays - day 7 was one - months, quarters and years on the first
  // of a month, of a quarter's first month, of January.
  lemma BoundaryExactly(d: int)
    ensures Boundary(Daily, d)
    ensures Boundary(Weekly, d) <==> (d - 7) % 7 == 0
    ensures Boundary(Monthly, d) <==> FirstOfOne(d, {0, 1, 2, 3, 4, 5, 6, 7, 8, 9, 10, 11})
    ensures Boundary(Quarterly, d) <==> FirstOfOne(d, {0, 3, 6, 9})
    ensures Boundary(Yearly, d) <==> FirstOfOne(d, {0})
  {
    MonthlyIs(Monthly, d);
    MonthlyIs(Quarterly, d);
    MonthlyIs(Yearly, d);
  }

  // ---- which unit all time takes -------------------------------------------------------------------

  lemma CoversAre(unit: Unit, starts: seq<int>, first: int, last: int)
    requires Covers(unit, starts, first, last)
    ensures Trend.Fits(unit, first, last) <==> |starts| <= 26
  {
    forall other | Covers(unit, other, first, last) ensures other == starts { CoversOnce(unit, other, starts, first, last); }
  }

  // The weeks touched, from the first day's Sunday on.
  lemma WeeksFit(first: Day, last: int)
    requires first <= last
    ensures Trend.Fits(Weekly, first, last) <==> last / 7 - first / 7 < 26
  {
    var n := last / 7 - first / 7 + 1;
    var starts := seq(n, i requires 0 <= i => first - first % 7 + 7 * i);
    forall b | b % 7 == 0 && starts[0] <= b <= last ensures b in starts {
      var i := (b - starts[0]) / 7;
      assert 0 <= i < n && starts[i] == b;
    }
    assert Covers(Weekly, starts, first, last);
    CoversAre(Weekly, starts, first, last);
  }

  lemma StartsAscendFrom(start: int -> int, a: int, b: int)
    requires MonthsGrow(start) && 12 <= a <= b
    ensures start(a) <= start(b)
  {
    if a < b { StartsAscend(start, a, b); }
  }

  // The month n units after month f.
  ghost function Later(unit: Unit, f: int, n: nat): (m: int)
    requires ByMonth(unit)
    ensures m >= f
  {
    if n == 0 then f else Later(unit, f, n - 1) + Step(unit)
  }

  lemma {:induction false} LaterIs(unit: Unit, f: int, n: nat)
    requires ByMonth(unit)
    ensures unit.Monthly? ==> Later(unit, f, n) == f + n
    ensures unit.Quarterly? ==> Later(unit, f, n) == f + 3 * n
    ensures unit.Yearly? ==> Later(unit, f, n) == f + 12 * n
  {
    if n > 0 { LaterIs(unit, f, n - 1); }
  }

  // The starts of n units from month f on.
  ghost function UnitStarts(start: int -> int, unit: Unit, f: int, n: nat): (r: seq<int>)
    requires ByMonth(unit)
    ensures |r| == n && (n > 0 ==> r[0] == start(f))
  {
    if n == 0 then [] else UnitStarts(start, unit, f, n - 1) + [start(Later(unit, f, n - 1))]
  }

  lemma {:induction false} UnitStartsAll(start: int -> int, unit: Unit, f: int, n: nat)
    requires MonthsGrow(start) && ByMonth(unit) && f >= 12 && Floor(unit, f) == f
    ensures Floor(unit, Later(unit, f, n)) == Later(unit, f, n)
    ensures AllStarts(start, UnitStarts(start, unit, f, n), unit, start(f), start(Later(unit, f, n)))
  {
    if n > 0 {
      var m := Later(unit, f, n - 1);
      UnitStartsAll(start, unit, f, n - 1);
      StartsAscendFrom(start, f, m);
      NextStart(start, UnitStarts(start, unit, f, n - 1), unit, start(f), m);
      FloorStands(unit, m);
    } else {
      assert AllStarts(start, [], unit, start(f), start(f));
    }
  }

  // How many units there are from the one of month m to the one of month n.
  ghost function UnitsBetween(unit: Unit, m: int, n: int): int
    requires ByMonth(unit)
  {
    match unit case Monthly => n - m + 1 case Quarterly => n / 3 - m / 3 + 1 case Yearly => n / 12 - m / 12 + 1
  }

  lemma LaterFloor(unit: Unit, m: int, n: int)
    requires ByMonth(unit) && 12 <= m <= n
    ensures UnitsBetween(unit, m, n) > 0
    ensures Later(unit, Floor(unit, m), UnitsBetween(unit, m, n)) == Floor(unit, n) + Step(unit)
  {
    LaterIs(unit, Floor(unit, m), UnitsBetween(unit, m, n));
  }

  lemma UnitsFit(unit: Unit, first: Day, last: int, m: int, n: int)
    requires ByMonth(unit) && first <= last && 12 <= m <= n
    requires MonthStart(m) <= first < MonthStart(m + 1) && MonthStart(n) <= last < MonthStart(n + 1)
    ensures Trend.Fits(unit, first, last) <==> UnitsBetween(unit, m, n) <= 26
  {
    var start := Starts();
    StartsAreMonths();
    assert start(m) == MonthStart(m) && start(m + 1) == MonthStart(m + 1);
    assert start(n) == MonthStart(n) && start(n + 1) == MonthStart(n + 1);
    UnitCovers(start, unit, first, last, m, n);
    CoversAre(unit, UnitStarts(start, unit, Floor(unit, m), UnitsBetween(unit, m, n)), first, last);
  }

  // As `Covers` is for units of months, whatever numbers them.
  ghost predicate CoversBy(start: int -> int, unit: Unit, starts: seq<int>, first: int, last: int)
    requires ByMonth(unit)
  {
    && Ascends(starts) && starts != [] && starts[0] <= first
    && (forall b :: starts[0] < b <= first ==> !StartsUnit(start, unit, b))
    && (forall b :: b in starts <==> StartsUnit(start, unit, b) && starts[0] <= b <= last)
  }

  lemma UnitCovers(start: int -> int, unit: Unit, first: int, last: int, m: int, n: int)
    requires MonthsGrow(start) && ByMonth(unit) && first <= last && 12 <= m <= n
    requires start(m) <= first < start(m + 1) && start(n) <= last < start(n + 1)
    ensures UnitsBetween(unit, m, n) > 0
    ensures CoversBy(start, unit, UnitStarts(start, unit, Floor(unit, m), UnitsBetween(unit, m, n)), first, last)
  {
    LaterFloor(unit, m, n);
    UnitStartsTo(start, unit, last, m, n);
    FloorIsLast(start, unit, first, m);
  }

  lemma UnitStartsTo(start: int -> int, unit: Unit, last: int, m: int, n: int)
    requires MonthsGrow(start) && ByMonth(unit) && 12 <= m <= n && start(n) <= last < start(n + 1)
    ensures UnitsBetween(unit, m, n) > 0
    ensures var starts := UnitStarts(start, unit, Floor(unit, m), UnitsBetween(unit, m, n));
      && Ascends(starts) && starts[0] == start(Floor(unit, m))
      && forall b :: b in starts <==> StartsUnit(start, unit, b) && starts[0] <= b <= last
  {
    var f, k := Floor(unit, m), UnitsBetween(unit, m, n);
    FloorStands(unit, m);
    LaterFloor(unit, m, n);
    UnitStartsAll(start, unit, f, k);
    AllUpTo(start, unit, UnitStarts(start, unit, f, k), start(f), last, n);
  }

  // All starts before the unit after the last day's are all up to the last day.
  lemma AllUpTo(start: int -> int, unit: Unit, starts: seq<int>, from: int, last: int, n: int)
    requires MonthsGrow(start) && ByMonth(unit) && n >= 12 && start(n) <= last < start(n + 1)
    requires AllStarts(start, starts, unit, from, start(Floor(unit, n) + Step(unit)))
    ensures forall b :: b in starts <==> StartsUnit(start, unit, b) && from <= b <= last
  {
    var g := Floor(unit, n);
    FloorStands(unit, n);
    StartsAscendFrom(start, n + 1, g + Step(unit));
    FloorIsLast(start, unit, last, n);
    forall b ensures StartsUnit(start, unit, b) && b < start(g + Step(unit)) ==> b <= last { NoStartAfter(start, unit, g, last, b); }
  }

  lemma NoStartAfter(start: int -> int, unit: Unit, g: int, last: int, b: int)
    requires MonthsGrow(start) && ByMonth(unit) && g >= 12 && Floor(unit, g) == g && start(g) <= last < start(g + Step(unit))
    ensures StartsUnit(start, unit, b) && b < start(g + Step(unit)) ==> b <= last
  {
    if StartsUnit(start, unit, b) && last < b < start(g + Step(unit)) { WithinStep(start, unit, g, b); }
  }

  // The unit a chart takes: days for a week, weeks for 30 or 90 days; for all time weeks while they
  // are at most 26, then months, then quarters, then years. The first day lies in month m, the last
  // in month n.
  lemma UnitExactly(w: Window, first: Day, last: int, unit: Unit, m: int, n: int)
    requires UnitFor(w, first, last, unit) && first <= last && 12 <= m <= n
    requires MonthStart(m) <= first < MonthStart(m + 1) && MonthStart(n) <= last < MonthStart(n + 1)
    ensures unit == if w == Last7 then Daily
      else if w == Last30 || w == Last90 || last / 7 - first / 7 < 26 then Weekly
      else if n - m < 26 then Monthly
      else if n / 3 - m / 3 < 26 then Quarterly
      else Yearly
  {
    WeeksFit(first, last);
    UnitsFit(Monthly, first, last, m, n);
    UnitsFit(Quarterly, first, last, m, n);
    assert Finer(Weekly, Monthly) && Finer(Weekly, Quarterly) && Finer(Weekly, Yearly);
    assert Finer(Monthly, Quarterly) && Finer(Monthly, Yearly) && Finer(Quarterly, Yearly);
  }

  // ---- what is shown ----------------------------------------------------------------------------

  // Of the checks made, the share passed: it times their number is the number passed.
  lemma RateIsShare(t: Totals, passed: nat, failed: nat)
    requires passed == (if ChecksPassed in t then t[ChecksPassed] else 0) && failed == (if ChecksFailed in t then t[ChecksFailed] else 0)
    ensures PassRate(t) == None <==> passed + failed == 0
    ensures PassRate(t) != None ==> PassRate(t).value * (passed + failed) as real == passed as real
  {
  }

  function Counted(account: int, c: Column, lo: int, hi: int): StatDay -> nat {
    (d: StatDay) => if d.account == account && lo <= d.day && d.day <= hi && c in d.counts then d.counts[c] else 0
  }

  lemma {:induction false} SumIsCounted(days: seq<StatDay>, account: int, c: Column, lo: int, hi: int)
    ensures Sum(days, account, c, lo, hi + 1) == SumOver(days, Counted(account, c, lo, hi))
  {
    if days != [] { SumIsCounted(days[..|days| - 1], account, c, lo, hi); }
  }

  lemma BucketHolds(b: Bucket, days: seq<StatDay>, ids: set<int>, first: int, next: int, lo: int, a: int, c: Column)
    requires BucketOf(b, days, ids, first, next) && lo == (if b.start < first then first else b.start)
    requires a in ids && c in {Capture, ChecksPassed, ChecksFailed}
    ensures b.end == next - 1 && a in b.values
    ensures (if c in b.values[a] then b.values[a][c] else 0) == SumOver(days, Counted(a, c, lo, b.end))
  {
    assert Charted(c) && At(b.values[a], c) == Sum(days, a, c, lo, next);
    SumIsCounted(days, a, c, lo, b.end);
  }

  lemma ChartHas(buckets: seq<Bucket>, unit: Unit, days: seq<StatDay>, ids: set<int>, w: Window, today: Day, first: int, i: nat)
    requires ChartOf(buckets, unit, days, ids, w, today, first) && i < |buckets|
    ensures var starts := StartsOf(buckets);
      && |starts| == |buckets| && starts[i] == buckets[i].start
      && Covers(unit, starts, first, today) && BucketOf(buckets[i], days, ids, first, EndOf(starts, i, today))
      && EndOf(starts, i, today) == if i + 1 < |buckets| then buckets[i + 1].start else today + 1
  {
  }

  // A chart's bucket holds, for every account asked for, the capture time and the checks of its own
  // days, both ends counted, from the first day charted on; the buckets follow on one another and
  // the last ends today.
  lemma BucketsShow(buckets: seq<Bucket>, unit: Unit, days: seq<StatDay>, ids: set<int>, w: Window, today: Day, first: int, i: nat, a: int, c: Column)
    requires ChartOf(buckets, unit, days, ids, w, today, first) && i < |buckets| && a in ids && c in {Capture, ChecksPassed, ChecksFailed}
    ensures buckets[i].end == if i + 1 < |buckets| then buckets[i + 1].start - 1 else today
    ensures a in buckets[i].values
    ensures var v := buckets[i].values[a];
      (if c in v then v[c] else 0) == SumOver(days, Counted(a, c, if i == 0 then first else buckets[i].start, buckets[i].end))
  {
    var starts := StartsOf(buckets);
    ChartHas(buckets, unit, days, ids, w, today, first, i);
    StartsAfterFirst(unit, starts, first, today, i);
    BucketHolds(buckets[i], days, ids, first, EndOf(starts, i, today), if i == 0 then first else buckets[i].start, a, c);
  }

  // Only the first bucket can start before the first day charted.
  lemma StartsAfterFirst(unit: Unit, starts: seq<int>, first: int, last: int, i: nat)
    requires Covers(unit, starts, first, last) && i < |starts|
    ensures if i == 0 then starts[i] <= first else first < starts[i]
  {
    assert starts[i] in starts;
  }
}
