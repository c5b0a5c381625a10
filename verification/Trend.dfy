// The windowed totals and the bucketed trend over the ledger's days (app/account_stats.py
// `window_bounds`, `windowed_stats`, `_bucket_starts`, `_trend_unit`, `trend`).
module Trend {
  import opened Common
  import opened Calendar
  import opened StatsColumns

  datatype Unit = Daily | Weekly | Monthly | Quarterly | Yearly
  datatype Window = Last7 | Last30 | Last90 | AllTime

  type Totals = map<Column, nat>
  datatype StatDay = StatDay(account: int, day: Day, counts: Totals)

  function At(t: Totals, c: Column): nat { if c in t then t[c] else 0 }

  // What the days from `lo` up to `hi` hold for one account and column.
  function Sum(days: seq<StatDay>, account: int, c: Column, lo: int, hi: int): nat {
    if days == [] then 0
    else
      var last := days[|days| - 1];
      Sum(days[..|days| - 1], account, c, lo, hi)
      + if last.account == account && lo <= last.day < hi then At(last.counts, c) else 0
  }

  lemma {:induction false} SumSplits(days: seq<StatDay>, account: int, c: Column, lo: int, mid: int, hi: int)
    requires lo <= mid <= hi
    ensures Sum(days, account, c, lo, hi) == Sum(days, account, c, lo, mid) + Sum(days, account, c, mid, hi)
  {
    if days != [] { SumSplits(days[..|days| - 1], account, c, lo, mid, hi); }
  }

  function WindowDays(w: Window): nat
    requires !w.AllTime?
  {
    match w case Last7 => 7 case Last30 => 30 case Last90 => 90
  }

  function FirstDay(w: Window, today: Day): Option<int> {
    if w.AllTime? then None else Some(today - (WindowDays(w) - 1))
  }

  function LowBound(first: Option<int>): int { if first.Some? then first.value else 0 }

  // ---- where buckets start --------------------------------------------------------------------

  predicate ByMonth(unit: Unit) { unit.Monthly? || unit.Quarterly? || unit.Yearly? }

  function Step(unit: Unit): (n: nat)
    requires ByMonth(unit)
    ensures n > 0
  {
    match unit case Monthly => 1 case Quarterly => 3 case Yearly => 12
  }

  // The month, rounded down, that the unit starts in.
  function Floor(unit: Unit, m: int): (f: int)
    requires ByMonth(unit)
    ensures f <= m < f + Step(unit)
  {
    match unit case Monthly => m case Quarterly => m - m % 3 case Yearly => m - m % 12
  }

  // By the months' starts: some month the unit starts in starts on this day.
  ghost predicate StartsUnit(start: int -> int, unit: Unit, d: int)
    requires ByMonth(unit)
  {
    exists m: int :: m >= 12 && Floor(unit, m) == m && start(m) == d
  }

  ghost predicate Boundary(unit: Unit, d: int) {
    match unit
    case Daily => true
    case Weekly => d % 7 == 0
    case _ => StartsUnit(Starts(), unit, d)
  }

  // The starts are all the unit's boundaries, from the last at or before `first` up to `last`.
  ghost predicate Covers(unit: Unit, starts: seq<int>, first: int, last: int) {
    && Ascends(starts)
    && starts != [] && starts[0] <= first
    && (forall b :: starts[0] < b <= first ==> !Boundary(unit, b))
    && (forall b :: b in starts <==> Boundary(unit, b) && starts[0] <= b <= last)
  }

  ghost predicate Ascends(starts: seq<int>) { forall i, j :: 0 <= i < j < |starts| ==> starts[i] < starts[j] }

  // Sunday is the ordinals divisible by 7.
  function WeekStart(d: int): int { d - d % 7 }

  function AddMonths(start: int -> int, d: int, n: nat): int
    requires MonthsGrow(start) && start(12) <= d
  {
    start(MonthFrom(start, 12, d) + n)
  }

  lemma FloorOf(unit: Unit, m: int, n: int)
    requires ByMonth(unit) && Floor(unit, m) == m && Floor(unit, n) == n && m <= n < m + Step(unit)
    ensures n == m
  {
  }

  lemma FloorStands(unit: Unit, m: int)
    requires ByMonth(unit) && m >= 12
    ensures Floor(unit, m) >= 12 && Floor(unit, Floor(unit, m)) == Floor(unit, m)
    ensures Floor(unit, m) == m ==> Floor(unit, m + Step(unit)) == m + Step(unit)
  {
  }

  lemma WithinStep(start: int -> int, unit: Unit, m: int, b: int)
    requires MonthsGrow(start) && m >= 12
    requires ByMonth(unit) && Floor(unit, m) == m && StartsUnit(start, unit, b)
    requires start(m) <= b < start(m + Step(unit))
    ensures b == start(m)
  {
    var n: int :| n >= 12 && Floor(unit, n) == n && start(n) == b;
    if n < m { StartsAscend(start, n, m); }
    if m + Step(unit) < n { StartsAscend(start, m + Step(unit), n); }
    FloorOf(unit, m, n);
  }

  ghost predicate AllStarts(start: int -> int, starts: seq<int>, unit: Unit, from: int, to: int)
    requires ByMonth(unit)
  {
    Ascends(starts) && forall b :: b in starts <==> StartsUnit(start, unit, b) && from <= b < to
  }

  lemma NextStart(start: int -> int, starts: seq<int>, unit: Unit, from: int, m: int)
    requires MonthsGrow(start) && m >= 12
    requires ByMonth(unit) && Floor(unit, m) == m && from <= start(m)
    requires AllStarts(start, starts, unit, from, start(m))
    ensures AllStarts(start, starts + [start(m)], unit, from, start(m + Step(unit)))
    ensures start(m) < start(m + Step(unit))
  {
    StartsAscend(start, m, m + Step(unit));
    assert StartsUnit(start, unit, start(m));
    var now := starts + [start(m)];
    forall b ensures b in now <==> StartsUnit(start, unit, b) && from <= b < start(m + Step(unit)) {
      if StartsUnit(start, unit, b) && start(m) <= b < start(m + Step(unit)) { WithinStep(start, unit, m, b); }
    }
    forall i | 0 <= i < |starts| ensures starts[i] < start(m) { assert starts[i] in starts; }
  }

  lemma MonthOfStart(start: int -> int, m: int)
    requires MonthsGrow(start) && m >= 12
    ensures start(12) <= start(m) && MonthFrom(start, 12, start(m)) == m
  {
    if m > 12 { StartsAscend(start, 12, m); }
    StartsAscend(start, m, m + 1);
    OneMonth(start, start(m), m, MonthFrom(start, 12, start(m)));
  }

  lemma Advance(start: int -> int, starts: seq<int>, unit: Unit, from: int, at: int)
    requires MonthsGrow(start) && ByMonth(unit) && StartsUnit(start, unit, at) && from <= at
    requires AllStarts(start, starts, unit, from, at)
    ensures start(12) <= at && at < AddMonths(start, at, Step(unit)) && StartsUnit(start, unit, AddMonths(start, at, Step(unit)))
    ensures AllStarts(start, starts + [at], unit, from, AddMonths(start, at, Step(unit)))
  {
    var m: int :| m >= 12 && Floor(unit, m) == m && start(m) == at;
    MonthOfStart(start, m);
    NextStart(start, starts, unit, from, m);
    FloorStands(unit, m);
  }

  method MonthStarts(start: int -> int, unit: Unit, first: int, last: int) returns (starts: seq<int>)
    requires MonthsGrow(start) && ByMonth(unit) && StartsUnit(start, unit, first) && first <= last
    ensures starts != [] && starts[0] == first
    ensures Ascends(starts) && forall b :: b in starts <==> StartsUnit(start, unit, b) && first <= b <= last
  {
    starts := [];
    var at := first;
    while at <= last
      invariant first <= at && StartsUnit(start, unit, at)
      invariant starts == [] ==> at == first
      invariant starts != [] ==> starts[0] == first
      invariant AllStarts(start, starts, unit, first, at)
      invariant forall b :: b in starts ==> b <= last
      decreases last - at
    {
      Advance(start, starts, unit, first, at);
      starts, at := starts + [at], AddMonths(start, at, Step(unit));
    }
  }

  method Weeks(first: Day, last: int) returns (starts: seq<int>)
    requires first <= last
    ensures Covers(Weekly, starts, first, last) && |starts| == last / 7 - first / 7 + 1
  {
    var start := WeekStart(first);
    var n := (last - start) / 7 + 1;
    starts := seq(n, i requires 0 <= i => start + 7 * i);
    forall b | b % 7 == 0 && start <= b <= last ensures b in starts {
      var i := (b - start) / 7;
      assert 0 <= i < n && starts[i] == b;
    }
  }

  method BucketStarts(unit: Unit, first: Day, last: int) returns (starts: seq<int>)
    requires first <= last
    ensures Covers(unit, starts, first, last)
    ensures unit.Daily? ==> |starts| == last - first + 1
    ensures unit.Weekly? ==> |starts| == last / 7 - first / 7 + 1
  {
    if unit.Daily? {
      starts := seq(last - first + 1, i requires 0 <= i => first + i);
      forall b | first <= b <= last ensures b in starts { assert starts[b - first] == b; }
    } else if unit.Weekly? {
      starts := Weeks(first, last);
    } else {
      var start := Starts();
      StartsAreMonths();
      assert start(12) == 1;
      var m := MonthFrom(start, 12, first);
      FloorIsLast(start, unit, first, m);
      starts := MonthStarts(start, unit, start(Floor(unit, m)), last);
    }
  }

  // No boundary lies after the month rounded down and at or before the day.
  lemma FloorIsLast(start: int -> int, unit: Unit, first: int, m: int)
    requires MonthsGrow(start) && ByMonth(unit) && m >= 12 && start(m) <= first < start(m + 1)
    ensures var f := start(Floor(unit, m));
      && StartsUnit(start, unit, f) && f <= first
      && forall b :: f < b <= first ==> !StartsUnit(start, unit, b)
  {
    var f := Floor(unit, m);
    FloorStands(unit, m);
    if f < m { StartsAscend(start, f, m); }
    if m + 1 < f + Step(unit) { StartsAscend(start, m + 1, f + Step(unit)); }
    forall b | start(f) < b <= first ensures !StartsUnit(start, unit, b) {
      if StartsUnit(start, unit, b) { WithinStep(start, unit, f, b); }
    }
  }

  // The unit's boundaries are one sequence, so how many there are is a property of the range.
  lemma CoversOnce(unit: Unit, xs: seq<int>, ys: seq<int>, first: int, last: int)
    requires Covers(unit, xs, first, last) && Covers(unit, ys, first, last)
    ensures xs == ys
  {
    assert xs[0] in xs && ys[0] in ys;
    RisingUnique((x: int) => x, xs, ys);
  }

  const MaxBuckets := 26

  ghost predicate Fits(unit: Unit, first: int, last: int) {
    forall starts :: Covers(unit, starts, first, last) ==> |starts| <= MaxBuckets
  }

  ghost predicate Finer(u: Unit, v: Unit) {
    (u.Weekly? && (v.Monthly? || v.Quarterly? || v.Yearly?)) || (u.Monthly? && (v.Quarterly? || v.Yearly?)) || (u.Quarterly? && v.Yearly?)
  }

  method CountBuckets(unit: Unit, first: Day, last: int) returns (fits: bool)
    requires first <= last
    ensures fits <==> Fits(unit, first, last)
  {
    var starts := BucketStarts(unit, first, last);
    fits := |starts| <= MaxBuckets;
    if fits {
      forall other | Covers(unit, other, first, last) ensures |other| <= MaxBuckets { CoversOnce(unit, starts, other, first, last); }
    }
  }

  // All time takes the finest unit that fits, else years.
  ghost predicate UnitFor(w: Window, first: int, last: int, unit: Unit) {
    match w
    case Last7 => unit == Daily
    case AllTime => unit != Daily && (unit != Yearly ==> Fits(unit, first, last)) && forall u :: Finer(u, unit) ==> !Fits(u, first, last)
    case _ => unit == Weekly
  }

  method TrendUnit(w: Window, first: Day, last: int) returns (unit: Unit)
    requires first <= last
    ensures UnitFor(w, first, last, unit)
  {
    if w.Last7? { return Daily; }
    if w.Last30? || w.Last90? { return Weekly; }
    var fits := CountBuckets(Weekly, first, last);
    if fits { return Weekly; }
    fits := CountBuckets(Monthly, first, last);
    if fits { return Monthly; }
    fits := CountBuckets(Quarterly, first, last);
    if fits { return Quarterly; }
    return Yearly;
  }

  // ---- the two readers ------------------------------------------------------------------------

  predicate InWindow(d: int, first: Option<int>, today: int) { (first.Some? ==> first.value <= d) && d <= today }

  function AddAll(t: Totals, counts: Totals): (r: Totals)
    ensures forall c: Column :: At(r, c) == At(t, c) + At(counts, c)
  {
    map c: Column | c in t.Keys + counts.Keys :: At(t, c) + At(counts, c)
  }

  // The sum of every ledger column over the window, for every account asked for.
  method WindowedStats(days: seq<StatDay>, ids: set<int>, w: Window, today: Day) returns (out: map<int, Totals>)
    ensures out.Keys == ids
    ensures forall a, c :: a in ids ==> At(out[a], c) == Sum(days, a, c, LowBound(FirstDay(w, today)), today + 1)
  {
    var first := FirstDay(w, today);
    out := map a | a in ids :: map[];
    for n := 0 to |days|
      invariant out.Keys == ids
      invariant forall a, c :: a in ids ==> At(out[a], c) == Sum(days[..n], a, c, LowBound(first), today + 1)
    {
      var d := days[n];
      assert days[..n + 1][..n] == days[..n];
      if d.account in ids && InWindow(d.day, first, today) {
        out := out[d.account := AddAll(out[d.account], d.counts)];
      }
    }
    assert days[..|days|] == days;
  }

  // The share of checks passed, or nothing when there were none.
  function PassRate(t: Totals): (r: Option<real>)
    ensures r.None? <==> At(t, ChecksPassed) == 0 && At(t, ChecksFailed) == 0
    ensures r.Some? ==> 0.0 <= r.value <= 1.0
    ensures r.Some? ==> (r.value == 1.0 <==> At(t, ChecksFailed) == 0) && (r.value == 0.0 <==> At(t, ChecksPassed) == 0)
  {
    var passed, checked := At(t, ChecksPassed), At(t, ChecksPassed) + At(t, ChecksFailed);
    if checked == 0 then None
    else
      ShareBounds(passed, checked);
      Some(passed as real / checked as real)
  }

  lemma ShareBounds(n: nat, d: nat)
    requires n <= d && d > 0
    ensures 0.0 <= n as real / d as real <= 1.0
    ensures n as real / d as real == 1.0 <==> n == d
    ensures n as real / d as real == 0.0 <==> n == 0
  {
    var q := n as real / d as real;
    assert q * d as real == n as real;
  }

  datatype Bucket = Bucket(start: int, end: int, values: map<int, Totals>)

  predicate Charted(c: Column) { c.Capture? || c.ChecksPassed? || c.ChecksFailed? }

  function AddCharted(t: Totals, counts: Totals): (r: Totals)
    ensures forall c: Column :: At(r, c) == At(t, c) + if Charted(c) then At(counts, c) else 0
  {
    map c: Column | c in t.Keys + counts.Keys :: At(t, c) + if Charted(c) then At(counts, c) else 0
  }

  // How many starts lie at or before the day.
  method BisectRight(starts: seq<int>, day: int) returns (k: nat)
    requires Ascends(starts)
    ensures k <= |starts| && (forall i :: 0 <= i < k ==> starts[i] <= day) && forall i :: k <= i < |starts| ==> day < starts[i]
  {
    var hi := |starts|;
    k := 0;
    while k < hi
      invariant k <= hi <= |starts|
      invariant forall i :: 0 <= i < k ==> starts[i] <= day
      invariant forall i :: hi <= i < |starts| ==> day < starts[i]
    {
      var mid := (k + hi) / 2;
      if day < starts[mid] { hi := mid; } else { k := mid + 1; }
    }
  }

  predicate Asked(d: StatDay, ids: set<int>, first: Option<int>, today: int) { d.account in ids && InWindow(d.day, first, today) }

  function Select(days: seq<StatDay>, ids: set<int>, first: Option<int>, today: int): (rows: seq<StatDay>)
    ensures forall d :: d in rows <==> d in days && Asked(d, ids, first, today)
  {
    if days == [] then []
    else
      var front, last := days[..|days| - 1], days[|days| - 1];
      assert days == front + [last];
      if Asked(last, ids, first, today) then Select(front, ids, first, today) + [last] else Select(front, ids, first, today)
  }

  lemma SumLast(rows: seq<StatDay>, d: StatDay, a: int, c: Column, lo: int, hi: int)
    ensures Sum(rows + [d], a, c, lo, hi)
      == Sum(rows, a, c, lo, hi) + if d.account == a && lo <= d.day < hi then At(d.counts, c) else 0
  {
    assert (rows + [d])[..|rows|] == rows;
  }

  lemma SelectLast(rows: seq<StatDay>, d: StatDay, ids: set<int>, first: Option<int>, today: int)
    ensures Select(rows + [d], ids, first, today)
      == if Asked(d, ids, first, today) then Select(rows, ids, first, today) + [d] else Select(rows, ids, first, today)
  {
    assert (rows + [d])[..|rows|] == rows;
  }

  lemma SelectSumsStep(front: seq<StatDay>, last: StatDay, ids: set<int>, first: Option<int>, today: int, a: int, c: Column, lo: int, hi: int)
    requires a in ids && LowBound(first) <= lo && hi <= today + 1
    requires Sum(Select(front, ids, first, today), a, c, lo, hi) == Sum(front, a, c, lo, hi)
    ensures Sum(Select(front + [last], ids, first, today), a, c, lo, hi) == Sum(front + [last], a, c, lo, hi)
  {
    SelectLast(front, last, ids, first, today);
    SumLast(front, last, a, c, lo, hi);
    SumLast(Select(front, ids, first, today), last, a, c, lo, hi);
  }

  lemma {:induction false} SelectSums(days: seq<StatDay>, ids: set<int>, first: Option<int>, today: int, a: int, c: Column, lo: int, hi: int)
    requires a in ids && LowBound(first) <= lo && hi <= today + 1
    ensures Sum(Select(days, ids, first, today), a, c, lo, hi) == Sum(days, a, c, lo, hi)
  {
    if days != [] {
      var front, last := days[..|days| - 1], days[|days| - 1];
      assert days == front + [last];
      SelectSums(front, ids, first, today, a, c, lo, hi);
      SelectSumsStep(front, last, ids, first, today, a, c, lo, hi);
    }
  }

  // Nothing lies below the first row, so a bucket may start before it.
  lemma {:induction false} NothingBelow(rows: seq<StatDay>, a: int, c: Column, lo: int, first: int, hi: int)
    requires forall d :: d in rows ==> first <= d.day
    requires lo <= first
    ensures Sum(rows, a, c, lo, hi) == Sum(rows, a, c, first, hi)
  {
    if rows != [] {
      assert rows == rows[..|rows| - 1] + [rows[|rows| - 1]];
      NothingBelow(rows[..|rows| - 1], a, c, lo, first, hi);
    }
  }

  function EndOf(starts: seq<int>, i: nat, today: int): int { if i + 1 < |starts| then starts[i + 1] else today + 1 }

  ghost predicate Summed(sums: seq<map<int, Totals>>, rows: seq<StatDay>, ids: set<int>, starts: seq<int>, today: int) {
    && |sums| == |starts|
    && forall i :: 0 <= i < |sums| ==> BucketSummed(sums[i], rows, ids, starts[i], EndOf(starts, i, today))
  }

  ghost predicate BucketSummed(sum: map<int, Totals>, rows: seq<StatDay>, ids: set<int>, lo: int, hi: int) {
    sum.Keys == ids && forall a, c :: a in ids && Charted(c) ==> At(sum[a], c) == Sum(rows, a, c, lo, hi)
  }

  lemma BucketAdds(sum: map<int, Totals>, rows: seq<StatDay>, d: StatDay, ids: set<int>, lo: int, hi: int)
    requires BucketSummed(sum, rows, ids, lo, hi) && d.account in ids
    ensures lo <= d.day < hi ==> BucketSummed(sum[d.account := AddCharted(sum[d.account], d.counts)], rows + [d], ids, lo, hi)
    ensures !(lo <= d.day < hi) ==> BucketSummed(sum, rows + [d], ids, lo, hi)
  {
    assert (rows + [d])[..|rows|] == rows;
  }

  lemma DaySummed(sums: seq<map<int, Totals>>, rows: seq<StatDay>, d: StatDay, ids: set<int>, starts: seq<int>, today: int, at: nat)
    requires Ascends(starts) && at < |starts| && d.day <= today && d.account in ids && Summed(sums, rows, ids, starts, today)
    requires starts[at] <= d.day && forall i :: at < i < |starts| ==> d.day < starts[i]
    ensures Summed(sums[at := sums[at][d.account := AddCharted(sums[at][d.account], d.counts)]], rows + [d], ids, starts, today)
  {
    InOneBucket(starts, today, d.day, at);
    forall i | 0 <= i < |starts| { BucketAdds(sums[i], rows, d, ids, starts[i], EndOf(starts, i, today)); }
  }

  method SumBuckets(rows: seq<StatDay>, ids: set<int>, starts: seq<int>, today: int) returns (sums: seq<map<int, Totals>>)
    requires Ascends(starts) && starts != []
    requires forall d :: d in rows ==> starts[0] <= d.day <= today && d.account in ids
    ensures Summed(sums, rows, ids, starts, today)
  {
    var zero: map<int, Totals> := map a | a in ids :: map[];
    sums := seq(|starts|, i => zero);
    for n := 0 to |rows|
      invariant Summed(sums, rows[..n], ids, starts, today)
    {
      var d := rows[n];
      assert rows[..n + 1] == rows[..n] + [d];
      var k := BisectRight(starts, d.day);
      assert k > 0;
      var at := k - 1;
      DaySummed(sums, rows[..n], d, ids, starts, today, at);
      sums := sums[at := sums[at][d.account := AddCharted(sums[at][d.account], d.counts)]];
    }
    assert rows[..|rows|] == rows;
  }

  // Every day from the first start to today falls in exactly one bucket.
  lemma InOneBucket(starts: seq<int>, today: int, day: int, at: nat)
    requires Ascends(starts) && at < |starts| && day <= today
    requires starts[at] <= day && forall i :: at < i < |starts| ==> day < starts[i]
    ensures forall i :: 0 <= i < |starts| ==> (starts[i] <= day < EndOf(starts, i, today) <==> i == at)
  {
    forall i | 0 <= i < at ensures EndOf(starts, i, today) <= day { assert starts[i + 1] <= starts[at]; }
  }

  function BucketTotal(sums: seq<map<int, Totals>>, a: int, c: Column): nat
    requires forall i :: 0 <= i < |sums| ==> a in sums[i]
  {
    if sums == [] then 0 else BucketTotal(sums[..|sums| - 1], a, c) + At(sums[|sums| - 1][a], c)
  }

  lemma {:induction false} BucketsAddUp(sums: seq<map<int, Totals>>, rows: seq<StatDay>, ids: set<int>, starts: seq<int>, today: int, a: int, c: Column)
    requires Summed(sums, rows, ids, starts, today) && Ascends(starts) && starts != [] && starts[|starts| - 1] <= today
    requires a in ids && Charted(c)
    ensures BucketTotal(sums, a, c) == Sum(rows, a, c, starts[0], today + 1)
    decreases |starts|
  {
    var n := |starts| - 1;
    if n == 0 {
      assert BucketTotal(sums[..0], a, c) == 0;
    } else {
      var front := starts[..n];
      forall i | 0 <= i < n ensures EndOf(front, i, starts[n] - 1) == EndOf(starts, i, today) { }
      BucketsAddUp(sums[..n], rows, ids, front, starts[n] - 1, a, c);
      SumSplits(rows, a, c, starts[0], starts[n], today + 1);
    }
  }

  ghost predicate FirstCharted(rows: seq<StatDay>, w: Window, today: int, first: int) {
    if w.AllTime? then (exists d :: d in rows && d.day == first) && forall d :: d in rows ==> first <= d.day
    else first == today - (WindowDays(w) - 1)
  }

  method FirstRow(rows: seq<StatDay>) returns (first: Day)
    requires rows != []
    ensures (exists d :: d in rows && d.day == first) && forall d :: d in rows ==> first <= d.day
  {
    first := rows[0].day;
    for n := 1 to |rows|
      invariant exists d :: d in rows && d.day == first
      invariant forall i :: 0 <= i < n ==> first <= rows[i].day
    {
      if rows[n].day < first { first := rows[n].day; }
    }
  }

  ghost function Rows(days: seq<StatDay>, ids: set<int>, w: Window, today: Day): seq<StatDay> { Select(days, ids, FirstDay(w, today), today) }

  // The charted totals of a chart: one bucket per start, its days up to the next start.
  ghost predicate ChartOf(buckets: seq<Bucket>, unit: Unit, days: seq<StatDay>, ids: set<int>, w: Window, today: Day, first: int) {
    var starts := StartsOf(buckets);
    && FirstCharted(Rows(days, ids, w, today), w, today, first)
    && UnitFor(w, first, today, unit) && Covers(unit, starts, first, today)
    && forall i :: 0 <= i < |buckets| ==> BucketOf(buckets[i], days, ids, first, EndOf(starts, i, today))
  }

  ghost predicate BucketOf(b: Bucket, days: seq<StatDay>, ids: set<int>, first: int, next: int) {
    && b.end == next - 1 && b.values.Keys == ids
    && forall a, c :: a in ids && Charted(c) ==> At(b.values[a], c) == Sum(days, a, c, if b.start < first then first else b.start, next)
  }

  function StartsOf(buckets: seq<Bucket>): seq<int> { seq(|buckets|, i requires 0 <= i < |buckets| => buckets[i].start) }

  function ValuesOf(buckets: seq<Bucket>): seq<map<int, Totals>> { seq(|buckets|, i requires 0 <= i < |buckets| => buckets[i].values) }

  ghost predicate Conserved(buckets: seq<Bucket>, days: seq<StatDay>, ids: set<int>, w: Window, today: Day) {
    && (forall i :: 0 <= i < |buckets| ==> buckets[i].values.Keys == ids)
    && forall a, c :: a in ids && Charted(c) ==>
      BucketTotal(ValuesOf(buckets), a, c) == Sum(days, a, c, LowBound(FirstDay(w, today)), today + 1)
  }

  // Each chart's buckets add up to the windowed totals of the same accounts.
  method Chart(days: seq<StatDay>, ids: set<int>, w: Window, today: Day) returns (unit: Unit, buckets: seq<Bucket>, ghost first: int)
    requires FirstDay(w, today).Some? ==> FirstDay(w, today).value >= 1
    ensures buckets == [] <==> ids == {} || (w.AllTime? && Rows(days, ids, w, today) == [])
    ensures buckets != [] ==> ChartOf(buckets, unit, days, ids, w, today, first)
    ensures Conserved(buckets, days, ids, w, today)
    ensures w.AllTime? && unit != Yearly && buckets != [] ==> |buckets| <= MaxBuckets
  {
    first := 0;
    buckets := [];
    if ids == {} {
      unit := TrendUnit(w, today, today);
      return;
    }
    var rows := Select(days, ids, FirstDay(w, today), today);
    var from: Day;
    if !w.AllTime? {
      from := FirstDay(w, today).value;
    } else if rows != [] {
      from := FirstRow(rows);
    } else {
      unit := Weekly;
      forall a, c | a in ids && Charted(c) { SelectSums(days, ids, None, today, a, c, 0, today + 1); }
      return;
    }
    first := from;
    unit := TrendUnit(w, from, today);
    var starts := BucketStarts(unit, from, today);
    var sums := SumBuckets(rows, ids, starts, today);
    buckets := seq(|starts|, i requires 0 <= i < |starts| && |sums| == |starts| => Bucket(starts[i], EndOf(starts, i, today) - 1, sums[i]));
    assert StartsOf(buckets) == starts && ValuesOf(buckets) == sums;
    ChartIsExact(buckets, unit, days, ids, w, today, first);
    ChartConserves(buckets, unit, days, ids, w, today, first);
  }

  ghost predicate Drawn(buckets: seq<Bucket>, unit: Unit, days: seq<StatDay>, ids: set<int>, w: Window, today: Day, first: int) {
    && buckets != [] && first >= LowBound(FirstDay(w, today))
    && FirstCharted(Rows(days, ids, w, today), w, today, first)
    && UnitFor(w, first, today, unit) && Covers(unit, StartsOf(buckets), first, today)
    && Summed(ValuesOf(buckets), Rows(days, ids, w, today), ids, StartsOf(buckets), today)
    && forall i :: 0 <= i < |buckets| ==> buckets[i].end == EndOf(StartsOf(buckets), i, today) - 1
  }

  lemma RowsFromFirst(days: seq<StatDay>, ids: set<int>, w: Window, today: Day, first: int)
    requires FirstCharted(Rows(days, ids, w, today), w, today, first)
    ensures forall d :: d in Rows(days, ids, w, today) ==> first <= d.day
  {
  }

  lemma ChartIsExact(buckets: seq<Bucket>, unit: Unit, days: seq<StatDay>, ids: set<int>, w: Window, today: Day, first: int)
    requires Drawn(buckets, unit, days, ids, w, today, first)
    ensures ChartOf(buckets, unit, days, ids, w, today, first)
  {
    var starts := StartsOf(buckets);
    RowsFromFirst(days, ids, w, today, first);
    forall i | 0 <= i < |buckets| ensures BucketOf(buckets[i], days, ids, first, EndOf(starts, i, today)) {
      BucketEnds(starts, unit, first, today, i);
      BucketIsExact(buckets[i], days, ids, w, today, first, EndOf(starts, i, today));
    }
  }

  lemma BucketEnds(starts: seq<int>, unit: Unit, first: int, today: Day, i: nat)
    requires Covers(unit, starts, first, today) && i < |starts|
    ensures starts[i] <= today && EndOf(starts, i, today) <= today + 1
  {
    assert starts[i] in starts;
    if i + 1 < |starts| { assert starts[i + 1] in starts; }
  }

  lemma BucketIsExact(b: Bucket, days: seq<StatDay>, ids: set<int>, w: Window, today: Day, first: int, next: int)
    requires forall d :: d in Rows(days, ids, w, today) ==> first <= d.day
    requires first >= LowBound(FirstDay(w, today)) && next <= today + 1 && b.end == next - 1
    requires BucketSummed(b.values, Rows(days, ids, w, today), ids, b.start, next)
    ensures BucketOf(b, days, ids, first, next)
  {
    var lo := if b.start < first then first else b.start;
    forall a, c | a in ids && Charted(c) ensures At(b.values[a], c) == Sum(days, a, c, lo, next) {
      SumFromFirst(days, ids, w, today, first, b.start, next, a, c);
    }
  }

  lemma SumFromFirst(days: seq<StatDay>, ids: set<int>, w: Window, today: Day, first: int, lo: int, hi: int, a: int, c: Column)
    requires forall d :: d in Rows(days, ids, w, today) ==> first <= d.day
    requires first >= LowBound(FirstDay(w, today)) && hi <= today + 1 && a in ids
    ensures Sum(Rows(days, ids, w, today), a, c, lo, hi) == Sum(days, a, c, if lo < first then first else lo, hi)
  {
    if lo < first { NothingBelow(Rows(days, ids, w, today), a, c, lo, first, hi); }
    SelectSums(days, ids, FirstDay(w, today), today, a, c, if lo < first then first else lo, hi);
  }

  lemma ChartConserves(buckets: seq<Bucket>, unit: Unit, days: seq<StatDay>, ids: set<int>, w: Window, today: Day, first: int)
    requires Drawn(buckets, unit, days, ids, w, today, first)
    ensures Conserved(buckets, days, ids, w, today)
  {
    var rows, starts, sums := Rows(days, ids, w, today), StartsOf(buckets), ValuesOf(buckets);
    forall i | 0 <= i < |buckets| ensures buckets[i].values.Keys == ids {
      assert BucketSummed(sums[i], rows, ids, starts[i], EndOf(starts, i, today));
    }
    RowsFromFirst(days, ids, w, today, first);
    BucketEnds(starts, unit, first, today, |starts| - 1);
    forall a, c | a in ids && Charted(c)
      ensures BucketTotal(sums, a, c) == Sum(days, a, c, LowBound(FirstDay(w, today)), today + 1)
    {
      BucketsAddUp(sums, rows, ids, starts, today, a, c);
      WindowSum(days, ids, w, today, first, starts[0], a, c);
    }
  }

  lemma WindowSum(days: seq<StatDay>, ids: set<int>, w: Window, today: Day, first: int, start: int, a: int, c: Column)
    requires forall d :: d in Rows(days, ids, w, today) ==> first <= d.day
    requires LowBound(FirstDay(w, today)) <= first && start <= first && a in ids
    ensures Sum(Rows(days, ids, w, today), a, c, start, today + 1) == Sum(days, a, c, LowBound(FirstDay(w, today)), today + 1)
  {
    var rows, low := Rows(days, ids, w, today), LowBound(FirstDay(w, today));
    NothingBelow(rows, a, c, start, first, today + 1);
    NothingBelow(rows, a, c, low, first, today + 1);
    SelectSums(days, ids, FirstDay(w, today), today, a, c, low, today + 1);
  }

  // ---- the days a window takes in --------------------------------------------------------------

  predicate Within(w: Window, day: int, today: int) {
    day <= today && match w case Last7 => day > today - 7 case Last30 => day > today - 30 case Last90 => day > today - 90 case AllTime => true
  }

  function DayWorth(account: int, c: Column, w: Window, today: int): StatDay -> nat {
    (d: StatDay) => if d.account == account && Within(w, d.day, today) && c in d.counts then d.counts[c] else 0
  }

  // The last 7, 30 or 90 days, today among them, or every day so far.
  lemma {:induction false} WindowTakesIn(days: seq<StatDay>, account: int, c: Column, w: Window, today: Day)
    ensures Sum(days, account, c, LowBound(FirstDay(w, today)), today + 1) == SumOver(days, DayWorth(account, c, w, today))
  {
    if days != [] { WindowTakesIn(days[..|days| - 1], account, c, w, today); }
  }
}
