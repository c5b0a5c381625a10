// Dates as Python's ordinals: day 1 is Monday 1 January of year 1.
module Calendar {
  type Day = d: int | d >= 1 witness 1

  predicate Leap(y: int) { y % 4 == 0 && (y % 100 != 0 || y % 400 == 0) }

  function DaysBeforeYear(y: int): int
    requires y >= 1
  {
    365 * (y - 1) + (y - 1) / 4 - (y - 1) / 100 + (y - 1) / 400
  }

  // The days of its year before month `m`, counted from 0.
  function DaysBeforeMonth(m: int, leap: bool): (n: int)
    requires 0 <= m < 12
  {
    (match m
     case 0 => 0 case 1 => 31 case 2 => 59 case 3 => 90 case 4 => 120 case 5 => 151 case 6 => 181
     case 7 => 212 case 8 => 243 case 9 => 273 case 10 => 304 case _ => 334)
    + if m > 1 && leap then 1 else 0
  }

  // A month as year * 12 + month - 1, and the day it starts on.
  type Month = m: int | m >= 12 witness 12

  function FirstOf(y: int, k: int): (d: Day)
    requires y >= 1 && 0 <= k < 12
  {
    DaysBeforeYear(y) + DaysBeforeMonth(k, Leap(y)) + 1
  }

  function MonthDays(m: Month): (n: int)
    ensures 28 <= n <= 31
  {
    match m % 12
    case 1 => if Leap(m / 12) then 29 else 28
    case 3 => 30 case 5 => 30 case 8 => 30 case 10 => 30
    case _ => 31
  }

  function MonthStart(m: Month): Day {
    if m == 12 then 1 else MonthStart(m - 1) + MonthDays(m - 1)
  }

  lemma YearLength(y: int)
    requires y >= 1
    ensures DaysBeforeYear(y + 1) == DaysBeforeYear(y) + 365 + if Leap(y) then 1 else 0
  {
    StepsAt(y, 4);
    StepsAt(y, 100);
    StepsAt(y, 400);
    assert y % 400 == 0 ==> y % 100 == 0 by { if y % 400 == 0 { assert y == y / 400 * 4 * 100; } }
    assert y % 100 == 0 ==> y % 4 == 0 by { if y % 100 == 0 { assert y == y / 100 * 25 * 4; } }
  }

  lemma StepsAt(y: int, k: int)
    requires y >= 1 && k > 1
    ensures y / k == (y - 1) / k + if y % k == 0 then 1 else 0
  {
    var q, r := (y - 1) / k, (y - 1) % k;
    assert y - 1 == q * k + r;
    if r == k - 1 {
      assert y == (q + 1) * k;
      DivMod(y, k, q + 1, 0);
    } else {
      DivMod(y, k, q, r + 1);
    }
  }

  lemma DivMod(n: int, k: int, q: int, r: int)
    requires k > 0 && n == q * k + r && 0 <= r < k
    ensures n / k == q && n % k == r
  {
    var d := n / k - q;
    assert d * k == r - n % k;
    assert -k < d * k < k;
    SmallFactor(d, k);
  }

  lemma SmallFactor(d: int, k: int)
    requires k > 0 && -k < d * k < k
    ensures d == 0
  {
  }

  lemma NextMonth(y: int, k: int)
    requires y >= 1 && 0 <= k < 12
    ensures (if k == 11 then FirstOf(y + 1, 0) else FirstOf(y, k + 1)) - FirstOf(y, k) == MonthDays(y * 12 + k)
  {
    DivMod(y * 12 + k, 12, y, k);
    YearLength(y);
  }

  lemma NextIndex(m: Month)
    ensures (m + 1) / 12 == (if m % 12 == 11 then m / 12 + 1 else m / 12)
    ensures (m + 1) % 12 == (if m % 12 == 11 then 0 else m % 12 + 1)
  {
    if m % 12 == 11 { DivMod(m + 1, 12, m / 12 + 1, 0); } else { DivMod(m + 1, 12, m / 12, m % 12 + 1); }
  }

  // Counting months one by one reaches the day the calendar's closed form gives.
  lemma {:induction false} MonthStartClosedForm(m: Month)
    ensures MonthStart(m) == FirstOf(m / 12, m % 12)
  {
    if m > 12 {
      MonthStartClosedForm(m - 1);
      NextMonth((m - 1) / 12, (m - 1) % 12);
      NextIndex(m - 1);
    }
  }

  // Months by any numbering whose starts ascend.
  ghost predicate MonthsGrow(start: int -> int) { forall m: int :: m >= 12 ==> start(m) < start(m + 1) }

  lemma {:induction false} StartsAscend(start: int -> int, a: int, b: int)
    requires MonthsGrow(start) && 12 <= a < b
    ensures start(a) < start(b)
    decreases b - a
  {
    if a < b - 1 { StartsAscend(start, a, b - 1); }
    assert start(b - 1) < start(b - 1 + 1);
  }

  function Starts(): int -> int { (m: int) => if m >= 12 then MonthStart(m) else 0 }

  lemma StartsAreMonths()
    ensures MonthsGrow(Starts())
    ensures forall m: Month :: Starts()(m) == MonthStart(m)
  {
    forall m: int | m >= 12 ensures Starts()(m) < Starts()(m + 1) { }
  }

  // The month a day falls in, looked for from month `m` on.
  function MonthFrom(start: int -> int, m: int, d: int): (r: int)
    requires MonthsGrow(start) && m >= 12 && start(m) <= d
    ensures r >= m && start(r) <= d < start(r + 1)
    decreases d - start(m)
  {
    if d < start(m + 1) then m else MonthFrom(start, m + 1, d)
  }

  // No other month holds it.
  lemma OneMonth(start: int -> int, d: int, m: int, n: int)
    requires MonthsGrow(start) && m >= 12 && n >= 12 && start(m) <= d < start(m + 1) && start(n) <= d < start(n + 1)
    ensures m == n
  {
    if m + 1 < n { StartsAscend(start, m + 1, n); }
    if n + 1 < m { StartsAscend(start, n + 1, m); }
  }
}
