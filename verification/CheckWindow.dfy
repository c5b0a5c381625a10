// The nightly health-check window (app/check_window.py), at one UTC offset. Instants are seconds;
// local day n is Python's date ordinal n, a Monday when n % 7 == 1.
module CheckWindow {
  import opened Common

  const DayLength := 86400
  // A time of day in minutes.
  type Clock = t: int | 0 <= t < 1440

  datatype Window = Window(start: Clock, end: Clock)
  datatype Occurrence = Occurrence(start: int, end: int)

  function LengthSeconds(w: Window): int {
    if w.end > w.start then (w.end - w.start) * 60 else (24 * 60 - w.start + w.end) * 60
  }

  function LocalDay(now: int, offset: int): int { (now + offset) / DayLength }

  function LocalTime(now: int, offset: int): int { (now + offset) % DayLength }

  function Combine(day: int, t: Clock, offset: int): int { day * DayLength + t * 60 - offset }

  // The window opened on a local day.
  function OpenedOn(w: Window, day: int, offset: int): Occurrence {
    Occurrence(Combine(day, w.start, offset), Combine(day, w.start, offset) + LengthSeconds(w))
  }

  ghost predicate IsOccurrence(w: Window, offset: int, o: Occurrence) {
    exists day: int :: o == OpenedOn(w, day, offset)
  }

  predicate Holds(o: Occurrence, now: int) { o.start <= now < o.end }

  lemma DayUnique(day: int, t: int, now: int)
    requires 0 <= t < DayLength && now == day * DayLength + t
    ensures now / DayLength == day && now % DayLength == t
  {
  }

  lemma LengthInADay(w: Window)
    ensures 0 < LengthSeconds(w) <= DayLength
    ensures LengthSeconds(w) == DayLength <==> w.start == w.end
    ensures (w.start * 60 + LengthSeconds(w)) % DayLength == w.end * 60
  {
    if w.end > w.start {
      DayUnique(0, w.end * 60, w.end * 60);
    } else {
      DayUnique(1, w.end * 60, w.start * 60 + LengthSeconds(w));
    }
  }

  // No two occurrences hold one instant.
  lemma OneHolds(w: Window, offset: int, a: Occurrence, b: Occurrence, now: int)
    requires IsOccurrence(w, offset, a) && IsOccurrence(w, offset, b) && Holds(a, now) && Holds(b, now)
    ensures a == b
  {
    LengthInADay(w);
    var i: int :| a == OpenedOn(w, i, offset);
    var j: int :| b == OpenedOn(w, j, offset);
    DaysApart(i, j, Combine(0, w.start, offset), LengthSeconds(w), now);
  }

  lemma DaysApart(i: int, j: int, base: int, length: int, now: int)
    requires 0 < length <= DayLength
    requires i * DayLength + base <= now < i * DayLength + base + length
    requires j * DayLength + base <= now < j * DayLength + base + length
    ensures i == j
  {
  }

  function Containing(w: Window, offset: int, now: int): (o: Option<Occurrence>) {
    var today, t := LocalDay(now, offset), LocalTime(now, offset);
    if w.end > w.start then
      if w.start * 60 <= t < w.end * 60 then Some(Occurrence(Combine(today, w.start, offset), Combine(today, w.end, offset))) else None
    else if t < w.end * 60 then Some(Occurrence(Combine(today - 1, w.start, offset), Combine(today, w.end, offset)))
    else if t >= w.start * 60 then Some(Occurrence(Combine(today, w.start, offset), Combine(today + 1, w.end, offset)))
    else None
  }

  lemma ContainingIsOne(w: Window, offset: int, now: int)
    ensures var o := Containing(w, offset, now); o.Some? ==> IsOccurrence(w, offset, o.value) && Holds(o.value, now)
  {
    var o, today := Containing(w, offset, now), LocalDay(now, offset);
    assert now + offset == today * DayLength + LocalTime(now, offset);
    if o.Some? {
      var day := if w.end <= w.start && LocalTime(now, offset) < w.end * 60 then today - 1 else today;
      assert o.value == OpenedOn(w, day, offset);
    }
  }

  lemma ContainingFindsToday(w: Window, offset: int, now: int, day: int)
    requires Holds(OpenedOn(w, day, offset), now)
    ensures Containing(w, offset, now).Some?
  {
    LengthInADay(w);
    var today, t := LocalDay(now, offset), LocalTime(now, offset);
    assert now + offset == today * DayLength + t;
    assert day == today || day == today - 1 by { OpenedTodayOrBefore(day, today, t, w.start * 60, LengthSeconds(w)); }
  }

  lemma OpenedTodayOrBefore(day: int, today: int, t: int, start: int, length: int)
    requires 0 <= t < DayLength && 0 <= start < DayLength && 0 < length <= DayLength
    requires day * DayLength + start <= today * DayLength + t < day * DayLength + start + length
    ensures day == today || day == today - 1
  {
  }

  // The answer is the one occurrence that holds the instant, and nothing when none does.
  lemma ContainingExactly(w: Window, offset: int, now: int, o: Occurrence)
    ensures Containing(w, offset, now) == Some(o) <==> IsOccurrence(w, offset, o) && Holds(o, now)
  {
    ContainingIsOne(w, offset, now);
    if IsOccurrence(w, offset, o) && Holds(o, now) {
      var day: int :| o == OpenedOn(w, day, offset);
      ContainingFindsToday(w, offset, now, day);
      OneHolds(w, offset, o, Containing(w, offset, now).value, now);
    }
  }

  // The occurrence closing on the local date of `now`.
  function Closing(w: Window, offset: int, now: int): Occurrence {
    var endDay := LocalDay(now, offset);
    var startDay := if w.end <= w.start then endDay - 1 else endDay;
    Occurrence(Combine(startDay, w.start, offset), Combine(endDay, w.end, offset))
  }

  // It is the one occurrence that ends on that date; asked at or after its end, it is the last to
  // have ended, and it is what the instant before its end lay in.
  lemma ClosingExactly(w: Window, offset: int, now: int, o: Occurrence)
    ensures Closing(w, offset, now) == o <==> IsOccurrence(w, offset, o) && LocalDay(o.end, offset) == LocalDay(now, offset)
    ensures Containing(w, offset, Closing(w, offset, now).end - 1) == Some(Closing(w, offset, now))
  {
    var c, d := Closing(w, offset, now), LocalDay(now, offset);
    var startDay := if w.end <= w.start then d - 1 else d;
    LengthInADay(w);
    assert c == OpenedOn(w, startDay, offset);
    DayUnique(d, w.end * 60, c.end + offset);
    ContainingExactly(w, offset, c.end - 1, c);
    if IsOccurrence(w, offset, o) && LocalDay(o.end, offset) == d {
      var day: int :| o == OpenedOn(w, day, offset);
      DayUnique(if w.end <= w.start then day + 1 else day, w.end * 60, o.end + offset);
    }
  }

  lemma ClosingIsLatestEnded(w: Window, offset: int, now: int, o: Occurrence)
    requires Closing(w, offset, now).end <= now && IsOccurrence(w, offset, o) && o.end <= now
    ensures o.end <= Closing(w, offset, now).end
  {
    var c, d := Closing(w, offset, now), LocalDay(now, offset);
    var startDay := if w.end <= w.start then d - 1 else d;
    assert c == OpenedOn(w, startDay, offset);
    assert now + offset == d * DayLength + LocalTime(now, offset);
    var day: int :| o == OpenedOn(w, day, offset);
    NotAWholeDayLater(startDay, day, c.end - startDay * DayLength, w.end * 60 - offset, d, now, offset);
  }

  lemma NotAWholeDayLater(startDay: int, day: int, base: int, end: int, d: int, now: int, offset: int)
    requires base + startDay * DayLength == d * DayLength + end && end <= now - d * DayLength
    requires now + offset < (d + 1) * DayLength && end + offset >= 0
    requires day * DayLength + base <= now
    ensures day <= startDay
  {
  }

  // ---- the next start --------------------------------------------------------------------------

  // date.isoweekday(): 1 is Monday, 7 is Sunday.
  function IsoWeekday(day: int): int { (day - 1) % 7 + 1 }

  // 1 is Sunday, 7 is Saturday.
  function RecurDayFor(day: int): int { IsoWeekday(day) % 7 + 1 }

  predicate Eligible(recur: int, day: int) { recur == 0 || RecurDayFor(day) == recur }

  // Some day of any seven in a row is the one asked for.
  lemma EligibleSoon(recur: int, day: int) returns (k: nat)
    requires 0 <= recur <= 7
    ensures k < 7 && Eligible(recur, day + k)
  {
    k := if recur == 0 then 0 else (recur - 1 - day) % 7;
    if recur != 0 {
      var q := (recur - 1 - day) / 7;
      assert day + k == recur - 1 - 7 * q;
    }
  }

  ghost predicate StartFor(w: Window, offset: int, recur: int, start: int) {
    exists day: int :: start == Combine(day, w.start, offset) && Eligible(recur, day)
  }

  method NextOccurrenceStart(w: Window, offset: int, recurDay: Option<int>, now: int) returns (start: int)
    ensures var recur := if recurDay.Some? then recurDay.value else 0;
      0 <= recur <= 7 ==>
        && start > now && StartFor(w, offset, recur, start)
        && forall s :: StartFor(w, offset, recur, s) && s > now ==> start <= s
    ensures Containing(w, offset, start) == Some(Occurrence(start, start + LengthSeconds(w)))
  {
    var recur := if recurDay.Some? then recurDay.value else 0;
    var day := LocalDay(now, offset);
    if LocalTime(now, offset) >= w.start * 60 { day := day + 1; }
    ghost var firstDay := day;
    assert now + offset == LocalDay(now, offset) * DayLength + LocalTime(now, offset);
    assert Combine(firstDay, w.start, offset) > now;
    assert Combine(firstDay - 1, w.start, offset) <= now;
    var tried := 0;
    while tried < 8
      invariant 0 <= tried <= 8 && day == firstDay + tried
      invariant forall d :: firstDay <= d < day ==> !Eligible(recur, d)
    {
      if recur == 0 || RecurDayFor(day) == recur { break; }
      day, tried := day + 1, tried + 1;
    }
    start := Combine(day, w.start, offset);
    LengthInADay(w);
    ContainingExactly(w, offset, start, OpenedOn(w, day, offset));
    if 0 <= recur <= 7 {
      var k := EligibleSoon(recur, firstDay);
      assert tried <= k;
      forall s | StartFor(w, offset, recur, s) && s > now ensures start <= s {
        var d: int :| s == Combine(d, w.start, offset) && Eligible(recur, d);
        NoEarlier(d, firstDay, w.start * 60 - offset, now);
      }
    }
  }

  lemma NoEarlier(d: int, firstDay: int, base: int, now: int)
    requires d * DayLength + base > now && (firstDay - 1) * DayLength + base <= now
    ensures d >= firstDay
  {
  }

  // ---- by the clock on the wall -----------------------------------------------------------------

  // An occurrence is any stretch of at most a day that opens at the window's start time and closes
  // at its end time, local time.
  lemma OccurrenceByTheClock(w: Window, offset: int, o: Occurrence)
    ensures IsOccurrence(w, offset, o) <==>
      && 0 < o.end - o.start <= 24 * 60 * 60
      && (o.start + offset) % (24 * 60 * 60) == w.start * 60 && (o.end + offset) % (24 * 60 * 60) == w.end * 60
  {
    LengthInADay(w);
    if IsOccurrence(w, offset, o) {
      var day: int :| o == OpenedOn(w, day, offset);
      DayUnique(day, w.start * 60, o.start + offset);
      var into := w.start * 60 + LengthSeconds(w);
      EndsAtItsTime(day, into, o.end + offset);
    }
    if 0 < o.end - o.start <= DayLength && (o.start + offset) % DayLength == w.start * 60 && (o.end + offset) % DayLength == w.end * 60 {
      var day := (o.start + offset) / DayLength;
      OneLength(day * DayLength + w.start * 60, o.end - o.start, LengthSeconds(w), w.end * 60);
      assert o == OpenedOn(w, day, offset);
    }
  }

  lemma EndsAtItsTime(day: int, into: int, end: int)
    requires end == day * DayLength + into
    ensures end % DayLength == into % DayLength
  {
  }

  // Two lengths within a day from one start that end at one time of day are one.
  lemma OneLength(start: int, a: int, b: int, end: int)
    requires 0 < a <= DayLength && 0 < b <= DayLength && (start + a) % DayLength == end && (start % DayLength + b) % DayLength == end
    ensures a == b
  {
  }

  // Day 7 is a Sunday, and every seventh from it; a weekday setting of 1 asks for that day, and
  // each next one for the next.
  lemma AsksForAWeekday(recur: int, day: int)
    requires 1 <= recur <= 7
    ensures Eligible(recur, day) <==> (day - 7) % 7 == recur - 1
    ensures Eligible(0, day)
  {
  }
}
