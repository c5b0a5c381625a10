// What the days of the ledger are worth, column by column, counted on the source tables themselves
// and not on what a fold credits (app/account_stats.py, the header's "What each source contributes").
module StatsWorth {
  import opened Common
  import opened StatsColumns
  import opened LedgerFold
  import opened StatsLedger
  import opened StatsFold
  import opened StatsRun
  import opened StatsExact

  // Its channel stands and is the account's, and its day is in the span.
  predicate OnAccount(ch: Channels, channel: int, account: int, day: int, lo: int, hi: int) {
    channel in ch && ch[channel] == account && lo <= day && day < hi
  }

  // What a passed row of the account in the span is worth, and any other nothing.
  function SegPassed(w: World, account: int, lo: int, hi: int, value: Seg -> nat): Seg -> nat {
    (s: Seg) => if s.id <= w.marks.seg && OnAccount(w.src.channels, s.channel, account, s.day, lo, hi) then value(s) else 0
  }

  function SegsWorth(w: World, account: int, lo: int, hi: int, value: Seg -> nat): nat {
    SumOver(w.src.segs, SegPassed(w, account, lo, hi, value))
  }

  // What a passed row of the account in the span is worth, and any other nothing.
  function TestPassed(w: World, account: int, lo: int, hi: int, value: Test -> nat): Test -> nat {
    (t: Test) => if t.id <= w.marks.test && OnAccount(w.src.channels, t.channel, account, t.day, lo, hi) then value(t) else 0
  }

  function TestsWorth(w: World, account: int, lo: int, hi: int, value: Test -> nat): nat {
    SumOver(w.src.tests, TestPassed(w, account, lo, hi, value))
  }

  // What a passed row of the account in the span is worth, and any other nothing.
  function EventPassed(w: World, account: int, lo: int, hi: int, value: Event -> nat): Event -> nat {
    (e: Event) => if e.id <= w.marks.event && OnAccount(w.src.channels, e.channel, account, e.day, lo, hi) then value(e) else 0
  }

  function EventsWorth(w: World, account: int, lo: int, hi: int, value: Event -> nat): nat {
    SumOver(w.src.events, EventPassed(w, account, lo, hi, value))
  }

  // ---- from days to rows -----------------------------------------------------------------------

  // A credit of one day.
  lemma {:induction false} OneDay(days: Days, account: int, column: Column, lo: int, hi: int, day: int, v: nat)
    requires forall d :: Get(days, Cell(account, d, column)) == if d == day then v else 0
    ensures DaySum(days, account, column, lo, hi) == if lo <= day && day < hi then v else 0
    decreases hi - lo
  {
    if lo < hi { OneDay(days, account, column, lo, hi - 1, day, v); }
  }

  lemma {:induction false} SpanOfLogs(w: World, account: int, column: Column, lo: int, hi: int)
    requires DaysAreLogged(w)
    ensures DaySum(w.days, account, column, lo, hi)
      == RowSum(w.segLog, account, column, lo, hi) + RowSum(w.testLog, account, column, lo, hi) + RowSum(w.eventLog, account, column, lo, hi)
    decreases hi - lo
  {
    if lo < hi { SpanOfLogs(w, account, column, lo, hi - 1); }
  }

  lemma BetweenNext(rows: seq<Row>, n: nat, mark: int)
    requires n < |rows|
    ensures Between(rows[..n + 1], 0, mark) == if 0 < rows[n].id <= mark then Between(rows[..n], 0, mark) + [rows[n]] else Between(rows[..n], 0, mark)
  {
    assert rows[..n + 1] == rows[..n] + [rows[n]];
    BetweenLast(rows[..n], rows[n], 0, mark);
  }

  // Passed rows sum to what each is worth.
  lemma {:induction false} RowsAreWorth<T>(rows: seq<Row>, xs: seq<T>, n: nat, mark: int, account: int, column: Column, lo: int, hi: int, value: T -> nat)
    requires |rows| == |xs| && n <= |xs|
    requires forall i :: 0 <= i < |xs| ==> value(xs[i]) == if 0 < rows[i].id <= mark then DaySum(rows[i].credit, account, column, lo, hi) else 0
    ensures RowSum(Between(rows[..n], 0, mark), account, column, lo, hi) == SumOver(xs[..n], value)
  {
    if n == 0 {
      RowSumNone(account, column, lo, hi);
    } else {
      RowsAreWorth(rows, xs, n - 1, mark, account, column, lo, hi, value);
      BetweenNext(rows, n - 1, mark);
      RowSumLast(Between(rows[..n - 1], 0, mark), rows[n - 1], account, column, lo, hi);
      assert xs[..n][..n - 1] == xs[..n - 1];
    }
  }

  lemma AllWorth<T>(rows: seq<Row>, xs: seq<T>, mark: int, account: int, column: Column, lo: int, hi: int, value: T -> nat)
    requires |rows| == |xs|
    requires forall i :: 0 <= i < |xs| ==> value(xs[i]) == if 0 < rows[i].id <= mark then DaySum(rows[i].credit, account, column, lo, hi) else 0
    ensures RowSum(Between(rows, 0, mark), account, column, lo, hi) == SumOver(xs, value)
  {
    RowsAreWorth(rows, xs, |xs|, mark, account, column, lo, hi, value);
    assert rows[..|xs|] == rows && xs[..|xs|] == xs;
  }

  // ---- what one row is worth -------------------------------------------------------------------

  // A recorded length never counts below nothing, and only for a segment that ended and was kept.
  function Seconds(s: Seg): nat {
    match s.state
    case Closed(length, excluded) => if excluded || length <= 0 then 0 else length
    case _ => 0
  }

  function SegColumn(column: Column): Seg -> nat {
    (s: Seg) => match column case Segments => 1 case Stalls => s.stalls case Capture => Seconds(s) case _ => 0
  }

  lemma SegWorth(ch: Channels, s: Seg, first: bool, account: int, column: Column, lo: int, hi: int)
    requires column != Recordings
    ensures DaySum(SegCredit(ch, s, first), account, column, lo, hi)
      == if OnAccount(ch, s.channel, account, s.day, lo, hi) then SegColumn(column)(s) else 0
  {
    var v := if s.channel in ch && ch[s.channel] == account then SegColumn(column)(s) else 0;
    OneDay(SegCredit(ch, s, first), account, column, lo, hi, s.day, v);
  }

  function TestColumn(column: Column): Test -> nat {
    (t: Test) => if (column == ChecksPassed && t.state == Passed) || (column == ChecksFailed && t.state == Failed) then 1 else 0
  }

  lemma TestWorth(ch: Channels, t: Test, account: int, column: Column, lo: int, hi: int)
    ensures DaySum(TestCredit(ch, t), account, column, lo, hi)
      == if OnAccount(ch, t.channel, account, t.day, lo, hi) then TestColumn(column)(t) else 0
  {
    var v := if t.channel in ch && ch[t.channel] == account then TestColumn(column)(t) else 0;
    OneDay(TestCredit(ch, t), account, column, lo, hi, t.day, v);
  }

  function EventColumn(column: Column): Event -> nat { (e: Event) => if column == Failovers && e.failover then 1 else 0 }

  lemma EventWorth(ch: Channels, e: Event, account: int, column: Column, lo: int, hi: int)
    ensures DaySum(EventCredit(ch, e), account, column, lo, hi)
      == if OnAccount(ch, e.channel, account, e.day, lo, hi) then EventColumn(column)(e) else 0
  {
    var v := if e.channel in ch && ch[e.channel] == account then EventColumn(column)(e) else 0;
    OneDay(EventCredit(ch, e), account, column, lo, hi, e.day, v);
  }

  // ---- what the days are worth ---------------------------------------------------------------------

  lemma SegLogWorth(w: World, account: int, column: Column, lo: int, hi: int)
    requires TablesValid(w) && column != Recordings
    ensures RowSum(Between(SegRows(w.src), 0, w.marks.seg), account, column, lo, hi) == SegsWorth(w, account, lo, hi, SegColumn(column))
  {
    var ch, rows, value := w.src.channels, SegRows(w.src), SegPassed(w, account, lo, hi, SegColumn(column));
    forall i | 0 <= i < |rows|
      ensures value(w.src.segs[i]) == if 0 < rows[i].id <= w.marks.seg then DaySum(rows[i].credit, account, column, lo, hi) else 0
    {
      assert w.src.segs[i] in w.src.segs;
      SegWorth(ch, w.src.segs[i], First(w.src.segs, ch, w.src.segs[i]), account, column, lo, hi);
    }
    AllWorth(rows, w.src.segs, w.marks.seg, account, column, lo, hi, value);
  }

  lemma {:induction false} SameSum<T>(xs: seq<T>, f: T -> nat, g: T -> nat)
    requires forall x :: x in xs ==> f(x) == g(x)
    ensures SumOver(xs, f) == SumOver(xs, g)
  {
    if xs != [] {
      assert forall x :: x in xs[..|xs| - 1] ==> x in xs;
      SameSum(xs[..|xs| - 1], f, g);
    }
  }

  lemma TestLogWorth(w: World, account: int, column: Column, lo: int, hi: int)
    requires TablesValid(w)
    ensures RowSum(Between(TestRows(w.src), 0, w.marks.test), account, column, lo, hi) == TestsWorth(w, account, lo, hi, TestColumn(column))
  {
    var ch, rows, value := w.src.channels, TestRows(w.src), TestPassed(w, account, lo, hi, TestColumn(column));
    forall i | 0 <= i < |rows|
      ensures value(w.src.tests[i]) == if 0 < rows[i].id <= w.marks.test then DaySum(rows[i].credit, account, column, lo, hi) else 0
    {
      assert w.src.tests[i] in w.src.tests;
      TestWorth(ch, w.src.tests[i], account, column, lo, hi);
    }
    AllWorth(rows, w.src.tests, w.marks.test, account, column, lo, hi, value);
  }

  lemma EventLogWorth(w: World, account: int, column: Column, lo: int, hi: int)
    requires TablesValid(w)
    ensures RowSum(Between(EventRows(w.src), 0, w.marks.event), account, column, lo, hi) == EventsWorth(w, account, lo, hi, EventColumn(column))
  {
    var ch, rows, value := w.src.channels, EventRows(w.src), EventPassed(w, account, lo, hi, EventColumn(column));
    forall i | 0 <= i < |rows|
      ensures value(w.src.events[i]) == if 0 < rows[i].id <= w.marks.event then DaySum(rows[i].credit, account, column, lo, hi) else 0
    {
      assert w.src.events[i] in w.src.events;
      EventWorth(ch, w.src.events[i], account, column, lo, hi);
    }
    AllWorth(rows, w.src.events, w.marks.event, account, column, lo, hi, value);
  }

  // Every column but `recordings`, over any span of days: what the passed rows of the three tables
  // are worth in it.
  lemma ColumnsAreWorth(w: World, account: int, column: Column, lo: int, hi: int)
    requires Exact(w) && column != Recordings
    ensures DaySum(w.days, account, column, lo, hi)
      == SegsWorth(w, account, lo, hi, SegColumn(column)) + TestsWorth(w, account, lo, hi, TestColumn(column)) + EventsWorth(w, account, lo, hi, EventColumn(column))
  {
    SpanOfLogs(w, account, column, lo, hi);
    SegLogWorth(w, account, column, lo, hi);
    TestLogWorth(w, account, column, lo, hi);
    EventLogWorth(w, account, column, lo, hi);
  }

  lemma {:induction false} SumOfNone<T>(xs: seq<T>, f: T -> nat)
    requires forall x :: x in xs ==> f(x) == 0
    ensures SumOver(xs, f) == 0
  {
    if xs != [] {
      assert forall x :: x in xs[..|xs| - 1] ==> x in xs;
      SumOfNone(xs[..|xs| - 1], f);
    }
  }

  lemma NoSegs(w: World, account: int, lo: int, hi: int, value: Seg -> nat)
    requires forall s :: value(s) == 0
    ensures SegsWorth(w, account, lo, hi, value) == 0
  {
    SumOfNone(w.src.segs, SegPassed(w, account, lo, hi, value));
  }

  lemma NoTests(w: World, account: int, lo: int, hi: int, value: Test -> nat)
    requires forall t :: value(t) == 0
    ensures TestsWorth(w, account, lo, hi, value) == 0
  {
    SumOfNone(w.src.tests, TestPassed(w, account, lo, hi, value));
  }

  lemma NoEvents(w: World, account: int, lo: int, hi: int, value: Event -> nat)
    requires forall e :: value(e) == 0
    ensures EventsWorth(w, account, lo, hi, value) == 0
  {
    SumOfNone(w.src.events, EventPassed(w, account, lo, hi, value));
  }

  // Over any days: the segments begun then, their stalls, and the seconds they ran.
  lemma SegmentsAreCounted(w: World, account: int, lo: int, hi: int)
    requires Exact(w)
    ensures DaySum(w.days, account, Segments, lo, hi) == SegsWorth(w, account, lo, hi, (s: Seg) => 1)
    ensures DaySum(w.days, account, Stalls, lo, hi) == SegsWorth(w, account, lo, hi, (s: Seg) => s.stalls)
    ensures DaySum(w.days, account, Capture, lo, hi) == SegsWorth(w, account, lo, hi, (s: Seg) => Seconds(s))
  {
    forall column | column in {Segments, Stalls, Capture}
      ensures DaySum(w.days, account, column, lo, hi) == SegsWorth(w, account, lo, hi, SegColumn(column))
    {
      ColumnsAreWorth(w, account, column, lo, hi);
      NoTests(w, account, lo, hi, TestColumn(column));
      NoEvents(w, account, lo, hi, EventColumn(column));
    }
    SameSegs(w, account, lo, hi, SegColumn(Segments), (s: Seg) => 1);
    SameSegs(w, account, lo, hi, SegColumn(Stalls), (s: Seg) => s.stalls);
    SameSegs(w, account, lo, hi, SegColumn(Capture), (s: Seg) => Seconds(s));
  }

  lemma SameSegs(w: World, account: int, lo: int, hi: int, f: Seg -> nat, g: Seg -> nat)
    requires forall s :: f(s) == g(s)
    ensures SegsWorth(w, account, lo, hi, f) == SegsWorth(w, account, lo, hi, g)
  {
    SameSum(w.src.segs, SegPassed(w, account, lo, hi, f),
            SegPassed(w, account, lo, hi, g));
  }

  lemma SameTests(w: World, account: int, lo: int, hi: int, f: Test -> nat, g: Test -> nat)
    requires forall t :: f(t) == g(t)
    ensures TestsWorth(w, account, lo, hi, f) == TestsWorth(w, account, lo, hi, g)
  {
    SameSum(w.src.tests, TestPassed(w, account, lo, hi, f),
            TestPassed(w, account, lo, hi, g));
  }

  lemma SameEvents(w: World, account: int, lo: int, hi: int, f: Event -> nat, g: Event -> nat)
    requires forall e :: f(e) == g(e)
    ensures EventsWorth(w, account, lo, hi, f) == EventsWorth(w, account, lo, hi, g)
  {
    SameSum(w.src.events, EventPassed(w, account, lo, hi, f),
            EventPassed(w, account, lo, hi, g));
  }

  // The tests that passed, the tests that failed, and the failovers.
  lemma ChecksAreCounted(w: World, account: int, lo: int, hi: int)
    requires Exact(w)
    ensures DaySum(w.days, account, ChecksPassed, lo, hi) == TestsWorth(w, account, lo, hi, (t: Test) => if t.state == Passed then 1 else 0)
    ensures DaySum(w.days, account, ChecksFailed, lo, hi) == TestsWorth(w, account, lo, hi, (t: Test) => if t.state == Failed then 1 else 0)
    ensures DaySum(w.days, account, Failovers, lo, hi) == EventsWorth(w, account, lo, hi, (e: Event) => if e.failover then 1 else 0)
  {
    forall column | column in {ChecksPassed, ChecksFailed, Failovers}
      ensures DaySum(w.days, account, column, lo, hi) == TestsWorth(w, account, lo, hi, TestColumn(column)) + EventsWorth(w, account, lo, hi, EventColumn(column))
    {
      ColumnsAreWorth(w, account, column, lo, hi);
      NoSegs(w, account, lo, hi, SegColumn(column));
    }
    NoEvents(w, account, lo, hi, EventColumn(ChecksPassed));
    NoEvents(w, account, lo, hi, EventColumn(ChecksFailed));
    NoTests(w, account, lo, hi, TestColumn(Failovers));
    SameTests(w, account, lo, hi, TestColumn(ChecksPassed), (t: Test) => if t.state == Passed then 1 else 0);
    SameTests(w, account, lo, hi, TestColumn(ChecksFailed), (t: Test) => if t.state == Failed then 1 else 0);
    SameEvents(w, account, lo, hi, EventColumn(Failovers), (e: Event) => if e.failover then 1 else 0);
  }

  // Over all days, `recordings` are the recordings with a passed segment on the account that was
  // not a placeholder.
  lemma RecordingsAreCounted(w: World, account: int, lo: int, hi: int)
    requires Exact(w) && forall s :: s in w.src.segs ==> lo <= s.day < hi
    ensures DaySum(w.days, account, Recordings, lo, hi) == |Captured(w, account)|
  {
    RecordingsCountedOnce(w, account, lo, hi);
    CapturedIs(w, account);
  }

  ghost function Captured(w: World, account: int): set<int> { set s | s in w.src.segs && Captures(w, s, account) :: s.recording }

  lemma CapturedIs(w: World, account: int)
    ensures RecordingsOn(w.src, w.marks.seg, account) == Captured(w, account)
  {
  }

  predicate Captures(w: World, s: Seg, account: int) {
    s.id <= w.marks.seg && s.channel in w.src.channels && w.src.channels[s.channel] == account && (match s.state case Closed(_, excluded) => !excluded case _ => true)
  }

  // ---- how far a catch-up reads ----------------------------------------------------------------

  // The rows up to the first unfinished one, however they are split into chunks.
  lemma {:induction false} RunEndFirst(rows: seq<Row>, a: nat, i: nat)
    requires a <= i < |rows|
    ensures i < RunEnd(rows, a) <==> forall j :: a <= j <= i ==> rows[j].done
    decreases |rows| - a
  {
    if rows[a].done && a < i { RunEndFirst(rows, a + 1, i); }
  }

  lemma FullPasses(rows: seq<Row>, wm: int, i: nat)
    requires Ascending(rows) && i < |rows| && wm < rows[i].id
    ensures rows[i].id <= HeldFull(rows, wm) <==> DoneTo(rows, wm, i)
  {
    var a := After(rows, wm);
    HeldFullIs(rows, wm);
    assert a > 0 ==> forall j :: 0 <= j < a ==> rows[j].id <= rows[a - 1].id;
    assert forall j :: 0 <= j < |rows| ==> (wm < rows[j].id <==> a <= j) by {
      assert forall j :: 0 <= j < a ==> rows[j].id <= rows[a - 1].id;
    }
    RunEndFirst(rows, a, i);
    if RunEnd(rows, a) > a { assert rows[i].id <= rows[RunEnd(rows, a) - 1].id <==> i <= RunEnd(rows, a) - 1; }
  }

  ghost predicate NoneRunning(src: Sources, from: int, id: int) {
    forall t :: t in src.segs && from < t.id && t.id <= id ==> t.state != Running
  }

  ghost predicate NoneInTest(src: Sources, from: int, id: int) {
    forall t :: t in src.tests && from < t.id && t.id <= id ==> t.state != InTest
  }

  ghost predicate DoneTo(rows: seq<Row>, wm: int, i: nat) { forall j :: 0 <= j <= i < |rows| && wm < rows[j].id ==> rows[j].done }

  lemma SegsDoneTo(src: Sources, wm: int, i: nat)
    requires SegIds(src.segs) && i < |src.segs|
    ensures DoneTo(SegRows(src), wm, i) <==> NoneRunning(src, wm, src.segs[i].id)
  {
    var rows := SegRows(src);
    if NoneRunning(src, wm, src.segs[i].id) {
      forall j | 0 <= j <= i && wm < rows[j].id ensures rows[j].done { assert src.segs[j] in src.segs; }
    } else {
      var t :| t in src.segs && wm < t.id && t.id <= src.segs[i].id && t.state == Running;
      var j :| 0 <= j < |src.segs| && src.segs[j] == t;
      assert rows[j].id == t.id && !rows[j].done;
    }
  }

  lemma TestsDoneTo(src: Sources, wm: int, i: nat)
    requires TestIds(src.tests) && i < |src.tests|
    ensures DoneTo(TestRows(src), wm, i) <==> NoneInTest(src, wm, src.tests[i].id)
  {
    var rows := TestRows(src);
    if NoneInTest(src, wm, src.tests[i].id) {
      forall j | 0 <= j <= i && wm < rows[j].id ensures rows[j].done { assert src.tests[j] in src.tests; }
    } else {
      var t :| t in src.tests && wm < t.id && t.id <= src.tests[i].id && t.state == InTest;
      var j :| 0 <= j < |src.tests| && src.tests[j] == t;
      assert rows[j].id == t.id && !rows[j].done;
    }
  }

  // A catch-up passes a segment exactly when none still being captured lies at or below it, a test
  // likewise, and every event.
  lemma CatchUpPasses(src: Sources, m: Marks, s: Seg)
    requires ValidSources(src) && s in src.segs && m.seg < s.id
    ensures s.id <= FullMarks(src, m).seg <==> NoneRunning(src, m.seg, s.id)
  {
    ValidByIds(src);
    var i :| 0 <= i < |src.segs| && src.segs[i] == s;
    FullPasses(SegRows(src), m.seg, i);
    SegsDoneTo(src, m.seg, i);
  }

  lemma CatchUpPassesTests(src: Sources, m: Marks, t: Test)
    requires ValidSources(src) && t in src.tests && m.test < t.id
    ensures t.id <= FullMarks(src, m).test <==> NoneInTest(src, m.test, t.id)
  {
    ValidByIds(src);
    var i :| 0 <= i < |src.tests| && src.tests[i] == t;
    FullPasses(TestRows(src), m.test, i);
    TestsDoneTo(src, m.test, i);
  }

  lemma CatchUpPassesEvents(src: Sources, m: Marks, e: Event)
    requires ValidSources(src) && e in src.events
    ensures e.id <= FullMarks(src, m).event
  {
    var rows := EventRows(src);
    var i :| 0 <= i < |src.events| && src.events[i] == e;
    assert rows[i].id <= rows[|rows| - 1].id;
  }
}
