// When the incremental ledger equals an aggregate from scratch, and what makes them part.
module StatsExact {
  import opened Common
  import opened StatsColumns
  import opened LedgerFold
  import opened StatsLedger
  import opened StatsFold
  import opened StatsRun

  const Start := Marks(0, 0, 0)

  // Every passed row still stands in its table and counts today for what it counted for then.
  ghost predicate Exact(w: World) {
    && Accounted(w)
    && w.segLog == Between(SegRows(w.src), 0, w.marks.seg)
    && w.testLog == Between(TestRows(w.src), 0, w.marks.test)
    && w.eventLog == Between(EventRows(w.src), 0, w.marks.event)
    && (w.marks.seg == 0 || exists s :: s in w.src.segs && s.id == w.marks.seg)
  }

  ghost predicate FromScratch(days: Days, src: Sources, marks: Marks) {
    forall c :: Get(days, c) == Gain(src, Start, marks, c)
  }

  // A passed row of this channel counted for something.
  ghost predicate Counted(w: World, channel: int) {
    && channel in w.src.channels
    && ((exists s :: s in w.src.segs && s.id <= w.marks.seg && s.channel == channel)
        || (exists t :: t in w.src.tests && t.id <= w.marks.test && t.channel == channel && (t.state.Passed? || t.state.Failed?))
        || (exists e :: e in w.src.events && e.id <= w.marks.event && e.channel == channel && e.failover))
  }

  // The startup sweep closes a segment left open at its own start: no capture, nothing else new.
  ghost predicate ClosedUnheard(segs: seq<Seg>, s: Seg) {
    && s.state.Closed? && !s.state.excluded && s.state.length <= 0
    && exists o :: o in segs && o.state.Abandoned? && s == o.(state := s.state)
  }

  // Leaves alone what the watermarks have passed: no passed row is pruned, no passed segment
  // rewritten but by the sweep, and no channel a passed row counted on is deleted.
  ghost predicate Harmless(w: World, op: Op) {
    match op
    case SetSeg(s) => s.id > w.marks.seg || ClosedUnheard(w.src.segs, s)
    case Prune(ss, ts, es) =>
      && (forall s :: s in w.src.segs && s.id in ss ==> s.id > w.marks.seg)
      && (forall t :: t in w.src.tests && t.id in ts ==> t.id > w.marks.test)
      && (forall e :: e in w.src.events && e.id in es ==> e.id > w.marks.event)
    case DropChannel(c) => !Counted(w, c)
    case _ => true
  }

  // ---- equal passed rows ----------------------------------------------------------------------

  lemma SamePassed(rows: seq<Row>, later: seq<Row>, mark: int)
    requires Ascending(rows) && Ascending(later)
    requires forall r: Row :: 0 < r.id <= mark ==> (r in rows <==> r in later)
    ensures Between(rows, 0, mark) == Between(later, 0, mark)
  {
    BetweenMembers(rows, 0, mark);
    BetweenMembers(later, 0, mark);
    BetweenAscends(rows, 0, mark);
    BetweenAscends(later, 0, mark);
    RisingUnique((r: Row) => r.id, Between(rows, 0, mark), Between(later, 0, mark));
  }

  function Account(ch: Channels, channel: int): set<int> { if channel in ch then {ch[channel]} else {} }

  ghost predicate SamePassedSegs(src: Sources, later: Sources, mark: int) {
    && (forall s: Seg :: s.id <= mark ==> (s in src.segs <==> s in later.segs))
    && (forall s :: s in src.segs && s.id <= mark ==> Account(src.channels, s.channel) == Account(later.channels, s.channel))
  }

  lemma SameAccount(a: Channels, b: Channels, channel: int)
    requires Account(a, channel) == Account(b, channel)
    ensures channel in a <==> channel in b
    ensures channel in a ==> a[channel] == b[channel]
  {
    if channel in a { assert a[channel] in Account(b, channel); }
    if channel in b { assert b[channel] in Account(a, channel); }
  }

  // Whether a passed segment is the first of its recording depends on passed segments alone.
  lemma FirstIsFinal(src: Sources, later: Sources, mark: int, s: Seg)
    requires SamePassedSegs(src, later, mark) && s in src.segs && s.id <= mark
    ensures First(src.segs, src.channels, s) <==> First(later.segs, later.channels, s)
  {
    SameAccount(src.channels, later.channels, s.channel);
    forall t | t in src.segs && t.id <= mark
      ensures t in later.segs && (SameRun(src.channels, s, t) <==> SameRun(later.channels, s, t))
    {
      SameAccount(src.channels, later.channels, t.channel);
    }
    forall t | t in later.segs && t.id <= mark
      ensures t in src.segs
    {
    }
  }

  lemma SegRowsStand(src: Sources, later: Sources, mark: int)
    requires ValidSources(src) && ValidSources(later) && SamePassedSegs(src, later, mark)
    ensures Between(SegRows(src), 0, mark) == Between(SegRows(later), 0, mark)
  {
    forall s | s in src.segs && s.id <= mark ensures SegRow(src, s) == SegRow(later, s) {
      FirstIsFinal(src, later, mark, s);
      SameAccount(src.channels, later.channels, s.channel);
    }
    RowOfEach(src);
    RowOfEach(later);
    forall r: Row | 0 < r.id <= mark ensures r in SegRows(src) <==> r in SegRows(later) {
      if r in SegRows(src) {
        var i :| 0 <= i < |src.segs| && SegRows(src)[i] == r;
        assert src.segs[i] in later.segs;
      }
      if r in SegRows(later) {
        var i :| 0 <= i < |later.segs| && SegRows(later)[i] == r;
        assert later.segs[i] in src.segs;
      }
    }
    SamePassed(SegRows(src), SegRows(later), mark);
  }

  function TestRow(ch: Channels, t: Test): Row { Row(t.id, !t.state.InTest?, true, TestCredit(ch, t)) }

  function EventRow(ch: Channels, e: Event): Row { Row(e.id, true, e.failover, EventCredit(ch, e)) }

  lemma RowsAreMade(src: Sources)
    ensures forall r :: r in TestRows(src) ==> exists t :: t in src.tests && r == TestRow(src.channels, t)
    ensures forall r :: r in EventRows(src) ==> exists e :: e in src.events && r == EventRow(src.channels, e)
  {
    forall r | r in TestRows(src) ensures exists t :: t in src.tests && r == TestRow(src.channels, t) {
      var i :| 0 <= i < |src.tests| && TestRows(src)[i] == r;
      assert src.tests[i] in src.tests;
    }
    forall r | r in EventRows(src) ensures exists e :: e in src.events && r == EventRow(src.channels, e) {
      var i :| 0 <= i < |src.events| && EventRows(src)[i] == r;
      assert src.events[i] in src.events;
    }
  }

  lemma RowsAre(src: Sources)
    ensures forall r :: r in TestRows(src) <==> exists t :: t in src.tests && r == TestRow(src.channels, t)
    ensures forall r :: r in EventRows(src) <==> exists e :: e in src.events && r == EventRow(src.channels, e)
  {
    RowsAreMade(src);
    forall t | t in src.tests ensures TestRow(src.channels, t) in TestRows(src) {
      var i :| 0 <= i < |src.tests| && src.tests[i] == t;
      assert TestRows(src)[i] == TestRow(src.channels, t);
    }
    forall e | e in src.events ensures EventRow(src.channels, e) in EventRows(src) {
      var i :| 0 <= i < |src.events| && src.events[i] == e;
      assert EventRows(src)[i] == EventRow(src.channels, e);
    }
  }

  lemma TestRowsStand(src: Sources, later: Sources, mark: int)
    requires ValidSources(src) && ValidSources(later)
    requires forall t: Test :: t.id <= mark ==> (t in src.tests <==> t in later.tests)
    requires forall t :: t in src.tests && t.id <= mark ==> TestCredit(src.channels, t) == TestCredit(later.channels, t)
    ensures Between(TestRows(src), 0, mark) == Between(TestRows(later), 0, mark)
  {
    RowsAre(src);
    RowsAre(later);
    forall r: Row | 0 < r.id <= mark ensures r in TestRows(src) <==> r in TestRows(later) {
      if r in TestRows(src) {
        var t :| t in src.tests && r == TestRow(src.channels, t);
        assert t in later.tests && r == TestRow(later.channels, t);
      }
      if r in TestRows(later) {
        var t :| t in later.tests && r == TestRow(later.channels, t);
        assert t in src.tests && r == TestRow(src.channels, t);
      }
    }
    SamePassed(TestRows(src), TestRows(later), mark);
  }

  lemma EventRowsStand(src: Sources, later: Sources, mark: int)
    requires ValidSources(src) && ValidSources(later)
    requires forall e: Event :: e.id <= mark ==> (e in src.events <==> e in later.events)
    requires forall e :: e in src.events && e.id <= mark ==> EventCredit(src.channels, e) == EventCredit(later.channels, e)
    ensures Between(EventRows(src), 0, mark) == Between(EventRows(later), 0, mark)
  {
    RowsAre(src);
    RowsAre(later);
    forall r: Row | 0 < r.id <= mark ensures r in EventRows(src) <==> r in EventRows(later) {
      if r in EventRows(src) {
        var e :| e in src.events && r == EventRow(src.channels, e);
        assert e in later.events && r == EventRow(later.channels, e);
      }
      if r in EventRows(later) {
        var e :| e in later.events && r == EventRow(later.channels, e);
        assert e in src.events && r == EventRow(src.channels, e);
      }
    }
    SamePassed(EventRows(src), EventRows(later), mark);
  }

  // ---- harmless steps -------------------------------------------------------------------------

  lemma PutMembers(segs: seq<Seg>, s: Seg)
    ensures forall t: Seg :: t.id != s.id ==> (t in segs <==> t in Put(segs, s))
  {
    forall t: Seg | t.id != s.id ensures t in segs <==> t in Put(segs, s) {
      if t in segs {
        var i :| 0 <= i < |segs| && segs[i] == t;
        assert Put(segs, s)[i] == t;
      }
    }
  }

  lemma PutTestMembers(tests: seq<Test>, s: Test)
    ensures forall t: Test :: t.id != s.id ==> (t in tests <==> t in PutTest(tests, s))
  {
    forall t: Test | t.id != s.id ensures t in tests <==> t in PutTest(tests, s) {
      if t in tests {
        var i :| 0 <= i < |tests| && tests[i] == t;
        assert PutTest(tests, s)[i] == t;
      }
    }
  }

  lemma AnchoredNext(w: World)
    requires Exact(w)
    ensures NextSeg(w.src.segs) > w.marks.seg
  {
    ValidByIds(w.src);
    LastSegLargest(w.src.segs);
    if w.src.segs != [] { assert LastSeg(w.src.segs) > 0; }
  }

  lemma SegsStand(w: World, op: Op)
    requires Exact(w) && Legal(w, op) && Harmless(w, op) && !op.Fold? && !op.Reset? && (op.SetSeg? ==> op.seg.id > w.marks.seg)
    ensures forall s: Seg :: s.id <= w.marks.seg ==> (s in w.src.segs <==> s in SourcesAfter(w, op).segs)
  {
    if op.NewSeg? {
      AnchoredNext(w);
    } else if op.SetSeg? {
      PutMembers(w.src.segs, op.seg);
    } else if op.Prune? {
      ValidByIds(w.src);
      KeptSegs(w.src.segs, op.segs);
    }
  }

  lemma HarmlessSegs(w: World, op: Op)
    requires Exact(w) && Legal(w, op) && Harmless(w, op) && !op.Fold? && !op.Reset? && (op.SetSeg? ==> op.seg.id > w.marks.seg)
    ensures SamePassedSegs(w.src, SourcesAfter(w, op), w.marks.seg)
  {
    SegsStand(w, op);
    AccountsStand(w, op);
  }

  lemma AccountsStand(w: World, op: Op)
    requires Legal(w, op) && Harmless(w, op) && !op.Fold? && !op.Reset?
    ensures forall s :: s in w.src.segs && s.id <= w.marks.seg ==>
      Account(w.src.channels, s.channel) == Account(SourcesAfter(w, op).channels, s.channel)
  {
  }

  lemma TestsStand(w: World, op: Op)
    requires Exact(w) && Legal(w, op) && Harmless(w, op) && !op.Fold? && !op.Reset?
    ensures forall t: Test :: t.id <= w.marks.test ==> (t in w.src.tests <==> t in SourcesAfter(w, op).tests)
  {
    if op.SetTest? {
      PutTestMembers(w.src.tests, op.test);
      UnfinishedIsAbove(w, op.test.id);
    } else if op.Prune? {
      ValidByIds(w.src);
      KeptTests(w.src.tests, op.tests);
    }
  }

  lemma HarmlessTests(w: World, op: Op)
    requires Exact(w) && Legal(w, op) && Harmless(w, op) && !op.Fold? && !op.Reset?
    ensures forall t: Test :: t.id <= w.marks.test ==> (t in w.src.tests <==> t in SourcesAfter(w, op).tests)
    ensures forall t :: t in w.src.tests && t.id <= w.marks.test ==> TestCredit(w.src.channels, t) == TestCredit(SourcesAfter(w, op).channels, t)
  {
    TestsStand(w, op);
    CreditsStand(w, op);
  }

  // A channel that comes is named by no row, and one that goes was counted on by none passed.
  lemma CreditsStand(w: World, op: Op)
    requires Legal(w, op) && Harmless(w, op) && !op.Fold? && !op.Reset?
    ensures forall t :: t in w.src.tests && t.id <= w.marks.test ==> TestCredit(w.src.channels, t) == TestCredit(SourcesAfter(w, op).channels, t)
    ensures forall e :: e in w.src.events && e.id <= w.marks.event ==> EventCredit(w.src.channels, e) == EventCredit(SourcesAfter(w, op).channels, e)
  {
  }

  // A test still running lies above its watermark.
  lemma UnfinishedIsAbove(w: World, id: int)
    requires Exact(w) && exists o :: o in w.src.tests && o.state.InTest? && o.id == id
    ensures id > w.marks.test
  {
    var o :| o in w.src.tests && o.state.InTest? && o.id == id;
    RowsAre(w.src);
    assert TestRow(w.src.channels, o) in TestRows(w.src);
    BetweenMembers(TestRows(w.src), 0, w.marks.test);
    assert TestRow(w.src.channels, o) !in w.testLog;
  }

  lemma HarmlessEvents(w: World, op: Op)
    requires Exact(w) && Legal(w, op) && Harmless(w, op) && !op.Fold? && !op.Reset?
    ensures forall e: Event :: e.id <= w.marks.event ==> (e in w.src.events <==> e in SourcesAfter(w, op).events)
    ensures forall e :: e in w.src.events && e.id <= w.marks.event ==> EventCredit(w.src.channels, e) == EventCredit(SourcesAfter(w, op).channels, e)
  {
    EventsStand(w, op);
    CreditsStand(w, op);
  }

  lemma EventsStand(w: World, op: Op)
    requires Exact(w) && Legal(w, op) && Harmless(w, op) && !op.Fold? && !op.Reset?
    ensures forall e: Event :: e.id <= w.marks.event ==> (e in w.src.events <==> e in SourcesAfter(w, op).events)
  {
    if op.Prune? {
      ValidByIds(w.src);
      KeptEvents(w.src.events, op.events);
    }
  }

  // Closing a segment at its own start changes nothing it counts for.
  lemma UnheardRows(src: Sources, s: Seg)
    requires SegIds(src.segs) && ClosedUnheard(src.segs, s)
    ensures SegRows(src.(segs := Put(src.segs, s))) == SegRows(src)
  {
    var later := src.(segs := Put(src.segs, s));
    var o :| o in src.segs && o.state.Abandoned? && s == o.(state := s.state);
    forall i | 0 <= i < |src.segs| ensures SegRow(later, later.segs[i]) == SegRow(src, src.segs[i]) {
      OnlyOneOf(src.segs, o, i);
      FirstThroughClosing(src.segs, src.channels, o, s, src.segs[i]);
    }
  }

  lemma OnlyOneOf(segs: seq<Seg>, o: Seg, i: nat)
    requires SegIds(segs) && o in segs && i < |segs|
    ensures segs[i].id == o.id <==> segs[i] == o
  {
    var j :| 0 <= j < |segs| && segs[j] == o;
  }

  function Swapped(x: Seg, s: Seg): Seg { if x.id == s.id then s else x }

  lemma FirstThroughClosing(segs: seq<Seg>, ch: Channels, o: Seg, s: Seg, x: Seg)
    requires SegIds(segs) && o in segs && !o.state.Closed? && s == o.(state := s.state, stalls := s.stalls)
    requires !(s.state.Closed? && s.state.excluded) && x in segs
    ensures First(Put(segs, s), ch, Swapped(x, s)) <==> First(segs, ch, x)
  {
    PutIsSwap(segs, o, s);
    assert forall t :: t in segs ==> (SameRun(ch, Swapped(x, s), Swapped(t, s)) <==> SameRun(ch, x, t)) by {
      forall t | t in segs ensures SameRun(ch, Swapped(x, s), Swapped(t, s)) <==> SameRun(ch, x, t) {
        var i :| 0 <= i < |segs| && segs[i] == t;
        var j :| 0 <= j < |segs| && segs[j] == x;
        OnlyOneOf(segs, o, i);
        OnlyOneOf(segs, o, j);
      }
    }
  }

  lemma PutIsSwap(segs: seq<Seg>, o: Seg, s: Seg)
    requires o in segs && o.id == s.id
    ensures forall t :: t in segs ==> Swapped(t, s) in Put(segs, s)
    ensures forall u :: u in Put(segs, s) ==> exists t :: t in segs && u == Swapped(t, s)
  {
    forall t | t in segs ensures Swapped(t, s) in Put(segs, s) {
      var i :| 0 <= i < |segs| && segs[i] == t;
      assert Put(segs, s)[i] == Swapped(t, s);
    }
    forall u | u in Put(segs, s) ensures exists t :: t in segs && u == Swapped(t, s) {
      var i :| 0 <= i < |segs| && Put(segs, s)[i] == u;
      assert segs[i] in segs && u == Swapped(segs[i], s);
    }
  }

  lemma UnheardIsExact(w: World, op: Op)
    requires Exact(w) && Legal(w, op) && op.SetSeg? && ClosedUnheard(w.src.segs, op.seg)
    ensures Exact(Do(w, op))
  {
    StepKeepsAccounts(w, op);
    ValidByIds(w.src);
    UnheardRows(w.src, op.seg);
    var v := Do(w, op);
    assert TestRows(v.src) == TestRows(w.src) && EventRows(v.src) == EventRows(w.src);
    if w.marks.seg != 0 {
      var s :| s in w.src.segs && s.id == w.marks.seg;
      var o :| o in w.src.segs && o.state.Abandoned? && op.seg == o.(state := op.seg.state);
      PutIsSwap(w.src.segs, o, op.seg);
      assert Swapped(s, op.seg) in v.src.segs;
    }
  }

  lemma HarmlessEditIsExact(w: World, op: Op)
    requires Exact(w) && Legal(w, op) && Harmless(w, op) && !op.Fold? && !op.Reset?
    ensures Exact(Do(w, op))
  {
    if op.SetSeg? && op.seg.id <= w.marks.seg {
      UnheardIsExact(w, op);
    } else {
      UnpassedEditIsExact(w, op);
    }
  }

  lemma UnpassedEditIsExact(w: World, op: Op)
    requires Exact(w) && Legal(w, op) && Harmless(w, op) && !op.Fold? && !op.Reset? && (op.SetSeg? ==> op.seg.id > w.marks.seg)
    ensures Exact(Do(w, op))
  {
    StepKeepsAccounts(w, op);
    HarmlessSegs(w, op);
    HarmlessTests(w, op);
    HarmlessEvents(w, op);
    var v := Do(w, op);
    SegRowsStand(w.src, v.src, w.marks.seg);
    TestRowsStand(w.src, v.src, w.marks.test);
    EventRowsStand(w.src, v.src, w.marks.event);
    if w.marks.seg != 0 {
      var s :| s in w.src.segs && s.id == w.marks.seg;
      assert s in v.src.segs;
    }
  }

  lemma {:induction false} BetweenJoins(rows: seq<Row>, mid: int, hi: int)
    requires Ascending(rows) && 0 <= mid <= hi
    ensures Between(rows, 0, hi) == Between(rows, 0, mid) + Between(rows, mid, hi)
  {
    if rows != [] {
      var front, last := rows[..|rows| - 1], rows[|rows| - 1];
      BetweenJoins(front, mid, hi);
      if last.id <= mid { NoneAbove(rows, mid, hi); }
    }
  }

  lemma FoldIsExact(w: World, op: Op)
    requires Exact(w) && Legal(w, op) && op.Fold?
    ensures Exact(Do(w, op))
  {
    StepKeepsAccounts(w, op);
    FoldMarks(w, op.limit);
    var v := Do(w, op);
    BetweenJoins(SegRows(w.src), w.marks.seg, v.marks.seg);
    BetweenJoins(TestRows(w.src), w.marks.test, v.marks.test);
    BetweenJoins(EventRows(w.src), w.marks.event, v.marks.event);
    MarkIsAnId(SegRows(w.src), w.marks.seg, op.limit);
    if v.marks.seg != w.marks.seg {
      var i :| 0 <= i < |w.src.segs| && SegRows(w.src)[i].id == v.marks.seg;
      assert w.src.segs[i] in v.src.segs;
    }
  }

  lemma ResetIsExact(w: World)
    requires Accounted(w)
    ensures Exact(Do(w, Reset))
  {
    StepKeepsAccounts(w, Reset);
    BetweenNothing(SegRows(w.src), 0);
    BetweenNothing(TestRows(w.src), 0);
    BetweenNothing(EventRows(w.src), 0);
  }

  lemma ExactIsFromScratch(w: World)
    requires Exact(w)
    ensures FromScratch(w.days, w.src, w.marks)
  {
  }

  ghost predicate HarmlessRun(ws: seq<World>, ops: seq<Op>) {
    Run(ws, ops) && forall i :: 0 <= i < |ops| ==> Harmless(ws[i], ops[i])
  }

  lemma HarmlessStepIsExact(w: World, op: Op)
    requires Exact(w) && Legal(w, op) && Harmless(w, op)
    ensures Exact(Do(w, op))
  {
    match op
    case Fold(_, _) => FoldIsExact(w, op);
    case Reset => ResetIsExact(w);
    case _ => HarmlessEditIsExact(w, op);
  }

  lemma FreshIsExact(w: World)
    requires Fresh(w)
    ensures Exact(w)
  {
    BetweenNothing(SegRows(w.src), 0);
    BetweenNothing(TestRows(w.src), 0);
    BetweenNothing(EventRows(w.src), 0);
  }

  // In every run of appends, finishes, folds and resets - with only rows and channels removed
  // that nothing was counted on - the incremental ledger is the aggregate, from scratch, of the
  // rows standing at or below the watermarks.
  lemma {:induction false} EveryHarmlessRunIsExact(ws: seq<World>, ops: seq<Op>)
    requires HarmlessRun(ws, ops)
    ensures Exact(ws[|ops|]) && FromScratch(ws[|ops|].days, ws[|ops|].src, ws[|ops|].marks)
  {
    if ops == [] {
      FreshIsExact(ws[0]);
    } else {
      var n := |ops| - 1;
      forall i | 0 <= i < n
        ensures Legal(ws[..n + 1][i], ops[..n][i]) && Harmless(ws[..n + 1][i], ops[..n][i])
        ensures ws[..n + 1][i + 1] == Do(ws[..n + 1][i], ops[..n][i])
      {
        assert Legal(ws[i], ops[i]) && Harmless(ws[i], ops[i]);
      }
      EveryHarmlessRunIsExact(ws[..n + 1], ops[..n]);
      HarmlessStepIsExact(ws[n], ops[n]);
    }
    ExactIsFromScratch(ws[|ops|]);
  }

  // ---- first-segment counting -------------------------------------------------------------------

  // One account's column over the days from `lo` up to `hi`.
  function DaySum(days: Days, account: int, column: Column, lo: int, hi: int): nat
    decreases hi - lo
  {
    if hi <= lo then 0 else DaySum(days, account, column, lo, hi - 1) + Get(days, Cell(account, hi - 1, column))
  }

  function RowSum(rows: seq<Row>, account: int, column: Column, lo: int, hi: int): nat
    decreases hi - lo
  {
    if hi <= lo then 0 else RowSum(rows, account, column, lo, hi - 1) + Total(rows, Cell(account, hi - 1, column))
  }

  lemma {:induction false} RowSumLast(rows: seq<Row>, x: Row, account: int, column: Column, lo: int, hi: int)
    ensures RowSum(rows + [x], account, column, lo, hi) == RowSum(rows, account, column, lo, hi) + DaySum(x.credit, account, column, lo, hi)
    decreases hi - lo
  {
    if lo < hi {
      RowSumLast(rows, x, account, column, lo, hi - 1);
      TotalLast(rows, x, Cell(account, hi - 1, column));
    }
  }

  lemma {:induction false} RowSumNone(account: int, column: Column, lo: int, hi: int)
    ensures RowSum([], account, column, lo, hi) == 0
    decreases hi - lo
  {
    if lo < hi { RowSumNone(account, column, lo, hi - 1); }
  }

  lemma {:induction false} CreditSum(ch: Channels, s: Seg, first: bool, account: int, lo: int, hi: int)
    requires first ==> Joined(ch, s)
    ensures DaySum(SegCredit(ch, s, first), account, Recordings, lo, hi)
      == if first && ch[s.channel] == account && lo <= s.day < hi then 1 else 0
    decreases hi - lo
  {
    if lo < hi { CreditSum(ch, s, first, account, lo, hi - 1); }
  }

  ghost function FirstRecordings(src: Sources, n: nat, mark: int, account: int, lo: int, hi: int): set<int>
    requires n <= |src.segs|
  {
    set i | 0 <= i < n && FirstPassed(src, src.segs[i], mark, account) && lo <= src.segs[i].day < hi :: src.segs[i].recording
  }

  ghost predicate FirstPassed(src: Sources, s: Seg, mark: int, account: int) {
    0 < s.id <= mark && First(src.segs, src.channels, s) && src.channels[s.channel] == account
  }

  lemma {:induction false} CountedFirsts(src: Sources, n: nat, mark: int, account: int, lo: int, hi: int)
    requires ValidSources(src) && n <= |src.segs|
    ensures RowSum(Between(SegRows(src)[..n], 0, mark), account, Recordings, lo, hi) == |FirstRecordings(src, n, mark, account, lo, hi)|
  {
    if n == 0 {
      RowSumNone(account, Recordings, lo, hi);
    } else {
      CountedFirsts(src, n - 1, mark, account, lo, hi);
      NextRow(src, n, mark, account, lo, hi);
      NextFirst(src, n, mark, account, lo, hi);
    }
  }

  ghost predicate NewFirst(src: Sources, n: nat, mark: int, account: int, lo: int, hi: int)
    requires 0 < n <= |src.segs|
  {
    FirstPassed(src, src.segs[n - 1], mark, account) && lo <= src.segs[n - 1].day < hi
  }

  lemma NextRow(src: Sources, n: nat, mark: int, account: int, lo: int, hi: int)
    requires 0 < n <= |src.segs|
    ensures var rows := SegRows(src);
      RowSum(Between(rows[..n], 0, mark), account, Recordings, lo, hi)
      == RowSum(Between(rows[..n - 1], 0, mark), account, Recordings, lo, hi) + (if NewFirst(src, n, mark, account, lo, hi) then 1 else 0)
  {
    var s, rows := src.segs[n - 1], SegRows(src);
    assert rows[..n][..n - 1] == rows[..n - 1];
    RowSumLast(Between(rows[..n - 1], 0, mark), rows[n - 1], account, Recordings, lo, hi);
    CreditSum(src.channels, s, First(src.segs, src.channels, s), account, lo, hi);
  }

  lemma NextFirst(src: Sources, n: nat, mark: int, account: int, lo: int, hi: int)
    requires ValidSources(src) && 0 < n <= |src.segs|
    ensures |FirstRecordings(src, n, mark, account, lo, hi)|
      == |FirstRecordings(src, n - 1, mark, account, lo, hi)| + (if NewFirst(src, n, mark, account, lo, hi) then 1 else 0)
  {
    var was, now := FirstRecordings(src, n - 1, mark, account, lo, hi), FirstRecordings(src, n, mark, account, lo, hi);
    if NewFirst(src, n, mark, account, lo, hi) {
      OneFirstEach(src, n, mark, account);
      assert now == was + {src.segs[n - 1].recording};
    } else {
      assert now == was;
    }
  }

  lemma OneFirstEach(src: Sources, n: nat, mark: int, account: int)
    requires ValidSources(src) && 0 < n <= |src.segs| && FirstPassed(src, src.segs[n - 1], mark, account)
    ensures forall i :: 0 <= i < n - 1 && FirstPassed(src, src.segs[i], mark, account) ==> src.segs[i].recording != src.segs[n - 1].recording
  {
    ValidByIds(src);
    forall i | 0 <= i < n - 1 && FirstPassed(src, src.segs[i], mark, account)
      ensures src.segs[i].recording != src.segs[n - 1].recording
    {
      assert src.segs[i] in src.segs && src.segs[i].id < src.segs[n - 1].id;
      assert !SameRun(src.channels, src.segs[n - 1], src.segs[i]);
    }
  }

  lemma {:induction false} DaysToRows(days: Days, rows: seq<Row>, account: int, column: Column, lo: int, hi: int)
    requires forall day :: Get(days, Cell(account, day, column)) == Total(rows, Cell(account, day, column))
    ensures DaySum(days, account, column, lo, hi) == RowSum(rows, account, column, lo, hi)
    decreases hi - lo
  {
    if lo < hi { DaysToRows(days, rows, account, column, lo, hi - 1); }
  }

  lemma OtherTablesRecordNothing(src: Sources, m: Marks, c: Cell)
    requires c.column == Recordings
    ensures Total(Between(TestRows(src), 0, m.test), c) == 0 && Total(Between(EventRows(src), 0, m.event), c) == 0
  {
    BetweenMembers(TestRows(src), 0, m.test);
    BetweenMembers(EventRows(src), 0, m.event);
    CreditsNowhere(Between(TestRows(src), 0, m.test), c);
    CreditsNowhere(Between(EventRows(src), 0, m.event), c);
  }

  lemma SegmentsRecord(w: World, account: int, day: int)
    requires DaysAreLogged(w)
    requires w.testLog == Between(TestRows(w.src), 0, w.marks.test) && w.eventLog == Between(EventRows(w.src), 0, w.marks.event)
    ensures Get(w.days, Cell(account, day, Recordings)) == Total(w.segLog, Cell(account, day, Recordings))
  {
    OtherTablesRecordNothing(w.src, w.marks, Cell(account, day, Recordings));
  }

  // The `recordings` of an account over any window: the recordings whose first joined segment on
  // the account has been passed and was started in the window.
  lemma RecordingsAreFirstSegments(w: World, account: int, lo: int, hi: int)
    requires Exact(w)
    ensures DaySum(w.days, account, Recordings, lo, hi) == |FirstRecordings(w.src, |w.src.segs|, w.marks.seg, account, lo, hi)|
  {
    forall day { SegmentsRecord(w, account, day); }
    DaysToRows(w.days, w.segLog, account, Recordings, lo, hi);
    CountedFirsts(w.src, |w.src.segs|, w.marks.seg, account, lo, hi);
    assert SegRows(w.src)[..|w.src.segs|] == SegRows(w.src);
  }

  ghost function RecordingsOn(src: Sources, mark: int, account: int): set<int> {
    set s | s in src.segs && s.id <= mark && Joined(src.channels, s) && src.channels[s.channel] == account :: s.recording
  }

  lemma {:induction false} FirstExists(src: Sources, n: nat, s: Seg) returns (f: Seg)
    requires ValidSources(src) && n <= |src.segs| && Joined(src.channels, s) && s in src.segs[..n]
    ensures f in src.segs && f.id <= s.id && SameRun(src.channels, s, f) && First(src.segs[..n], src.channels, f)
  {
    ValidByIds(src);
    var front, last := src.segs[..n - 1], src.segs[n - 1];
    assert src.segs[..n] == front + [last];
    if s in front {
      f := FirstExists(src, n - 1, s);
    } else if exists t :: t in front && SameRun(src.channels, s, t) {
      var t :| t in front && SameRun(src.channels, s, t);
      f := FirstExists(src, n - 1, t);
    } else {
      f := s;
    }
  }

  lemma FirstsAreRecordings(src: Sources, mark: int, account: int, lo: int, hi: int)
    requires ValidSources(src) && forall s :: s in src.segs ==> s.id > 0 && lo <= s.day < hi
    ensures FirstRecordings(src, |src.segs|, mark, account, lo, hi) == RecordingsOn(src, mark, account)
  {
    assert src.segs[..|src.segs|] == src.segs;
    var firsts := FirstRecordings(src, |src.segs|, mark, account, lo, hi);
    forall r | r in RecordingsOn(src, mark, account) ensures r in firsts {
      var s :| s in src.segs && s.id <= mark && Joined(src.channels, s) && src.channels[s.channel] == account && s.recording == r;
      var f := FirstExists(src, |src.segs|, s);
      var i :| 0 <= i < |src.segs| && src.segs[i] == f;
      assert FirstPassed(src, src.segs[i], mark, account);
    }
    forall r | r in firsts ensures r in RecordingsOn(src, mark, account) {
      var i :| 0 <= i < |src.segs| && FirstPassed(src, src.segs[i], mark, account) && src.segs[i].recording == r;
      assert src.segs[i] in src.segs;
    }
  }

  // Over all days, at every reachable watermark: one per recording with a passed joined segment
  // on the account, however its segments fell into chunks.
  lemma RecordingsCountedOnce(w: World, account: int, lo: int, hi: int)
    requires Exact(w) && forall s :: s in w.src.segs ==> lo <= s.day < hi
    ensures DaySum(w.days, account, Recordings, lo, hi) == |RecordingsOn(w.src, w.marks.seg, account)|
  {
    RecordingsAreFirstSegments(w, account, lo, hi);
    FirstsAreRecordings(w.src, w.marks.seg, account, lo, hi);
  }
}
