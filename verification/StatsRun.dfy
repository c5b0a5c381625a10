// Whole runs of the account stats ledger: rows appended, changed, pruned, channels deleted, and
// chunks folded, in any order. A crash before a chunk commits is no step.
module StatsRun {
  import opened LedgerFold
  import opened StatsLedger
  import opened StatsFold

  // Besides the tables and the ledger: the rows each watermark passed, as they were then, the
  // last ids AUTOINCREMENT gave a test and an event, and the ids of the segments appended at or
  // below their watermark.
  datatype World = World(
    src: Sources, days: Days, marks: Marks,
    segLog: seq<Row>, testLog: seq<Row>, eventLog: seq<Row>,
    lastTest: int, lastEvent: int, lost: set<int>)

  datatype Op =
    | NewSeg(recording: int, channel: int, day: int)
    | NewTest(channel: int, day: int)
    | NewEvent(channel: int, day: int, failover: bool)
    | SetSeg(seg: Seg)
    | SetTest(test: Test)
    | Prune(segs: set<int>, tests: set<int>, events: set<int>)
    | NewChannel(channel: int, account: int)
    | DropChannel(channel: int)
    | Fold(limit: nat, after: Days)
    | Reset

  function LastSeg(segs: seq<Seg>): int { if segs == [] then 0 else segs[|segs| - 1].id }

  // A new segment gets the largest id in its table plus one: the table has no AUTOINCREMENT.
  function NextSeg(segs: seq<Seg>): int { LastSeg(segs) + 1 }

  function KeepSegs(segs: seq<Seg>, gone: set<int>): seq<Seg> {
    if segs == [] then []
    else
      var front, last := KeepSegs(segs[..|segs| - 1], gone), segs[|segs| - 1];
      if last.id in gone then front else front + [last]
  }

  function KeepTests(tests: seq<Test>, gone: set<int>): seq<Test> {
    if tests == [] then []
    else
      var front, last := KeepTests(tests[..|tests| - 1], gone), tests[|tests| - 1];
      if last.id in gone then front else front + [last]
  }

  function KeepEvents(events: seq<Event>, gone: set<int>): seq<Event> {
    if events == [] then []
    else
      var front, last := KeepEvents(events[..|events| - 1], gone), events[|events| - 1];
      if last.id in gone then front else front + [last]
  }

  function Put(segs: seq<Seg>, s: Seg): seq<Seg> {
    seq(|segs|, i requires 0 <= i < |segs| => if segs[i].id == s.id then s else segs[i])
  }

  function PutTest(tests: seq<Test>, t: Test): seq<Test> {
    seq(|tests|, i requires 0 <= i < |tests| => if tests[i].id == t.id then t else tests[i])
  }

  ghost predicate Unnamed(src: Sources, channel: int) {
    && (forall s :: s in src.segs ==> s.channel != channel)
    && (forall t :: t in src.tests ==> t.channel != channel)
    && (forall e :: e in src.events ==> e.channel != channel)
  }

  // What the tables allow. A closed segment and a finished test never change again; an abandoned
  // segment may still be closed by the startup sweep.
  ghost predicate Legal(w: World, op: Op) {
    match op
    case SetSeg(s) =>
      exists o :: (o in w.src.segs && !o.state.Closed?
                   && o.id == s.id && o.recording == s.recording && o.channel == s.channel && o.day == s.day)
    case SetTest(t) =>
      exists o :: o in w.src.tests && o.state.InTest? && o.id == t.id && o.channel == t.channel && o.day == t.day
    case NewChannel(c, _) => c !in w.src.channels && Unnamed(w.src, c)
    case Fold(limit, after) =>
      limit > 0 && Added(w.days, after, w.src, w.src.channels.Values, w.marks, ChunkMarks(w.src, w.marks, limit))
    case _ => true
  }

  ghost function SourcesAfter(w: World, op: Op): Sources {
    var src := w.src;
    match op
    case NewSeg(r, c, d) => src.(segs := src.segs + [Seg(NextSeg(src.segs), r, c, d, 0, Running)])
    case NewTest(c, d) => src.(tests := src.tests + [Test(w.lastTest + 1, c, d, InTest)])
    case NewEvent(c, d, f) => src.(events := src.events + [Event(w.lastEvent + 1, c, d, f)])
    case SetSeg(s) => src.(segs := Put(src.segs, s))
    case SetTest(t) => src.(tests := PutTest(src.tests, t))
    case Prune(ss, ts, es) => src.(segs := KeepSegs(src.segs, ss), tests := KeepTests(src.tests, ts), events := KeepEvents(src.events, es))
    case NewChannel(c, a) => src.(channels := src.channels[c := a])
    case DropChannel(c) => src.(channels := src.channels - {c})
    case _ => src
  }

  ghost function Do(w: World, op: Op): World {
    match op
    case Fold(limit, after) =>
      var n := ChunkMarks(w.src, w.marks, limit);
      w.(days := after, marks := n,
         segLog := w.segLog + Between(SegRows(w.src), w.marks.seg, n.seg),
         testLog := w.testLog + Between(TestRows(w.src), w.marks.test, n.test),
         eventLog := w.eventLog + Between(EventRows(w.src), w.marks.event, n.event))
    case Reset => w.(days := map[], marks := Marks(0, 0, 0), segLog := [], testLog := [], eventLog := [], lost := {})
    case _ =>
      w.(src := SourcesAfter(w, op),
         lastTest := if op.NewTest? then w.lastTest + 1 else w.lastTest,
         lastEvent := if op.NewEvent? then w.lastEvent + 1 else w.lastEvent,
         lost := if op.NewSeg? && NextSeg(w.src.segs) <= w.marks.seg then w.lost + {NextSeg(w.src.segs)} else w.lost)
  }

  // ---- every row counted once, and what it counted for stays ----------------------------------

  ghost predicate LogBelow(log: seq<Row>, mark: int) {
    && Ascending(log)
    && forall r :: r in log ==> 0 < r.id <= mark && r.done
  }

  ghost predicate Logged(log: seq<Row>, id: int) { exists r :: r in log && r.id == id }

  ghost predicate TablesValid(w: World) {
    && ValidSources(w.src)
    && (forall s :: s in w.src.segs ==> s.id > 0)
    && (forall t :: t in w.src.tests ==> 0 < t.id <= w.lastTest)
    && (forall e :: e in w.src.events ==> 0 < e.id <= w.lastEvent)
    && 0 <= w.marks.seg && 0 <= w.marks.test <= w.lastTest && 0 <= w.marks.event <= w.lastEvent
  }

  ghost predicate DaysAreLogged(w: World) {
    forall c :: Get(w.days, c) == Total(w.segLog, c) + Total(w.testLog, c) + Total(w.eventLog, c)
  }

  // No row at or below its watermark went uncounted, but for segments appended there.
  ghost predicate NothingSkipped(w: World) {
    && (forall s :: s in w.src.segs && s.id <= w.marks.seg ==> Logged(w.segLog, s.id) || s.id in w.lost)
    && (forall t :: t in w.src.tests && t.id <= w.marks.test ==> Logged(w.testLog, t.id))
    && (forall e :: e in w.src.events && e.id <= w.marks.event ==> Logged(w.eventLog, e.id))
  }

  ghost predicate Accounted(w: World) {
    && TablesValid(w)
    && LogBelow(w.segLog, w.marks.seg) && LogBelow(w.testLog, w.marks.test) && LogBelow(w.eventLog, w.marks.event)
    && DaysAreLogged(w)
    && NothingSkipped(w)
  }

  ghost predicate Fresh(w: World) {
    && TablesValid(w)
    && w.days == map[] && w.marks == Marks(0, 0, 0) && w.segLog == [] && w.testLog == [] && w.eventLog == [] && w.lost == {}
  }

  ghost predicate Run(ws: seq<World>, ops: seq<Op>) {
    && |ws| == |ops| + 1
    && Fresh(ws[0])
    && forall i :: 0 <= i < |ops| ==> Legal(ws[i], ops[i]) && ws[i + 1] == Do(ws[i], ops[i])
  }

  // ---- the tables stay ascending --------------------------------------------------------------

  ghost predicate SegIds(segs: seq<Seg>) { forall i, j :: 0 <= i < j < |segs| ==> segs[i].id < segs[j].id }
  ghost predicate TestIds(tests: seq<Test>) { forall i, j :: 0 <= i < j < |tests| ==> tests[i].id < tests[j].id }
  ghost predicate EventIds(events: seq<Event>) { forall i, j :: 0 <= i < j < |events| ==> events[i].id < events[j].id }

  lemma ValidByIds(src: Sources)
    ensures ValidSources(src) <==> SegIds(src.segs) && TestIds(src.tests) && EventIds(src.events)
  {
    if ValidSources(src) {
      SegIdsAscend(src);
      forall i, j | 0 <= i < j < |src.tests| ensures src.tests[i].id < src.tests[j].id {
        assert TestRows(src)[i].id < TestRows(src)[j].id;
      }
      forall i, j | 0 <= i < j < |src.events| ensures src.events[i].id < src.events[j].id {
        assert EventRows(src)[i].id < EventRows(src)[j].id;
      }
    }
  }

  lemma {:induction false} KeptSegs(segs: seq<Seg>, gone: set<int>)
    requires SegIds(segs)
    ensures SegIds(KeepSegs(segs, gone)) && forall s :: s in KeepSegs(segs, gone) <==> s in segs && s.id !in gone
  {
    if segs != [] {
      var front := segs[..|segs| - 1];
      KeptSegs(front, gone);
      assert segs == front + [segs[|segs| - 1]];
      forall s | s in KeepSegs(front, gone) ensures s.id < segs[|segs| - 1].id {
        var i :| 0 <= i < |front| && front[i] == s;
      }
    }
  }

  lemma {:induction false} KeptTests(tests: seq<Test>, gone: set<int>)
    requires TestIds(tests)
    ensures TestIds(KeepTests(tests, gone)) && forall t :: t in KeepTests(tests, gone) <==> t in tests && t.id !in gone
  {
    if tests != [] {
      var front := tests[..|tests| - 1];
      KeptTests(front, gone);
      assert tests == front + [tests[|tests| - 1]];
      forall t | t in KeepTests(front, gone) ensures t.id < tests[|tests| - 1].id {
        var i :| 0 <= i < |front| && front[i] == t;
      }
    }
  }

  lemma {:induction false} KeptEvents(events: seq<Event>, gone: set<int>)
    requires EventIds(events)
    ensures EventIds(KeepEvents(events, gone)) && forall e :: e in KeepEvents(events, gone) <==> e in events && e.id !in gone
  {
    if events != [] {
      var front := events[..|events| - 1];
      KeptEvents(front, gone);
      assert events == front + [events[|events| - 1]];
      forall e | e in KeepEvents(front, gone) ensures e.id < events[|events| - 1].id {
        var i :| 0 <= i < |front| && front[i] == e;
      }
    }
  }

  lemma LastSegLargest(segs: seq<Seg>)
    requires SegIds(segs)
    ensures forall s :: s in segs ==> s.id <= LastSeg(segs)
    ensures segs != [] ==> exists s :: s in segs && s.id == LastSeg(segs)
  {
    if segs != [] { assert segs[|segs| - 1] in segs; }
  }

  // What each table holds after an operation that is not a fold.
  lemma SegsAfter(w: World, op: Op)
    requires TablesValid(w) && Legal(w, op) && !op.Fold?
    ensures SegIds(SourcesAfter(w, op).segs)
    ensures forall s :: s in SourcesAfter(w, op).segs ==>
      (op.NewSeg? && s.id == NextSeg(w.src.segs)) || s in w.src.segs || (op.SetSeg? && s == op.seg && exists o :: o in w.src.segs && o.id == s.id)
    ensures forall s :: s in SourcesAfter(w, op).segs ==> s.id > 0
  {
    ValidByIds(w.src);
    LastSegLargest(w.src.segs);
    if op.Prune? { KeptSegs(w.src.segs, op.segs); }
    if op.NewSeg? && w.src.segs != [] { assert LastSeg(w.src.segs) > 0; }
  }

  lemma TestsAfter(w: World, op: Op)
    requires TablesValid(w) && Legal(w, op) && !op.Fold?
    ensures TestIds(SourcesAfter(w, op).tests)
    ensures forall t :: t in SourcesAfter(w, op).tests ==>
      (op.NewTest? && t.id == w.lastTest + 1) || t in w.src.tests || (op.SetTest? && t == op.test && exists o :: o in w.src.tests && o.id == t.id)
  {
    ValidByIds(w.src);
    if op.Prune? { KeptTests(w.src.tests, op.tests); }
    if op.NewTest? {
      forall i | 0 <= i < |w.src.tests| ensures w.src.tests[i].id <= w.lastTest { assert w.src.tests[i] in w.src.tests; }
    }
  }

  lemma EventsAfter(w: World, op: Op)
    requires TablesValid(w) && Legal(w, op) && !op.Fold?
    ensures EventIds(SourcesAfter(w, op).events)
    ensures forall e :: e in SourcesAfter(w, op).events ==> (op.NewEvent? && e.id == w.lastEvent + 1) || e in w.src.events
  {
    ValidByIds(w.src);
    if op.Prune? { KeptEvents(w.src.events, op.events); }
    if op.NewEvent? {
      forall i | 0 <= i < |w.src.events| ensures w.src.events[i].id <= w.lastEvent { assert w.src.events[i] in w.src.events; }
    }
  }

  lemma EditKeepsTables(w: World, op: Op)
    requires TablesValid(w) && Legal(w, op) && !op.Fold?
    ensures TablesValid(Do(w, op))
  {
    SegsAfter(w, op);
    TestsAfter(w, op);
    EventsAfter(w, op);
    ValidByIds(SourcesAfter(w, op));
  }

  lemma EditSkipsNothing(w: World, op: Op)
    requires Accounted(w) && Legal(w, op) && !op.Fold? && !op.Reset?
    ensures NothingSkipped(Do(w, op))
  {
    var v := Do(w, op);
    SegsAfter(w, op);
    TestsAfter(w, op);
    EventsAfter(w, op);
    forall s | s in v.src.segs && s.id <= v.marks.seg ensures Logged(v.segLog, s.id) || s.id in v.lost {
      if s !in w.src.segs && !(op.NewSeg? && s.id == NextSeg(w.src.segs)) {
        var o :| o in w.src.segs && o.id == s.id;
      }
    }
    forall t | t in v.src.tests && t.id <= v.marks.test ensures Logged(v.testLog, t.id) {
      if t !in w.src.tests {
        var o :| o in w.src.tests && o.id == t.id;
      }
    }
  }

  // ---- a fold ---------------------------------------------------------------------------------

  lemma {:induction false} TotalConcat(xs: seq<Row>, ys: seq<Row>, c: Cell)
    ensures Total(xs + ys, c) == Total(xs, c) + Total(ys, c)
  {
    if ys == [] {
      assert xs + ys == xs;
    } else {
      var front, last := ys[..|ys| - 1], ys[|ys| - 1];
      TotalConcat(xs, front, c);
      TotalLast(xs + front, last, c);
      assert xs + ys == xs + front + [last];
    }
  }

  lemma {:induction false} BetweenAscends(rows: seq<Row>, lo: int, hi: int)
    requires Ascending(rows)
    ensures Ascending(Between(rows, lo, hi))
  {
    if rows != [] {
      BetweenAscends(rows[..|rows| - 1], lo, hi);
      BetweenMembers(rows[..|rows| - 1], lo, hi);
      forall r | r in Between(rows[..|rows| - 1], lo, hi) ensures r.id < rows[|rows| - 1].id {
        var i :| 0 <= i < |rows| - 1 && rows[i] == r;
      }
    }
  }

  lemma LogGrows(log: seq<Row>, rows: seq<Row>, lo: int, hi: int)
    requires LogBelow(log, lo) && Ascending(rows) && 0 <= lo <= hi
    requires forall r :: r in Between(rows, lo, hi) ==> r.done
    ensures LogBelow(log + Between(rows, lo, hi), hi)
    ensures forall r :: r in rows && lo < r.id <= hi ==> Logged(log + Between(rows, lo, hi), r.id)
    ensures forall id :: Logged(log, id) ==> Logged(log + Between(rows, lo, hi), id)
  {
    BetweenAscends(rows, lo, hi);
    BetweenMembers(rows, lo, hi);
    var more := Between(rows, lo, hi);
    forall i, j | 0 <= i < |log| && 0 <= j < |more| ensures log[i].id < more[j].id {
      assert log[i] in log && more[j] in more;
    }
  }

  lemma EventRowsDone(src: Sources)
    ensures forall r :: r in EventRows(src) ==> r.done
  {
  }

  lemma FoldMarks(w: World, limit: nat)
    requires TablesValid(w) && limit > 0
    ensures var n := ChunkMarks(w.src, w.marks, limit);
      && AtOrBelow(w.marks, n)
      && PassesFinished(SegRows(w.src), w.marks.seg, n.seg)
      && PassesFinished(TestRows(w.src), w.marks.test, n.test)
      && PassesFinished(EventRows(w.src), w.marks.event, n.event)
      && n.test <= w.lastTest && n.event <= w.lastEvent
  {
    var n := ChunkMarks(w.src, w.marks, limit);
    ChunkMoves(w.src, w.marks, limit);
    EventRowsDone(w.src);
    BetweenMembers(EventRows(w.src), w.marks.event, n.event);
    MarkIsAnId(TestRows(w.src), w.marks.test, limit);
    if n.test != w.marks.test {
      var i :| 0 <= i < |w.src.tests| && TestRows(w.src)[i].id == n.test;
      assert w.src.tests[i] in w.src.tests;
    }
    EventMarkIsAnId(EventRows(w.src), w.marks.event, limit);
    if n.event != w.marks.event {
      var i :| 0 <= i < |w.src.events| && EventRows(w.src)[i].id == n.event;
      assert w.src.events[i] in w.src.events;
    }
  }

  lemma MarkIsAnId(rows: seq<Row>, wm: int, limit: nat)
    ensures var m := HeldMark(rows, wm, limit); m == wm || exists i :: 0 <= i < |rows| && rows[i].id == m
  {
  }

  lemma EventMarkIsAnId(rows: seq<Row>, wm: int, limit: nat)
    requires wm >= 0
    ensures var m := EventMark(rows, wm, limit); m == wm || exists i :: 0 <= i < |rows| && rows[i].id == m
  {
    var chunk := EventChunk(rows, wm, limit);
    if MaxId(rows) > wm {
      if |chunk| == limit && chunk != [] {
        assert chunk[|chunk| - 1] in chunk;
      } else {
        assert rows[|rows| - 1].id == MaxId(rows);
      }
    }
  }

  lemma {:induction false} CreditsNowhere(rows: seq<Row>, c: Cell)
    requires forall r :: r in rows ==> Get(r.credit, c) == 0
    ensures Total(rows, c) == 0
  {
    if rows != [] {
      assert rows[|rows| - 1] in rows;
      forall r | r in rows[..|rows| - 1] ensures r in rows { }
      CreditsNowhere(rows[..|rows| - 1], c);
    }
  }

  // An account without channels gains nothing.
  lemma OnlyExistingGain(src: Sources, m: Marks, n: Marks, c: Cell)
    requires c.account !in src.channels.Values
    ensures Gain(src, m, n, c) == 0
  {
    BetweenMembers(SegRows(src), m.seg, n.seg);
    BetweenMembers(TestRows(src), m.test, n.test);
    BetweenMembers(EventRows(src), m.event, n.event);
    CreditsNowhere(Between(SegRows(src), m.seg, n.seg), c);
    CreditsNowhere(Between(TestRows(src), m.test, n.test), c);
    CreditsNowhere(Between(EventRows(src), m.event, n.event), c);
  }

  lemma FoldIsLogged(w: World, op: Op)
    requires Accounted(w) && op.Fold? && Legal(w, op)
    ensures DaysAreLogged(Do(w, op))
  {
    var v := Do(w, op);
    forall c ensures Get(v.days, c) == Total(v.segLog, c) + Total(v.testLog, c) + Total(v.eventLog, c) {
      TotalConcat(w.segLog, Between(SegRows(w.src), w.marks.seg, v.marks.seg), c);
      TotalConcat(w.testLog, Between(TestRows(w.src), w.marks.test, v.marks.test), c);
      TotalConcat(w.eventLog, Between(EventRows(w.src), w.marks.event, v.marks.event), c);
      if c.account !in w.src.channels.Values { OnlyExistingGain(w.src, w.marks, v.marks, c); }
    }
  }

  lemma FoldKeepsLogs(w: World, op: Op)
    requires Accounted(w) && op.Fold? && Legal(w, op)
    ensures TablesValid(Do(w, op)) && NothingSkipped(Do(w, op))
    ensures var v := Do(w, op); LogBelow(v.segLog, v.marks.seg) && LogBelow(v.testLog, v.marks.test) && LogBelow(v.eventLog, v.marks.event)
  {
    var v := Do(w, op);
    FoldMarks(w, op.limit);
    LogGrows(w.segLog, SegRows(w.src), w.marks.seg, v.marks.seg);
    LogGrows(w.testLog, TestRows(w.src), w.marks.test, v.marks.test);
    LogGrows(w.eventLog, EventRows(w.src), w.marks.event, v.marks.event);
    RowOfEach(w.src);
  }

  lemma RowOfEach(src: Sources)
    ensures forall s :: s in src.segs ==> SegRow(src, s) in SegRows(src)
    ensures forall t :: t in src.tests ==> exists r :: r in TestRows(src) && r.id == t.id
    ensures forall e :: e in src.events ==> exists r :: r in EventRows(src) && r.id == e.id
  {
    forall s | s in src.segs ensures SegRow(src, s) in SegRows(src) {
      var i :| 0 <= i < |src.segs| && src.segs[i] == s;
      assert SegRows(src)[i] == SegRow(src, s);
    }
    forall t | t in src.tests ensures exists r :: r in TestRows(src) && r.id == t.id {
      var i :| 0 <= i < |src.tests| && src.tests[i] == t;
      assert TestRows(src)[i].id == t.id;
    }
    forall e | e in src.events ensures exists r :: r in EventRows(src) && r.id == e.id {
      var i :| 0 <= i < |src.events| && src.events[i] == e;
      assert EventRows(src)[i].id == e.id;
    }
  }

  lemma StepKeepsAccounts(w: World, op: Op)
    requires Accounted(w) && Legal(w, op)
    ensures Accounted(Do(w, op))
  {
    if op.Fold? {
      FoldIsLogged(w, op);
      FoldKeepsLogs(w, op);
    } else {
      EditKeepsTables(w, op);
      if op.Reset? { } else { EditSkipsNothing(w, op); }
    }
  }

  // A fold reads its tables as they are at one moment here. The code reads the first unfinished id
  // and the rows below it in two statements, so "finished" is only as good as StatsRace says.
  //
  // In every run the day totals are the sum of what the passed rows counted for when they were
  // passed; each id was passed at most once, finished; and no test or event was skipped.
  lemma {:induction false} EveryRunIsAccounted(ws: seq<World>, ops: seq<Op>)
    requires Run(ws, ops)
    ensures Accounted(ws[|ops|])
  {
    if ops != [] {
      var n := |ops| - 1;
      forall i | 0 <= i < n ensures Legal(ws[..n + 1][i], ops[..n][i]) && ws[..n + 1][i + 1] == Do(ws[..n + 1][i], ops[..n][i]) {
        assert Legal(ws[i], ops[i]);
      }
      EveryRunIsAccounted(ws[..n + 1], ops[..n]);
      StepKeepsAccounts(ws[n], ops[n]);
    }
  }
}
