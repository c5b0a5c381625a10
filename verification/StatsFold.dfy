// One committed chunk and the whole catch-up (app/account_stats.py `_fold_chunk`, `_fold_all`,
// `pending_rows`, `_reset_for_rebuild`).
module StatsFold {
  import opened LedgerFold
  import opened StatsLedger

  datatype Marks = Marks(seg: int, test: int, event: int)

  // What moving the watermarks from `m` to `n` adds to a cell.
  ghost function Gain(src: Sources, m: Marks, n: Marks, c: Cell): nat {
    Total(Between(SegRows(src), m.seg, n.seg), c)
    + Total(Between(TestRows(src), m.test, n.test), c)
    + Total(Between(EventRows(src), m.event, n.event), c)
  }

  ghost function ChunkMarks(src: Sources, m: Marks, limit: nat): Marks {
    Marks(HeldMark(SegRows(src), m.seg, limit), HeldMark(TestRows(src), m.test, limit), EventMark(EventRows(src), m.event, limit))
  }

  ghost function ChunkMore(src: Sources, m: Marks, limit: nat): bool {
    HeldMore(SegRows(src), m.seg, limit) || HeldMore(TestRows(src), m.test, limit) || EventMore(EventRows(src), m.event, limit)
  }

  ghost function EventPending(rows: seq<Row>, wm: int): nat { |rows| - After(rows, wm) }

  ghost function Pending(src: Sources, m: Marks): nat {
    HeldPending(SegRows(src), m.seg) + HeldPending(TestRows(src), m.test) + EventPending(EventRows(src), m.event)
  }

  ghost predicate AtOrBelow(m: Marks, n: Marks) { m.seg <= n.seg && m.test <= n.test && m.event <= n.event }

  ghost predicate PassesFinished(rows: seq<Row>, lo: int, hi: int) { forall r :: r in Between(rows, lo, hi) ==> r.done }

  // A chunk moves its watermarks over finished rows only, and moves one exactly when something
  // is pending.
  lemma ChunkMoves(src: Sources, m: Marks, limit: nat)
    requires ValidSources(src) && limit > 0 && m.event >= 0
    ensures var n := ChunkMarks(src, m, limit);
      && AtOrBelow(m, n)
      && (n == m <==> Pending(src, m) == 0)
      && PassesFinished(SegRows(src), m.seg, n.seg) && PassesFinished(TestRows(src), m.test, n.test)
  {
    HeldChunkExact(SegRows(src), m.seg, limit);
    HeldChunkExact(TestRows(src), m.test, limit);
    EventMarkMoves(EventRows(src), m.event, limit);
    PendingEvents(EventRows(src), m.event);
  }

  lemma PendingEvents(rows: seq<Row>, wm: int)
    requires Ascending(rows) && wm >= 0
    ensures EventPending(rows, wm) == 0 <==> MaxId(rows) <= wm
  {
  }

  lemma {:induction false} AfterMonotone(rows: seq<Row>, lo: int, hi: int)
    requires Ascending(rows) && lo <= hi
    ensures After(rows, lo) <= After(rows, hi)
  {
    if rows != [] { AfterMonotone(rows[..|rows| - 1], lo, hi); }
  }

  lemma EventChunkProgress(rows: seq<Row>, wm: int, limit: nat)
    requires Ascending(rows) && limit > 0 && wm >= 0
    ensures var m := EventMark(rows, wm, limit);
      && EventPending(rows, m) <= EventPending(rows, wm)
      && (EventMore(rows, wm, limit) ==> EventPending(rows, m) < EventPending(rows, wm))
      && (!EventMore(rows, wm, limit) ==> EventPending(rows, m) == 0)
  {
    var m := EventMark(rows, wm, limit);
    EventMarkMoves(rows, wm, limit);
    AfterMonotone(rows, wm, m);
    PendingEvents(rows, m);
    if EventMore(rows, wm, limit) {
      var chunk := EventChunk(rows, wm, limit);
      var last := chunk[limit - 1];
      assert last in chunk;
      var i :| 0 <= i < |rows| && rows[i] == last;
      AfterAt(rows, i + 1);
      assert After(rows, wm) <= i;
    }
  }

  lemma HeldChunkProgress(rows: seq<Row>, wm: int, limit: nat)
    requires Ascending(rows) && limit > 0
    ensures var m := HeldMark(rows, wm, limit);
      && HeldPending(rows, m) <= HeldPending(rows, wm)
      && (HeldMore(rows, wm, limit) ==> HeldPending(rows, m) < HeldPending(rows, wm))
      && (!HeldMore(rows, wm, limit) ==> HeldPending(rows, m) == 0)
  {
    HeldChunkExact(rows, wm, limit);
  }

  // Each chunk that reports more leaves less pending; one that does not leaves nothing.
  lemma ChunkProgress(src: Sources, m: Marks, limit: nat)
    requires ValidSources(src) && limit > 0 && m.event >= 0
    ensures var n := ChunkMarks(src, m, limit);
      && (ChunkMore(src, m, limit) ==> Pending(src, n) < Pending(src, m))
      && (!ChunkMore(src, m, limit) ==> Pending(src, n) == 0)
  {
    HeldChunkProgress(SegRows(src), m.seg, limit);
    HeldChunkProgress(TestRows(src), m.test, limit);
    EventChunkProgress(EventRows(src), m.event, limit);
  }

  lemma GainSplits(src: Sources, m: Marks, n: Marks, o: Marks, c: Cell)
    requires AtOrBelow(m, n) && AtOrBelow(n, o)
    ensures Gain(src, m, o, c) == Gain(src, m, n, c) + Gain(src, n, o, c)
  {
    BetweenSplits(SegRows(src), m.seg, n.seg, o.seg, c);
    BetweenSplits(TestRows(src), m.test, n.test, o.test, c);
    BetweenSplits(EventRows(src), m.event, n.event, o.event, c);
  }

  lemma NothingGained(src: Sources, m: Marks)
    ensures forall c :: Gain(src, m, m, c) == 0
  {
    BetweenNothing(SegRows(src), m.seg);
    BetweenNothing(TestRows(src), m.test);
    BetweenNothing(EventRows(src), m.event);
  }

  // ---- where every way of chunking ends -------------------------------------------------------

  // The watermark with everything that can be passed passed.
  ghost function HeldFull(rows: seq<Row>, wm: int): int { HeldMark(rows, wm, HeldPending(rows, wm)) }

  ghost function FullMarks(src: Sources, m: Marks): Marks {
    Marks(HeldFull(SegRows(src), m.seg), HeldFull(TestRows(src), m.test),
          if MaxId(EventRows(src)) <= m.event then m.event else MaxId(EventRows(src)))
  }

  // The last id of the finished run from `a`, or the watermark before it.
  function FullFrom(rows: seq<Row>, a: nat, wm: int): int
    requires a <= |rows|
  {
    if RunEnd(rows, a) == a then wm else rows[RunEnd(rows, a) - 1].id
  }

  lemma HeldFullIs(rows: seq<Row>, wm: int)
    ensures HeldFull(rows, wm) == FullFrom(rows, After(rows, wm), wm)
  {
  }

  lemma FullFromLater(rows: seq<Row>, a: nat, e: nat, wm: int)
    requires a < e <= |rows| && RunEnd(rows, e) == RunEnd(rows, a)
    ensures FullFrom(rows, e, rows[e - 1].id) == FullFrom(rows, a, wm)
  {
  }

  lemma HeldFullKept(rows: seq<Row>, wm: int, limit: nat)
    requires Ascending(rows) && limit > 0
    ensures HeldFull(rows, HeldMark(rows, wm, limit)) == HeldFull(rows, wm)
  {
    var a, e := After(rows, wm), HeldEnd(rows, wm, limit);
    if e != a {
      HeldMarkAbove(rows, wm, limit);
      SameRunEnd(rows, a, e);
      FullFromLater(rows, a, e, wm);
      HeldFullIs(rows, wm);
      HeldFullIs(rows, rows[e - 1].id);
    }
  }

  lemma EventFullKept(rows: seq<Row>, wm: int, limit: nat)
    requires Ascending(rows) && limit > 0
    ensures EventMark(rows, wm, limit) <= (if MaxId(rows) <= wm then wm else MaxId(rows))
  {
    if MaxId(rows) > wm {
      var chunk := EventChunk(rows, wm, limit);
      if |chunk| == limit {
        assert chunk[limit - 1] in chunk;
        var i :| 0 <= i < |rows| && rows[i] == chunk[limit - 1];
      }
    }
  }

  ghost function ChunkedMarks(src: Sources, m: Marks, limits: seq<nat>): Marks
    decreases |limits|
  {
    if limits == [] then m else ChunkedMarks(src, ChunkMarks(src, m, limits[0]), limits[1..])
  }

  // What those chunks add to a cell.
  ghost function ChunkedGain(src: Sources, m: Marks, limits: seq<nat>, c: Cell): nat
    decreases |limits|
  {
    if limits == [] then 0
    else Gain(src, m, ChunkMarks(src, m, limits[0]), c) + ChunkedGain(src, ChunkMarks(src, m, limits[0]), limits[1..], c)
  }

  lemma FullMarksKept(src: Sources, m: Marks, limit: nat)
    requires ValidSources(src) && limit > 0 && m.event >= 0
    ensures FullMarks(src, ChunkMarks(src, m, limit)) == FullMarks(src, m)
  {
    HeldFullKept(SegRows(src), m.seg, limit);
    HeldFullKept(TestRows(src), m.test, limit);
    EventFullKept(EventRows(src), m.event, limit);
    EventMarkMoves(EventRows(src), m.event, limit);
  }

  lemma NothingPendingIsFull(src: Sources, m: Marks)
    requires ValidSources(src) && m.event >= 0
    ensures Pending(src, m) == 0 ==> FullMarks(src, m) == m
  {
    PendingEvents(EventRows(src), m.event);
  }

  // Any sequence of positive chunk limits that leaves nothing pending ends at the same
  // watermarks, having added the same amounts.
  lemma {:induction false} AnyChunkingEndsTheSame(src: Sources, m: Marks, limits: seq<nat>)
    requires ValidSources(src) && m.event >= 0
    requires forall i :: 0 <= i < |limits| ==> limits[i] > 0
    requires Pending(src, ChunkedMarks(src, m, limits)) == 0
    ensures ChunkedMarks(src, m, limits) == FullMarks(src, m)
    ensures AtOrBelow(m, FullMarks(src, m))
    ensures forall c :: ChunkedGain(src, m, limits, c) == Gain(src, m, FullMarks(src, m), c)
    decreases |limits|
  {
    if limits == [] {
      NothingPendingIsFull(src, m);
      NothingGained(src, m);
    } else {
      ChunkMoves(src, m, limits[0]);
      FullMarksKept(src, m, limits[0]);
      var n := ChunkMarks(src, m, limits[0]);
      AnyChunkingEndsTheSame(src, n, limits[1..]);
      forall c { GainSplits(src, m, n, FullMarks(src, m), c); }
    }
  }

  // ---- the stored ledger ---------------------------------------------------------------------

  // Adds each increment to its day, in the one statement that also checks its account exists.
  method Upsert(days: Days, inc: Days, accounts: set<int>) returns (out: Days)
    ensures forall c :: Get(out, c) == Get(days, c) + (if c.account in accounts then Get(inc, c) else 0)
  {
    var kept := map c | c in inc && c.account in accounts :: Get(days, c) + inc[c];
    out := days + kept;
  }

  // `now` is `was` with everything between the two watermarks credited to existing accounts.
  ghost predicate Added(was: Days, now: Days, src: Sources, accounts: set<int>, m: Marks, n: Marks) {
    forall c :: Get(now, c) == Get(was, c) + if c.account in accounts then Gain(src, m, n, c) else 0
  }

  lemma NothingAdded(days: Days, src: Sources, accounts: set<int>, m: Marks)
    ensures Added(days, days, src, accounts, m, m)
  {
    NothingGained(src, m);
  }

  lemma AddedTwice(a: Days, b: Days, c: Days, src: Sources, accounts: set<int>, m: Marks, n: Marks, o: Marks)
    requires Added(a, b, src, accounts, m, n) && Added(b, c, src, accounts, n, o)
    requires AtOrBelow(m, n) && AtOrBelow(n, o)
    ensures Added(a, c, src, accounts, m, o)
  {
    forall x { GainSplits(src, m, n, o, x); }
  }

  method CountHeld(n: nat, ids: seq<int>, running: seq<bool>, wm: int, ghost rows: seq<Row>) returns (count: nat)
    requires |ids| == |running| == |rows| == n && Ascending(rows)
    requires forall i :: 0 <= i < n ==> rows[i].id == ids[i] && rows[i].done == !running[i]
    ensures count == HeldPending(rows, wm)
  {
    var a, e := HeldRange(n, ids, running, wm, n, rows);
    count := e - a;
  }

  method CountEvents(src: Sources, wm: int) returns (count: nat)
    ensures count == EventPending(EventRows(src), wm)
  {
    var a := |src.events|;
    while a > 0 && src.events[a - 1].id > wm
      invariant a <= |src.events| && After(EventRows(src), wm) <= a
    {
      a := a - 1;
    }
    count := |src.events| - a;
  }

  class Ledger {
    var days: Days
    var marks: Marks

    constructor ()
      ensures days == map[] && marks == Marks(0, 0, 0)
    {
      days, marks := map[], Marks(0, 0, 0);
    }

    // One transaction: up to `limit` rows of each source and their watermarks, or nothing.
    method FoldChunk(src: Sources, accounts: set<int>, limit: nat) returns (passed: int, more: bool)
      requires ValidSources(src) && limit > 0 && marks.event >= 0
      modifies this
      ensures marks == ChunkMarks(src, old(marks), limit) && more == ChunkMore(src, old(marks), limit)
      ensures Added(old(days), days, src, accounts, old(marks), marks)
      ensures passed == marks.seg - old(marks).seg + marks.test - old(marks).test + marks.event - old(marks).event
      ensures passed == 0 <==> Pending(src, old(marks)) == 0
      ensures passed == 0 ==> days == old(days) && marks == old(marks)
    {
      var inc, seg, segMore := FoldSegments(src, marks.seg, limit, map[]);
      var test, testMore, event, eventMore;
      inc, test, testMore := FoldTests(src, marks.test, limit, inc);
      inc, event, eventMore := FoldEvents(src, marks.event, limit, inc);
      passed := (seg - marks.seg) + (test - marks.test) + (event - marks.event);
      more := segMore || testMore || eventMore;
      ChunkMoves(src, marks, limit);
      NothingGained(src, marks);
      if passed == 0 { return; }
      days := Upsert(days, inc, accounts);
      marks := Marks(if seg > marks.seg then seg else marks.seg, if test > marks.test then test else marks.test,
                     if event > marks.event then event else marks.event);
    }

    // Chunks until none reports more: nothing is left pending, and what was added and where the
    // watermarks end do not depend on the chunk size.
    method FoldAll(src: Sources, accounts: set<int>, limit: nat) returns (total: int)
      requires ValidSources(src) && limit > 0 && marks.event >= 0
      modifies this
      ensures marks == FullMarks(src, old(marks)) && Pending(src, marks) == 0
      ensures Added(old(days), days, src, accounts, old(marks), marks)
      ensures total == marks.seg - old(marks).seg + marks.test - old(marks).test + marks.event - old(marks).event
    {
      total := 0;
      var more := true;
      NothingAdded(days, src, accounts, marks);
      while more
        invariant AtOrBelow(old(marks), marks) && FullMarks(src, marks) == FullMarks(src, old(marks))
        invariant Added(old(days), days, src, accounts, old(marks), marks)
        invariant total == marks.seg - old(marks).seg + marks.test - old(marks).test + marks.event - old(marks).event
        invariant !more ==> Pending(src, marks) == 0
        decreases more, Pending(src, marks)
      {
        ghost var was, before := marks, days;
        FullMarksKept(src, marks, limit);
        ChunkMoves(src, marks, limit);
        ChunkProgress(src, marks, limit);
        var passed;
        passed, more := FoldChunk(src, accounts, limit);
        AddedTwice(old(days), before, days, src, accounts, old(marks), was, marks);
        total := total + passed;
      }
      NothingPendingIsFull(src, marks);
    }

    // The ledger forgotten and the watermarks back at the start.
    method Reset()
      modifies this
      ensures days == map[] && marks == Marks(0, 0, 0)
    {
      days, marks := map[], Marks(0, 0, 0);
    }

    // Zero exactly when a chunk of any size would change nothing.
    method PendingRows(src: Sources) returns (n: nat)
      requires ValidSources(src)
      ensures n == Pending(src, marks)
    {
      var segs := CountHeld(|src.segs|, seq(|src.segs|, i requires 0 <= i < |src.segs| => src.segs[i].id),
                            seq(|src.segs|, i requires 0 <= i < |src.segs| => src.segs[i].state.Running?), marks.seg, SegRows(src));
      var tests := CountHeld(|src.tests|, seq(|src.tests|, i requires 0 <= i < |src.tests| => src.tests[i].id),
                             seq(|src.tests|, i requires 0 <= i < |src.tests| => src.tests[i].state.InTest?), marks.test, TestRows(src));
      var events := CountEvents(src, marks.event);
      n := segs + tests + events;
    }
  }
}
