// What parts the ledger from a rebuild, and exactly when: deleting a channel, pruning passed rows,
// closing a passed segment late, and segment ids given twice.
module StatsParts {
  import opened Common
  import opened StatsColumns
  import opened LedgerFold
  import opened StatsLedger
  import opened StatsFold
  import opened StatsRun
  import opened StatsExact

  // ---- deleting a channel ---------------------------------------------------------------------

  // On one cell, `later` credits no more than `rows`, row by row.
  ghost predicate NoMore(rows: seq<Row>, later: seq<Row>, c: Cell) {
    && |rows| == |later|
    && forall i :: 0 <= i < |rows| ==> rows[i].id == later[i].id && Get(later[i].credit, c) <= Get(rows[i].credit, c)
  }

  lemma {:induction false} CreditsNoMore(rows: seq<Row>, later: seq<Row>, mark: int, c: Cell)
    requires NoMore(rows, later, c)
    ensures Total(Between(later, 0, mark), c) <= Total(Between(rows, 0, mark), c)
  {
    if rows != [] {
      CreditsNoMore(rows[..|rows| - 1], later[..|rows| - 1], mark, c);
      TotalLast(Between(rows[..|rows| - 1], 0, mark), rows[|rows| - 1], c);
      TotalLast(Between(later[..|rows| - 1], 0, mark), later[|rows| - 1], c);
    }
  }

  lemma {:induction false} CreditsLess(rows: seq<Row>, later: seq<Row>, mark: int, c: Cell, i: nat)
    requires NoMore(rows, later, c) && LosesAt(rows, later, mark, c, i)
    ensures Total(Between(later, 0, mark), c) < Total(Between(rows, 0, mark), c)
  {
    var n := |rows| - 1;
    if i < n { CreditsLess(rows[..n], later[..n], mark, c, i); } else { CreditsNoMore(rows[..n], later[..n], mark, c); }
    TotalLast(Between(rows[..n], 0, mark), rows[n], c);
    TotalLast(Between(later[..n], 0, mark), later[n], c);
  }

  ghost predicate LosesAt(rows: seq<Row>, later: seq<Row>, mark: int, c: Cell, i: nat) {
    i < |rows| == |later| && 0 < rows[i].id <= mark && Get(later[i].credit, c) < Get(rows[i].credit, c)
  }

  function Without(src: Sources, channel: int): Sources { src.(channels := src.channels - {channel}) }

  lemma DropCreditsNoMore(src: Sources, channel: int, c: Cell)
    requires c.column != Recordings
    ensures var later := Without(src, channel);
      && NoMore(SegRows(src), SegRows(later), c) && NoMore(TestRows(src), TestRows(later), c) && NoMore(EventRows(src), EventRows(later), c)
  {
  }

  lemma DropLoses(src: Sources, channel: int, m: Marks, c: Cell, i: nat)
    requires c.column != Recordings
    requires LosesAt(SegRows(src), SegRows(Without(src, channel)), m.seg, c, i)
      || LosesAt(TestRows(src), TestRows(Without(src, channel)), m.test, c, i)
      || LosesAt(EventRows(src), EventRows(Without(src, channel)), m.event, c, i)
    ensures Gain(Without(src, channel), Start, m, c) < Gain(src, Start, m, c)
  {
    var later := Without(src, channel);
    DropCreditsNoMore(src, channel, c);
    CreditsNoMore(SegRows(src), SegRows(later), m.seg, c);
    CreditsNoMore(TestRows(src), TestRows(later), m.test, c);
    CreditsNoMore(EventRows(src), EventRows(later), m.event, c);
    if LosesAt(SegRows(src), SegRows(later), m.seg, c, i) {
      CreditsLess(SegRows(src), SegRows(later), m.seg, c, i);
    } else if LosesAt(TestRows(src), TestRows(later), m.test, c, i) {
      CreditsLess(TestRows(src), TestRows(later), m.test, c, i);
    } else {
      CreditsLess(EventRows(src), EventRows(later), m.event, c, i);
    }
  }

  lemma DroppedSegLoses(src: Sources, channel: int, m: Marks, s: Seg) returns (c: Cell)
    requires channel in src.channels && s in src.segs && 0 < s.id <= m.seg && s.channel == channel
    ensures Gain(Without(src, channel), Start, m, c) < Gain(src, Start, m, c)
  {
    c := Cell(src.channels[channel], s.day, Segments);
    var i :| 0 <= i < |src.segs| && src.segs[i] == s;
    assert SegRows(src)[i] == SegRow(src, s) && SegRows(Without(src, channel))[i] == SegRow(Without(src, channel), s);
    DropLoses(src, channel, m, c, i);
  }

  lemma DroppedTestLoses(src: Sources, channel: int, m: Marks, t: Test) returns (c: Cell)
    requires channel in src.channels && t in src.tests && 0 < t.id <= m.test && t.channel == channel && (t.state.Passed? || t.state.Failed?)
    ensures Gain(Without(src, channel), Start, m, c) < Gain(src, Start, m, c)
  {
    c := Cell(src.channels[channel], t.day, if t.state.Passed? then ChecksPassed else ChecksFailed);
    var i :| 0 <= i < |src.tests| && src.tests[i] == t;
    assert TestRows(src)[i].credit == TestCredit(src.channels, t) && TestRows(Without(src, channel))[i].credit == map[];
    DropLoses(src, channel, m, c, i);
  }

  lemma DroppedEventLoses(src: Sources, channel: int, m: Marks, e: Event) returns (c: Cell)
    requires channel in src.channels && e in src.events && 0 < e.id <= m.event && e.channel == channel && e.failover
    ensures Gain(Without(src, channel), Start, m, c) < Gain(src, Start, m, c)
  {
    c := Cell(src.channels[channel], e.day, Failovers);
    var i :| 0 <= i < |src.events| && src.events[i] == e;
    assert EventRows(src)[i].credit == EventCredit(src.channels, e) && EventRows(Without(src, channel))[i].credit == map[];
    DropLoses(src, channel, m, c, i);
  }

  lemma CountedLosesACell(w: World, channel: int) returns (c: Cell)
    requires TablesValid(w) && Counted(w, channel)
    ensures Gain(Without(w.src, channel), Start, w.marks, c) < Gain(w.src, Start, w.marks, c)
  {
    if s :| s in w.src.segs && s.id <= w.marks.seg && s.channel == channel {
      c := DroppedSegLoses(w.src, channel, w.marks, s);
    } else if t :| t in w.src.tests && t.id <= w.marks.test && t.channel == channel && (t.state.Passed? || t.state.Failed?) {
      c := DroppedTestLoses(w.src, channel, w.marks, t);
    } else {
      var e :| e in w.src.events && e.id <= w.marks.event && e.channel == channel && e.failover;
      c := DroppedEventLoses(w.src, channel, w.marks, e);
    }
  }

  // Deleting a channel parts the ledger from a rebuild exactly when a passed row counted on it.
  lemma DropChannelPartsExactly(w: World, channel: int)
    requires Exact(w)
    ensures var v := Do(w, DropChannel(channel)); FromScratch(v.days, v.src, v.marks) <==> !Counted(w, channel)
  {
    ExactIsFromScratch(w);
    var v := Do(w, DropChannel(channel));
    if Counted(w, channel) {
      var c := CountedLosesACell(w, channel);
    } else {
      HarmlessEditIsExact(w, DropChannel(channel));
      ExactIsFromScratch(v);
    }
  }

  // Every earlier joined segment of the recording on the account was captured from this channel.
  ghost predicate EarlierOnly(segs: seq<Seg>, ch: Channels, channel: int, s: Seg) {
    forall u :: u in segs && SameRun(ch, s, u) && u.id < s.id ==> u.channel == channel
  }

  lemma StillSameRun(ch: Channels, channel: int, s: Seg, u: Seg)
    requires s.channel != channel
    ensures SameRun(ch - {channel}, s, u) <==> SameRun(ch, s, u) && u.channel != channel
  {
  }

  // After a deletion a segment of a recording already counted is its first again, once all the
  // earlier ones on the account were captured from the deleted channel.
  lemma FirstAgainAfterDrop(segs: seq<Seg>, ch: Channels, channel: int, s: Seg, t: Seg)
    requires s in segs && s.channel != channel
    requires t in segs && t.id < s.id && First(segs, ch, t) && SameRun(ch, s, t)
    ensures !First(segs, ch, s)
    ensures First(segs, ch - {channel}, s) <==> EarlierOnly(segs, ch, channel, s)
  {
    forall u | u in segs ensures SameRun(ch - {channel}, s, u) <==> SameRun(ch, s, u) && u.channel != channel { StillSameRun(ch, channel, s, u); }
  }

  // A first segment the watermark moves past adds a recording to its day.
  lemma {:induction false} PassedFirstCounts(rows: seq<Row>, lo: int, hi: int, c: Cell, i: nat)
    requires i < |rows| && lo < rows[i].id <= hi && Get(rows[i].credit, c) > 0
    ensures Total(Between(rows, lo, hi), c) > 0
  {
    var n := |rows| - 1;
    assert rows == rows[..n] + [rows[n]];
    BetweenWorth(rows[..n], rows[n], lo, hi, c);
    if i < n { PassedFirstCounts(rows[..n], lo, hi, c, i); }
  }

  lemma FirstCounts(src: Sources, lo: int, hi: int, s: Seg)
    requires s in src.segs && lo < s.id <= hi && First(src.segs, src.channels, s)
    ensures Total(Between(SegRows(src), lo, hi), Cell(src.channels[s.channel], s.day, Recordings)) > 0
  {
    var i :| 0 <= i < |src.segs| && src.segs[i] == s;
    PassedFirstCounts(SegRows(src), lo, hi, Cell(src.channels[s.channel], s.day, Recordings), i);
  }

  ghost predicate Passes(v: World, fold: Op, id: int) {
    fold.Fold? && Legal(v, fold) && v.marks.seg < id <= Do(v, fold).marks.seg
  }

  // Whatever fold comes to pass the segment adds to the cell.
  ghost predicate WillAdd(v: World, id: int, c: Cell) {
    forall fold :: Passes(v, fold, id) ==> Get(Do(v, fold).days, c) > Get(v.days, c)
  }

  lemma FoldsAddFirst(v: World, s: Seg)
    requires s in v.src.segs && First(v.src.segs, v.src.channels, s)
    ensures WillAdd(v, s.id, Cell(v.src.channels[s.channel], s.day, Recordings))
  {
    forall fold | Passes(v, fold, s.id)
      ensures Get(Do(v, fold).days, Cell(v.src.channels[s.channel], s.day, Recordings)) > Get(v.days, Cell(v.src.channels[s.channel], s.day, Recordings))
    {
      FirstCounts(v.src, v.marks.seg, Do(v, fold).marks.seg, s);
    }
  }

  // The recording of a passed first segment is in the days.
  lemma CountedIsHeld(w: World, t: Seg)
    requires Exact(w) && t in w.src.segs && t.id <= w.marks.seg && First(w.src.segs, w.src.channels, t)
    ensures Get(w.days, Cell(w.src.channels[t.channel], t.day, Recordings)) > 0
  {
    FirstCounts(w.src, 0, w.marks.seg, t);
  }

  lemma WillCountAgain(v: World, ch: Channels, channel: int, s: Seg, t: Seg)
    requires v.src.channels == ch - {channel} && s in v.src.segs && s.channel != channel
    requires t in v.src.segs && t.id < s.id && First(v.src.segs, ch, t) && SameRun(ch, s, t) && EarlierOnly(v.src.segs, ch, channel, s)
    ensures WillAdd(v, s.id, Cell(ch[s.channel], s.day, Recordings))
  {
    FirstAgainAfterDrop(v.src.segs, ch, channel, s, t);
    FoldsAddFirst(v, s);
  }

  // So the fold that passes it adds a recording, which the days hold already.
  lemma RecountedAfterDrop(w: World, channel: int, s: Seg, t: Seg)
    requires s in w.src.segs && s.channel != channel && t in w.src.segs && t.id < s.id
    requires First(w.src.segs, w.src.channels, t) && SameRun(w.src.channels, s, t) && EarlierOnly(w.src.segs, w.src.channels, channel, s)
    ensures WillAdd(Do(w, DropChannel(channel)), s.id, Cell(w.src.channels[s.channel], s.day, Recordings))
  {
    WillCountAgain(Do(w, DropChannel(channel)), w.src.channels, channel, s, t);
  }

  // ---- closing a passed segment ------------------------------------------------------------------

  function Captured(s: Seg): nat { if s.state.Closed? && !s.state.excluded then NonNegative(s.state.length) else 0 }

  lemma NextWorth(rows: seq<Row>, n: nat, lo: int, mark: int, c: Cell)
    requires n < |rows|
    ensures Total(Between(rows[..n + 1], lo, mark), c)
      == Total(Between(rows[..n], lo, mark), c) + if lo < rows[n].id <= mark then Get(rows[n].credit, c) else 0
  {
    assert rows[..n + 1] == rows[..n] + [rows[n]];
    BetweenWorth(rows[..n], rows[n], lo, mark, c);
  }

  // Tables alike but for what the row at `i` credits - or alike altogether, when `i` lies beyond.
  ghost predicate AlikeBut(rows: seq<Row>, later: seq<Row>, c: Cell, i: nat) {
    |later| == |rows| && forall j :: 0 <= j < |rows| ==> later[j].id == rows[j].id && (j != i ==> Get(later[j].credit, c) == Get(rows[j].credit, c))
  }

  function CreditAt(rows: seq<Row>, i: nat, n: nat, c: Cell): nat
    requires n <= |rows|
  {
    if i < n then Get(rows[i].credit, c) else 0
  }

  // They differ in total by just that.
  lemma {:induction false} OneRowChanged(rows: seq<Row>, later: seq<Row>, mark: int, c: Cell, i: nat, n: nat)
    requires AlikeBut(rows, later, c, i) && n <= |rows| && (i < |rows| ==> 0 < rows[i].id <= mark)
    ensures Total(Between(later[..n], 0, mark), c) + CreditAt(rows, i, n, c) == Total(Between(rows[..n], 0, mark), c) + CreditAt(later, i, n, c)
  {
    if n > 0 {
      OneRowChanged(rows, later, mark, c, i, n - 1);
      NextWorth(rows, n - 1, 0, mark, c);
      NextWorth(later, n - 1, 0, mark, c);
    }
  }

  lemma SameCredits(rows: seq<Row>, later: seq<Row>, mark: int, c: Cell)
    requires AlikeBut(rows, later, c, |rows|)
    ensures Total(Between(later, 0, mark), c) == Total(Between(rows, 0, mark), c)
  {
    assert rows[..|rows|] == rows && later[..|rows|] == later;
    OneRowChanged(rows, later, mark, c, |rows|, |rows|);
  }

  ghost predicate Closes(segs: seq<Seg>, o: Seg, s: Seg) {
    SegIds(segs) && o in segs && !o.state.Closed? && s == o.(state := s.state, stalls := s.stalls) && !(s.state.Closed? && s.state.excluded)
  }

  lemma ClosedRows(src: Sources, o: Seg, s: Seg, i: nat)
    requires Closes(src.segs, o, s) && i < |src.segs|
    ensures var later := src.(segs := Put(src.segs, s));
      SegRows(later)[i].id == SegRows(src)[i].id
      && SegRows(later)[i].credit == SegCredit(src.channels, Swapped(src.segs[i], s), First(src.segs, src.channels, src.segs[i]))
  {
    FirstThroughClosing(src.segs, src.channels, o, s, src.segs[i]);
  }

  lemma ClosingGain(w: World, o: Seg, s: Seg, c: Cell)
    requires Closes(w.src.segs, o, s) && 0 < s.id <= w.marks.seg
    ensures var src, ch := w.src, w.src.channels; var first := First(src.segs, ch, o);
      Gain(Do(w, SetSeg(s)).src, Start, w.marks, c) + Get(SegCredit(ch, o, first), c) == Gain(src, Start, w.marks, c) + Get(SegCredit(ch, s, first), c)
  {
    var later := Do(w, SetSeg(s)).src;
    var i :| 0 <= i < |w.src.segs| && w.src.segs[i] == o;
    forall j | 0 <= j < |w.src.segs|
      ensures SegRows(later)[j].id == SegRows(w.src)[j].id && (j != i ==> SegRows(later)[j].credit == SegRows(w.src)[j].credit)
    {
      ClosedRows(w.src, o, s, j);
      OnlyOneOf(w.src.segs, o, j);
    }
    ClosedRows(w.src, o, s, i);
    assert SegRows(w.src)[..|w.src.segs|] == SegRows(w.src) && SegRows(later)[..|w.src.segs|] == SegRows(later);
    OneRowChanged(SegRows(w.src), SegRows(later), w.marks.seg, c, i, |w.src.segs|);
    assert TestRows(later) == TestRows(w.src) && EventRows(later) == EventRows(w.src);
  }

  lemma CreditsAgree(ch: Channels, o: Seg, s: Seg, first: bool)
    requires !o.state.Closed? && s == o.(state := s.state, stalls := s.stalls) && !(s.state.Closed? && s.state.excluded)
    ensures (forall c :: Get(SegCredit(ch, o, first), c) == Get(SegCredit(ch, s, first), c))
      <==> (s.channel in ch ==> s.stalls == o.stalls && Captured(s) == 0)
  {
    if s.channel in ch {
      var stalls, capture := Cell(ch[s.channel], s.day, Stalls), Cell(ch[s.channel], s.day, Capture);
      assert Get(SegCredit(ch, o, first), stalls) == o.stalls && Get(SegCredit(ch, s, first), stalls) == s.stalls;
      assert Get(SegCredit(ch, o, first), capture) == 0 && Get(SegCredit(ch, s, first), capture) == Captured(s);
    }
  }

  // Writing to a segment already passed - it had been left open over an hour - parts the ledger
  // from a rebuild unless its channel is gone, or it adds no stall and closes with no capture, as
  // the startup sweep closes it.
  lemma ClosingPartsExactly(w: World, o: Seg, s: Seg)
    requires Exact(w) && Closes(w.src.segs, o, s) && s.id <= w.marks.seg
    ensures var v := Do(w, SetSeg(s));
      FromScratch(v.days, v.src, v.marks) <==> (s.channel in w.src.channels ==> s.stalls == o.stalls && Captured(s) == 0)
  {
    ExactIsFromScratch(w);
    forall c { ClosingGain(w, o, s, c); }
    PartsByCredits(w, o, s, First(w.src.segs, w.src.channels, o));
    CreditsAgree(w.src.channels, o, s, First(w.src.segs, w.src.channels, o));
  }

  lemma PartsByCredits(w: World, o: Seg, s: Seg, first: bool)
    requires FromScratch(w.days, w.src, w.marks)
    requires forall c :: (Gain(Do(w, SetSeg(s)).src, Start, w.marks, c) + Get(SegCredit(w.src.channels, o, first), c)
                          == Gain(w.src, Start, w.marks, c) + Get(SegCredit(w.src.channels, s, first), c))
    ensures var v := Do(w, SetSeg(s));
      FromScratch(v.days, v.src, v.marks)
      <==> (forall c :: Get(SegCredit(w.src.channels, o, first), c) == Get(SegCredit(w.src.channels, s, first), c))
  {
    var v := Do(w, SetSeg(s));
    if FromScratch(v.days, v.src, v.marks) {
      forall c ensures Get(SegCredit(w.src.channels, o, first), c) == Get(SegCredit(w.src.channels, s, first), c) {
        assert Get(v.days, c) == Gain(v.src, Start, v.marks, c);
      }
    }
  }

  // ---- pruning ---------------------------------------------------------------------------------

  // The rows whose id is in `ids`, or those whose is not.
  function Only(rows: seq<Row>, ids: set<int>, gone: bool): seq<Row> {
    if rows == [] then []
    else
      var front, last := Only(rows[..|rows| - 1], ids, gone), rows[|rows| - 1];
      if (last.id in ids) == gone then front + [last] else front
  }

  lemma {:induction false} OnlyMembers(rows: seq<Row>, ids: set<int>, gone: bool)
    requires Ascending(rows)
    ensures Ascending(Only(rows, ids, gone)) && forall r :: r in Only(rows, ids, gone) <==> r in rows && (r.id in ids) == gone
  {
    if rows != [] {
      var front := rows[..|rows| - 1];
      OnlyMembers(front, ids, gone);
      assert rows == front + [rows[|rows| - 1]];
      forall r | r in Only(front, ids, gone) ensures r.id < rows[|rows| - 1].id {
        var i :| 0 <= i < |front| && front[i] == r;
      }
    }
  }

  lemma OnlyLast(front: seq<Row>, last: Row, ids: set<int>, gone: bool)
    ensures Only(front + [last], ids, gone) == if (last.id in ids) == gone then Only(front, ids, gone) + [last] else Only(front, ids, gone)
  {
    assert (front + [last])[..|front|] == front;
  }

  // What is kept and what goes add up.
  lemma {:induction false} KeptAndGone(rows: seq<Row>, ids: set<int>, mark: int, c: Cell)
    ensures Total(Between(Only(rows, ids, false), 0, mark), c) + Total(Between(Only(rows, ids, true), 0, mark), c)
      == Total(Between(rows, 0, mark), c)
  {
    if rows != [] {
      var front, last := rows[..|rows| - 1], rows[|rows| - 1];
      assert rows == front + [last];
      KeptAndGone(front, ids, mark, c);
      OnlyLast(front, last, ids, false);
      OnlyLast(front, last, ids, true);
      BetweenWorth(front, last, 0, mark, c);
      BetweenWorth(Only(front, ids, false), last, 0, mark, c);
      BetweenWorth(Only(front, ids, true), last, 0, mark, c);
    }
  }

  // A segment's row without what it counts of recordings: that alone reads other segments.
  function PlainRow(ch: Channels, s: Seg): Row { Row(s.id, !s.state.Running?, true, SegCredit(ch, s, false)) }

  function PlainRows(segs: seq<Seg>, ch: Channels): seq<Row> {
    seq(|segs|, i requires 0 <= i < |segs| => PlainRow(ch, segs[i]))
  }

  lemma PlainWorth(src: Sources, mark: int, c: Cell)
    requires c.column != Recordings
    ensures Total(Between(SegRows(src), 0, mark), c) == Total(Between(PlainRows(src.segs, src.channels), 0, mark), c)
  {
    SameCredits(SegRows(src), PlainRows(src.segs, src.channels), mark, c);
  }

  function Pruned(src: Sources, op: Op): Sources
    requires op.Prune?
  {
    src.(segs := KeepSegs(src.segs, op.segs), tests := KeepTests(src.tests, op.tests), events := KeepEvents(src.events, op.events))
  }

  lemma {:induction false} KeptPlainRows(segs: seq<Seg>, ch: Channels, ids: set<int>)
    ensures PlainRows(KeepSegs(segs, ids), ch) == Only(PlainRows(segs, ch), ids, false)
  {
    if segs != [] {
      var front, last := segs[..|segs| - 1], segs[|segs| - 1];
      KeptPlainRows(front, ch, ids);
      assert PlainRows(segs, ch) == PlainRows(front, ch) + [PlainRow(ch, last)];
      OnlyLast(PlainRows(front, ch), PlainRow(ch, last), ids, false);
      assert PlainRows(KeepSegs(front, ids) + [last], ch) == PlainRows(KeepSegs(front, ids), ch) + [PlainRow(ch, last)];
    }
  }

  lemma KeptRowsAre(src: Sources, op: Op)
    requires ValidSources(src) && op.Prune?
    ensures TestRows(Pruned(src, op)) == Only(TestRows(src), op.tests, false)
    ensures EventRows(Pruned(src, op)) == Only(EventRows(src), op.events, false)
  {
    ValidByIds(src);
    KeptSegs(src.segs, op.segs);
    KeptTests(src.tests, op.tests);
    KeptEvents(src.events, op.events);
    ValidByIds(Pruned(src, op));
    RowsAre(src);
    RowsAre(Pruned(src, op));
    OnlyMembers(TestRows(src), op.tests, false);
    OnlyMembers(EventRows(src), op.events, false);
    RisingUnique((r: Row) => r.id, TestRows(Pruned(src, op)), Only(TestRows(src), op.tests, false));
    RisingUnique((r: Row) => r.id, EventRows(Pruned(src, op)), Only(EventRows(src), op.events, false));
  }

  // What the rows a prune takes add up to, recordings aside.
  ghost function GoneGain(src: Sources, op: Op, m: Marks, c: Cell): nat
    requires op.Prune?
  {
    Total(Between(Only(PlainRows(src.segs, src.channels), op.segs, true), 0, m.seg), c)
    + Total(Between(Only(TestRows(src), op.tests, true), 0, m.test), c)
    + Total(Between(Only(EventRows(src), op.events, true), 0, m.event), c)
  }

  lemma PrunedGain(src: Sources, op: Op, m: Marks, c: Cell)
    requires ValidSources(src) && op.Prune? && c.column != Recordings
    ensures Gain(Pruned(src, op), Start, m, c) + GoneGain(src, op, m, c) == Gain(src, Start, m, c)
  {
    KeptRowsAre(src, op);
    KeptPlainRows(src.segs, src.channels, op.segs);
    PlainWorth(src, m.seg, c);
    PlainWorth(Pruned(src, op), m.seg, c);
    KeptAndGone(PlainRows(src.segs, src.channels), op.segs, m.seg, c);
    KeptAndGone(TestRows(src), op.tests, m.test, c);
    KeptAndGone(EventRows(src), op.events, m.event, c);
  }

  // A passed row that counted for something goes.
  ghost predicate TakesCounted(w: World, op: Op)
    requires op.Prune?
  {
    || (exists s :: s in w.src.segs && s.id in op.segs && s.id <= w.marks.seg && s.channel in w.src.channels)
    || (exists t :: t in w.src.tests && t.id in op.tests && t.id <= w.marks.test && t.channel in w.src.channels && (t.state.Passed? || t.state.Failed?))
    || (exists e :: e in w.src.events && e.id in op.events && e.id <= w.marks.event && e.channel in w.src.channels && e.failover)
  }

  lemma RowCounts(rows: seq<Row>, ids: set<int>, mark: int, c: Cell, r: Row)
    requires Ascending(rows) && r in rows && r.id in ids && 0 < r.id <= mark && Get(r.credit, c) > 0
    ensures Total(Between(Only(rows, ids, true), 0, mark), c) > 0
  {
    OnlyMembers(rows, ids, true);
    var gone := Only(rows, ids, true);
    assert r in gone;
    var i :| 0 <= i < |gone| && gone[i] == r;
    PassedFirstCounts(gone, 0, mark, c, i);
  }

  lemma PlainAscends(src: Sources)
    requires ValidSources(src)
    ensures Ascending(PlainRows(src.segs, src.channels))
    ensures forall r :: r in PlainRows(src.segs, src.channels) <==> exists s :: s in src.segs && r == PlainRow(src.channels, s)
  {
    ValidByIds(src);
    var rows := PlainRows(src.segs, src.channels);
    forall s | s in src.segs ensures PlainRow(src.channels, s) in rows {
      var i :| 0 <= i < |src.segs| && src.segs[i] == s;
      assert rows[i] == PlainRow(src.channels, s);
    }
    forall r | r in rows ensures exists s :: s in src.segs && r == PlainRow(src.channels, s) {
      var i :| 0 <= i < |rows| && rows[i] == r;
      assert src.segs[i] in src.segs;
    }
  }

  lemma CountedIsMissed(w: World, op: Op) returns (c: Cell)
    requires TablesValid(w) && op.Prune? && TakesCounted(w, op)
    ensures c.column != Recordings && GoneGain(w.src, op, w.marks, c) > 0
  {
    var ch := w.src.channels;
    RowsAre(w.src);
    PlainAscends(w.src);
    if s :| s in w.src.segs && s.id in op.segs && s.id <= w.marks.seg && s.channel in ch {
      c := Cell(ch[s.channel], s.day, Segments);
      RowCounts(PlainRows(w.src.segs, ch), op.segs, w.marks.seg, c, PlainRow(ch, s));
    } else if t :| t in w.src.tests && t.id in op.tests && t.id <= w.marks.test && t.channel in ch && (t.state.Passed? || t.state.Failed?) {
      c := Cell(ch[t.channel], t.day, if t.state.Passed? then ChecksPassed else ChecksFailed);
      RowCounts(TestRows(w.src), op.tests, w.marks.test, c, TestRow(ch, t));
    } else {
      var e :| e in w.src.events && e.id in op.events && e.id <= w.marks.event && e.channel in ch && e.failover;
      c := Cell(ch[e.channel], e.day, Failovers);
      RowCounts(EventRows(w.src), op.events, w.marks.event, c, EventRow(ch, e));
    }
  }

  lemma GoneCountsNowhere(rows: seq<Row>, ids: set<int>, mark: int, c: Cell)
    requires Ascending(rows) && forall r :: r in rows && r.id in ids && 0 < r.id <= mark ==> Get(r.credit, c) == 0
    ensures Total(Between(Only(rows, ids, false), 0, mark), c) == Total(Between(rows, 0, mark), c)
  {
    KeptAndGone(rows, ids, mark, c);
    OnlyMembers(rows, ids, true);
    BetweenMembers(Only(rows, ids, true), 0, mark);
    CreditsNowhere(Between(Only(rows, ids, true), 0, mark), c);
  }

  // With nothing counted taken, a kept passed segment is a first as it was.
  lemma FirstStaysKept(w: World, op: Op, s: Seg)
    requires TablesValid(w) && op.Prune? && !TakesCounted(w, op) && s in w.src.segs && s.id !in op.segs && s.id <= w.marks.seg
    ensures First(Pruned(w.src, op).segs, w.src.channels, s) <==> First(w.src.segs, w.src.channels, s)
  {
    ValidByIds(w.src);
    KeptSegs(w.src.segs, op.segs);
  }

  lemma KeptSegRow(w: World, op: Op, s: Seg)
    requires TablesValid(w) && op.Prune? && !TakesCounted(w, op) && s in w.src.segs && s.id !in op.segs && s.id <= w.marks.seg
    ensures SegRow(Pruned(w.src, op), s) == SegRow(w.src, s)
  {
    FirstStaysKept(w, op, s);
  }

  lemma PrunedAscends(src: Sources, op: Op)
    requires ValidSources(src) && op.Prune?
    ensures ValidSources(Pruned(src, op))
    ensures forall s :: s in Pruned(src, op).segs <==> s in src.segs && s.id !in op.segs
  {
    ValidByIds(src);
    KeptSegs(src.segs, op.segs);
    KeptTests(src.tests, op.tests);
    KeptEvents(src.events, op.events);
    ValidByIds(Pruned(src, op));
  }

  lemma SegRowsAre(src: Sources)
    ensures forall r :: r in SegRows(src) <==> exists s :: s in src.segs && r == SegRow(src, s)
  {
    RowOfEach(src);
    forall r | r in SegRows(src) ensures exists s :: s in src.segs && r == SegRow(src, s) {
      var i :| 0 <= i < |src.segs| && SegRows(src)[i] == r;
      assert src.segs[i] in src.segs;
    }
  }

  lemma KeptSegRows(w: World, op: Op)
    requires TablesValid(w) && op.Prune? && !TakesCounted(w, op)
    ensures Between(SegRows(Pruned(w.src, op)), 0, w.marks.seg) == Between(Only(SegRows(w.src), op.segs, false), 0, w.marks.seg)
  {
    var src, later := w.src, Pruned(w.src, op);
    PrunedAscends(src, op);
    OnlyMembers(SegRows(src), op.segs, false);
    SegRowsAre(src);
    SegRowsAre(later);
    forall s | s in src.segs && s.id !in op.segs && s.id <= w.marks.seg ensures SegRow(later, s) == SegRow(src, s) { KeptSegRow(w, op, s); }
    SamePassed(SegRows(later), Only(SegRows(src), op.segs, false), w.marks.seg);
  }

  lemma UncountedGone(w: World, op: Op, c: Cell)
    requires TablesValid(w) && op.Prune? && !TakesCounted(w, op)
    ensures forall r :: r in SegRows(w.src) && r.id in op.segs && r.id <= w.marks.seg ==> Get(r.credit, c) == 0
    ensures forall r :: r in TestRows(w.src) && r.id in op.tests && r.id <= w.marks.test ==> Get(r.credit, c) == 0
    ensures forall r :: r in EventRows(w.src) && r.id in op.events && r.id <= w.marks.event ==> Get(r.credit, c) == 0
  {
    RowsAreMade(w.src);
    forall r | r in SegRows(w.src) && r.id in op.segs && r.id <= w.marks.seg ensures Get(r.credit, c) == 0 {
      var i :| 0 <= i < |w.src.segs| && SegRows(w.src)[i] == r;
      assert w.src.segs[i] in w.src.segs;
    }
  }

  lemma UncountedPruneKeeps(w: World, op: Op, c: Cell)
    requires TablesValid(w) && op.Prune? && !TakesCounted(w, op)
    ensures Gain(Pruned(w.src, op), Start, w.marks, c) == Gain(w.src, Start, w.marks, c)
  {
    UncountedGone(w, op, c);
    KeptSegRows(w, op);
    KeptRowsAre(w.src, op);
    GoneCountsNowhere(SegRows(w.src), op.segs, w.marks.seg, c);
    GoneCountsNowhere(TestRows(w.src), op.tests, w.marks.test, c);
    GoneCountsNowhere(EventRows(w.src), op.events, w.marks.event, c);
  }

  // Pruning parts the ledger from a rebuild exactly when it takes a passed row that counted.
  lemma PrunePartsExactly(w: World, op: Op)
    requires Exact(w) && op.Prune?
    ensures var v := Do(w, op); FromScratch(v.days, v.src, v.marks) <==> !TakesCounted(w, op)
  {
    ExactIsFromScratch(w);
    var v := Do(w, op);
    assert v.src == Pruned(w.src, op);
    if TakesCounted(w, op) {
      var c := CountedIsMissed(w, op);
      PrunedGain(w.src, op, w.marks, c);
      assert Get(v.days, c) == Gain(w.src, Start, w.marks, c);
    } else {
      forall c ensures Get(v.days, c) == Gain(v.src, Start, v.marks, c) { UncountedPruneKeeps(w, op, c); }
    }
  }

  // ---- segment ids given twice ------------------------------------------------------------------

  // After rows are pruned, the next segment is lost exactly when none is left at or above a
  // watermark that has moved.
  lemma NextSegmentIsLost(w: World, gone: set<int>)
    requires Accounted(w)
    ensures NextSeg(KeepSegs(w.src.segs, gone)) <= w.marks.seg <==>
      w.marks.seg > 0 && forall s :: s in w.src.segs && s.id >= w.marks.seg ==> s.id in gone
  {
    ValidByIds(w.src);
    KeptSegs(w.src.segs, gone);
    LastSegLargest(KeepSegs(w.src.segs, gone));
  }

  // ---- runs that come to each ----------------------------------------------------------------

  lemma RunExtends(ws: seq<World>, ops: seq<Op>, op: Op)
    requires Run(ws, ops) && Legal(ws[|ops|], op)
    ensures var v := Do(ws[|ops|], op); Run(ws + [v], ops + [op]) && (ws + [v])[|ops + [op]|] == v
  {
    var vs, more := ws + [Do(ws[|ops|], op)], ops + [op];
    forall i | 0 <= i < |more| ensures Legal(vs[i], more[i]) && vs[i + 1] == Do(vs[i], more[i]) {
      if i < |ops| { assert Legal(ws[i], ops[i]); }
    }
  }

  lemma HarmlessRunExtends(ws: seq<World>, ops: seq<Op>, op: Op)
    requires HarmlessRun(ws, ops) && Legal(ws[|ops|], op) && Harmless(ws[|ops|], op)
    ensures var v := Do(ws[|ops|], op); HarmlessRun(ws + [v], ops + [op]) && (ws + [v])[|ops + [op]|] == v
  {
    RunExtends(ws, ops, op);
    var vs, more := ws + [Do(ws[|ops|], op)], ops + [op];
    forall i | 0 <= i < |more| ensures Harmless(vs[i], more[i]) {
      if i < |ops| { assert Harmless(ws[i], ops[i]); }
    }
  }

  function Plus(a: Days, b: Days): Days { map c | c in a.Keys + b.Keys :: Get(a, c) + Get(b, c) }

  // One finished segment after those already passed, and nothing else pending.
  ghost predicate OnePending(w: World, s: Seg) {
    && ValidSources(w.src) && w.src.segs != [] && w.src.segs[|w.src.segs| - 1] == s && !s.state.Running?
    && (forall t :: t in w.src.segs && t != s ==> t.id <= w.marks.seg) && w.marks.seg < s.id
    && w.src.tests == [] && w.src.events == [] && w.marks.test == 0 && w.marks.event == 0
  }

  lemma LastRowMark(rows: seq<Row>, n: nat, wm: int)
    requires Ascending(rows) && |rows| == n + 1 && rows[n].done && wm < rows[n].id && (n > 0 ==> rows[n - 1].id <= wm)
    ensures After(rows, wm) == n && HeldEnd(rows, wm, 9) == n + 1 && HeldMark(rows, wm, 9) == rows[n].id
  {
    assert RunEnd(rows, n) == RunEnd(rows, n + 1);
  }

  lemma LastRowBetween(rows: seq<Row>, n: nat, wm: int)
    requires Ascending(rows) && |rows| == n + 1
    requires After(rows, wm) == n && HeldEnd(rows, wm, 9) == n + 1 && HeldMark(rows, wm, 9) == rows[n].id
    ensures Between(rows, wm, rows[n].id) == [rows[n]]
  {
    HeldChunkExact(rows, wm, 9);
    assert rows[n..n + 1] == [rows[n]];
  }

  lemma OnePendingMark(w: World, s: Seg)
    requires OnePending(w, s)
    ensures HeldMark(SegRows(w.src), w.marks.seg, 9) == s.id
    ensures Between(SegRows(w.src), w.marks.seg, s.id) == [SegRow(w.src, s)]
  {
    var n := |w.src.segs| - 1;
    SegIdsAscend(w.src);
    if n > 0 { assert w.src.segs[n - 1] in w.src.segs; }
    LastRowMark(SegRows(w.src), n, w.marks.seg);
    LastRowBetween(SegRows(w.src), n, w.marks.seg);
  }

  // The fold of that segment: what it leaves of the days.
  function FoldOf(w: World, credit: Days): Op { Fold(9, Plus(w.days, credit)) }

  lemma FoldsOne(w: World, s: Seg, credit: Days)
    requires OnePending(w, s) && credit == SegRow(w.src, s).credit && Joined(w.src.channels, s)
    ensures Legal(w, FoldOf(w, credit))
    ensures Do(w, FoldOf(w, credit)).marks == Marks(s.id, 0, 0)
  {
    OnePendingMark(w, s);
    assert ChunkMarks(w.src, w.marks, 9) == Marks(s.id, 0, 0);
    assert TestRows(w.src) == [] && EventRows(w.src) == [];
    forall c ensures Gain(w.src, w.marks, Marks(s.id, 0, 0), c) == Get(credit, c) { OneRow(SegRow(w.src, s), c); }
    assert w.src.channels[s.channel] in w.src.channels.Values;
  }

  lemma OneRow(r: Row, c: Cell)
    ensures Total([r], c) == Get(r.credit, c)
  {
    assert [r] == [] + [r];
    TotalLast([], r, c);
  }

  const TwoChannels: Channels := map[7 := 3, 8 := 3]

  function Take(id: int, channel: int, state: SegState): Seg { Seg(id, 1, channel, 0, 0, state) }

  // A recording's one segment, captured from channel 7 and counted.
  ghost predicate CapturedOnce(w: World, state: SegState) {
    && w.src == Sources([Take(1, 7, state)], [], [], TwoChannels) && w.marks == Marks(1, 0, 0)
    && w.lost == {} && w.lastTest == 0 && w.lastEvent == 0 && w.days == Plus(map[], SegCredit(TwoChannels, Take(1, 7, state), true))
  }

  lemma OnlySegIsFirst(src: Sources, s: Seg)
    requires src.segs == [s] && Joined(src.channels, s)
    ensures First(src.segs, src.channels, s) && SegRow(src, s).credit == SegCredit(src.channels, s, true)
    ensures src.tests == [] && src.events == [] ==> ValidSources(src)
  {
  }

  ghost predicate Opened(w: World, s: Seg) {
    && w.src == Sources([s], [], [], TwoChannels) && w.marks == Marks(0, 0, 0) && w.days == map[]
    && w.lost == {} && w.lastTest == 0 && w.lastEvent == 0
  }

  lemma RunToOpened() returns (ws: seq<World>, ops: seq<Op>)
    ensures HarmlessRun(ws, ops) && Opened(ws[|ops|], Take(1, 7, Running))
  {
    var w0 := World(Sources([], [], [], TwoChannels), map[], Marks(0, 0, 0), [], [], [], 0, 0, {});
    ws, ops := [w0], [];
    HarmlessRunExtends(ws, ops, NewSeg(1, 7, 0));
    ws, ops := ws + [Do(w0, NewSeg(1, 7, 0))], ops + [NewSeg(1, 7, 0)];
  }

  lemma RunToEnded(state: SegState) returns (ws: seq<World>, ops: seq<Op>)
    ensures HarmlessRun(ws, ops) && Opened(ws[|ops|], Take(1, 7, state))
  {
    ws, ops := RunToOpened();
    var w, s := ws[|ops|], Take(1, 7, state);
    assert Take(1, 7, Running) in w.src.segs;
    HarmlessRunExtends(ws, ops, SetSeg(s));
    assert Put(w.src.segs, s) == [s];
    ws, ops := ws + [Do(w, SetSeg(s))], ops + [SetSeg(s)];
  }

  lemma OpenedIsPending(w: World, s: Seg)
    requires Opened(w, s) && s.id == 1 && !s.state.Running? && Joined(TwoChannels, s)
    ensures OnePending(w, s) && SegRow(w.src, s).credit == SegCredit(TwoChannels, s, true)
  {
    OnlySegIsFirst(w.src, s);
  }

  lemma RunToCaptured(state: SegState) returns (ws: seq<World>, ops: seq<Op>)
    requires !state.Running? && !(state.Closed? && state.excluded)
    ensures HarmlessRun(ws, ops) && CapturedOnce(ws[|ops|], state)
  {
    ws, ops := RunToEnded(state);
    var w, s := ws[|ops|], Take(1, 7, state);
    var credit := SegCredit(TwoChannels, s, true);
    OpenedIsPending(w, s);
    FoldsOne(w, s, credit);
    HarmlessRunExtends(ws, ops, FoldOf(w, credit));
    ws, ops := ws + [Do(w, FoldOf(w, credit))], ops + [FoldOf(w, credit)];
  }

  // Deleting that segment's channel, pruning it, or - left open when it was passed - closing it
  // with a length, each part the ledger from a rebuild.
  lemma EachCanPart() returns (ws: seq<World>, ops: seq<Op>, open: seq<World>, more: seq<Op>)
    ensures HarmlessRun(ws, ops) && HarmlessRun(open, more)
    ensures var v := Do(ws[|ops|], DropChannel(7)); !FromScratch(v.days, v.src, v.marks)
    ensures var v := Do(ws[|ops|], Prune({1}, {}, {})); !FromScratch(v.days, v.src, v.marks)
    ensures var v := Do(open[|more|], SetSeg(Take(1, 7, Closed(5, false)))); !FromScratch(v.days, v.src, v.marks)
  {
    ws, ops := RunToCaptured(Closed(5, false));
    EveryHarmlessRunIsExact(ws, ops);
    assert Take(1, 7, Closed(5, false)) in ws[|ops|].src.segs;
    DropChannelPartsExactly(ws[|ops|], 7);
    PrunePartsExactly(ws[|ops|], Prune({1}, {}, {}));
    open, more := RunToCaptured(Abandoned);
    EveryHarmlessRunIsExact(open, more);
    assert Take(1, 7, Abandoned) in open[|more|].src.segs;
    ClosingPartsExactly(open[|more|], Take(1, 7, Abandoned), Take(1, 7, Closed(5, false)));
  }

  // A run whose next segment is lost: the only segment is counted and pruned, and the next one
  // takes its id.
  lemma NextSegmentCanBeLost() returns (ws: seq<World>, ops: seq<Op>)
    ensures Run(ws, ops) && ws[|ops|].lost == {1} && ws[|ops|].src.segs == [Take(1, 7, Running)]
  {
    ws, ops := RunToCaptured(Closed(5, false));
    var w := ws[|ops|];
    RunExtends(ws, ops, Prune({1}, {}, {}));
    ws, ops := ws + [Do(w, Prune({1}, {}, {}))], ops + [Prune({1}, {}, {})];
    var v := ws[|ops|];
    assert KeepSegs([Take(1, 7, Closed(5, false))], {1}) == [];
    RunExtends(ws, ops, NewSeg(1, 7, 0));
    ws, ops := ws + [Do(v, NewSeg(1, 7, 0))], ops + [NewSeg(1, 7, 0)];
  }

  lemma RunToSecond() returns (ws: seq<World>, ops: seq<Op>)
    ensures Run(ws, ops) && SecondTaken(ws[|ops|], Take(2, 8, Running))
  {
    ws, ops := RunToDropped();
    var v := ws[|ops|];
    RunExtends(ws, ops, NewSeg(1, 8, 0));
    ws, ops := ws + [Do(v, NewSeg(1, 8, 0))], ops + [NewSeg(1, 8, 0)];
  }

  lemma RunToSecondEnded() returns (ws: seq<World>, ops: seq<Op>)
    ensures Run(ws, ops) && SecondTaken(ws[|ops|], Take(2, 8, Closed(5, false)))
  {
    ws, ops := RunToSecond();
    var w, s := ws[|ops|], Take(2, 8, Closed(5, false));
    assert w.src.segs[1] in w.src.segs;
    RunExtends(ws, ops, SetSeg(s));
    assert Put(w.src.segs, s) == [Take(1, 7, Closed(5, false)), s];
    ws, ops := ws + [Do(w, SetSeg(s))], ops + [SetSeg(s)];
  }

  // A run that counts one recording twice: its channel is deleted, and it goes on from another of
  // the same account.
  lemma RecordingCanCountTwice() returns (ws: seq<World>, ops: seq<Op>)
    ensures Run(ws, ops) && Get(ws[|ops|].days, Cell(3, 0, Recordings)) == 2
    ensures forall s :: s in ws[|ops|].src.segs ==> s.recording == 1
  {
    ws, ops := RunToSecondEnded();
    var w, s := ws[|ops|], Take(2, 8, Closed(5, false));
    var fold := SecondFolds(w, s);
    RunExtends(ws, ops, fold);
    ws, ops := ws + [Do(w, fold)], ops + [fold];
  }

  lemma SecondFolds(w: World, s: Seg) returns (fold: Op)
    requires SecondTaken(w, s) && s == Take(2, 8, Closed(5, false))
    ensures Legal(w, fold) && Get(Do(w, fold).days, Cell(3, 0, Recordings)) == 2
    ensures forall s :: s in Do(w, fold).src.segs ==> s.recording == 1
  {
    var credit := SegCredit(map[8 := 3], s, true);
    SecondIsFirst(w, s);
    FoldsOne(w, s, credit);
    fold := FoldOf(w, credit);
    PlusAdds(w.days, credit, Cell(3, 0, Recordings));
  }

  lemma PlusAdds(a: Days, b: Days, c: Cell)
    ensures Get(Plus(a, b), c) == Get(a, c) + Get(b, c)
  {
  }

  ghost predicate SecondTaken(v: World, s: Seg) {
    && v.src == Sources([Take(1, 7, Closed(5, false)), s], [], [], map[8 := 3]) && v.marks == Marks(1, 0, 0)
    && Get(v.days, Cell(3, 0, Recordings)) == 1
  }

  lemma RunToDropped() returns (ws: seq<World>, ops: seq<Op>)
    ensures Run(ws, ops) && var v := ws[|ops|];
      && v.src == Sources([Take(1, 7, Closed(5, false))], [], [], map[8 := 3]) && v.marks == Marks(1, 0, 0)
      && Get(v.days, Cell(3, 0, Recordings)) == 1
  {
    ws, ops := RunToCaptured(Closed(5, false));
    var w := ws[|ops|];
    assert TwoChannels - {7} == map[8 := 3];
    RunExtends(ws, ops, DropChannel(7));
    ws, ops := ws + [Do(w, DropChannel(7))], ops + [DropChannel(7)];
  }

  lemma SecondIsFirst(x: World, s: Seg)
    requires SecondTaken(x, s) && s == Take(2, 8, Closed(5, false))
    ensures OnePending(x, s) && SegRow(x.src, s).credit == SegCredit(map[8 := 3], s, true)
  {
    assert s in x.src.segs;
  }
}
