// The fold over the three source tables (app/account_stats.py `_fold_segments`, `_fold_tests`,
// `_fold_events`, `_fold_chunk`, `_fold_all`, `pending_rows`).
module StatsLedger {
  import opened Common
  import opened StatsColumns
  import opened LedgerFold

  // Abandoned: left open by a recording that ended over an hour ago, so nothing will close it.
  datatype SegState = Running | Abandoned | Closed(length: int, excluded: bool)
  datatype Seg = Seg(id: int, recording: int, channel: int, day: int, stalls: nat, state: SegState)

  datatype TestState = InTest | Passed | Failed | Cancelled
  datatype Test = Test(id: int, channel: int, day: int, state: TestState)

  datatype Event = Event(id: int, channel: int, day: int, failover: bool)

  // Each existing channel's account; a deleted channel has none.
  type Channels = map<int, int>

  datatype Sources = Sources(segs: seq<Seg>, tests: seq<Test>, events: seq<Event>, channels: Channels)

  predicate Joined(ch: Channels, s: Seg) { s.channel in ch && !(s.state.Closed? && s.state.excluded) }

  predicate SameRun(ch: Channels, s: Seg, t: Seg) {
    Joined(ch, s) && Joined(ch, t) && s.recording == t.recording && ch[s.channel] == ch[t.channel]
  }

  // The first joined segment of its recording on its account.
  ghost predicate First(segs: seq<Seg>, ch: Channels, s: Seg) {
    Joined(ch, s) && forall t :: t in segs && SameRun(ch, s, t) ==> s.id <= t.id
  }

  function NonNegative(n: int): nat { if n < 0 then 0 else n }

  function SegCredit(ch: Channels, s: Seg, first: bool): map<Cell, nat> {
    if s.channel !in ch then map[]
    else
      var a := ch[s.channel];
      map[Cell(a, s.day, Segments) := 1, Cell(a, s.day, Stalls) := s.stalls,
          Cell(a, s.day, Capture) := if s.state.Closed? && !s.state.excluded then NonNegative(s.state.length) else 0,
          Cell(a, s.day, Recordings) := if first then 1 else 0]
  }

  function TestCredit(ch: Channels, t: Test): map<Cell, nat> {
    if t.channel !in ch then map[]
    else match t.state
      case Passed => map[Cell(ch[t.channel], t.day, ChecksPassed) := 1]
      case Failed => map[Cell(ch[t.channel], t.day, ChecksFailed) := 1]
      case _ => map[]
  }

  function EventCredit(ch: Channels, e: Event): map<Cell, nat> {
    if e.failover && e.channel in ch then map[Cell(ch[e.channel], e.day, Failovers) := 1] else map[]
  }

  ghost function SegRow(src: Sources, s: Seg): Row {
    Row(s.id, !s.state.Running?, true, SegCredit(src.channels, s, First(src.segs, src.channels, s)))
  }

  ghost function SegRows(src: Sources): (r: seq<Row>)
    ensures |r| == |src.segs| && forall i :: 0 <= i < |r| ==> r[i] == SegRow(src, src.segs[i])
  {
    seq(|src.segs|, i requires 0 <= i < |src.segs| => SegRow(src, src.segs[i]))
  }

  ghost function TestRows(src: Sources): (r: seq<Row>)
    ensures |r| == |src.tests|
    ensures forall i :: 0 <= i < |r| ==>
      r[i] == Row(src.tests[i].id, !src.tests[i].state.InTest?, true, TestCredit(src.channels, src.tests[i]))
  {
    seq(|src.tests|, i requires 0 <= i < |src.tests| =>
      Row(src.tests[i].id, !src.tests[i].state.InTest?, true, TestCredit(src.channels, src.tests[i])))
  }

  ghost function EventRows(src: Sources): (r: seq<Row>)
    ensures |r| == |src.events|
    ensures forall i :: 0 <= i < |r| ==>
      r[i] == Row(src.events[i].id, true, src.events[i].failover, EventCredit(src.channels, src.events[i]))
    ensures OnlySelectedCount(r)
  {
    seq(|src.events|, i requires 0 <= i < |src.events| =>
      Row(src.events[i].id, true, src.events[i].failover, EventCredit(src.channels, src.events[i])))
  }

  ghost predicate ValidSources(src: Sources) {
    Ascending(SegRows(src)) && Ascending(TestRows(src)) && Ascending(EventRows(src))
  }

  // ---- adding into a dict of days ------------------------------------------------------------

  function Bump(days: Days, c: Cell, n: nat): (r: Days)
    ensures forall x :: Get(r, x) == Get(days, x) + (if x == c then n else 0)
  {
    days[c := Get(days, c) + n]
  }

  method CreditSegment(inc: Days, ch: Channels, s: Seg, first: bool) returns (out: Days)
    ensures forall c :: Get(out, c) == Get(inc, c) + Get(SegCredit(ch, s, first), c)
  {
    if s.channel !in ch { return inc; }
    var a := ch[s.channel];
    out := Bump(inc, Cell(a, s.day, Segments), 1);
    out := Bump(out, Cell(a, s.day, Stalls), s.stalls);
    if !(s.state.Closed? && s.state.excluded) && s.state.Closed? {
      out := Bump(out, Cell(a, s.day, Capture), NonNegative(s.state.length));
    }
    if first { out := Bump(out, Cell(a, s.day, Recordings), 1); }
  }

  // The lowest joined id per (recording, account) over the whole table.
  method FirstIds(segs: seq<Seg>, ch: Channels) returns (firsts: set<int>)
    requires forall i, j :: 0 <= i < j < |segs| ==> segs[i].id < segs[j].id
    ensures forall s :: s in segs ==> (s.id in firsts <==> First(segs, ch, s))
  {
    var low: map<(int, int), int> := map[];
    for n := 0 to |segs|
      invariant LowestIds(segs[..n], ch, low)
    {
      if Joined(ch, segs[n]) && (segs[n].recording, ch[segs[n].channel]) !in low {
        low := low[(segs[n].recording, ch[segs[n].channel]) := segs[n].id];
      }
      assert segs[..n + 1] == segs[..n] + [segs[n]];
    }
    assert segs[..|segs|] == segs;
    firsts := set k | k in low :: low[k];
    forall s | s in segs ensures s.id in firsts <==> First(segs, ch, s) {
      FirstIsLowest(segs, ch, low, s);
    }
  }

  lemma FirstIsLowest(segs: seq<Seg>, ch: Channels, low: map<(int, int), int>, s: Seg)
    requires forall i, j :: 0 <= i < j < |segs| ==> segs[i].id < segs[j].id
    requires LowestIds(segs, ch, low) && s in segs
    ensures (exists k :: k in low && low[k] == s.id) <==> First(segs, ch, s)
  {
    if k :| k in low && low[k] == s.id {
      var t :| t in segs && Joined(ch, t) && k == (t.recording, ch[t.channel]) && t.id == low[k];
      SameId(segs, s, t);
      forall u | u in segs && SameRun(ch, s, u) ensures s.id <= u.id {
        assert low[(u.recording, ch[u.channel])] <= u.id;
      }
    }
    if First(segs, ch, s) {
      var k := (s.recording, ch[s.channel]);
      var t :| t in segs && Joined(ch, t) && k == (t.recording, ch[t.channel]) && t.id == low[k];
      assert SameRun(ch, s, t);
      assert low[k] == s.id;
    }
  }

  lemma SameId(segs: seq<Seg>, s: Seg, t: Seg)
    requires forall i, j :: 0 <= i < j < |segs| ==> segs[i].id < segs[j].id
    requires s in segs && t in segs && s.id == t.id
    ensures s == t
  {
    var i :| 0 <= i < |segs| && segs[i] == s;
    var j :| 0 <= j < |segs| && segs[j] == t;
  }

  ghost predicate LowestIds(segs: seq<Seg>, ch: Channels, low: map<(int, int), int>) {
    && (forall k :: k in low ==>
          exists t :: t in segs && Joined(ch, t) && k == (t.recording, ch[t.channel]) && t.id == low[k])
    && (forall t :: t in segs && Joined(ch, t) ==>
          (t.recording, ch[t.channel]) in low && low[(t.recording, ch[t.channel])] <= t.id)
  }

  // ---- one chunk of each source --------------------------------------------------------------

  // A table's rows past the watermark up to the first one still running, `limit` of them at most.
  method HeldRange(n: nat, ids: seq<int>, running: seq<bool>, wm: int, limit: nat, ghost rows: seq<Row>)
    returns (a: nat, e: nat)
    requires |ids| == |running| == |rows| == n && Ascending(rows)
    requires forall i :: 0 <= i < n ==> rows[i].id == ids[i] && rows[i].done == !running[i]
    ensures a == After(rows, wm) && e == HeldEnd(rows, wm, limit)
  {
    a := n;
    while a > 0 && ids[a - 1] > wm
      invariant a <= n && After(rows, wm) <= a
    {
      a := a - 1;
    }
    assert a == After(rows, wm);
    e := a;
    while e < n && e - a < limit && !running[e]
      invariant a <= e <= n && e - a <= limit && RunEnd(rows, e) == RunEnd(rows, a)
    {
      e := e + 1;
    }
  }

  method CreditSegments(src: Sources, firsts: set<int>, a: nat, e: nat, inc: Days) returns (out: Days)
    requires a <= e <= |src.segs|
    requires forall s :: s in src.segs ==> (s.id in firsts <==> First(src.segs, src.channels, s))
    ensures forall c :: Get(out, c) == Get(inc, c) + Total(SegRows(src)[a..e], c)
  {
    ghost var rows := SegRows(src);
    out := inc;
    for n := a to e
      invariant forall c :: Get(out, c) == Get(inc, c) + Total(rows[a..n], c)
    {
      assert src.segs[n] in src.segs && rows[n].credit == SegCredit(src.channels, src.segs[n], First(src.segs, src.channels, src.segs[n]));
      out := CreditSegment(out, src.channels, src.segs[n], src.segs[n].id in firsts);
      SliceTotal(rows, a, n);
    }
  }

  lemma HeldSlice(rows: seq<Row>, wm: int, limit: nat)
    requires Ascending(rows) && limit > 0
    ensures Between(rows, wm, HeldMark(rows, wm, limit)) == rows[After(rows, wm)..HeldEnd(rows, wm, limit)]
  {
    HeldChunkExact(rows, wm, limit);
  }

  method FoldSegments(src: Sources, wm: int, limit: nat, inc: Days) returns (out: Days, mark: int, more: bool)
    requires ValidSources(src) && limit > 0
    ensures mark == HeldMark(SegRows(src), wm, limit) && more == HeldMore(SegRows(src), wm, limit)
    ensures forall c :: Get(out, c) == Get(inc, c) + Total(Between(SegRows(src), wm, mark), c)
  {
    SegIdsAscend(src);
    var a, e := HeldRange(|src.segs|, seq(|src.segs|, i requires 0 <= i < |src.segs| => src.segs[i].id),
                          seq(|src.segs|, i requires 0 <= i < |src.segs| => src.segs[i].state.Running?), wm, limit, SegRows(src));
    HeldSlice(SegRows(src), wm, limit);
    if a == e { return inc, wm, false; }
    var firsts := FirstIds(src.segs, src.channels);
    out := CreditSegments(src, firsts, a, e, inc);
    mark, more := src.segs[e - 1].id, e - a == limit;
  }

  lemma SegIdsAscend(src: Sources)
    requires ValidSources(src)
    ensures forall i, j :: 0 <= i < j < |src.segs| ==> src.segs[i].id < src.segs[j].id
  {
    forall i, j | 0 <= i < j < |src.segs| ensures src.segs[i].id < src.segs[j].id {
      assert SegRows(src)[i].id < SegRows(src)[j].id;
    }
  }

  lemma SliceTotal(rows: seq<Row>, a: nat, n: nat)
    requires a <= n < |rows|
    ensures forall c :: Total(rows[a..n + 1], c) == Total(rows[a..n], c) + Get(rows[n].credit, c)
  {
    assert rows[a..n + 1] == rows[a..n] + [rows[n]];
    forall c { TotalLast(rows[a..n], rows[n], c); }
  }

  method CreditTests(src: Sources, a: nat, e: nat, inc: Days) returns (out: Days)
    requires a <= e <= |src.tests|
    ensures forall c :: Get(out, c) == Get(inc, c) + Total(TestRows(src)[a..e], c)
  {
    ghost var rows := TestRows(src);
    out := inc;
    for n := a to e
      invariant forall c :: Get(out, c) == Get(inc, c) + Total(rows[a..n], c)
    {
      var t := src.tests[n];
      if t.channel in src.channels {
        if t.state == Passed {
          out := Bump(out, Cell(src.channels[t.channel], t.day, ChecksPassed), 1);
        } else if t.state == Failed {
          out := Bump(out, Cell(src.channels[t.channel], t.day, ChecksFailed), 1);
        }
      }
      SliceTotal(rows, a, n);
    }
  }

  method FoldTests(src: Sources, wm: int, limit: nat, inc: Days) returns (out: Days, mark: int, more: bool)
    requires ValidSources(src) && limit > 0
    ensures mark == HeldMark(TestRows(src), wm, limit) && more == HeldMore(TestRows(src), wm, limit)
    ensures forall c :: Get(out, c) == Get(inc, c) + Total(Between(TestRows(src), wm, mark), c)
  {
    var a, e := HeldRange(|src.tests|, seq(|src.tests|, i requires 0 <= i < |src.tests| => src.tests[i].id),
                          seq(|src.tests|, i requires 0 <= i < |src.tests| => src.tests[i].state.InTest?), wm, limit, TestRows(src));
    HeldChunkExact(TestRows(src), wm, limit);
    if a == e { return inc, wm, false; }
    out := CreditTests(src, a, e, inc);
    mark, more := src.tests[e - 1].id, e - a == limit;
  }

  // The failovers above the watermark, the first `limit` of them.
  method ReadFailovers(src: Sources, wm: int, limit: nat) returns (read: seq<nat>)
    ensures |read| == |EventChunk(EventRows(src), wm, limit)|
    ensures forall i :: 0 <= i < |read| ==> read[i] < |src.events| && EventRows(src)[read[i]] == EventChunk(EventRows(src), wm, limit)[i]
  {
    ghost var rows := EventRows(src);
    read := [];
    for n := 0 to |src.events|
      invariant |read| == |EventChunk(rows[..n], wm, limit)|
      invariant forall i :: 0 <= i < |read| ==> read[i] < n && rows[read[i]] == EventChunk(rows[..n], wm, limit)[i]
    {
      assert rows[..n + 1][..n] == rows[..n];
      if src.events[n].id > wm && src.events[n].failover && |read| < limit { read := read + [n]; }
    }
    assert rows[..|rows|] == rows;
  }

  method CreditEvents(src: Sources, read: seq<nat>, inc: Days, ghost chunk: seq<Row>) returns (out: Days)
    requires |read| == |chunk| && forall i :: 0 <= i < |read| ==> read[i] < |src.events| && EventRows(src)[read[i]] == chunk[i]
    requires forall i :: 0 <= i < |read| ==> src.events[read[i]].failover
    ensures forall c :: Get(out, c) == Get(inc, c) + Total(chunk, c)
  {
    out := inc;
    for n := 0 to |read|
      invariant forall c :: Get(out, c) == Get(inc, c) + Total(chunk[0..n], c)
    {
      var e := src.events[read[n]];
      if e.channel in src.channels { out := Bump(out, Cell(src.channels[e.channel], e.day, Failovers), 1); }
      SliceTotal(chunk, 0, n);
    }
    assert chunk[0..|chunk|] == chunk;
  }

  lemma {:induction false} ChunkSelected(rows: seq<Row>, wm: int, limit: nat)
    ensures forall r :: r in EventChunk(rows, wm, limit) ==> r.selected
  {
    if rows != [] { ChunkSelected(rows[..|rows| - 1], wm, limit); }
  }

  method FoldEvents(src: Sources, wm: int, limit: nat, inc: Days) returns (out: Days, mark: int, more: bool)
    requires ValidSources(src) && limit > 0
    ensures mark == EventMark(EventRows(src), wm, limit) && more == EventMore(EventRows(src), wm, limit)
    ensures forall c :: Get(out, c) == Get(inc, c) + Total(Between(EventRows(src), wm, mark), c)
  {
    ghost var rows := EventRows(src);
    // The ceiling is read first, then the failovers up to it.
    var ceiling := if src.events == [] then 0 else src.events[|src.events| - 1].id;
    if ceiling <= wm {
      BetweenNothing(rows, wm);
      return inc, wm, false;
    }
    var read := ReadFailovers(src, wm, limit);
    ghost var chunk := EventChunk(rows, wm, limit);
    ChunkSelected(rows, wm, limit);
    forall i | 0 <= i < |read| ensures src.events[read[i]].failover { assert chunk[i] in chunk; }
    out := CreditEvents(src, read, inc, chunk);
    forall c { EventChunkExact(rows, wm, limit, c); }
    if |read| == limit { return out, src.events[read[limit - 1]].id, true; }
    return out, ceiling, false;
  }
}
