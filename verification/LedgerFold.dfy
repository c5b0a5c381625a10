// A day of the account stats ledger holds one number per column.
module StatsColumns {
  datatype Column = Capture | Segments | Recordings | Stalls | ChecksPassed | ChecksFailed | Failovers
}

// The account stats ledger (app/account_stats.py): source rows are added to day totals once,
// in id order, behind three watermarks that stop at the first row still running.
module LedgerFold {
  import opened Common
  import opened StatsColumns

  datatype Cell = Cell(account: int, day: int, column: Column)
  type Days = map<Cell, nat>

  function Get(days: Days, c: Cell): nat { if c in days then days[c] else 0 }

  // A source row as the fold sees it: is it finished, does its source's query select it, and the
  // cells passing it adds to (none when its channel is gone, or when it counts nowhere).
  datatype Row = Row(id: int, done: bool, selected: bool, credit: map<Cell, nat>)

  ghost predicate Ascending(rows: seq<Row>) {
    forall i, j :: 0 <= i < j < |rows| ==> rows[i].id < rows[j].id
  }

  // What a run of rows adds to one cell.
  function Total(rows: seq<Row>, c: Cell): nat {
    if rows == [] then 0 else Total(rows[..|rows| - 1], c) + Get(rows[|rows| - 1].credit, c)
  }

  // The rows a watermark moving from `lo` to `hi` passes.
  function Between(rows: seq<Row>, lo: int, hi: int): seq<Row> {
    if rows == [] then []
    else
      var front, last := Between(rows[..|rows| - 1], lo, hi), rows[|rows| - 1];
      if lo < last.id <= hi then front + [last] else front
  }

  lemma {:induction false} BetweenMembers(rows: seq<Row>, lo: int, hi: int)
    ensures forall r :: r in Between(rows, lo, hi) <==> r in rows && lo < r.id <= hi
  {
    if rows != [] {
      BetweenMembers(rows[..|rows| - 1], lo, hi);
      assert rows == rows[..|rows| - 1] + [rows[|rows| - 1]];
    }
  }

  lemma TotalLast(xs: seq<Row>, x: Row, c: Cell)
    ensures Total(xs + [x], c) == Total(xs, c) + Get(x.credit, c)
  {
    assert (xs + [x])[..|xs|] == xs;
  }

  // Passing rows in two moves adds what passing them in one does.
  lemma {:induction false} BetweenSplits(rows: seq<Row>, lo: int, mid: int, hi: int, c: Cell)
    requires lo <= mid <= hi
    ensures Total(Between(rows, lo, hi), c) == Total(Between(rows, lo, mid), c) + Total(Between(rows, mid, hi), c)
  {
    if rows != [] {
      var front, last := rows[..|rows| - 1], rows[|rows| - 1];
      BetweenSplits(front, lo, mid, hi, c);
      TotalLast(Between(front, lo, hi), last, c);
      TotalLast(Between(front, lo, mid), last, c);
      TotalLast(Between(front, mid, hi), last, c);
    }
  }

  lemma {:induction false} BetweenNothing(rows: seq<Row>, wm: int)
    ensures Between(rows, wm, wm) == []
  {
    if rows != [] { BetweenNothing(rows[..|rows| - 1], wm); }
  }

  // ---- where one chunk stops -----------------------------------------------------------------

  // How many rows of an ascending table the watermark has passed.
  function After(rows: seq<Row>, wm: int): (a: nat)
    ensures a <= |rows|
    ensures forall i :: a <= i < |rows| ==> rows[i].id > wm
    ensures a > 0 ==> rows[a - 1].id <= wm
  {
    if rows == [] then 0
    else if rows[|rows| - 1].id <= wm then |rows|
    else After(rows[..|rows| - 1], wm)
  }

  lemma AfterAt(rows: seq<Row>, n: nat)
    requires Ascending(rows) && 0 < n <= |rows|
    ensures After(rows, rows[n - 1].id) == n
  {
  }

  lemma FrontBelow(rows: seq<Row>, mark: int)
    requires Ascending(rows) && rows != [] && rows[|rows| - 1].id <= mark
    ensures After(rows[..|rows| - 1], mark) == |rows| - 1
  {
    var front := rows[..|rows| - 1];
    if front != [] { assert front[|front| - 1].id < rows[|rows| - 1].id; }
  }

  lemma {:induction false} NoneAbove(rows: seq<Row>, lo: int, hi: int)
    requires Ascending(rows) && MaxId(rows) <= lo
    ensures Between(rows, lo, hi) == []
  {
    if rows != [] {
      var front := rows[..|rows| - 1];
      if front != [] {
        assert MaxId(front) < rows[|rows| - 1].id;
        NoneAbove(front, lo, hi);
      }
    }
  }

  lemma SliceGrows(front: seq<Row>, last: Row, a: nat, b: nat)
    requires a <= b <= |front|
    ensures (front + [last])[a..b] == front[a..b] && (front + [last])[a..|front| + 1] == front[a..|front|] + [last]
  {
  }

  ghost predicate SideBySide(rows: seq<Row>, lo: int, hi: int) {
    After(rows, lo) <= After(rows, hi) && Between(rows, lo, hi) == rows[After(rows, lo)..After(rows, hi)]
  }

  lemma SliceStep(front: seq<Row>, last: Row, lo: int, hi: int)
    requires Ascending(front + [last]) && lo < last.id && lo <= hi && SideBySide(front, lo, hi)
    ensures SideBySide(front + [last], lo, hi)
  {
    var rows := front + [last];
    assert rows[..|front|] == front;
    assert rows[|rows| - 1] == last;
    if last.id <= hi { FrontBelow(rows, hi); }
    SliceGrows(front, last, After(front, lo), After(front, hi));
  }

  // In an ascending table the rows a watermark passes lie side by side.
  lemma {:induction false} BetweenIsSlice(rows: seq<Row>, lo: int, hi: int)
    requires Ascending(rows) && lo <= hi
    ensures SideBySide(rows, lo, hi)
  {
    if rows != [] {
      var front, last := rows[..|rows| - 1], rows[|rows| - 1];
      if last.id <= lo {
        NoneAbove(rows, lo, hi);
      } else {
        assert rows == front + [last];
        BetweenIsSlice(front, lo, hi);
        SliceStep(front, last, lo, hi);
      }
    }
  }

  // The end of the finished run that starts at `a`: the row there is the first still running.
  function RunEnd(rows: seq<Row>, a: nat): (e: nat)
    requires a <= |rows|
    ensures a <= e <= |rows|
    ensures forall i :: a <= i < e ==> rows[i].done
    ensures e < |rows| ==> !rows[e].done
    decreases |rows| - a
  {
    if a < |rows| && rows[a].done then RunEnd(rows, a + 1) else a
  }

  function Min(a: nat, b: nat): nat { if a < b then a else b }

  // Segments and tests: at most `limit` rows above the watermark, below the first still running.
  function HeldEnd(rows: seq<Row>, wm: int, limit: nat): (e: nat)
    ensures After(rows, wm) <= e <= |rows|
  {
    Min(After(rows, wm) + limit, RunEnd(rows, After(rows, wm)))
  }

  function HeldMark(rows: seq<Row>, wm: int, limit: nat): int {
    var e := HeldEnd(rows, wm, limit);
    if e == After(rows, wm) then wm else rows[e - 1].id
  }

  function HeldMore(rows: seq<Row>, wm: int, limit: nat): bool {
    HeldEnd(rows, wm, limit) - After(rows, wm) == limit
  }

  // How many rows the next folds can pass before one still running holds them.
  function HeldPending(rows: seq<Row>, wm: int): nat { RunEnd(rows, After(rows, wm)) - After(rows, wm) }

  function MaxId(rows: seq<Row>): int { if rows == [] then 0 else rows[|rows| - 1].id }

  function Selected(rows: seq<Row>): seq<Row> {
    if rows == [] then []
    else
      var front, last := Selected(rows[..|rows| - 1]), rows[|rows| - 1];
      if last.selected then front + [last] else front
  }

  // Events: the first `limit` selected ones above the watermark.
  function EventChunk(rows: seq<Row>, wm: int, limit: nat): (r: seq<Row>)
    ensures |r| <= limit && forall x :: x in r ==> x in rows && x.id > wm
  {
    if rows == [] then []
    else
      var front, last := EventChunk(rows[..|rows| - 1], wm, limit), rows[|rows| - 1];
      assert rows == rows[..|rows| - 1] + [last];
      if last.id > wm && last.selected && |front| < limit then front + [last] else front
  }

  // Past every event when there were fewer.
  function EventMark(rows: seq<Row>, wm: int, limit: nat): int {
    var chunk := EventChunk(rows, wm, limit);
    if MaxId(rows) <= wm then wm
    else if |chunk| == limit && chunk != [] then chunk[|chunk| - 1].id
    else MaxId(rows)
  }

  function EventMore(rows: seq<Row>, wm: int, limit: nat): bool {
    MaxId(rows) > wm && |EventChunk(rows, wm, limit)| == limit
  }

  // Unselected rows have nothing to credit.
  ghost predicate OnlySelectedCount(rows: seq<Row>) {
    forall r :: r in rows && !r.selected ==> r.credit == map[]
  }

  lemma {:induction false} SelectedAscending(rows: seq<Row>)
    requires Ascending(rows)
    ensures Ascending(Selected(rows)) && forall r :: r in Selected(rows) <==> r in rows && r.selected
  {
    if rows != [] {
      SelectedAscending(rows[..|rows| - 1]);
      assert rows == rows[..|rows| - 1] + [rows[|rows| - 1]];
      forall r | r in Selected(rows[..|rows| - 1]) ensures r.id < rows[|rows| - 1].id {
        var i :| 0 <= i < |rows| - 1 && rows[i] == r;
      }
    }
  }

  lemma BetweenLast(rows: seq<Row>, x: Row, lo: int, hi: int)
    ensures Between(rows + [x], lo, hi) == if lo < x.id <= hi then Between(rows, lo, hi) + [x] else Between(rows, lo, hi)
  {
    assert (rows + [x])[..|rows|] == rows;
  }

  lemma SelectedLast(front: seq<Row>, last: Row)
    ensures Selected(front + [last]) == if last.selected then Selected(front) + [last] else Selected(front)
  {
    assert (front + [last])[..|front|] == front;
  }

  lemma BetweenWorth(front: seq<Row>, last: Row, lo: int, hi: int, c: Cell)
    ensures Total(Between(front + [last], lo, hi), c) == Total(Between(front, lo, hi), c) + if lo < last.id <= hi then Get(last.credit, c) else 0
  {
    BetweenLast(front, last, lo, hi);
    TotalLast(Between(front, lo, hi), last, c);
  }

  lemma {:induction false} SelectedWorth(rows: seq<Row>, lo: int, hi: int, c: Cell)
    requires OnlySelectedCount(rows)
    ensures Total(Between(Selected(rows), lo, hi), c) == Total(Between(rows, lo, hi), c)
  {
    if rows != [] {
      var front, last := rows[..|rows| - 1], rows[|rows| - 1];
      assert rows == front + [last];
      SelectedWorth(front, lo, hi, c);
      SelectedLast(front, last);
      BetweenWorth(front, last, lo, hi, c);
      BetweenWorth(Selected(front), last, lo, hi, c);
    }
  }

  // ---- one chunk of each source --------------------------------------------------------------

  lemma HeldMarkAbove(rows: seq<Row>, wm: int, limit: nat)
    requires Ascending(rows) && HeldEnd(rows, wm, limit) > After(rows, wm)
    ensures HeldMark(rows, wm, limit) > wm && After(rows, HeldMark(rows, wm, limit)) == HeldEnd(rows, wm, limit)
  {
    var a, e := After(rows, wm), HeldEnd(rows, wm, limit);
    AfterAt(rows, e);
    assert rows[a].id <= rows[e - 1].id;
  }

  // The rows read are the rows the new watermark passes; they are all finished; and the
  // watermark moves exactly when something was pending.
  lemma HeldChunkExact(rows: seq<Row>, wm: int, limit: nat)
    requires Ascending(rows) && limit > 0
    ensures var m := HeldMark(rows, wm, limit);
      && wm <= m && (m == wm <==> HeldPending(rows, wm) == 0)
      && Between(rows, wm, m) == rows[After(rows, wm)..HeldEnd(rows, wm, limit)]
      && (forall r :: r in Between(rows, wm, m) ==> r.done)
      && HeldPending(rows, m) == HeldPending(rows, wm) - (HeldEnd(rows, wm, limit) - After(rows, wm))
  {
    var a, e := After(rows, wm), HeldEnd(rows, wm, limit);
    if e == a {
      BetweenNothing(rows, wm);
    } else {
      HeldMarkAbove(rows, wm, limit);
      BetweenIsSlice(rows, wm, HeldMark(rows, wm, limit));
      SameRunEnd(rows, a, e);
    }
  }

  lemma {:induction false} SameRunEnd(rows: seq<Row>, a: nat, e: nat)
    requires a <= |rows| && a <= e <= RunEnd(rows, a)
    ensures RunEnd(rows, e) == RunEnd(rows, a)
    decreases e - a
  {
    if a < e { SameRunEnd(rows, a + 1, e); }
  }

  lemma EventMarkMoves(rows: seq<Row>, wm: int, limit: nat)
    requires Ascending(rows)
    ensures var m := EventMark(rows, wm, limit); wm <= m && (m == wm <==> MaxId(rows) <= wm)
  {
    var chunk := EventChunk(rows, wm, limit);
    if chunk != [] { assert chunk[|chunk| - 1] in chunk; }
  }

  lemma {:induction false} BetweenCapped(rows: seq<Row>, wm: int, a: int, b: int)
    requires forall r :: r in rows ==> (r.id <= a <==> r.id <= b)
    ensures Between(rows, wm, a) == Between(rows, wm, b)
  {
    if rows != [] {
      assert rows == rows[..|rows| - 1] + [rows[|rows| - 1]];
      BetweenCapped(rows[..|rows| - 1], wm, a, b);
    }
  }

  lemma SelectedBelow(rows: seq<Row>, id: int)
    requires Ascending(rows) && rows != [] && id >= rows[|rows| - 1].id
    ensures forall r :: r in Selected(rows[..|rows| - 1]) ==> r.id <= MaxId(rows[..|rows| - 1]) < id
  {
    var front := rows[..|rows| - 1];
    SelectedAscending(front);
    forall r | r in Selected(front) ensures r.id <= MaxId(front) < id {
      var i :| 0 <= i < |front| && front[i] == r;
    }
  }

  lemma SelectedUpTo(front: seq<Row>, last: Row, wm: int, hi: int)
    requires Ascending(front + [last]) && hi < last.id
    ensures Between(Selected(front + [last]), wm, hi) == Between(Selected(front), wm, hi)
  {
    assert (front + [last])[..|front|] == front;
    BetweenLast(Selected(front), last, wm, hi);
  }

  lemma SelectedAll(front: seq<Row>, last: Row, wm: int)
    requires Ascending(front + [last])
    ensures Between(Selected(front + [last]), wm, last.id)
      == Between(Selected(front), wm, MaxId(front)) + if last.selected && last.id > wm then [last] else []
  {
    var rows := front + [last];
    assert rows[..|front|] == front;
    BetweenLast(Selected(front), last, wm, last.id);
    SelectedBelow(rows, last.id);
    BetweenCapped(Selected(front), wm, MaxId(front), last.id);
  }

  ghost predicate ReadsExactly(rows: seq<Row>, chunk: seq<Row>, wm: int, limit: nat) {
    && (|chunk| < limit ==> chunk == Between(Selected(rows), wm, MaxId(rows)))
    && (chunk != [] && |chunk| == limit ==>
          chunk == Between(Selected(rows), wm, chunk[|chunk| - 1].id) && chunk[|chunk| - 1].id <= MaxId(rows))
  }

  lemma FullChunkStands(front: seq<Row>, last: Row, was: seq<Row>, wm: int, limit: nat)
    requires Ascending(front + [last]) && ReadsExactly(front, was, wm, limit) && |was| == limit && front != []
    ensures ReadsExactly(front + [last], was, wm, limit)
  {
    assert (front + [last])[|front| - 1].id < (front + [last])[|front|].id;
    if was != [] { SelectedUpTo(front, last, wm, was[|was| - 1].id); }
  }

  lemma OpenChunkGrows(front: seq<Row>, last: Row, was: seq<Row>, wm: int, limit: nat)
    requires Ascending(front + [last]) && ReadsExactly(front, was, wm, limit) && |was| < limit
    ensures ReadsExactly(front + [last], if last.selected && last.id > wm then was + [last] else was, wm, limit)
  {
    SelectedAll(front, last, wm);
  }

  // The selected events read are exactly the selected events up to the last one read, or - when
  // fewer than `limit` were there - all of them.
  lemma {:induction false} EventChunkIsBetween(rows: seq<Row>, wm: int, limit: nat)
    requires Ascending(rows)
    ensures ReadsExactly(rows, EventChunk(rows, wm, limit), wm, limit)
  {
    if rows != [] {
      var front, last := rows[..|rows| - 1], rows[|rows| - 1];
      assert rows == front + [last];
      var was := EventChunk(front, wm, limit);
      EventChunkIsBetween(front, wm, limit);
      if |was| < limit {
        OpenChunkGrows(front, last, was, wm, limit);
      } else if front != [] {
        FullChunkStands(front, last, was, wm, limit);
      }
    }
  }

  lemma EventChunkExact(rows: seq<Row>, wm: int, limit: nat, c: Cell)
    requires Ascending(rows) && OnlySelectedCount(rows) && limit > 0
    ensures Total(EventChunk(rows, wm, limit), c) == Total(Between(rows, wm, EventMark(rows, wm, limit)), c)
  {
    EventChunkIsBetween(rows, wm, limit);
    SelectedWorth(rows, wm, EventMark(rows, wm, limit), c);
    if MaxId(rows) <= wm {
      NothingAbove(rows, wm, limit);
      BetweenNothing(rows, wm);
    }
  }

  lemma {:induction false} NothingAbove(rows: seq<Row>, wm: int, limit: nat)
    requires Ascending(rows) && MaxId(rows) <= wm
    ensures EventChunk(rows, wm, limit) == []
  {
    if rows != [] {
      var front := rows[..|rows| - 1];
      if front != [] {
        assert MaxId(front) < rows[|rows| - 1].id;
        NothingAbove(front, wm, limit);
      }
    }
  }
}
