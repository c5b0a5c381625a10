// Which source rows one chunk passes, spelled out row by row.
module LedgerLaws {
  import opened Common
  import opened LedgerFold

  function Above(wm: int): Row -> nat { (r: Row) => if r.id > wm then 1 else 0 }

  function AboveSelected(wm: int): Row -> nat { (r: Row) => if r.id > wm && r.selected then 1 else 0 }

  lemma {:induction false} SumGrows(rows: seq<Row>, value: Row -> nat, i: nat, j: nat)
    requires i <= j <= |rows|
    ensures SumOver(rows[..i], value) <= SumOver(rows[..j], value)
  {
    if i < j {
      SumGrows(rows, value, i, j - 1);
      assert rows[..j][..j - 1] == rows[..j - 1];
    }
  }

  lemma {:induction false} AboveFrom(rows: seq<Row>, wm: int, i: nat)
    requires Ascending(rows) && After(rows, wm) <= i <= |rows|
    ensures SumOver(rows[..i], Above(wm)) == i - After(rows, wm)
    decreases i
  {
    if i > 0 {
      assert rows[..i][..i - 1] == rows[..i - 1];
      if i > After(rows, wm) { AboveFrom(rows, wm, i - 1); } else { NoneBefore(rows, wm, i); }
    }
  }

  lemma {:induction false} NoneBefore(rows: seq<Row>, wm: int, i: nat)
    requires Ascending(rows) && i <= After(rows, wm)
    ensures SumOver(rows[..i], Above(wm)) == 0
  {
    if i > 0 {
      assert rows[..i][..i - 1] == rows[..i - 1];
      NoneBefore(rows, wm, i - 1);
      var a := After(rows, wm);
      assert rows[i - 1].id <= rows[a - 1].id;
    }
  }

  // Of the segments or tests above the watermark a chunk passes one exactly when it and all before
  // it are finished and fewer than `limit` come before it.
  lemma HeldPasses(rows: seq<Row>, wm: int, limit: nat, i: nat)
    requires Ascending(rows) && i < |rows| && rows[i].id > wm
    ensures rows[i].id <= HeldMark(rows, wm, limit) <==>
      SumOver(rows[..i], Above(wm)) < limit && forall k :: 0 <= k <= i && rows[k].id > wm ==> rows[k].done
  {
    var a, e := After(rows, wm), HeldEnd(rows, wm, limit);
    assert forall k :: 0 <= k < a ==> rows[k].id <= rows[a - 1].id;
    AboveFrom(rows, wm, i);
    var all := forall k :: 0 <= k <= i && rows[k].id > wm ==> rows[k].done;
    assert all ==> forall k :: a <= k <= i ==> rows[k].done;
    assert i < RunEnd(rows, a) <==> all;
    if e > a { assert i < e <==> rows[i].id <= rows[e - 1].id; }
  }

  // It asks for another chunk exactly when it was full, and what is pending are the finished rows
  // up to the first still running.
  lemma HeldGoesOn(rows: seq<Row>, wm: int, limit: nat)
    requires Ascending(rows)
    ensures HeldMore(rows, wm, limit) <==> |Between(rows, wm, HeldMark(rows, wm, limit))| >= limit
    ensures |Between(rows, wm, HeldMark(rows, wm, limit))| <= limit
    ensures HeldPending(rows, wm) == |Between(rows, wm, HeldMark(rows, wm, |rows|))|
  {
    PassedCount(rows, wm, limit);
    PassedCount(rows, wm, |rows|);
  }

  lemma PassedCount(rows: seq<Row>, wm: int, limit: nat)
    requires Ascending(rows)
    ensures |Between(rows, wm, HeldMark(rows, wm, limit))| == HeldEnd(rows, wm, limit) - After(rows, wm)
  {
    var a, e := After(rows, wm), HeldEnd(rows, wm, limit);
    if e == a {
      BetweenNothing(rows, wm);
    } else {
      AfterAt(rows, e);
      BetweenIsSlice(rows, wm, HeldMark(rows, wm, limit));
    }
  }

  lemma {:induction false} ChunkCount(rows: seq<Row>, wm: int, limit: nat)
    ensures var n := SumOver(rows, AboveSelected(wm)); |EventChunk(rows, wm, limit)| == if n < limit then n else limit
  {
    if rows != [] { ChunkCount(rows[..|rows| - 1], wm, limit); }
  }

  lemma {:induction false} LastPasses(rows: seq<Row>, wm: int, limit: nat, i: nat)
    requires Ascending(rows) && i < |rows| && limit > 0 && |EventChunk(rows, wm, limit)| == limit
    ensures rows[i].id <= EventChunk(rows, wm, limit)[limit - 1].id <==> SumOver(rows[..i], AboveSelected(wm)) < limit
  {
    var n := |rows| - 1;
    var front, last := rows[..n], rows[n];
    ChunkCount(front, wm, limit);
    assert front[..i] == rows[..i];
    SumGrows(rows, AboveSelected(wm), i, n);
    if |EventChunk(front, wm, limit)| == limit {
      if i < n {
        LastPasses(front, wm, limit, i);
      } else {
        ChunkBelow(front, last, wm, limit);
      }
    } else {
      assert EventChunk(rows, wm, limit)[limit - 1] == last;
    }
  }

  lemma ChunkBelow(front: seq<Row>, last: Row, wm: int, limit: nat)
    requires Ascending(front + [last]) && limit > 0 && |EventChunk(front, wm, limit)| == limit
    ensures EventChunk(front, wm, limit)[limit - 1].id < last.id
  {
    var x := EventChunk(front, wm, limit)[limit - 1];
    assert x in front;
    var k :| 0 <= k < |front| && front[k] == x;
    assert (front + [last])[k] == x && (front + [last])[|front|] == last;
  }

  // Of the events above the watermark a chunk passes one exactly when fewer than `limit` of those
  // before it are of the kinds counted - so that the rest are stepped over.
  lemma EventsPass(rows: seq<Row>, wm: int, limit: nat, i: nat)
    requires Ascending(rows) && i < |rows| && rows[i].id > wm && limit > 0
    ensures rows[i].id <= EventMark(rows, wm, limit) <==> SumOver(rows[..i], AboveSelected(wm)) < limit
  {
    var n := |rows| - 1;
    assert rows[i].id <= rows[n].id;
    if |EventChunk(rows, wm, limit)| == limit {
      LastPasses(rows, wm, limit, i);
    } else {
      ChunkCount(rows, wm, limit);
      SumGrows(rows, AboveSelected(wm), i, n + 1);
      assert rows[..n + 1] == rows;
    }
  }

  lemma ChunkBounded(rows: seq<Row>, wm: int, limit: nat)
    requires Ascending(rows)
    ensures forall r :: r in EventChunk(rows, wm, limit) ==> r.id <= MaxId(rows)
  {
    forall r | r in rows ensures r.id <= MaxId(rows) {
      var k :| 0 <= k < |rows| && rows[k] == r;
    }
  }

  // It asks for another chunk exactly when that many events of those kinds are above the watermark.
  lemma EventsGoOn(rows: seq<Row>, wm: int, limit: nat)
    requires Ascending(rows) && limit > 0
    ensures EventMore(rows, wm, limit) <==> SumOver(rows, AboveSelected(wm)) >= limit
  {
    ChunkCount(rows, wm, limit);
    ChunkBounded(rows, wm, limit);
    var chunk := EventChunk(rows, wm, limit);
    assert |chunk| > 0 ==> chunk[0] in chunk;
  }
}
