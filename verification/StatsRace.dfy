// `_fold_segments` and `_fold_tests` read the first unfinished id and the rows in two
// statements, with no transaction around them: other writers may commit in between.
module StatsRace {
  import opened Common
  import opened LedgerFold

  function FirstUnfinished(rows: seq<Row>, wm: int): (stop: Option<int>)
    ensures stop.Some? ==> exists i :: 0 <= i < |rows| && rows[i].id == stop.value && wm < stop.value && !rows[i].done
  {
    if rows == [] then None
    else
      match FirstUnfinished(rows[..|rows| - 1], wm)
      case Some(id) => Some(id)
      case None => if rows[|rows| - 1].id > wm && !rows[|rows| - 1].done then Some(rows[|rows| - 1].id) else None
  }

  predicate Before(id: int, stop: Option<int>) { stop.Some? ==> id < stop.value }

  lemma {:induction false} FirstUnfinishedIsFirst(rows: seq<Row>, wm: int)
    requires Ascending(rows)
    ensures forall i :: 0 <= i < |rows| && wm < rows[i].id && Before(rows[i].id, FirstUnfinished(rows, wm)) ==> rows[i].done
  {
    if rows != [] { FirstUnfinishedIsFirst(rows[..|rows| - 1], wm); }
  }

  // Rows finish and new ones get higher ids.
  ghost predicate Later(rows: seq<Row>, later: seq<Row>) {
    && |rows| <= |later|
    && forall i :: 0 <= i < |rows| ==> later[i].id == rows[i].id && (rows[i].done ==> later[i].done)
  }

  // What the second statement reads.
  ghost predicate Read(later: seq<Row>, wm: int, stop: Option<int>, limit: nat, i: int) {
    && After(later, wm) <= i < |later| && i < After(later, wm) + limit
    && Before(later[i].id, stop)
  }

  // A row in reach that was not there when the stop was looked for.
  ghost predicate OpenedBetween(rows: seq<Row>, later: seq<Row>, wm: int, limit: nat, i: int) {
    |rows| <= i < |later| && After(later, wm) <= i < After(later, wm) + limit
  }

  // No unfinished row is read when the first statement found one to stop at. When it found none,
  // the rows read are all finished exactly when those opened between the two statements are: such
  // a segment or test is passed while it runs.
  lemma ReadsOnlyFinishedExactly(rows: seq<Row>, later: seq<Row>, wm: int, limit: nat)
    requires Ascending(rows) && Ascending(later) && Later(rows, later)
    ensures var stop := FirstUnfinished(rows, wm);
      (forall i :: Read(later, wm, stop, limit, i) ==> later[i].done)
      <==> stop.Some? || forall i :: OpenedBetween(rows, later, wm, limit, i) ==> later[i].done
  {
    var stop := FirstUnfinished(rows, wm);
    FirstUnfinishedIsFirst(rows, wm);
    if stop.Some? {
      forall i | Read(later, wm, stop, limit, i) ensures later[i].done {
        var k :| 0 <= k < |rows| && rows[k].id == stop.value;
        assert later[k].id == stop.value;
        assert i < k;
      }
    } else {
      forall i | OpenedBetween(rows, later, wm, limit, i) ensures Read(later, wm, stop, limit, i) { }
      forall i | Read(later, wm, stop, limit, i) ensures OpenedBetween(rows, later, wm, limit, i) || later[i].done {
        if i < |rows| { assert later[i].id == rows[i].id; }
      }
    }
  }

  lemma OpenRowPassed()
    ensures var rows, later := [], [Row(1, false, true, map[])];
      && Later(rows, later) && FirstUnfinished(rows, 0) == None
      && Read(later, 0, None, 1, 0) && !later[0].done
  {
  }
}
