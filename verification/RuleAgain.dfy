// A rule evaluated again on what it left: nothing to fill in, nothing to follow, nothing to record
// (app/auto_rules.py `_episode_fills`, `_retrack`, `_judge_rule`).
module RuleAgain {
  import opened Common
  import opened RuleModel
  import opened RuleJudge
  import opened RulePass
  import opened RulePrograms
  import RetrackModel

  // Every row a pass leaves was there or is a program's, and every program has one unless the
  // planner could not place it.
  ghost predicate RowsOfPass(env: Env, st: State, done: State, ps: seq<Program>) {
    && st.rows.Keys <= done.rows.Keys
    && (forall k :: k in done.rows ==> k in st.rows || exists p :: p in ps && p.identity == k)
    && (forall p :: p in ps ==> p.identity in done.rows || Unplaceable(env, p))
  }

  ghost predicate Unplaceable(env: Env, p: Program) { p.showings != [] && p.showings[0].entry !in env.plans }

  lemma StepRows(env: Env, st: State, p: Program)
    requires p.showings != []
    ensures st.rows.Keys <= Step(env, st, p).rows.Keys <= st.rows.Keys + {p.identity}
    ensures p.identity in Step(env, st, p).rows || Unplaceable(env, p)
  {
  }

  lemma {:induction false} PassLeavesRows(env: Env, st: State, ps: seq<Program>)
    requires forall i :: 0 <= i < |ps| ==> ps[i].showings != []
    ensures RowsOfPass(env, st, Pass(env, st, ps), ps)
  {
    if ps != [] {
      var front, last := ps[..|ps| - 1], ps[|ps| - 1];
      assert ps == front + [last];
      PassLeavesRows(env, st, front);
      StepRows(env, Pass(env, st, front), last);
      RowsNext(env, st, Pass(env, st, front), Pass(env, st, ps), front, last);
    }
  }

  lemma RowsNext(env: Env, st: State, before: State, done: State, front: seq<Program>, last: Program)
    requires RowsOfPass(env, st, before, front)
    requires before.rows.Keys <= done.rows.Keys <= before.rows.Keys + {last.identity}
    requires last.identity in done.rows || Unplaceable(env, last)
    ensures RowsOfPass(env, st, done, front + [last])
  {
    forall k | k in done.rows ensures k in st.rows || exists p :: p in front + [last] && p.identity == k {
      if k in before.rows && k !in st.rows {
        var p :| p in front && p.identity == k;
        assert p in front + [last];
      }
      assert last in front + [last];
    }
  }

  // No row still waits for an episode its slot could give it.
  ghost predicate NothingToFill(eps: SlotMap, rows: Rows) {
    forall k :: k in rows ==> !RetrackModel.Fillable(eps, rows[k], rows.Keys)
  }

  // A program its slot gives no episode gets a row its slot gives none.
  lemma ProgramNotFillable(eps: SlotMap, showings: seq<Showing>, p: Program, row: Row, held: set<Identity>)
    requires FromShowings(eps, showings, p) && row.key == p.identity
    ensures !RetrackModel.Fillable(eps, row, held)
  {
    var lead := p.showings[0];
    assert lead in p.showings;
  }

  lemma PassLeavesNothingToFill(env: Env, showings: seq<Showing>, st: State, ps: seq<Program>)
    requires ValidState(st) && ValidEnv(env, st) && NothingToFill(env.eps, st.rows)
    requires forall i :: 0 <= i < |ps| ==> ps[i].showings != [] && FromShowings(env.eps, showings, ps[i])
    ensures NothingToFill(env.eps, Pass(env, st, ps).rows)
  {
    var done := Pass(env, st, ps);
    PassValid(env, st, ps);
    PassLeavesRows(env, st, ps);
    forall k | k in done.rows ensures !RetrackModel.Fillable(env.eps, done.rows[k], done.rows.Keys) {
      if k in st.rows {
        assert !RetrackModel.Fillable(env.eps, st.rows[k], st.rows.Keys) && st.rows[k].key == done.rows[k].key;
      } else {
        var p :| p in ps && p.identity == k;
        ProgramNotFillable(env.eps, showings, p, done.rows[k], done.rows.Keys);
      }
    }
  }

  // A pick is followed only to a program without a row, and only an unplaceable one has none.
  lemma GoneOnlyForTheUnplaceable(env: Env, st: State, done: State, ps: seq<Program>, row: Row, now: int, recs: Recs, guide: RetrackModel.Guide)
    requires RowsOfPass(env, st, done, ps) && RetrackModel.IsGone(row, ps, done.rows.Keys, now, recs, guide)
    ensures exists p :: p in ps && RetrackModel.SameAs(p, row.key) && Unplaceable(env, p)
  {
    var p :| p in ps && RetrackModel.SameAs(p, row.key) && p.identity.start != row.key.start && p.identity !in done.rows.Keys;
  }

  ghost predicate NothingToFollow(rows: Rows, ps: seq<Program>, now: int, recs: Recs, guide: RetrackModel.Guide) {
    forall k :: k in rows ==> !RetrackModel.IsGone(rows[k], ps, rows.Keys, now, recs, guide)
  }

  // The whole second evaluation: it fills in no episode, follows no pick - as long as the planner
  // can place what the search finds - and records nothing.
  lemma ReevaluationChangesNothing(env: Env, showings: seq<Showing>, st: State, again: State, eps': SlotMap, now: int, guide: RetrackModel.Guide)
    requires ValidState(st) && ValidEnv(env, st) && SlotsOf(env.eps, showings, st) && NothingToFill(env.eps, st.rows)
    requires var ps := ProgramsIn(env.eps, showings); Reread(st, Pass(env, st, ps), ps, again)
    requires ValidState(again) && SlotsOf(eps', showings, again)
    ensures eps' == env.eps && NothingToFill(eps', again.rows)
    ensures (forall p :: p in ProgramsIn(env.eps, showings) ==> !Unplaceable(env, p))
      ==> NothingToFollow(again.rows, ProgramsIn(eps', showings), now, again.recs, guide)
    ensures Pass(env.(eps := eps'), again, ProgramsIn(eps', showings)).recs == again.recs
  {
    var ps := ProgramsIn(env.eps, showings);
    RereadKeepsSlots(env, showings, st, ps, again);
    SlotsDetermined(env.eps, eps', showings, again);
    ReevaluationRecordsNothing(env, showings, st, again, eps');
    PassLeavesNothingToFill(env, showings, st, ps);
    PassLeavesRows(env, st, ps);
    forall k | k in again.rows && RetrackModel.IsGone(again.rows[k], ps, again.rows.Keys, now, again.recs, guide)
      ensures exists p :: p in ps && Unplaceable(env, p)
    {
      GoneOnlyForTheUnplaceable(env, st, Pass(env, st, ps), ps, again.rows[k], now, again.recs, guide);
    }
  }
}
