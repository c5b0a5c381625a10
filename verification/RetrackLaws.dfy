// Whom a moved pick follows, spelled out: which picks are gone, which listing is the nearest, when
// it is left because something else records it, and what an answer leaves (app/auto_rules.py
// `_retrack`, `_retrack_target`, `_holder`).
module RetrackLaws {
  import opened Common
  import opened RuleModel
  import opened RuleJudge
  import opened RetrackModel
  import opened RuleLaws

  predicate InPlace(s: Showing, row: Row, members: Members) {
    || (row.channel.Some? && row.channel.value == s.channel)
    || (row.group.Some? && s.group.Some? && s.group.value == row.group.value)
    || (row.group.Some? && row.group.value in members && s.channel in members[row.group.value])
  }

  // At another time, with no row of the rule and not taken, and on the pick's channel or group.
  ghost predicate Offered(p: Program, row: Row, keys: set<Identity>, taken: set<Identity>, members: Members) {
    p.identity.start != row.key.start && !(p.identity in keys) && !(p.identity in taken) && exists s :: s in p.showings && InPlace(s, row, members)
  }

  function Minutes(a: int, b: int): int { if a >= b then a - b else b - a }

  predicate NoFarther(a: int, b: int, from: int) {
    Minutes(a, from) < Minutes(b, from) || (Minutes(a, from) == Minutes(b, from) && a <= b)
  }

  // The target is the offered program nearest in time, of two as near the earlier; its first
  // listing in the pick's place is followed.
  lemma TargetExactly(row: Row, programs: seq<Program>, keys: set<Identity>, taken: set<Identity>, members: Members)
    ensures var t := TargetOf(row, programs, keys, taken, members);
      && (t.NoTarget? <==> forall q :: q in programs ==> !Offered(q, row, keys, taken, members))
      && (t.Target? ==>
            && t.program in programs && Offered(t.program, row, keys, taken, members)
            && (forall q :: q in programs && Offered(q, row, keys, taken, members) ==>
                  NoFarther(t.program.identity.start, q.identity.start, row.key.start))
            && exists i :: 0 <= i < |t.program.showings| && t.program.showings[i] == t.showing && InPlace(t.showing, row, members)
                 && forall j :: 0 <= j < i ==> !InPlace(t.program.showings[j], row, members))
  {
    TargetIsNearest(row, programs, keys, taken, members);
    forall q | q in programs ensures Eligible(q, row, keys, taken, members) <==> Offered(q, row, keys, taken, members) {
      assert forall s :: s in q.showings ==> (OnRowsChannel(s, row, members) <==> InPlace(s, row, members));
    }
    var t := TargetOf(row, programs, keys, taken, members);
    if t.Target? {
      TargetShowing(row, programs, keys, taken, members);
      FirstInPlace(t.program.showings, row, members);
    }
  }

  lemma {:induction false} TargetShowing(row: Row, programs: seq<Program>, keys: set<Identity>, taken: set<Identity>, members: Members)
    requires TargetOf(row, programs, keys, taken, members).Target?
    ensures var t := TargetOf(row, programs, keys, taken, members); FirstShowing(t.program.showings, row, members) == Some(t.showing)
  {
    var t := TargetOf(row, programs, keys, taken, members);
    var front := programs[..|programs| - 1];
    if t == TargetOf(row, front, keys, taken, members) { TargetShowing(row, front, keys, taken, members); }
  }

  lemma {:induction false} FirstInPlace(showings: seq<Showing>, row: Row, members: Members)
    ensures match FirstShowing(showings, row, members)
      case None => forall j :: 0 <= j < |showings| ==> !InPlace(showings[j], row, members)
      case Some(s) => exists i :: 0 <= i < |showings| && showings[i] == s && InPlace(s, row, members) && forall j :: 0 <= j < i ==> !InPlace(showings[j], row, members)
  {
    if showings != [] {
      var front := showings[..|showings| - 1];
      FirstInPlace(front, row, members);
      if FirstShowing(front, row, members).Some? {
        var i :| 0 <= i < |front| && front[i] == FirstShowing(front, row, members).value && InPlace(front[i], row, members)
          && forall j :: 0 <= j < i ==> !InPlace(front[j], row, members);
        assert showings[i] == front[i];
      } else {
        assert forall j :: 0 <= j < |front| ==> !InPlace(showings[j], row, members) by { assert forall j :: 0 <= j < |front| ==> front[j] == showings[j]; }
      }
    }
  }

  // Is the program somewhere in the guide at its time - under its episode, or under none, which
  // may be it?
  ghost predicate InGuide(guide: Guide, title: string, episode: string, start: int) {
    exists e :: (title, e, start) in guide && (e == episode || e == "" || episode == "")
  }

  // A pick is followed exactly when it is scheduled and ahead, names an episode, is listed nowhere
  // at its time, did not fail, and its program is found at another time without a row.
  lemma GoneExactly(row: Row, programs: seq<Program>, keys: set<Identity>, now: int, recs: Recs, guide: Guide)
    ensures IsGone(row, programs, keys, now, recs, guide) <==>
      && row.action == ActScheduled && now < row.key.start && row.key.episode != ""
      && (forall p :: p in programs ==> p.identity != row.key)
      && !InGuide(guide, row.key.title, row.key.episode, row.key.start)
      && (forall reason :: !CameTo(row, recs, Failed, reason))
      && exists p :: p in programs && p.identity.title == row.key.title && p.identity.episode == row.key.episode
           && p.identity.start != row.key.start && p.identity !in keys
  {
    ListedExactly(guide, row.key.title, row.key.episode, row.key.start);
    if FateOf(row, recs).Known? { FateIs(row, recs, FateOf(row, recs).status, FateOf(row, recs).reason); }
    forall reason { FateIs(row, recs, Failed, reason); }
    assert forall p :: SameAs(p, row.key) <==> p.identity.title == row.key.title && p.identity.episode == row.key.episode;
  }

  lemma ListedExactly(guide: Guide, title: string, episode: string, start: int)
    ensures IsListed(guide, title, episode, start) <==> InGuide(guide, title, episode, start)
  {
    if episode == "" && IsListed(guide, title, episode, start) {
      var g :| g in guide && g.0 == title && g.2 == start;
      assert (title, g.1, start) in guide;
    }
  }

  // About to leave: a rule made it, nobody edited it, it has not begun, and its own program is in
  // the guide no longer.
  ghost predicate Leaving(rec: Lib, edited: set<int>, guide: Guide) {
    && rec.rule != None && rec.status == Scheduled && !(rec.id in edited) && rec.title != "" && rec.episode != ""
    && match rec.programStart case None => false case Some(start) => !InGuide(guide, rec.title, rec.episode, start)
  }

  // A target is held exactly when another recording that is wanted and not about to leave is of the
  // program, runs over one of its listings, or runs over the one followed where the pick would land.
  lemma HeldExactly(eps: SlotMap, edited: set<int>, recs: Recs, guide: Guide, p: Program, s: Showing, row: Row)
    requires ById(recs)
    ensures IsHeld(eps, edited, recs, guide, p, s, row) <==>
      exists id :: id in recs && row.recording != Some(id) && Wanted(recs[id].status) && !Leaving(recs[id], edited, guide)
        && (OfProgram(eps, recs[id], p.identity.title, p.identity.episode, p.identity.start)
            || (exists x :: x in p.showings && RunsOver(recs[id], x))
            || (LandsBeside(recs[id], row, recs) && recs[id].start <= s.start && s.stop <= recs[id].stop))
  {
    forall id | id in recs ensures HoldsTarget(eps, edited, recs[id], guide, p, s, row, PlaceOf(row, recs)) <==>
      && row.recording != Some(id) && Wanted(recs[id].status) && !Leaving(recs[id], edited, guide)
      && (OfProgram(eps, recs[id], p.identity.title, p.identity.episode, p.identity.start)
          || (exists x :: x in p.showings && RunsOver(recs[id], x))
          || (LandsBeside(recs[id], row, recs) && recs[id].start <= s.start && s.stop <= recs[id].stop))
    {
      HolderExactly(eps, edited, recs, guide, p, s, row, id);
    }
  }

  // Where the pick's recording is, or where its row says when it has none.
  predicate LandsBeside(rec: Lib, row: Row, recs: Recs) {
    var own := if row.recording.Some? && row.recording.value in recs then Some(recs[row.recording.value]) else None;
    var channel, group := if own.Some? then own.value.channel else row.channel, if own.Some? then own.value.group else row.group;
    (channel != None && rec.channel == channel) || (group != None && rec.group == group)
  }

  lemma HolderExactly(eps: SlotMap, edited: set<int>, recs: Recs, guide: Guide, p: Program, s: Showing, row: Row, id: int)
    requires ById(recs) && id in recs
    ensures HoldsTarget(eps, edited, recs[id], guide, p, s, row, PlaceOf(row, recs)) <==>
      && row.recording != Some(id) && Wanted(recs[id].status) && !Leaving(recs[id], edited, guide)
      && (OfProgram(eps, recs[id], p.identity.title, p.identity.episode, p.identity.start)
          || (exists x :: x in p.showings && RunsOver(recs[id], x))
          || (LandsBeside(recs[id], row, recs) && recs[id].start <= s.start && s.stop <= recs[id].stop))
  {
    var rec := recs[id];
    OfProgramIs(eps, rec, p.identity);
    if rec.programStart.Some? { ListedExactly(guide, rec.title, rec.episode, rec.programStart.value); }
    assert forall x :: x in p.showings ==> (CoversShowing(rec, x) <==> Wanted(rec.status) && RunsOver(rec, x));
  }

  // A pick whose recording is yet to begin stays where it is when its target is held, and no later
  // pick is offered that target; one whose recording came to anything else is never kept back.
  lemma HeldStays(c: Scene, w: Walk, n: nat, answer: Answer, reason: Reason)
    requires n < |w.rows| && !w.stopped && TargetAt(c, w, n).Target?
    ensures var row, t, v := w.rows[n], TargetAt(c, w, n), TurnOf(c, w, n, answer);
      && (CameTo(row, w.recs, Scheduled, reason) && IsHeld(c.eps, w.edited, w.recs, c.guide, t.program, t.showing, row) ==>
            && v.rows == w.rows && v.recs == w.recs && v.keys == w.keys && v.edited == w.edited && v.moved == w.moved
            && v.taken == w.taken + {t.program.identity} && (v.stopped <==> answer.RuleChanged?))
      && (HeldAt(c, w, n, t) ==>
            && (exists r :: CameTo(row, w.recs, Scheduled, r))
            && IsHeld(c.eps, w.edited, w.recs, c.guide, t.program, t.showing, row))
  {
    var row := w.rows[n];
    FateIs(row, w.recs, Scheduled, reason);
    if FateOf(row, w.recs).Known? { FateIs(row, w.recs, Scheduled, FateOf(row, w.recs).reason); }
  }

  // What the write unit's answer leaves of a pick sent to a target nothing holds.
  lemma AnswersDo(c: Scene, w: Walk, n: nat, answer: Answer)
    requires n < |w.rows| && ValidPrograms(c.programs) && !w.stopped && TargetAt(c, w, n).Target? && !HeldAt(c, w, n, TargetAt(c, w, n))
    ensures var row, t, v := w.rows[n], TargetAt(c, w, n), TurnOf(c, w, n, answer); var now := v.rows[n];
      && v.taken == w.taken + {t.program.identity}
      && (answer.Moved? || answer.Anchored? ==>
            && now.key == t.program.identity && now.stop == t.showing.stop && now.action == row.action && now.recording == row.recording
            && v.keys == w.keys - {row.key} + {t.program.identity})
      && (answer.Moved? && row.recording.Some? && row.recording.value in w.recs ==>
            var was, rec := w.recs[row.recording.value], v.recs[row.recording.value];
            && rec.programStart == Some(t.program.identity.start) && rec.start == answer.start && rec.stop == answer.stop
            && rec.title == was.title && rec.status == was.status && rec.channel == was.channel && rec.group == was.group)
      && (!answer.Moved? ==> v.recs == w.recs && v.moved == w.moved)
      && (answer.LetGo? ==> now.action == UserModified && now.key == row.key && v.edited == w.edited + (if row.recording.Some? then {row.recording.value} else {}))
      && (!answer.LetGo? ==> v.edited == w.edited)
      && (answer.NothingToFollow? || answer.RuleChanged? ==> v.rows == w.rows)
      && (v.stopped <==> answer.RuleChanged?)
  {
    TargetMoves(c, w, n);
  }

  // The walk goes on to every pick until a write unit answers that the rule changed.
  lemma {:induction false} WalkGoesOn(c: Scene, answers: seq<Answer>, rows: seq<Row>, keys: set<Identity>, recs: Recs, edited: set<int>, n: nat)
    requires n <= |answers| && forall k :: 0 <= k < n ==> !answers[k].RuleChanged?
    ensures var start := Start(rows, keys, recs, edited);
      && start.rows == rows && start.keys == keys && start.recs == recs && start.edited == edited && start.taken == {} && start.moved == {}
      && !Turns(StepOf(c, answers), start, n).stopped
  {
    if n > 0 { WalkGoesOn(c, answers, rows, keys, recs, edited, n - 1); }
  }

  // A row waits for an episode exactly while its slot lists a single one that no row of the rule has.
  lemma FillableExactly(eps: SlotMap, row: Row, held: set<Identity>)
    ensures Fillable(eps, row, held) <==>
      row.key.episode == "" && exists e :: e != "" && Alone(eps, row.key.title, row.key.start, e) && Identity(row.key.title, e, row.key.start) !in held
  {
    OnlyIsAlone(eps, row.key.title, row.key.start, OnlyEpisode(eps, row.key.title, row.key.start));
    forall e | Alone(eps, row.key.title, row.key.start, e) { OnlyIsAlone(eps, row.key.title, row.key.start, e); }
  }
}
