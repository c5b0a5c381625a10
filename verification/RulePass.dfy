// What a pass guarantees: re-judging changes nothing, nothing is recorded twice, no replay is
// picked beside its first airing, the sliding limit holds in every window, the cap is not passed.
module RulePass {
  import opened Common
  import opened RuleModel
  import opened RuleJudge

  // ---- everything that blocks a showing keeps blocking it ---------------------------------

  // Spoken-for recordings stay, under the same identity.
  ghost predicate RecordingsStay(env: Env, a: Recs, b: Recs) {
    forall id :: id in a && SpokenFor(a[id].status) ==>
      && id in b && b[id].(episode := a[id].episode) == a[id]
      && (Identified(a[id]) ==> IdentityOfLib(env.eps, b[id]) == IdentityOfLib(env.eps, a[id]))
  }

  ghost predicate CountedStay(a: State, b: State) {
    forall k :: k in a.rows && CountingPick(a.rows[k], a.recs) ==> k in b.rows && CountingPick(b.rows[k], b.recs)
  }

  predicate SpokenPick(row: Row, recs: Recs) { row.action.ActScheduled? && PickIsSpokenFor(row, recs) }

  ghost predicate PickedStay(a: State, b: State) {
    forall k :: k in a.rows && SpokenPick(a.rows[k], a.recs) ==> k in b.rows && SpokenPick(b.rows[k], b.recs)
  }

  // `b` blocks at least what `a` blocks: no recording stops counting, no pick is forgotten.
  ghost predicate Grows(env: Env, a: State, b: State) {
    RecordingsStay(env, a.recs, b.recs) && CountedStay(a, b) && PickedStay(a, b)
  }

  lemma GrowsChain(env: Env, a: State, b: State, c: State)
    requires Grows(env, a, b) && Grows(env, b, c)
    ensures Grows(env, a, c)
  {
  }

  lemma CountingGrows(env: Env, a: State, b: State, lo: int, hi: int)
    requires Grows(env, a, b)
    ensures CountingIn(a, lo, hi) <= CountingIn(b, lo, hi)
    ensures |CountingIn(a, lo, hi)| <= |CountingIn(b, lo, hi)|
  {
    SubsetSize(CountingIn(a, lo, hi), CountingIn(b, lo, hi));
  }

  lemma ExistingStays(env: Env, a: State, b: State, p: Program)
    requires Grows(env, a, b) && Existing(env.eps, a.recs, p)
    ensures Existing(env.eps, b.recs, p)
  {
  }

  lemma RepeatStays(env: Env, a: State, b: State, i: Identity)
    requires ValidState(a) && ValidState(b) && Grows(env, a, b) && Repeat(env, a, i)
    ensures Repeat(env, b, i)
  {
    if id :| id in a.recs && EarlierAiring(env, a.recs[id], i) {
      assert EarlierAiring(env, b.recs[id], i);
    } else {
      var k :| k in a.rows && EarlierPick(a.rows[k], a.recs, i);
      assert EarlierPick(b.rows[k], b.recs, i);
    }
  }

  lemma FullWindowStays(env: Env, a: State, b: State, l: Limit, t: int, s: int)
    requires Grows(env, a, b) && CandidateWindow(a, l, t, s) && WindowFull(a, l, s)
    ensures CandidateWindow(b, l, t, s) && WindowFull(b, l, s)
  {
    CountingGrows(env, a, b, s, s + l.window);
    CountingGrows(env, a, b, s, s + 1);
  }

  lemma LimitStays(env: Env, a: State, b: State, t: int)
    requires Grows(env, a, b) && OverLimit(env, a, t)
    ensures OverLimit(env, b, t)
  {
    var l := env.settings.limit.value;
    var s :| CandidateWindow(a, l, t, s) && WindowFull(a, l, s);
    FullWindowStays(env, a, b, l, t, s);
  }

  lemma CapStays(env: Env, a: State, b: State)
    requires Grows(env, a, b) && AtCap(env, a.recs)
    ensures AtCap(env, b.recs)
  {
    forall id | id in ScheduledIds(a.recs, env.rule) ensures id in ScheduledIds(b.recs, env.rule) {
      assert SpokenFor(a.recs[id].status);
    }
    SubsetSize(ScheduledIds(a.recs, env.rule), ScheduledIds(b.recs, env.rule));
  }

  lemma BlockedStaysBlocked(env: Env, a: State, b: State, p: Program)
    requires ValidState(a) && ValidState(b) && Grows(env, a, b)
    requires VerdictOf(env, a, p).SkipAs?
    ensures VerdictOf(env, b, p).SkipAs?
  {
    if Existing(env.eps, a.recs, p) {
      ExistingStays(env, a, b, p);
    } else if Repeat(env, a, p.identity) {
      RepeatStays(env, a, b, p.identity);
    } else if OverLimit(env, a, p.identity.start) {
      LimitStays(env, a, b, p.identity.start);
    } else {
      CapStays(env, a, b);
    }
  }

  // An undecided row counts for nothing, so a pick made over it takes nothing away.
  lemma PickKeepsCounted(rule: int, st: State, i: Identity, lead: Showing, pl: Placement)
    requires ValidState(st)
    ensures CountedStay(st, MakePick(rule, st, i, lead, pl))
  {
  }

  lemma PickKeepsPicked(rule: int, st: State, i: Identity, lead: Showing, pl: Placement)
    requires ValidState(st)
    ensures PickedStay(st, MakePick(rule, st, i, lead, pl))
  {
  }

  lemma PickGrows(env: Env, st: State, i: Identity, lead: Showing, pl: Placement)
    requires ValidState(st) && !(i in st.rows && Decided(st.rows[i], st.recs))
    ensures Grows(env, st, MakePick(env.rule, st, i, lead, pl))
  {
    PickKeepsCounted(env.rule, st, i, lead, pl);
    PickKeepsPicked(env.rule, st, i, lead, pl);
  }

  lemma VerdictGrows(env: Env, st: State, i: Identity, lead: Showing, a: Action)
    requires ValidState(st) && !(i in st.rows && Decided(st.rows[i], st.recs))
    ensures Grows(env, st, st.(rows := WriteVerdict(st.rows, i, lead, a)))
  {
  }

  lemma StepGrows(env: Env, st: State, p: Program)
    requires ValidState(st) && p.showings != []
    ensures Grows(env, st, Step(env, st, p))
  {
    match Decide(env, st, p)
    case Record(pl) => PickGrows(env, st, p.identity, p.showings[0], pl);
    case Refuse(a) => VerdictGrows(env, st, p.identity, p.showings[0], a);
    case _ =>
  }

  lemma {:induction false} PassGrows(env: Env, st: State, ps: seq<Program>)
    requires ValidState(st) && ValidEnv(env, st)
    requires forall i :: 0 <= i < |ps| ==> ps[i].showings != []
    ensures Grows(env, st, Pass(env, st, ps))
  {
    if ps != [] {
      var before := Pass(env, st, ps[..|ps| - 1]);
      PassValid(env, st, ps[..|ps| - 1]);
      PassGrows(env, st, ps[..|ps| - 1]);
      StepGrows(env, before, ps[|ps| - 1]);
      GrowsChain(env, st, before, Pass(env, st, ps));
    }
  }

  // ---- idempotence -------------------------------------------------------------------------

  // A program is settled once judging it would make no recording.
  ghost predicate Settled(env: Env, st: State, p: Program)
    requires p.showings != []
  {
    !Decide(env, st, p).Record?
  }

  ghost predicate SameFate(a: State, b: State, i: Identity) {
    (i in a.rows <==> i in b.rows) && (i in a.rows ==> a.rows[i] == b.rows[i] && FateOf(a.rows[i], a.recs) == FateOf(b.rows[i], b.recs))
  }

  lemma SettledLater(env: Env, a: State, b: State, p: Program)
    requires ValidState(a) && ValidState(b) && p.showings != []
    requires Grows(env, a, b) && SameFate(a, b, p.identity)
    requires Settled(env, a, p)
    ensures Settled(env, b, p)
  {
    if VerdictOf(env, a, p).SkipAs? {
      BlockedStaysBlocked(env, a, b, p);
    }
  }

  lemma JudgingSettles(env: Env, st: State, p: Program)
    requires ValidState(st) && ValidEnv(env, st) && p.showings != []
    ensures Settled(env, Step(env, st, p), p)
  {
    StepValid(env, st, p);
    StepGrows(env, st, p);
    var d := Decide(env, st, p);
    if d.Refuse? {
      BlockedStaysBlocked(env, st, Step(env, st, p), p);
    }
  }

  lemma SettledThroughStep(env: Env, st: State, q: Program, p: Program)
    requires ValidState(st) && ValidEnv(env, st) && p.showings != [] && q.showings != [] && p.identity != q.identity
    requires Settled(env, st, p)
    ensures Settled(env, Step(env, st, q), p)
  {
    StepValid(env, st, q);
    StepGrows(env, st, q);
    SettledLater(env, st, Step(env, st, q), p);
  }

  lemma SettledStepMakesNothing(env: Env, st: State, p: Program)
    requires ValidState(st) && p.showings != [] && Settled(env, st, p)
    ensures Step(env, st, p).recs == st.recs && Step(env, st, p).nextId == st.nextId
    ensures forall i: Identity :: i != p.identity ==> SameFate(st, Step(env, st, p), i)
  {
  }

  ghost predicate AllSettled(env: Env, st: State, ps: seq<Program>)
    requires forall i :: 0 <= i < |ps| ==> ps[i].showings != []
  {
    forall i :: 0 <= i < |ps| ==> Settled(env, st, ps[i])
  }

  lemma StepSettles(env: Env, st: State, ps: seq<Program>)
    requires ps != [] && ValidState(st) && ValidEnv(env, st) && ValidPrograms(ps) && AllSettled(env, st, ps[..|ps| - 1])
    ensures AllSettled(env, Step(env, st, ps[|ps| - 1]), ps)
  {
    var front, last := ps[..|ps| - 1], ps[|ps| - 1];
    JudgingSettles(env, st, last);
    forall i | 0 <= i < |front| ensures Settled(env, Step(env, st, last), ps[i]) {
      assert front[i] == ps[i];
      SettledThroughStep(env, st, last, ps[i]);
    }
  }

  lemma {:induction false} PassSettles(env: Env, st: State, ps: seq<Program>)
    requires ValidState(st) && ValidEnv(env, st) && ValidPrograms(ps)
    ensures AllSettled(env, Pass(env, st, ps), ps)
  {
    if ps != [] {
      PassValid(env, st, ps[..|ps| - 1]);
      PassSettles(env, st, ps[..|ps| - 1]);
      StepSettles(env, Pass(env, st, ps[..|ps| - 1]), ps);
    }
  }

  ghost predicate NothingMade(st: State, after: State, ps: seq<Program>) {
    && after.recs == st.recs && after.nextId == st.nextId
    && forall i: Identity :: (forall k :: 0 <= k < |ps| ==> ps[k].identity != i) ==> SameFate(st, after, i)
  }

  lemma NothingMadeNext(st: State, before: State, after: State, ps: seq<Program>)
    requires ps != [] && NothingMade(st, before, ps[..|ps| - 1]) && after.recs == before.recs && after.nextId == before.nextId
    requires forall i: Identity :: i != ps[|ps| - 1].identity ==> SameFate(before, after, i)
    ensures NothingMade(st, after, ps)
  {
    forall i: Identity | forall k :: 0 <= k < |ps| ==> ps[k].identity != i ensures SameFate(st, after, i) {
      assert forall k :: 0 <= k < |ps| - 1 ==> ps[..|ps| - 1][k] == ps[k];
      assert ps[|ps| - 1].identity != i;
      assert SameFate(st, before, i) && SameFate(before, after, i);
    }
  }

  lemma {:induction false} SettledPassMakesNothing(env: Env, st: State, ps: seq<Program>)
    requires ValidState(st) && ValidEnv(env, st) && ValidPrograms(ps)
    requires forall i :: 0 <= i < |ps| ==> Settled(env, st, ps[i])
    ensures NothingMade(st, Pass(env, st, ps), ps)
  {
    if ps != [] {
      var front, last := ps[..|ps| - 1], ps[|ps| - 1];
      var before := Pass(env, st, front);
      PassValid(env, st, front);
      PassGrows(env, st, front);
      assert forall i :: 0 <= i < |front| ==> front[i] == ps[i];
      SettledPassMakesNothing(env, st, front);
      assert SameFate(st, before, last.identity);
      SettledLater(env, st, before, last);
      SettledStepMakesNothing(env, before, last);
      NothingMadeNext(st, before, Step(env, before, last), ps);
    }
  }

  // The state a later evaluation reads back: the same ledger, every recording of the earlier
  // state under its own listing's episode, and whatever else was recorded since.
  ghost predicate ReadBack(env: Env, a: State, b: State) {
    && a.rows == b.rows && a.nextId <= b.nextId
    && (forall id :: id in a.recs ==>
          id in b.recs && b.recs[id].(episode := a.recs[id].episode) == a.recs[id]
          && (Identified(a.recs[id]) ==> IdentityOfLib(env.eps, b.recs[id]) == IdentityOfLib(env.eps, a.recs[id])))
    && (forall id :: id in b.recs && id !in a.recs ==> id >= a.nextId)
  }

  lemma ReadBackBlocksAsMuch(env: Env, a: State, b: State)
    requires ValidState(a) && ValidState(b) && ReadBack(env, a, b)
    ensures Grows(env, a, b)
    ensures forall i :: SameFate(a, b, i)
  {
    forall k | k in a.rows ensures FateOf(a.rows[k], a.recs) == FateOf(b.rows[k], b.recs) {
      if a.rows[k].recording.Some? {
        var id := a.rows[k].recording.value;
        assert id in a.recs <==> id in b.recs;
      }
    }
  }

  // Evaluating again what an evaluation left behind schedules nothing - also after other rules
  // and other people have added recordings of their own in between.
  lemma EvaluationIsIdempotent(env: Env, st: State, ps: seq<Program>, again: State)
    requires ValidState(st) && ValidEnv(env, st) && ValidPrograms(ps)
    requires ValidState(again) && ReadBack(env, Pass(env, st, ps), again)
    ensures Pass(env, again, ps).recs == again.recs && Pass(env, again, ps).nextId == again.nextId
  {
    var done := Pass(env, st, ps);
    PassValid(env, st, ps);
    PassSettles(env, st, ps);
    ReadBackBlocksAsMuch(env, done, again);
    forall i | 0 <= i < |ps| ensures Settled(env, again, ps[i]) {
      assert Settled(env, done, ps[i]) && SameFate(done, again, ps[i].identity);
      SettledLater(env, done, again, ps[i]);
    }
    SettledPassMakesNothing(env, again, ps);
  }

  // ---- the sliding limit -------------------------------------------------------------------

  // Looking only at the windows that open at a pick, or at the showing itself, misses nothing:
  // any overfull window around `t` can be slid up to one of those without losing a pick.
  lemma LimitCheckIsExact(env: Env, st: State, t: int)
    requires env.settings.limit.Some?
    ensures var l := env.settings.limit.value;
      OverLimit(env, st, t) <==> exists s :: s <= t < s + l.window && WindowFull(st, l, s)
  {
    var l := env.settings.limit.value;
    if s :| s <= t < s + l.window && WindowFull(st, l, s) {
      var s' := SlideUp(st, s, t);
      assert CountingIn(st, s, s + l.window) <= CountingIn(st, s', s' + l.window);
      SubsetSize(CountingIn(st, s, s + l.window), CountingIn(st, s', s' + l.window));
      assert CandidateWindow(st, l, t, s') && WindowFull(st, l, s');
    }
  }

  // The first counting pick at or after `s`, or `t` when there is none up to `t`.
  lemma SlideUp(st: State, s: int, t: int) returns (s': int)
    requires s <= t
    ensures s <= s' <= t
    ensures s' == t || CountingIn(st, s', s' + 1) != {}
    ensures forall k :: k in CountingIn(st, s, t + 1) ==> s' <= k.start
    decreases t - s
  {
    if s == t || CountingIn(st, s, s + 1) != {} {
      return s;
    }
    s' := SlideUp(st, s + 1, t);
    forall k | k in CountingIn(st, s, t + 1) ensures s' <= k.start {
      assert k.start == s ==> k in CountingIn(st, s, s + 1);
      assert k.start > s ==> k in CountingIn(st, s + 1, t + 1);
    }
  }

  // Was the i-th program of the pass recorded by it?
  ghost predicate Recorded(env: Env, st: State, ps: seq<Program>, i: nat)
    requires i < |ps| && forall j :: 0 <= j < |ps| ==> ps[j].showings != []
  {
    Decide(env, Pass(env, st, ps[..i]), ps[i]).Record?
  }

  lemma PickCounts(rule: int, st: State, i: Identity, lead: Showing, pl: Placement, lo: int, hi: int)
    requires ValidState(st)
    ensures CountingIn(MakePick(rule, st, i, lead, pl), lo, hi) <= CountingIn(st, lo, hi) + if lo <= i.start < hi then {i} else {}
  {
  }

  lemma VerdictCounts(st: State, i: Identity, lead: Showing, a: Action, lo: int, hi: int)
    requires !a.ActScheduled?
    ensures CountingIn(st.(rows := WriteVerdict(st.rows, i, lead, a)), lo, hi) <= CountingIn(st, lo, hi)
  {
  }

  lemma StepCounts(env: Env, st: State, p: Program, lo: int, hi: int)
    requires ValidState(st) && p.showings != []
    ensures CountingIn(Step(env, st, p), lo, hi)
      <= CountingIn(st, lo, hi) + (if Decide(env, st, p).Record? && lo <= p.identity.start < hi then {p.identity} else {})
  {
    match Decide(env, st, p)
    case Record(pl) => PickCounts(env.rule, st, p.identity, p.showings[0], pl, lo, hi);
    case Refuse(a) => VerdictCounts(st, p.identity, p.showings[0], a, lo, hi);
    case _ =>
  }

  lemma RecordedLeftRoom(env: Env, st: State, p: Program, s: int)
    requires ValidState(st) && p.showings != [] && Decide(env, st, p).Record?
    requires env.settings.limit.Some? && s <= p.identity.start < s + env.settings.limit.value.window
    ensures !WindowFull(st, env.settings.limit.value, s)
  {
    LimitCheckIsExact(env, st, p.identity.start);
  }

  lemma OneMoreFits(st: State, after: State, i: Identity, s: int, l: Limit)
    requires CountingIn(after, s, s + l.window) <= CountingIn(st, s, s + l.window) + {i} && !WindowFull(st, l, s)
    ensures |CountingIn(after, s, s + l.window)| <= l.count
  {
    SubsetSize(CountingIn(after, s, s + l.window), CountingIn(st, s, s + l.window) + {i});
  }

  // Would judging `p` record it in the window from `s`?
  ghost predicate MakesIn(env: Env, st: State, p: Program, s: int)
    requires p.showings != [] && env.settings.limit.Some?
  {
    Decide(env, st, p).Record? && s <= p.identity.start < s + env.settings.limit.value.window
  }

  ghost predicate LeavesAtMost(env: Env, st: State, p: Program, s: int, n: nat)
    requires p.showings != [] && env.settings.limit.Some?
  {
    |CountingIn(Step(env, st, p), s, s + env.settings.limit.value.window)| <= n
  }

  lemma RecordingFits(env: Env, st: State, p: Program, s: int)
    requires ValidState(st) && p.showings != [] && env.settings.limit.Some? && MakesIn(env, st, p, s)
    ensures LeavesAtMost(env, st, p, s, env.settings.limit.value.count)
  {
    var l := env.settings.limit.value;
    PickCounts(env.rule, st, p.identity, p.showings[0], Decide(env, st, p).placement, s, s + l.window);
    RecordedLeftRoom(env, st, p, s);
    OneMoreFits(st, Step(env, st, p), p.identity, s, l);
  }

  lemma OtherWindowsNeverFill(env: Env, st: State, p: Program, s: int)
    requires ValidState(st) && p.showings != [] && env.settings.limit.Some? && !MakesIn(env, st, p, s)
    ensures LeavesAtMost(env, st, p, s, |CountingIn(st, s, s + env.settings.limit.value.window)|)
  {
    var hi := s + env.settings.limit.value.window;
    StepCounts(env, st, p, s, hi);
    SubsetSize(CountingIn(Step(env, st, p), s, hi), CountingIn(st, s, hi));
  }

  lemma WindowAfterStep(env: Env, st: State, p: Program, s: int)
    requires ValidState(st) && p.showings != [] && env.settings.limit.Some?
    ensures LeavesAtMost(env, st, p, s,
      if MakesIn(env, st, p, s) then env.settings.limit.value.count else |CountingIn(st, s, s + env.settings.limit.value.window)|)
  {
    if MakesIn(env, st, p, s) { RecordingFits(env, st, p, s); } else { OtherWindowsNeverFill(env, st, p, s); }
  }

  lemma RecordedEarlier(env: Env, st: State, ps: seq<Program>, i: nat, s: int)
    requires i < |ps| && (forall j :: 0 <= j < |ps| ==> ps[j].showings != []) && Recorded(env, st, ps, i)
    requires env.settings.limit.Some? && s <= ps[i].identity.start < s + env.settings.limit.value.window
    ensures i == |ps| - 1 ==> MakesIn(env, Pass(env, st, ps[..|ps| - 1]), ps[|ps| - 1], s)
    ensures i < |ps| - 1 ==> Recorded(env, st, ps[..|ps| - 1], i)
  {
    if i < |ps| - 1 { assert ps[..|ps| - 1][..i] == ps[..i]; }
  }

  // After a pass, every window of the rule's length around a showing it picked holds at most
  // `count` picks - the ones made before it, and the ones it made earlier and later.
  lemma {:induction false} PassKeepsLimit(env: Env, st: State, ps: seq<Program>, i: nat, s: int)
    requires ValidState(st) && ValidEnv(env, st)
    requires forall j :: 0 <= j < |ps| ==> ps[j].showings != []
    requires env.settings.limit.Some? && i < |ps| && Recorded(env, st, ps, i)
    requires s <= ps[i].identity.start < s + env.settings.limit.value.window
    ensures |CountingIn(Pass(env, st, ps), s, s + env.settings.limit.value.window)| <= env.settings.limit.value.count
  {
    var front, last := ps[..|ps| - 1], ps[|ps| - 1];
    PassValid(env, st, front);
    RecordedEarlier(env, st, ps, i, s);
    WindowAfterStep(env, Pass(env, st, front), last, s);
    if i < |front| { PassKeepsLimit(env, st, front, i, s); }
  }

  // ---- nothing twice -----------------------------------------------------------------------

  ghost function Holders(eps: SlotMap, recs: Recs, i: Identity): set<int> {
    set id | id in recs && RecordsProgram(eps, recs[id], i)
  }

  // Identities handed out by the slots read back as themselves.
  ghost predicate StableIdentities(eps: SlotMap, ps: seq<Program>) {
    forall j :: 0 <= j < |ps| ==> IdentityOf(eps, ps[j].identity.title, ps[j].identity.start, ps[j].identity.episode) == ps[j].identity
  }

  lemma PickHolds(env: Env, st: State, p: Program, pl: Placement, i: Identity)
    requires ValidState(st) && p.showings != [] && i.title != ""
    requires IdentityOf(env.eps, p.identity.title, p.identity.start, p.identity.episode) == p.identity
    ensures Holders(env.eps, MakePick(env.rule, st, p.identity, p.showings[0], pl).recs, i)
      == Holders(env.eps, st.recs, i) + if i == p.identity then {st.nextId} else {}
  {
    var made := Created(env.rule, st.nextId, p.identity, pl);
    assert RecordsProgram(env.eps, made, i) <==> i == p.identity;
    assert st.nextId !in st.recs;
  }

  lemma UnrecordedHasNone(env: Env, st: State, p: Program)
    requires p.showings != [] && Decide(env, st, p).Record?
    ensures Holders(env.eps, st.recs, p.identity) == {}
  {
    assert !Existing(env.eps, st.recs, p);
    assert forall id :: id in st.recs ==> !RecordsProgram(env.eps, st.recs[id], p.identity);
  }

  lemma StepNeverDoubles(env: Env, st: State, p: Program, i: Identity)
    requires ValidState(st) && p.showings != [] && i.title != ""
    requires IdentityOf(env.eps, p.identity.title, p.identity.start, p.identity.episode) == p.identity
    ensures var was, now := Holders(env.eps, st.recs, i), Holders(env.eps, Step(env, st, p).recs, i);
      now == was || (was == {} && |now| == 1)
  {
    match Decide(env, st, p)
    case Record(pl) =>
      PickHolds(env, st, p, pl, i);
      UnrecordedHasNone(env, st, p);
    case _ =>
  }

  // A pass leaves the recordings of a titled program as they were, or makes the only one.
  lemma {:induction false} PassNeverDoubles(env: Env, st: State, ps: seq<Program>, i: Identity)
    requires ValidState(st) && ValidEnv(env, st) && ValidPrograms(ps) && StableIdentities(env.eps, ps)
    requires i.title != ""
    ensures var was, now := Holders(env.eps, st.recs, i), Holders(env.eps, Pass(env, st, ps).recs, i);
      now == was || (was == {} && |now| == 1)
  {
    if ps != [] {
      var front, last := ps[..|ps| - 1], ps[|ps| - 1];
      PassValid(env, st, front);
      PassNeverDoubles(env, st, front, i);
      StepNeverDoubles(env, Pass(env, st, front), last, i);
    }
  }

  // With no title there is no identity to look up: the existing check is down to the air time.
  lemma UntitledExistingIsCoverage(eps: SlotMap, recs: Recs, p: Program)
    requires p.identity.title == ""
    ensures Existing(eps, recs, p) <==> exists id, s :: id in recs && s in p.showings && CoversShowing(recs[id], s)
  {
  }

  // So a pass can record an untitled listing beside a recording of that very listing, on its own
  // channel: it is enough that somebody moved the recording's start.
  lemma UntitledProgramsCanDouble() returns (env: Env, st: State, p: Program, rec: Lib)
    ensures ValidState(st) && ValidEnv(env, st) && ValidPrograms([p]) && p.identity.title == ""
    ensures st.recs == map[rec.id := rec] && SpokenFor(rec.status)
    ensures rec.title == "" && rec.episode == p.identity.episode && rec.programStart == Some(p.identity.start)
    ensures exists s :: s in p.showings && rec.channel == Some(s.channel)
    ensures Recorded(env, st, [p], 0)
  {
    var s := Showing(1, 7, None, "", "", 100, 200, 0);
    p := Program(Identity("", "", 100), [s]);
    rec := Lib(1, Scheduled, NoReason, "", "", Some(100), Some(7), None, 110, 200, Some(2));
    assert s in p.showings;
    st := State(map[], map[1 := rec], 2);
    env := Env(1, Settings(true, None, 0), map[], {}, map[1 := Placement(Some(7), None, 100, 200)]);
    UntitledExistingIsCoverage(env.eps, st.recs, p);
    assert !CoversShowing(rec, s);
    assert !Existing(env.eps, st.recs, p);
    assert VerdictOf(env, st, p) == Go;
    assert [p][..0] == [];
  }

  lemma NextPrefixGrows(env: Env, st: State, ps: seq<Program>, k: nat, a: State)
    requires ValidState(st) && ValidEnv(env, st) && k < |ps|
    requires forall i :: 0 <= i < |ps| ==> ps[i].showings != []
    requires Grows(env, a, Pass(env, st, ps[..k]))
    ensures Grows(env, a, Pass(env, st, ps[..k + 1]))
  {
    PassValid(env, st, ps[..k]);
    assert ps[..k + 1][..k] == ps[..k];
    StepGrows(env, Pass(env, st, ps[..k]), ps[k]);
    GrowsChain(env, a, Pass(env, st, ps[..k]), Pass(env, st, ps[..k + 1]));
  }

  lemma {:induction false} PrefixGrows(env: Env, st: State, ps: seq<Program>, j: nat, k: nat, a: State)
    requires ValidState(st) && ValidEnv(env, st) && j <= k <= |ps|
    requires forall i :: 0 <= i < |ps| ==> ps[i].showings != []
    requires Grows(env, a, Pass(env, st, ps[..j]))
    ensures Grows(env, a, Pass(env, st, ps[..k]))
    decreases k
  {
    if j < k {
      PrefixGrows(env, st, ps, j, k - 1, a);
      NextPrefixGrows(env, st, ps, k - 1, a);
    }
  }

  lemma GrowsItself(env: Env, a: State)
    ensures Grows(env, a, a)
  {
  }

  ghost predicate PickedEarlier(st: State, k: Identity, i: Identity) { k in st.rows && EarlierPick(st.rows[k], st.recs, i) }

  lemma PickIsEarlier(env: Env, st: State, p: Program, i: Identity)
    requires p.showings != [] && Decide(env, st, p).Record?
    requires p.identity.title == i.title && p.identity.episode == i.episode && p.identity.start < i.start
    ensures PickedEarlier(Step(env, st, p), p.identity, i)
  {
  }

  lemma PickedEarlierStays(env: Env, a: State, b: State, k: Identity, i: Identity)
    requires ValidState(a) && ValidState(b) && Grows(env, a, b) && PickedEarlier(a, k, i)
    ensures PickedEarlier(b, k, i)
  {
  }

  lemma RepeatIsRefused(env: Env, st: State, p: Program, k: Identity)
    requires p.showings != [] && env.settings.skipRepeats && p.identity.episode != "" && PickedEarlier(st, k, p.identity)
    ensures !Decide(env, st, p).Record?
  {
    assert Repeat(env, st, p.identity);
  }

  lemma RecordedIsPicked(env: Env, st: State, ps: seq<Program>, j: nat, i: Identity)
    requires ValidState(st) && ValidEnv(env, st) && j < |ps| && ValidPrograms(ps) && Recorded(env, st, ps, j)
    requires ps[j].identity.title == i.title && ps[j].identity.episode == i.episode && ps[j].identity.start < i.start
    ensures ValidState(Pass(env, st, ps[..j + 1])) && PickedEarlier(Pass(env, st, ps[..j + 1]), ps[j].identity, i)
  {
    assert ps[..j + 1][..j] == ps[..j];
    PassValid(env, st, ps[..j + 1]);
    PickIsEarlier(env, Pass(env, st, ps[..j]), ps[j], i);
  }

  // With skip-repeats on, one pass picks at most one airing of an episode: the earliest wins,
  // because programs are judged in start order.
  lemma PassPicksOneAiring(env: Env, st: State, ps: seq<Program>, j: nat, k: nat)
    requires ValidState(st) && ValidEnv(env, st) && ValidPrograms(ps)
    requires env.settings.skipRepeats && j < k < |ps|
    requires ps[j].identity.title == ps[k].identity.title
    requires ps[j].identity.episode == ps[k].identity.episode != ""
    ensures !(Recorded(env, st, ps, j) && Recorded(env, st, ps, k))
  {
    if Recorded(env, st, ps, j) {
      var i := ps[k].identity;
      RecordedIsPicked(env, st, ps, j, i);
      GrowsItself(env, Pass(env, st, ps[..j + 1]));
      PrefixGrows(env, st, ps, j + 1, k, Pass(env, st, ps[..j + 1]));
      PassValid(env, st, ps[..k]);
      PickedEarlierStays(env, Pass(env, st, ps[..j + 1]), Pass(env, st, ps[..k]), ps[j].identity, i);
      RepeatIsRefused(env, Pass(env, st, ps[..k]), ps[k], ps[j].identity);
    }
  }

  lemma PickUsesCap(env: Env, st: State, i: Identity, lead: Showing, pl: Placement)
    requires ValidState(st)
    ensures ScheduledIds(MakePick(env.rule, st, i, lead, pl).recs, env.rule) == ScheduledIds(st.recs, env.rule) + {st.nextId}
    ensures st.nextId !in ScheduledIds(st.recs, env.rule)
  {
    assert CountsTowardCap(Created(env.rule, st.nextId, i, pl), env.rule);
  }

  lemma StepStaysUnderCap(env: Env, st: State, p: Program)
    requires ValidState(st) && env.settings.cap > 0 && p.showings != []
    ensures var was, now := |ScheduledIds(st.recs, env.rule)|, |ScheduledIds(Step(env, st, p).recs, env.rule)|;
      was <= now && (now == was || now <= env.settings.cap)
  {
    match Decide(env, st, p)
    case Record(pl) => PickUsesCap(env, st, p.identity, p.showings[0], pl);
    case _ =>
  }

  lemma {:induction false} PassStaysUnderCap(env: Env, st: State, ps: seq<Program>)
    requires ValidState(st) && ValidEnv(env, st) && env.settings.cap > 0
    requires forall i :: 0 <= i < |ps| ==> ps[i].showings != []
    ensures var was, now := |ScheduledIds(st.recs, env.rule)|, |ScheduledIds(Pass(env, st, ps).recs, env.rule)|;
      was <= now && (now == was || now <= env.settings.cap)
  {
    if ps != [] {
      var front, last := ps[..|ps| - 1], ps[|ps| - 1];
      PassValid(env, st, front);
      PassStaysUnderCap(env, st, front);
      StepStaysUnderCap(env, Pass(env, st, front), last);
    }
  }

  // ---- the slots do not move under a pass ---------------------------------------------------

  ghost predicate ListsEpisode(showings: seq<Showing>, st: State, title: string, start: int, episode: string) {
    && title != "" && episode != ""
    && ((exists s :: s in showings && s.title == title && s.start == start && s.episode == episode)
        || (exists k :: k in st.rows && k == Identity(title, episode, start))
        || (exists id :: id in st.recs && st.recs[id].title == title && st.recs[id].programStart == Some(start)
                         && st.recs[id].episode == episode))
  }

  ghost predicate InSlot(eps: SlotMap, title: string, start: int, episode: string) {
    (title, start) in eps && episode in eps[(title, start)]
  }

  // `eps` is what reading the showings, the ledger and the library into empty slots gives.
  ghost predicate SlotsOf(eps: SlotMap, showings: seq<Showing>, st: State) {
    ValidSlots(eps)
    && forall t, s, e :: InSlot(eps, t, s, e) <==> ListsEpisode(showings, st, t, s, e)
  }

  ghost predicate FromShowings(eps: SlotMap, showings: seq<Showing>, p: Program) {
    && ValidProgram(p) && p.showings[0] in showings
    && p.identity == IdentityOf(eps, p.showings[0].title, p.showings[0].start, p.showings[0].episode)
  }

  lemma IdentityEpisodeListed(eps: SlotMap, showings: seq<Showing>, st: State, p: Program)
    requires SlotsOf(eps, showings, st) && FromShowings(eps, showings, p)
    ensures p.identity.title != "" && p.identity.episode != "" ==> InSlot(eps, p.identity.title, p.identity.start, p.identity.episode)
  {
    var lead := p.showings[0];
    if lead.title != "" && lead.episode != "" {
      assert ListsEpisode(showings, st, lead.title, lead.start, lead.episode);
    }
  }

  // The ledger rows and recordings a pass adds carry only episodes their slot already listed,
  // so the next evaluation groups the same showings into the same programs.
  lemma {:induction false} PassKeepsSlots(env: Env, showings: seq<Showing>, st: State, ps: seq<Program>)
    requires ValidState(st) && ValidEnv(env, st) && SlotsOf(env.eps, showings, st)
    requires forall i :: 0 <= i < |ps| ==> ps[i].showings != [] && FromShowings(env.eps, showings, ps[i])
    ensures SlotsOf(env.eps, showings, Pass(env, st, ps))
  {
    if ps != [] {
      var front, last := ps[..|ps| - 1], ps[|ps| - 1];
      var before, after := Pass(env, st, front), Pass(env, st, ps);
      PassValid(env, st, front);
      PassKeepsSlots(env, showings, st, front);
      IdentityEpisodeListed(env.eps, showings, before, last);
      forall t, s, e ensures InSlot(env.eps, t, s, e) <==> ListsEpisode(showings, after, t, s, e) {
        assert InSlot(env.eps, t, s, e) <==> ListsEpisode(showings, before, t, s, e);
        StepLists(env, showings, before, last, t, s, e);
      }
    }
  }

  lemma StepLists(env: Env, showings: seq<Showing>, st: State, p: Program, t: string, s: int, e: string)
    requires ValidState(st) && p.showings != []
    ensures ListsEpisode(showings, st, t, s, e) ==> ListsEpisode(showings, Step(env, st, p), t, s, e)
    ensures ListsEpisode(showings, Step(env, st, p), t, s, e) ==>
      ListsEpisode(showings, st, t, s, e) || (t != "" && e != "" && p.identity == Identity(t, e, s))
  {
    var after := Step(env, st, p);
    if id :| id in st.recs && st.recs[id].title == t && st.recs[id].programStart == Some(s) && st.recs[id].episode == e {
      assert after.recs[id] == st.recs[id];
    }
    if k :| k in st.rows && k == Identity(t, e, s) {
      assert k in after.rows;
    }
  }
}
