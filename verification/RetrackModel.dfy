// Following a program the guide moved, as a walk over a rule's picks (app/auto_rules.py `_retrack`,
// `_retrack_target`, `_holder`): whom each pick follows, whether its target is held, and what
// that leaves of the rows, the ledger's keys and the library.
module RetrackModel {
  import opened Common
  import opened RuleModel
  import opened RuleJudge

  // ---- the nearest target ------------------------------------------------------------------

  type Members = map<int, set<int>>

  predicate OnRowsChannel(s: Showing, row: Row, members: Members) {
    || row.channel == Some(s.channel)
    || (row.group.Some? && (s.group == row.group
                            || (row.group.value in members && s.channel in members[row.group.value])))
  }

  predicate Eligible(p: Program, row: Row, keys: set<Identity>, taken: set<Identity>, members: Members) {
    && p.identity.start != row.key.start && p.identity !in keys && p.identity !in taken
    && exists s :: s in p.showings && OnRowsChannel(s, row, members)
  }

  function Distance(a: int, b: int): nat { if a < b then b - a else a - b }

  // Nearer in time, the earlier of two equally near.
  predicate Nearer(row: Row, a: int, b: int) {
    Distance(a, row.key.start) < Distance(b, row.key.start) || (Distance(a, row.key.start) == Distance(b, row.key.start) && a < b)
  }

  datatype Target = NoTarget | Target(program: Program, showing: Showing)

  // `q` is as far from `at` as `p` or farther, on either side, and no earlier when as far.
  predicate NoNearer(at: int, q: int, p: int) {
    && (q >= at ==> p - at <= q - at && at - p <= q - at)
    && (q <= at ==> p - at <= at - q && at - p <= at - q)
    && (p + q == at + at ==> p <= q)
  }

  ghost predicate IsNearestTarget(t: Target, row: Row, programs: seq<Program>, keys: set<Identity>, taken: set<Identity>,
                                  members: Members)
  {
    match t
    case NoTarget => forall p :: p in programs ==> !Eligible(p, row, keys, taken, members)
    case Target(p, s) =>
      && p in programs && Eligible(p, row, keys, taken, members)
      && s in p.showings && OnRowsChannel(s, row, members)
      && forall q :: q in programs && Eligible(q, row, keys, taken, members) ==> NoNearer(row.key.start, q.identity.start, p.identity.start)
  }

  function FirstShowing(showings: seq<Showing>, row: Row, members: Members): Option<Showing> {
    if showings == [] then None
    else
      var s, last := FirstShowing(showings[..|showings| - 1], row, members), showings[|showings| - 1];
      if s.None? && OnRowsChannel(last, row, members) then Some(last) else s
  }

  lemma {:induction false} FirstShowingIs(showings: seq<Showing>, row: Row, members: Members)
    ensures var s := FirstShowing(showings, row, members);
      && (s.None? ==> forall x :: x in showings ==> !OnRowsChannel(x, row, members))
      && (s.Some? ==> s.value in showings && OnRowsChannel(s.value, row, members))
  {
    if showings != [] {
      var front, last := showings[..|showings| - 1], showings[|showings| - 1];
      assert showings == front + [last];
      FirstShowingIs(front, row, members);
    }
  }

  lemma {:induction false} FirstStands(showings: seq<Showing>, row: Row, members: Members, n: nat)
    requires n <= |showings| && FirstShowing(showings[..n], row, members).Some?
    ensures FirstShowing(showings, row, members) == FirstShowing(showings[..n], row, members)
    decreases |showings| - n
  {
    if n < |showings| {
      assert showings[..n + 1][..n] == showings[..n];
      FirstStands(showings, row, members, n + 1);
    } else {
      assert showings[..n] == showings;
    }
  }

  // The target of one pick among the programs of its title and episode.
  function TargetOf(row: Row, programs: seq<Program>, keys: set<Identity>, taken: set<Identity>, members: Members): Target {
    if programs == [] then NoTarget
    else
      var best, p := TargetOf(row, programs[..|programs| - 1], keys, taken, members), programs[|programs| - 1];
      var s := FirstShowing(p.showings, row, members);
      if p.identity.start != row.key.start && p.identity !in keys && p.identity !in taken && s.Some?
         && (best.NoTarget? || Nearer(row, p.identity.start, best.program.identity.start))
      then Target(p, s.value) else best
  }

  // The chosen target is the nearest eligible one; there is none only when none is eligible.
  lemma {:induction false} TargetIsNearest(row: Row, programs: seq<Program>, keys: set<Identity>, taken: set<Identity>, members: Members)
    ensures IsNearestTarget(TargetOf(row, programs, keys, taken, members), row, programs, keys, taken, members)
  {
    if programs != [] {
      var front, p := programs[..|programs| - 1], programs[|programs| - 1];
      TargetIsNearest(row, front, keys, taken, members);
      FirstShowingIs(p.showings, row, members);
      assert programs == front + [p];
    }
  }

  // ---- is the target already recorded? -----------------------------------------------------

  // What the guide lists, one key per listing.
  type Guide = set<(string, string, int)>

  // A listing that names no episode may be the program, so it holds a pick where it is.
  predicate IsListed(guide: Guide, title: string, episode: string, start: int) {
    if episode != "" then (title, episode, start) in guide || (title, "", start) in guide
    else exists g :: g in guide && g.0 == title && g.2 == start
  }

  ghost predicate RecordsTarget(eps: SlotMap, rec: Lib, p: Program, s: Showing, channel: Option<int>, group: Option<int>) {
    || RecordsProgram(eps, rec, p.identity)
    || (exists x :: x in p.showings && CoversShowing(rec, x))
    || (SpokenFor(rec.status) && ((channel.Some? && rec.channel == channel) || (group.Some? && rec.group == group))
        && rec.start <= s.start && rec.stop >= s.stop)
  }

  // About to follow its own program away: scheduled by a rule, unedited, and no longer listed.
  predicate Displaced(rec: Lib, userModified: set<int>, guide: Guide) {
    && rec.rule.Some? && rec.status == Scheduled && rec.id !in userModified
    && rec.episode != "" && rec.title != "" && rec.programStart.Some?
    && !IsListed(guide, rec.title, rec.episode, rec.programStart.value)
  }

  // The channel and group a pick's recording would land on.
  function PlaceOf(row: Row, recs: Recs): (Option<int>, Option<int>) {
    if row.recording.Some? && row.recording.value in recs
    then (recs[row.recording.value].channel, recs[row.recording.value].group) else (row.channel, row.group)
  }

  // Does this recording, another than the pick's own, hold the target?
  ghost predicate HoldsTarget(eps: SlotMap, edited: set<int>, rec: Lib, guide: Guide, p: Program, s: Showing, row: Row, place: (Option<int>, Option<int>)) {
    Some(rec.id) != row.recording && RecordsTarget(eps, rec, p, s, place.0, place.1) && !Displaced(rec, edited, guide)
  }

  ghost predicate IsHeld(eps: SlotMap, edited: set<int>, recs: Recs, guide: Guide, p: Program, s: Showing, row: Row) {
    exists id :: id in recs && HoldsTarget(eps, edited, recs[id], guide, p, s, row, PlaceOf(row, recs))
  }

  // Any other spoken-for recording of a listed target holds it - it cannot count as displaced,
  // its own program being the listed one.
  lemma RecordedTargetIsHeld(eps: SlotMap, edited: set<int>, recs: Recs, guide: Guide, p: Program, s: Showing, row: Row, id: int)
    requires p.identity.episode != "" && IsListed(guide, p.identity.title, p.identity.episode, p.identity.start)
    requires id in recs && recs[id].id == id && RecordsProgram(eps, recs[id], p.identity) && Some(id) != row.recording
    ensures IsHeld(eps, edited, recs, guide, p, s, row)
  {
    assert recs[id].episode != "" ==> recs[id].episode == p.identity.episode;
    assert HoldsTarget(eps, edited, recs[id], guide, p, s, row, PlaceOf(row, recs));
  }

  // ---- one pick's turn ---------------------------------------------------------------------

  // Which picks the loop may follow at all.
  ghost predicate MayFollow(row: Row, programs: seq<Program>, now: int, recs: Recs, guide: Guide) {
    && row.action.ActScheduled? && row.key.start > now && row.key.episode != ""
    && (forall p :: p in programs ==> p.identity != row.key)
    && !IsListed(guide, row.key.title, row.key.episode, row.key.start)
    && (FateOf(row, recs).Known? ==> FateOf(row, recs).status != Failed)
  }

  predicate SameAs(p: Program, k: Identity) { p.identity.title == k.title && p.identity.episode == k.episode }

  function SameProgram(programs: seq<Program>, k: Identity): seq<Program> {
    if programs == [] then []
    else
      var front, last := SameProgram(programs[..|programs| - 1], k), programs[|programs| - 1];
      if SameAs(last, k) then front + [last] else front
  }

  lemma {:induction false} SameProgramIs(programs: seq<Program>, k: Identity)
    ensures forall p :: p in SameProgram(programs, k) <==> p in programs && SameAs(p, k)
  {
    if programs != [] {
      SameProgramIs(programs[..|programs| - 1], k);
      assert programs == programs[..|programs| - 1] + [programs[|programs| - 1]];
    }
  }

  // Gone: to be followed, and its program is listed at some free time other than its own.
  ghost predicate IsGone(row: Row, programs: seq<Program>, keys: set<Identity>, now: int, recs: Recs, guide: Guide) {
    && MayFollow(row, programs, now, recs, guide)
    && exists p :: p in programs && SameAs(p, row.key) && p.identity.start != row.key.start && p.identity !in keys
  }

  // At a listed program's time, with its title and episode kept.
  ghost predicate MovedRow(was: Row, row: Row, programs: seq<Program>) {
    && row.(key := was.key, stop := was.stop) == was
    && row.key == was.key.(start := row.key.start) && row.key != was.key
    && exists q :: q in programs && q.identity == row.key
  }

  lemma TargetKey(t: Target, row: Row, programs: seq<Program>)
    requires t.Target? && ValidPrograms(programs) && t.program in programs && t.showing in t.program.showings
    requires t.program.identity.title == row.key.title && t.program.identity.episode == row.key.episode
    ensures row.key.(start := t.showing.start) == t.program.identity
  {
  }

  // What the write unit answered. It decides by what it reads itself: a recording still scheduled
  // and unedited moves, an edited one is let go, and for any other only the row follows.
  datatype Answer = Moved(start: int, stop: int) | LetGo | Anchored | NothingToFollow | RuleChanged

  // What the write unit's answer leaves of the row.
  function RowAfter(row: Row, t: Target, answer: Answer): Row {
    if t.NoTarget? then row
    else
      match answer
      case Moved(_, _) => row.(key := t.program.identity, stop := t.showing.stop)
      case Anchored => row.(key := t.program.identity, stop := t.showing.stop)
      case LetGo => row.(action := UserModified)
      case _ => row
  }

  // The run's library follows a recording that moved.
  function MovedLib(recs: Recs, recording: Option<int>, s: Showing, start: int, stop: int): Recs {
    if recording.Some? && recording.value in recs
    then recs[recording.value := recs[recording.value].(programStart := Some(s.start), start := start, stop := stop)] else recs
  }

  function TargetIds(t: Target): set<Identity> { if t.Target? then {t.program.identity} else {} }

  // What stands still while the picks are followed.
  datatype Scene = Scene(eps: SlotMap, programs: seq<Program>, members: Members, guide: Guide)

  // The picks followed so far: their rows, the keys the ledger holds, the targets taken, which
  // picks' recordings moved, whether the rule turned out to have changed, the library, and the
  // recordings a person has edited.
  datatype Walk = Walk(rows: seq<Row>, keys: set<Identity>, taken: set<Identity>, moved: set<nat>, stopped: bool,
                       recs: Recs, edited: set<int>)

  function TargetAt(c: Scene, w: Walk, n: nat): Target
    requires n < |w.rows|
  {
    TargetOf(w.rows[n], SameProgram(c.programs, w.rows[n].key), w.keys, w.taken, c.members)
  }

  predicate StillScheduled(row: Row, recs: Recs) { FateOf(row, recs).Known? && FateOf(row, recs).status == Scheduled }

  // A pick whose recording would move stays when another recording already records its target.
  ghost predicate HeldAt(c: Scene, w: Walk, n: nat, t: Target)
    requires n < |w.rows|
  {
    && t.Target? && StillScheduled(w.rows[n], w.recs)
    && IsHeld(c.eps, w.edited, w.recs, c.guide, t.program, t.showing, w.rows[n])
  }

  function FollowedTo(w: Walk, n: nat, t: Target, answer: Answer): Walk
    requires n < |w.rows| && t.Target?
  {
    var row := w.rows[n];
    var now := RowAfter(row, t, answer);
    var next := w.(rows := w.rows[n := now], keys := w.keys - {row.key} + {now.key}, taken := w.taken + TargetIds(t));
    match answer
    case Moved(start, stop) => next.(moved := w.moved + {n}, recs := MovedLib(w.recs, row.recording, t.showing, start, stop))
    case LetGo => if row.recording.Some? then next.(edited := w.edited + {row.recording.value}) else next
    case RuleChanged => next.(stopped := true)
    case _ => next
  }

  ghost function TurnOf(c: Scene, w: Walk, n: nat, answer: Answer): Walk
    requires n < |w.rows|
  {
    var t := TargetAt(c, w, n);
    if w.stopped || t.NoTarget? then w
    else if HeldAt(c, w, n, t) then w.(taken := w.taken + TargetIds(t), stopped := answer == RuleChanged)
    else FollowedTo(w, n, t, answer)
  }

  lemma TurnIs(c: Scene, w: Walk, n: nat, answer: Answer, t: Target)
    requires n < |w.rows| && !w.stopped
    requires t == TargetOf(w.rows[n], SameProgram(c.programs, w.rows[n].key), w.keys, w.taken, c.members)
    ensures TurnOf(c, w, n, answer) ==
      if t.NoTarget? then w
      else if HeldAt(c, w, n, t) then w.(taken := w.taken + {t.program.identity}, stopped := answer == RuleChanged)
      else FollowedTo(w, n, t, answer)
  {
  }

  type Step = (Walk, nat) -> Walk

  ghost function StepOf(c: Scene, answers: seq<Answer>): Step {
    (w: Walk, n: nat) => if n < |w.rows| && n < |answers| then TurnOf(c, w, n, answers[n]) else w
  }

  // The first `n` picks' turns, each seeing what the earlier ones left.
  ghost function Turns(step: Step, start: Walk, n: nat): Walk {
    if n == 0 then start else step(Turns(step, start, n - 1), n - 1)
  }

  // What every turn from the `k`-th on keeps holds at the end when it holds at the `k`-th.
  lemma {:induction false} TurnsKeep(step: Step, start: Walk, kept: (Walk, nat) -> bool, k: nat, n: nat)
    requires k <= n && kept(Turns(step, start, k), k)
    requires forall w, m :: k <= m < n && kept(w, m) ==> kept(step(w, m), m + 1)
    ensures kept(Turns(step, start, n), n)
  {
    if k < n { TurnsKeep(step, start, kept, k, n - 1); }
  }

  function Start(rows: seq<Row>, keys: set<Identity>, recs: Recs, edited: set<int>): Walk {
    Walk(rows, keys, {}, {}, false, recs, edited)
  }

  // ---- what the walk keeps -----------------------------------------------------------------

  lemma StoppedStays(c: Scene, answers: seq<Answer>, start: Walk, n: nat, m: nat)
    requires n <= m && Turns(StepOf(c, answers), start, n).stopped
    ensures Turns(StepOf(c, answers), start, m) == Turns(StepOf(c, answers), start, n)
  {
    var step := StepOf(c, answers);
    var at := Turns(step, start, n);
    TurnsKeep(step, start, (w: Walk, k: nat) => w == at, n, m);
  }

  lemma TurnTakes(c: Scene, w: Walk, n: nat, answer: Answer)
    requires n < |w.rows|
    ensures w.taken <= TurnOf(c, w, n, answer).taken
    ensures !w.stopped ==> TargetIds(TargetAt(c, w, n)) <= TurnOf(c, w, n, answer).taken
  {
  }

  lemma TakenGrows(c: Scene, answers: seq<Answer>, start: Walk, n: nat, m: nat)
    requires n <= m
    ensures Turns(StepOf(c, answers), start, n).taken <= Turns(StepOf(c, answers), start, m).taken
  {
    var step := StepOf(c, answers);
    var taken := Turns(step, start, n).taken;
    forall w: Walk, k: nat | n <= k < m && taken <= w.taken ensures taken <= step(w, k).taken {
      if k < |w.rows| && k < |answers| { TurnTakes(c, w, k, answers[k]); }
    }
    TurnsKeep(step, start, (w: Walk, k: nat) => taken <= w.taken, n, m);
  }

  ghost predicate SentTo(c: Scene, w: Walk, n: nat, i: Identity) {
    n < |w.rows| && TargetAt(c, w, n).Target? && TargetAt(c, w, n).program.identity == i
  }

  lemma SentIsFree(c: Scene, w: Walk, n: nat, i: Identity)
    requires SentTo(c, w, n, i)
    ensures i !in w.taken
  {
    TargetIsNearest(w.rows[n], SameProgram(c.programs, w.rows[n].key), w.keys, w.taken, c.members);
  }

  lemma SentIsTaken(c: Scene, answers: seq<Answer>, w: Walk, n: nat, i: Identity)
    requires n < |answers| && SentTo(c, w, n, i) && !w.stopped
    ensures i in StepOf(c, answers)(w, n).taken
  {
    TurnTakes(c, w, n, answers[n]);
  }

  // No two picks are ever sent to one target, whatever became of the first.
  lemma NoTargetTwice(c: Scene, answers: seq<Answer>, start: Walk, i: nat, j: nat, x: Identity, y: Identity)
    requires i < j && i < |answers| && !Turns(StepOf(c, answers), start, i).stopped
    requires SentTo(c, Turns(StepOf(c, answers), start, i), i, x) && SentTo(c, Turns(StepOf(c, answers), start, j), j, y)
    ensures x != y
  {
    SentIsTaken(c, answers, Turns(StepOf(c, answers), start, i), i, x);
    TakenGrows(c, answers, start, i + 1, j);
    SentIsFree(c, Turns(StepOf(c, answers), start, j), j, y);
  }

  // Itself, let go, or at a listed program's time with its title and episode kept.
  ghost predicate Followed(was: Row, row: Row, programs: seq<Program>) {
    row == was || row == was.(action := UserModified) || MovedRow(was, row, programs)
  }

  ghost predicate Left(start: Walk, w: Walk, n: nat, programs: seq<Program>) {
    && n <= |w.rows| == |start.rows|
    && (forall k :: n <= k < |start.rows| ==> w.rows[k] == start.rows[k])
    && (forall k :: k in w.moved && k !in start.moved ==> k < n && MovedRow(start.rows[k], w.rows[k], programs))
    && (forall k :: 0 <= k < n ==> Followed(start.rows[k], w.rows[k], programs))
  }

  lemma TargetMoves(c: Scene, w: Walk, n: nat)
    requires n < |w.rows| && ValidPrograms(c.programs) && TargetAt(c, w, n).Target?
    ensures var t := TargetAt(c, w, n);
      && t.program in c.programs && SameAs(t.program, w.rows[n].key) && t.showing in t.program.showings
      && t.program.identity !in w.taken && t.showing.start == t.program.identity.start
      && MovedRow(w.rows[n], w.rows[n].(key := t.program.identity, stop := t.showing.stop), c.programs)
  {
    var row := w.rows[n];
    TargetIsNearest(row, SameProgram(c.programs, row.key), w.keys, w.taken, c.members);
    SameProgramIs(c.programs, row.key);
    TargetKey(TargetAt(c, w, n), row, c.programs);
  }

  lemma LeftNext(c: Scene, start: Walk, w: Walk, n: nat, answer: Answer)
    requires n < |start.rows| && Left(start, w, n, c.programs) && ValidPrograms(c.programs)
    ensures Left(start, TurnOf(c, w, n, answer), n + 1, c.programs)
  {
    if TargetAt(c, w, n).Target? { TargetMoves(c, w, n); }
  }

  // Each row is as it was until its own turn, and from then on as that left it; one that moved is
  // at a listed program.
  lemma TurnsLeave(c: Scene, answers: seq<Answer>, start: Walk, n: nat)
    requires n <= |start.rows| && n <= |answers| && ValidPrograms(c.programs)
    ensures Left(start, Turns(StepOf(c, answers), start, n), n, c.programs)
  {
    var step := StepOf(c, answers);
    forall w: Walk, m: nat | m < n && Left(start, w, m, c.programs) ensures Left(start, step(w, m), m + 1, c.programs) {
      LeftNext(c, start, w, m, answers[m]);
    }
    TurnsKeep(step, start, (w: Walk, m: nat) => Left(start, w, m, c.programs), 0, n);
  }

  // ---- a recording that moved is its program's only one ----------------------------------------

  // No other spoken-for recording records the program.
  ghost predicate Only(eps: SlotMap, recs: Recs, i: Identity, own: Option<int>) {
    forall id :: id in recs && RecordsProgram(eps, recs[id], i) ==> own == Some(id)
  }

  // What a pick's recording says of its program: the row's title, and its episode or none.
  ghost predicate Linked(row: Row, recs: Recs) {
    row.recording.Some? && row.recording.value in recs ==>
      var rec := recs[row.recording.value];
      rec.title == row.key.title && (rec.episode == "" || rec.episode == row.key.episode)
  }

  // The search's programs are in the guide, and their slots list their episodes.
  ghost predicate Listed(c: Scene) {
    forall p :: p in c.programs && p.identity.episode != "" ==>
      && IsListed(c.guide, p.identity.title, p.identity.episode, p.identity.start)
      && (p.identity.title != "" ==>
            (p.identity.title, p.identity.start) in c.eps && p.identity.episode in c.eps[(p.identity.title, p.identity.start)])
  }

  // A recording moved onto a target nothing held is the only one of it.
  lemma MoveLeavesOnly(c: Scene, w: Walk, n: nat, answer: Answer)
    requires n < |w.rows| && ValidPrograms(c.programs) && Listed(c) && !w.stopped && answer.Moved?
    requires var t := TargetAt(c, w, n); t.Target? && !HeldAt(c, w, n, t) && t.program.identity.episode != ""
    requires StillScheduled(w.rows[n], w.recs) && ById(w.recs)
    ensures Only(c.eps, TurnOf(c, w, n, answer).recs, TargetAt(c, w, n).program.identity, w.rows[n].recording)
  {
    var t, row := TargetAt(c, w, n), w.rows[n];
    TargetMoves(c, w, n);
    var after := TurnOf(c, w, n, answer).recs;
    forall id | id in after && RecordsProgram(c.eps, after[id], t.program.identity) ensures row.recording == Some(id) {
      if row.recording != Some(id) {
        assert after[id] == w.recs[id];
        RecordedTargetIsHeld(c.eps, w.edited, w.recs, c.guide, t.program, t.showing, row, id);
      }
    }
  }

  // A recording moved to another program never comes to record this one: at one title and start
  // their two episodes are both listed, so an unnamed episode reads as neither.
  lemma OtherMoveKeepsOnly(c: Scene, w: Walk, n: nat, answer: Answer, p: Program, own: Option<int>)
    requires n < |w.rows| && ValidPrograms(c.programs) && Listed(c)
    requires p in c.programs && p.identity.episode != "" && w.rows[n].key.episode != "" && Linked(w.rows[n], w.recs)
    requires TargetAt(c, w, n).Target? ==> TargetAt(c, w, n).program.identity != p.identity
    requires Only(c.eps, w.recs, p.identity, own)
    ensures Only(c.eps, TurnOf(c, w, n, answer).recs, p.identity, own)
  {
    var t, row, after := TargetAt(c, w, n), w.rows[n], TurnOf(c, w, n, answer).recs;
    if after != w.recs {
      TargetMoves(c, w, n);
      forall id | id in after && RecordsProgram(c.eps, after[id], p.identity) ensures own == Some(id) {
        if after[id] != w.recs[id] { OtherEpisode(c, t.program, p, after[id]); }
      }
    }
  }

  lemma OtherEpisode(c: Scene, q: Program, p: Program, rec: Lib)
    requires Listed(c) && p in c.programs && q in c.programs && p.identity != q.identity
    requires p.identity.episode != "" && q.identity.episode != "" && Identified(rec)
    requires rec.title == q.identity.title && rec.programStart == Some(q.identity.start)
    requires rec.episode == "" || rec.episode == q.identity.episode
    ensures IdentityOfLib(c.eps, rec) != p.identity
  {
    var k := (rec.title, rec.programStart.value);
    if rec.episode == "" && k in c.eps && |c.eps[k]| == 1 { SingletonElement(c.eps[k], q.identity.episode); }
  }

  // Only times change in the library.
  ghost predicate SameTitles(a: Recs, b: Recs) {
    a.Keys == b.Keys && forall id :: id in a ==> b[id].title == a[id].title && b[id].episode == a[id].episode && b[id].id == a[id].id
  }

  lemma TurnKeepsTitles(c: Scene, w: Walk, n: nat, answer: Answer)
    requires n < |w.rows|
    ensures SameTitles(w.recs, TurnOf(c, w, n, answer).recs)
  {
  }

  ghost predicate ById(recs: Recs) { forall id :: id in recs ==> recs[id].id == id }

  ghost predicate Followable(start: Walk) {
    ById(start.recs) && forall k :: 0 <= k < |start.rows| ==> start.rows[k].key.episode != "" && Linked(start.rows[k], start.recs)
  }

  lemma StillLinked(row: Row, a: Recs, b: Recs)
    requires Linked(row, a) && SameTitles(a, b)
    ensures Linked(row, b)
  {
    if row.recording.Some? && row.recording.value in b {
      var id := row.recording.value;
      assert id in a;
      assert b[id].title == a[id].title && b[id].episode == a[id].episode;
    }
  }

  // Taken, and recorded by no other recording than this.
  ghost predicate Settled(c: Scene, w: Walk, p: Program, own: Option<int>) {
    p.identity in w.taken && Only(c.eps, w.recs, p.identity, own)
  }

  lemma LaterTurnKeepsOnly(c: Scene, start: Walk, v: Walk, n: nat, answer: Answer, p: Program, own: Option<int>)
    requires n < |start.rows| && ValidPrograms(c.programs) && Listed(c) && Followable(start)
    requires Left(start, v, n, c.programs) && SameTitles(start.recs, v.recs)
    requires p in c.programs && p.identity.episode != "" && Settled(c, v, p, own)
    ensures Settled(c, TurnOf(c, v, n, answer), p, own)
  {
    assert Linked(start.rows[n], start.recs) && v.rows[n] == start.rows[n];
    StillLinked(start.rows[n], start.recs, v.recs);
    if TargetAt(c, v, n).Target? { TargetMoves(c, v, n); }
    TurnTakes(c, v, n, answer);
    OtherMoveKeepsOnly(c, v, n, answer, p, own);
  }

  ghost predicate SettledIn(c: Scene, start: Walk, w: Walk, n: nat, p: Program, own: Option<int>) {
    Left(start, w, n, c.programs) && SameTitles(start.recs, w.recs) && Settled(c, w, p, own)
  }

  lemma SettledNext(c: Scene, start: Walk, w: Walk, n: nat, answer: Answer, p: Program, own: Option<int>)
    requires n < |start.rows| && ValidPrograms(c.programs) && Listed(c) && Followable(start)
    requires p in c.programs && p.identity.episode != "" && SettledIn(c, start, w, n, p, own)
    ensures SettledIn(c, start, TurnOf(c, w, n, answer), n + 1, p, own)
  {
    LeftNext(c, start, w, n, answer);
    TurnKeepsTitles(c, w, n, answer);
    LaterTurnKeepsOnly(c, start, w, n, answer, p, own);
  }

  // A pick's recording moved in its own turn, its target free and not held.
  ghost predicate MovesAt(c: Scene, w: Walk, k: nat, answer: Answer) {
    && k < |w.rows| && !w.stopped && answer.Moved?
    && TargetAt(c, w, k).Target? && !HeldAt(c, w, k, TargetAt(c, w, k))
  }

  lemma MovedNow(c: Scene, w: Walk, n: nat, answer: Answer)
    requires n < |w.rows|
    ensures TurnOf(c, w, n, answer).moved == if MovesAt(c, w, n, answer) then w.moved + {n} else w.moved
  {
  }

  // Steps that add a pick to the moved ones only at its own turn.
  ghost predicate MovesInTurn(step: Step, n: nat) {
    forall w: Walk, m: nat, k: nat :: m < n && m != k && k !in w.moved ==> k !in step(w, m).moved
  }

  lemma UnmovedStays(step: Step, start: Walk, k: nat, from: nat, n: nat)
    requires from <= n && (k < from || n <= k) && MovesInTurn(step, n) && k !in Turns(step, start, from).moved
    ensures k !in Turns(step, start, n).moved
  {
    TurnsKeep(step, start, (w: Walk, m: nat) => k !in w.moved, from, n);
  }

  lemma MovedAtItsTurn(step: Step, start: Walk, k: nat, n: nat)
    requires MovesInTurn(step, n) && k in Turns(step, start, n).moved && k !in start.moved
    ensures k < n && k !in Turns(step, start, k).moved && k in step(Turns(step, start, k), k).moved
  {
    UnmovedStays(step, start, k, 0, if k < n then k else n);
    if k < n && k !in Turns(step, start, k + 1).moved { UnmovedStays(step, start, k, k + 1, n); }
  }

  lemma TurnsMoveInTurn(c: Scene, answers: seq<Answer>)
    ensures MovesInTurn(StepOf(c, answers), |answers|)
  {
    var step := StepOf(c, answers);
    forall w: Walk, m: nat, k: nat | m < |answers| && m != k && k !in w.moved ensures k !in step(w, m).moved {
      if m < |w.rows| { MovedNow(c, w, m, answers[m]); }
    }
  }

  // A move settles its target: nothing else records it, and the row stands there.
  ghost predicate SettledAt(c: Scene, start: Walk, w: Walk, k: nat, p: Program) {
    && p in c.programs && p.identity.episode != "" && RowAt(w, k, p.identity)
    && k < |start.rows| && SettledIn(c, start, w, k + 1, p, start.rows[k].recording)
  }

  lemma MoveSettles(c: Scene, answers: seq<Answer>, start: Walk, w: Walk, k: nat) returns (p: Program)
    requires k < |start.rows| && k < |answers| && ValidPrograms(c.programs) && Listed(c) && Followable(start)
    requires Left(start, w, k, c.programs) && SameTitles(start.recs, w.recs)
    requires k !in w.moved && k in StepOf(c, answers)(w, k).moved && StillScheduled(start.rows[k], w.recs)
    ensures SettledAt(c, start, StepOf(c, answers)(w, k), k, p)
  {
    MovedNow(c, w, k, answers[k]);
    p := TargetAt(c, w, k).program;
    TargetMoves(c, w, k);
    MoveLeavesOnly(c, w, k, answers[k]);
    TurnTakes(c, w, k, answers[k]);
    LeftNext(c, start, w, k, answers[k]);
    TurnKeepsTitles(c, w, k, answers[k]);
  }

  lemma TurnKeepsOthers(c: Scene, w: Walk, n: nat, answer: Answer)
    requires n < |w.rows|
    ensures |TurnOf(c, w, n, answer).rows| == |w.rows|
    ensures forall k :: 0 <= k < |w.rows| && k != n ==> TurnOf(c, w, n, answer).rows[k] == w.rows[k]
  {
  }

  ghost predicate RowAt(w: Walk, k: nat, key: Identity) { k < |w.rows| && w.rows[k].key == key }

  // The rows as their turns left them, and the library with its titles.
  ghost predicate SoFar(c: Scene, start: Walk, w: Walk, n: nat) { Left(start, w, n, c.programs) && SameTitles(start.recs, w.recs) }

  ghost predicate KeepsSoFar(c: Scene, start: Walk, step: Step, n: nat) {
    forall w: Walk, m: nat :: m < n && SoFar(c, start, w, m) ==> SoFar(c, start, step(w, m), m + 1)
  }

  ghost predicate KeepsSettled(c: Scene, start: Walk, step: Step, n: nat, p: Program, own: Option<int>) {
    forall w: Walk, m: nat :: m < n && SettledIn(c, start, w, m, p, own) ==> SettledIn(c, start, step(w, m), m + 1, p, own)
  }

  ghost predicate KeepsRow(step: Step, k: nat, key: Identity) {
    forall w: Walk, m: nat :: m != k && RowAt(w, k, key) ==> RowAt(step(w, m), k, key)
  }

  ghost predicate MoveIsSettled(c: Scene, start: Walk, step: Step, k: nat)
    requires k < |start.rows|
  {
    forall w: Walk :: SoFar(c, start, w, k) && k !in w.moved && k in step(w, k).moved && StillScheduled(start.rows[k], w.recs)
      ==> exists p :: SettledAt(c, start, step(w, k), k, p)
  }

  lemma SoFarAt(c: Scene, step: Step, start: Walk, n: nat, k: nat)
    requires k <= n && KeepsSoFar(c, start, step, n) && SoFar(c, start, start, 0)
    ensures SoFar(c, start, Turns(step, start, k), k)
  {
    TurnsKeep(step, start, (w: Walk, m: nat) => SoFar(c, start, w, m), 0, k);
  }

  lemma SettledAtEnd(c: Scene, step: Step, start: Walk, k: nat, n: nat, p: Program, own: Option<int>)
    requires k <= n && KeepsSettled(c, start, step, n, p, own) && SettledIn(c, start, Turns(step, start, k), k, p, own)
    ensures SettledIn(c, start, Turns(step, start, n), n, p, own)
  {
    TurnsKeep(step, start, (w: Walk, m: nat) => SettledIn(c, start, w, m, p, own), k, n);
  }

  lemma RowAtEnd(step: Step, start: Walk, k: nat, n: nat, key: Identity)
    requires k < n && KeepsRow(step, k, key) && RowAt(Turns(step, start, k + 1), k, key)
    ensures RowAt(Turns(step, start, n), k, key)
  {
    TurnsKeep(step, start, (w: Walk, m: nat) => RowAt(w, k, key), k + 1, n);
  }

  lemma NextTurn(step: Step, start: Walk, k: nat)
    ensures Turns(step, start, k + 1) == step(Turns(step, start, k), k)
  {
  }

  lemma TurnsKeepSoFar(c: Scene, answers: seq<Answer>, start: Walk)
    requires |start.rows| <= |answers| && ValidPrograms(c.programs)
    ensures KeepsSoFar(c, start, StepOf(c, answers), |start.rows|)
  {
    var step := StepOf(c, answers);
    forall w: Walk, m: nat | m < |start.rows| && SoFar(c, start, w, m) ensures SoFar(c, start, step(w, m), m + 1) {
      LeftNext(c, start, w, m, answers[m]);
      TurnKeepsTitles(c, w, m, answers[m]);
    }
  }

  lemma TurnsKeepSettled(c: Scene, answers: seq<Answer>, start: Walk, p: Program, own: Option<int>)
    requires |start.rows| <= |answers| && ValidPrograms(c.programs) && Listed(c) && Followable(start)
    requires p in c.programs && p.identity.episode != ""
    ensures KeepsSettled(c, start, StepOf(c, answers), |start.rows|, p, own)
  {
    var step := StepOf(c, answers);
    forall w: Walk, m: nat | m < |start.rows| && SettledIn(c, start, w, m, p, own) ensures SettledIn(c, start, step(w, m), m + 1, p, own) {
      SettledNext(c, start, w, m, answers[m], p, own);
    }
  }

  lemma TurnsKeepRow(c: Scene, answers: seq<Answer>, k: nat, key: Identity)
    ensures KeepsRow(StepOf(c, answers), k, key)
  {
    var step := StepOf(c, answers);
    forall w: Walk, m: nat | m != k && RowAt(w, k, key) ensures RowAt(step(w, m), k, key) {
      if m < |w.rows| && m < |answers| { TurnKeepsOthers(c, w, m, answers[m]); }
    }
  }

  lemma TurnsSettleMoves(c: Scene, answers: seq<Answer>, start: Walk, k: nat)
    requires k < |start.rows| <= |answers| && ValidPrograms(c.programs) && Listed(c) && Followable(start)
    ensures MoveIsSettled(c, start, StepOf(c, answers), k)
  {
    var step := StepOf(c, answers);
    forall w: Walk | SoFar(c, start, w, k) && k !in w.moved && k in step(w, k).moved && StillScheduled(start.rows[k], w.recs)
      ensures exists p :: SettledAt(c, start, step(w, k), k, p)
    {
      var p := MoveSettles(c, answers, start, w, k);
    }
  }

  // Over the whole walk: a recording that moved - it was read as scheduled, and its target as held
  // by nothing - is at the end the only spoken-for recording of the program it moved to.
  lemma MovedRecordingIsTheOnlyOne(c: Scene, answers: seq<Answer>, start: Walk, k: nat)
    requires |start.rows| <= |answers| && ValidPrograms(c.programs) && Listed(c) && Followable(start)
    requires k < |start.rows| && k in Turns(StepOf(c, answers), start, |start.rows|).moved && k !in start.moved
    requires StillScheduled(start.rows[k], Turns(StepOf(c, answers), start, k).recs)
    ensures var w := Turns(StepOf(c, answers), start, |start.rows|);
      k < |w.rows| && Only(c.eps, w.recs, w.rows[k].key, start.rows[k].recording)
  {
    var p := SettledWhenMoved(c, answers, start, StepOf(c, answers), k);
    TurnsKeepSettled(c, answers, start, p, start.rows[k].recording);
    TurnsKeepRow(c, answers, k, p.identity);
    OnlyAtEnd(c, StepOf(c, answers), start, k, p);
  }

  lemma SettledWhenMoved(c: Scene, answers: seq<Answer>, start: Walk, step: Step, k: nat) returns (p: Program)
    requires |start.rows| <= |answers| && ValidPrograms(c.programs) && Listed(c) && Followable(start)
    requires step == StepOf(c, answers)
    requires k < |start.rows| && k in Turns(step, start, |start.rows|).moved && k !in start.moved
    requires StillScheduled(start.rows[k], Turns(step, start, k).recs)
    ensures SettledAt(c, start, Turns(step, start, k + 1), k, p)
  {
    TurnsMoveInTurn(c, answers);
    TurnsKeepSoFar(c, answers, start);
    TurnsSettleMoves(c, answers, start, k);
    p := SettledOnMoving(c, start, step, k);
  }

  lemma SettledOnMoving(c: Scene, start: Walk, step: Step, k: nat) returns (p: Program)
    requires var n := |start.rows|; k < n && MovesInTurn(step, n) && KeepsSoFar(c, start, step, n) && MoveIsSettled(c, start, step, k)
    requires k in Turns(step, start, |start.rows|).moved && k !in start.moved
    requires StillScheduled(start.rows[k], Turns(step, start, k).recs)
    ensures SettledAt(c, start, Turns(step, start, k + 1), k, p)
  {
    MovedAtItsTurn(step, start, k, |start.rows|);
    SoFarAt(c, step, start, |start.rows|, k);
    NextTurn(step, start, k);
    p :| SettledAt(c, start, step(Turns(step, start, k), k), k, p);
  }

  lemma OnlyAtEnd(c: Scene, step: Step, start: Walk, k: nat, p: Program)
    requires k < |start.rows| && SettledAt(c, start, Turns(step, start, k + 1), k, p)
    requires KeepsSettled(c, start, step, |start.rows|, p, start.rows[k].recording) && KeepsRow(step, k, p.identity)
    ensures var w := Turns(step, start, |start.rows|); k < |w.rows| && Only(c.eps, w.recs, w.rows[k].key, start.rows[k].recording)
  {
    SettledAtEnd(c, step, start, k + 1, |start.rows|, p, start.rows[k].recording);
    RowAtEnd(step, start, k, |start.rows|, p.identity);
  }

  // ---- episodes learnt later ---------------------------------------------------------------

  // A row waiting for its episode takes the only one its slot lists, unless another row of the
  // rule already stands there.
  ghost predicate Fillable(eps: SlotMap, row: Row, held: set<Identity>) {
    && row.key.episode == ""
    && OnlyEpisode(eps, row.key.title, row.key.start) != ""
    && row.key.(episode := OnlyEpisode(eps, row.key.title, row.key.start)) !in held
  }
}
