// Following a program the guide moved (app/auto_rules.py `_retrack`, `_retrack_target`,
// `_holder`, `_move_row`) and filling in episodes learnt later (`_episode_fills`). Both change a
// row's key in place while the ledger dict maps keys to the very same row objects.
module Retrack {
  import opened Common
  import opened RuleModel
  import opened RuleJudge
  import opened RetrackModel
  import RuleEngine

  // A row snapshot: one object, shared by the list of rows and the ledger dict.
  class Pick {
    const id: int
    var row: Row

    constructor (id: int, row: Row)
      ensures this.id == id && this.row == row
    {
      this.id, this.row := id, row;
    }
  }

  class Ledger {
    var d: map<Identity, Pick>

    constructor ()
      ensures d == map[]
    {
      d := map[];
    }
  }

  // The dict is the index of the rows by their current key, so the keys are unique.
  ghost predicate Indexes(ledger: Ledger, rows: set<Pick>)
    reads ledger, rows
  {
    && (forall p {:trigger p.row} :: p in rows ==> p.row.key in ledger.d && ledger.d[p.row.key] == p)
    && (forall k {:trigger k in ledger.d} :: k in ledger.d ==> ledger.d[k] in rows && ledger.d[k].row.key == k)
  }

  lemma IndexedKeysUnique(ledger: Ledger, rows: set<Pick>, p: Pick, q: Pick)
    requires Indexes(ledger, rows) && p in rows && q in rows && p.row.key == q.row.key
    ensures p == q
  {
  }

  // ---- the nearest target ------------------------------------------------------------------

  method FirstOnChannel(showings: seq<Showing>, row: Row, members: Members) returns (s: Option<Showing>)
    ensures s == FirstShowing(showings, row, members)
  {
    for n := 0 to |showings|
      invariant FirstShowing(showings[..n], row, members) == None
    {
      assert showings[..n + 1][..n] == showings[..n];
      if OnRowsChannel(showings[n], row, members) {
        FirstStands(showings, row, members, n + 1);
        return Some(showings[n]);
      }
    }
    assert showings[..|showings|] == showings;
    return None;
  }

  method RetrackTarget(row: Row, programs: seq<Program>, keys: set<Identity>, taken: set<Identity>, members: Members)
    returns (best: Target)
    ensures best == TargetOf(row, programs, keys, taken, members)
    ensures IsNearestTarget(best, row, programs, keys, taken, members)
  {
    best := NoTarget;
    for n := 0 to |programs|
      invariant best == TargetOf(row, programs[..n], keys, taken, members)
    {
      var p := programs[n];
      assert programs[..n + 1][..n] == programs[..n];
      if p.identity.start != row.key.start && p.identity !in keys && p.identity !in taken {
        var s := FirstOnChannel(p.showings, row, members);
        if s.Some? && (best.NoTarget? || Nearer(row, p.identity.start, best.program.identity.start)) {
          best := Target(p, s.value);
        }
      }
    }
    assert programs[..|programs|] == programs;
    TargetIsNearest(row, programs, keys, taken, members);
  }

  // ---- which picks are gone ----------------------------------------------------------------

  method ListsKey(programs: seq<Program>, k: Identity) returns (found: bool)
    ensures found <==> exists p :: p in programs && p.identity == k
  {
    for n := 0 to |programs|
      invariant forall j :: 0 <= j < n ==> programs[j].identity != k
    {
      if programs[n].identity == k { return true; }
    }
    return false;
  }

  method SameProgramOnly(programs: seq<Program>, k: Identity) returns (same: seq<Program>)
    ensures same == SameProgram(programs, k) && forall p :: p in same <==> p in programs && SameAs(p, k)
  {
    same := [];
    for n := 0 to |programs|
      invariant same == SameProgram(programs[..n], k)
    {
      assert programs[..n + 1][..n] == programs[..n];
      if SameAs(programs[n], k) { same := same + [programs[n]]; }
    }
    assert programs[..|programs|] == programs;
    SameProgramIs(programs, k);
  }

  method HasFreeTime(same: seq<Program>, row: Row, keys: set<Identity>) returns (found: bool)
    ensures found <==> exists p :: p in same && p.identity.start != row.key.start && p.identity !in keys
  {
    for n := 0 to |same|
      invariant forall j :: 0 <= j < n ==> !(same[j].identity.start != row.key.start && same[j].identity !in keys)
    {
      if same[n].identity.start != row.key.start && same[n].identity !in keys { return true; }
    }
    return false;
  }

  predicate StartThenId(a: (int, int, nat), b: (int, int, nat)) {
    a.0 < b.0 || (a.0 == b.0 && a.1 <= b.1)
  }

  // The rows' places, by start and then id.
  method ByStart(rows: seq<Pick>) returns (sorted: seq<(int, int, nat)>)
    ensures forall k :: 0 <= k < |sorted| ==> sorted[k].2 < |rows|
    ensures forall j, k :: 0 <= j < k < |sorted| ==> sorted[j].2 != sorted[k].2
    ensures forall i :: 0 <= i < |rows| ==> exists k :: 0 <= k < |sorted| && sorted[k] == (rows[i].row.key.start, rows[i].id, i)
    ensures SortedBy(StartThenId, sorted) && forall k :: 0 <= k < |sorted| ==> sorted[k] == (rows[sorted[k].2].row.key.start, rows[sorted[k].2].id, sorted[k].2)
    ensures |sorted| == |rows|
  {
    var order: seq<(int, int, nat)> := [];
    for n := 0 to |rows|
      invariant |order| == n && forall k :: 0 <= k < n ==> order[k] == (rows[k].row.key.start, rows[k].id, k)
    {
      order := order + [(rows[n].row.key.start, rows[n].id, n)];
    }
    sorted := Sort(StartThenId, order);
    SortedIndices(order, sorted);
    SameElements(order, sorted);
    StartThenIdPreorder();
    SortSorted(StartThenId, order);
    forall i | 0 <= i < |rows| ensures exists k :: 0 <= k < |sorted| && sorted[k] == (rows[i].row.key.start, rows[i].id, i) {
      assert order[i] in sorted;
    }
    forall k | 0 <= k < |sorted| ensures sorted[k] == (rows[sorted[k].2].row.key.start, rows[sorted[k].2].id, sorted[k].2) {
      assert sorted[k] in order;
    }
    assert |multiset(order)| == |multiset(sorted)|;
  }

  method SortedRows(rows: seq<Pick>) returns (ordered: seq<Pick>)
    ensures forall p :: p in ordered <==> p in rows
    ensures |ordered| == |rows| && forall j, k :: 0 <= j < k < |ordered| ==> Earlier(ordered[j], ordered[k])
    ensures NoRepeats(rows) ==> NoRepeats(ordered)
  {
    var sorted := ByStart(rows);
    ordered := seq(|sorted|, k requires 0 <= k < |sorted| => rows[sorted[k].2]);
    forall i | 0 <= i < |rows| ensures rows[i] in ordered {
      var k :| 0 <= k < |sorted| && sorted[k] == (rows[i].row.key.start, rows[i].id, i);
      assert ordered[k] == rows[i];
    }
    forall j, k | 0 <= j < k < |ordered| ensures Earlier(ordered[j], ordered[k]) {
      assert StartThenId(sorted[j], sorted[k]);
    }
  }

  ghost predicate NoRepeats(picks: seq<Pick>) { forall i, j :: 0 <= i < j < |picks| ==> picks[i] != picks[j] }

  ghost function GoneOf(rows: seq<Pick>, programs: seq<Program>, keys: set<Identity>, now: int, recs: Recs, guide: Guide): set<Pick>
    reads rows
  {
    set p | p in rows && IsGone(p.row, programs, keys, now, recs, guide)
  }

  // Exactly these picks, by start and then id.
  ghost predicate InOrder(picks: seq<Pick>, these: set<Pick>)
    reads picks
  {
    (set p | p in picks) == these && forall j, k :: 0 <= j < k < |picks| ==> Earlier(picks[j], picks[k])
  }

  // `part` is what stands at the rising places `at` of `whole`.
  ghost predicate Picked(part: seq<Pick>, whole: seq<Pick>, at: seq<nat>) {
    && |at| == |part| && (forall k :: 0 <= k < |at| ==> at[k] < |whole| && part[k] == whole[at[k]])
    && (forall j, k :: 0 <= j < k < |at| ==> at[j] < at[k])
  }

  lemma PartIsOrdered(part: seq<Pick>, whole: seq<Pick>, at: seq<nat>)
    requires Picked(part, whole, at)
    requires forall j, k :: 0 <= j < k < |whole| ==> Earlier(whole[j], whole[k])
    ensures forall j, k :: 0 <= j < k < |part| ==> Earlier(part[j], part[k])
    ensures NoRepeats(whole) ==> NoRepeats(part)
  {
  }

  lemma {:induction false} RisingFits(at: seq<nat>, n: nat)
    requires forall k :: 0 <= k < |at| ==> at[k] < n
    requires forall j, k :: 0 <= j < k < |at| ==> at[j] < at[k]
    ensures |at| <= n
  {
    if at != [] { RisingFits(at[..|at| - 1], at[|at| - 1]); }
  }

  // The picks whose program is listed nowhere at their time and somewhere at another.
  method GonePicks(rows: seq<Pick>, ledger: Ledger, programs: seq<Program>, now: int, recs: Recs, guide: Guide)
    returns (gone: seq<Pick>)
    ensures InOrder(gone, GoneOf(rows, programs, ledger.d.Keys, now, recs, guide))
    ensures |gone| <= |rows| && (forall k :: 0 <= k < |gone| ==> gone[k] in rows) && (NoRepeats(rows) ==> NoRepeats(gone))
  {
    var ordered := SortedRows(rows);
    ghost var at;
    gone, at := GoneAmong(ordered, ledger, programs, now, recs, guide);
    PartIsOrdered(gone, ordered, at);
    RisingFits(at, |ordered|);
  }

  method GoneAmong(ordered: seq<Pick>, ledger: Ledger, programs: seq<Program>, now: int, recs: Recs, guide: Guide)
    returns (gone: seq<Pick>, ghost at: seq<nat>)
    ensures forall p :: p in gone <==> p in ordered && IsGone(p.row, programs, ledger.d.Keys, now, recs, guide)
    ensures Picked(gone, ordered, at)
  {
    gone, at := [], [];
    for n := 0 to |ordered|
      invariant forall p :: p in gone <==> p in ordered[..n] && IsGone(p.row, programs, ledger.d.Keys, now, recs, guide)
      invariant Picked(gone, ordered[..n], at)
    {
      assert ordered[..n + 1] == ordered[..n] + [ordered[n]];
      var followed := ToFollow(ordered[n].row, ledger.d.Keys, programs, now, recs, guide);
      if followed { gone, at := gone + [ordered[n]], at + [n]; }
    }
    assert ordered[..|ordered|] == ordered;
  }

  predicate Earlier(p: Pick, q: Pick)
    reads p, q
  {
    StartThenId((p.row.key.start, p.id, 0), (q.row.key.start, q.id, 0))
  }

  lemma StartThenIdPreorder()
    ensures TotalPreorder(StartThenId)
  {
  }

  method ToFollow(row: Row, keys: set<Identity>, programs: seq<Program>, now: int, recs: Recs, guide: Guide) returns (gone: bool)
    ensures gone <==> IsGone(row, programs, keys, now, recs, guide)
  {
    var listed := ListsKey(programs, row.key);
    var same := SameProgramOnly(programs, row.key);
    var free := HasFreeTime(same, row, keys);
    var failed := FateOf(row, recs).Known? && FateOf(row, recs).status == Failed;
    gone := row.action.ActScheduled? && row.key.start > now && row.key.episode != "" && !listed && !failed && free
            && !IsListed(guide, row.key.title, row.key.episode, row.key.start);
  }

  lemma SortedIndices(order: seq<(int, int, nat)>, sorted: seq<(int, int, nat)>)
    requires multiset(order) == multiset(sorted)
    requires forall k :: 0 <= k < |order| ==> order[k].2 == k
    ensures forall k :: 0 <= k < |sorted| ==> sorted[k].2 < |order|
    ensures forall j, k :: 0 <= j < k < |sorted| ==> sorted[j].2 != sorted[k].2
  {
    SameElements(order, sorted);
    forall k | 0 <= k < |sorted| ensures sorted[k].2 < |order| && order[sorted[k].2] == sorted[k] {
      assert sorted[k] in order;
    }
    forall j, k | 0 <= j < k < |sorted| ensures sorted[j].2 != sorted[k].2 {
      OnceInOrder(order, sorted[j].2);
      assert multiset(sorted)[sorted[j]] == 1;
      OncePerPosition(sorted, j, k);
    }
  }

  lemma OnceInOrder(order: seq<(int, int, nat)>, i: nat)
    requires i < |order| && forall k :: 0 <= k < |order| ==> order[k].2 == k
    ensures multiset(order)[order[i]] == 1
  {
    assert order == order[..i] + [order[i]] + order[i + 1..];
    assert order[i] !in order[..i] && order[i] !in order[i + 1..];
  }

  // The row leaves its old key and takes the showing's; the dict follows.
  method MoveRow(p: Pick, s: Showing, ledger: Ledger, ghost rows: set<Pick>)
    requires p in rows && Indexes(ledger, rows)
    requires p.row.key.(start := s.start) !in ledger.d
    modifies p, ledger
    ensures p.row == old(p.row).(key := old(p.row.key).(start := s.start), stop := s.stop)
    ensures ledger.d == (old(ledger.d) - {old(p.row.key)})[p.row.key := p]
    ensures Indexes(ledger, rows)
  {
    ledger.d := ledger.d - {p.row.key};
    p.row := p.row.(key := p.row.key.(start := s.start), stop := s.stop);
    ledger.d := ledger.d[p.row.key := p];
  }

  // ---- is the target already recorded? -----------------------------------------------------

  // The spoken-for recordings on a channel or in a group.
  method NearOn(index: RuleEngine.LibIndex, channel: Option<int>, group: Option<int>) returns (near: seq<Lib>)
    requires index.Valid()
    ensures forall r :: r in near <==> r in index.spoken && ((channel.Some? && r.channel == channel) || (group.Some? && r.group == group))
  {
    var onChannel := if channel.Some? then RuleEngine.Bucket(index.byChannel, channel.value) else [];
    var inGroup := if group.Some? then RuleEngine.Bucket(index.byGroup, group.value) else [];
    near := onChannel + inGroup;
  }

  // One that runs over the whole of [start, stop], other than `own` and not about to leave.
  method AnyOver(near: seq<Lib>, start: int, stop: int, own: Option<int>, edited: set<int>, guide: Guide) returns (found: bool)
    ensures found <==> exists r :: r in near && r.start <= start && r.stop >= stop && Some(r.id) != own && !Displaced(r, edited, guide)
  {
    for n := 0 to |near|
      invariant forall k :: 0 <= k < n ==>
        !(near[k].start <= start && near[k].stop >= stop && Some(near[k].id) != own && !Displaced(near[k], edited, guide))
    {
      var r := near[n];
      if r.start <= start && r.stop >= stop && Some(r.id) != own && !Displaced(r, edited, guide) { return true; }
    }
    return false;
  }

  method AnyOther(same: seq<Lib>, own: Option<int>, edited: set<int>, guide: Guide) returns (found: bool)
    ensures found <==> exists r :: r in same && Some(r.id) != own && !Displaced(r, edited, guide)
  {
    for n := 0 to |same|
      invariant forall k :: 0 <= k < n ==> !(Some(same[k].id) != own && !Displaced(same[k], edited, guide))
    {
      if Some(same[n].id) != own && !Displaced(same[n], edited, guide) { return true; }
    }
    return false;
  }

  ghost predicate CoversSome(rec: Lib, showings: seq<Showing>) { exists x :: x in showings && CoversShowing(rec, x) }

  method AnyCovering(index: RuleEngine.LibIndex, showings: seq<Showing>, own: Option<int>, edited: set<int>, guide: Guide) returns (found: bool)
    requires index.Valid()
    ensures found <==> exists r :: r in index.spoken && CoversSome(r, showings) && Some(r.id) != own && !Displaced(r, edited, guide)
  {
    for n := 0 to |showings|
      invariant forall r :: r in index.spoken && CoversSome(r, showings[..n]) ==> !(Some(r.id) != own && !Displaced(r, edited, guide))
    {
      var x := showings[n];
      var near := NearOn(index, Some(x.channel), x.group);
      found := AnyOver(near, x.start, x.stop, own, edited, guide);
      if found {
        assert x in showings;
        return true;
      }
      assert showings[..n + 1] == showings[..n] + [x];
    }
    assert showings[..|showings|] == showings;
    return false;
  }

  method IndexOf(recs: Recs, slots: Slots) returns (index: RuleEngine.LibIndex)
    ensures fresh(index) && index.Valid() && index.slots == slots
    ensures forall r :: r in index.spoken <==> SpokenFor(r.status) && exists id :: id in recs && recs[id] == r
  {
    index := new RuleEngine.LibIndex(slots);
    var rest := recs.Keys;
    while rest != {}
      invariant rest <= recs.Keys && index.Valid() && index.slots == slots && fresh(index)
      invariant forall r :: r in index.spoken <==> SpokenFor(r.status) && exists id :: id in recs && id !in rest && recs[id] == r
      decreases |rest|
    {
      var id := Next(rest);
      var indexed := index.Add(recs[id]);
      rest := rest - {id};
    }
  }

  // Is the target held by a recording other than the pick's own?
  method FindHolder(recs: Recs, slots: Slots, edited: set<int>, guide: Guide, p: Program, s: Showing, row: Row) returns (held: bool)
    requires ById(recs)
    ensures held <==> IsHeld(slots.eps, edited, recs, guide, p, s, row)
  {
    var index := IndexOf(recs, slots);
    var place := PlaceOf(row, recs);
    var same := AnyOther(RuleEngine.Bucket(index.byIdentity, p.identity), row.recording, edited, guide);
    var covering := AnyCovering(index, p.showings, row.recording, edited, guide);
    var near := NearOn(index, place.0, place.1);
    var over := AnyOver(near, s.start, s.stop, row.recording, edited, guide);
    held := same || covering || over;
    assert held <==> exists r :: r in index.spoken && HoldsTarget(slots.eps, edited, r, guide, p, s, row, place);
    HeldByIndexed(index.spoken, recs, slots.eps, edited, guide, p, s, row);
  }

  lemma HeldByIndexed(spoken: set<Lib>, recs: Recs, eps: SlotMap, edited: set<int>, guide: Guide, p: Program, s: Showing, row: Row)
    requires forall r :: r in spoken <==> SpokenFor(r.status) && exists id :: id in recs && recs[id] == r
    ensures IsHeld(eps, edited, recs, guide, p, s, row)
      <==> exists r :: r in spoken && HoldsTarget(eps, edited, r, guide, p, s, row, PlaceOf(row, recs))
  {
    if id :| id in recs && HoldsTarget(eps, edited, recs[id], guide, p, s, row, PlaceOf(row, recs)) {
      assert recs[id] in spoken;
    }
  }

  // ---- the loop ----------------------------------------------------------------------------

  // One pick followed to its target, as the write unit answered.
  method FollowOne(p: Pick, t: Target, answer: Answer, ledger: Ledger, ghost rows: set<Pick>)
    requires p in rows && Indexes(ledger, rows) && t.Target?
    requires t.program.identity !in ledger.d && t.program.identity == p.row.key.(start := t.showing.start)
    modifies p, ledger
    ensures Indexes(ledger, rows)
    ensures p.row == RowAfter(old(p.row), t, answer)
    ensures ledger.d.Keys == old(ledger.d.Keys) - {old(p.row.key)} + {p.row.key}
  {
    match answer
    case Moved(_, _) => MoveRow(p, t.showing, ledger, rows);
    case Anchored => MoveRow(p, t.showing, ledger, rows);
    case LetGo => p.row := p.row.(action := UserModified);
    case _ =>
  }

  // What a run carries from pick to pick: the targets taken, the picks moved, whether the rule
  // changed, its library, and the recordings a person has edited.
  datatype Run = Run(taken: set<Identity>, moved: set<nat>, stopped: bool, recs: Recs, edited: set<int>)

  function WalkOf(rows: seq<Row>, keys: set<Identity>, run: Run): Walk {
    Walk(rows, keys, run.taken, run.moved, run.stopped, run.recs, run.edited)
  }

  // What the answer leaves of the run.
  method FollowRun(row: Row, n: nat, t: Target, answer: Answer, run: Run) returns (next: Run)
    requires t.Target? && ById(run.recs)
    ensures ById(next.recs)
    ensures forall rows: seq<Row>, keys :: n < |rows| && rows[n] == row ==>
      WalkOf(rows[n := RowAfter(row, t, answer)], keys - {row.key} + {RowAfter(row, t, answer).key}, next) == FollowedTo(WalkOf(rows, keys, run), n, t, answer)
  {
    next := run.(taken := run.taken + {t.program.identity});
    match answer
    case Moved(start, stop) => next := next.(moved := next.moved + {n}, recs := MovedLib(next.recs, row.recording, t.showing, start, stop));
    case LetGo => if row.recording.Some? { next := next.(edited := next.edited + {row.recording.value}); }
    case RuleChanged => next := next.(stopped := true);
    case _ =>
  }

  method HeldNow(c: Scene, slots: Slots, run: Run, row: Row, t: Target) returns (held: bool)
    requires t.Target? && ById(run.recs) && c.eps == slots.eps
    ensures held <==> StillScheduled(row, run.recs) && IsHeld(c.eps, run.edited, run.recs, c.guide, t.program, t.showing, row)
  {
    var fate := FateOf(row, run.recs);
    if !fate.Known? || fate.status != Scheduled { return false; }
    held := FindHolder(run.recs, slots, run.edited, c.guide, t.program, t.showing, row);
  }

  // One pick's turn: find its nearest free target, leave it when that is held, follow it there
  // otherwise.
  method TakeTurn(c: Scene, slots: Slots, p: Pick, n: nat, ledger: Ledger, run: Run, answer: Answer, ghost all: set<Pick>, ghost rows: seq<Row>)
    returns (next: Run)
    requires p in all && Indexes(ledger, all) && ValidPrograms(c.programs) && ById(run.recs) && c.eps == slots.eps
    requires n < |rows| && rows[n] == p.row && !run.stopped
    modifies p, ledger
    ensures Indexes(ledger, all) && ById(next.recs)
    ensures WalkOf(rows[n := p.row], ledger.d.Keys, next) == TurnOf(c, WalkOf(rows, old(ledger.d.Keys), run), n, answer)
  {
    ghost var w := WalkOf(rows, ledger.d.Keys, run);
    var row := p.row;
    var same := SameProgramOnly(c.programs, row.key);
    var t := RetrackTarget(row, same, ledger.d.Keys, run.taken, c.members);
    TurnIs(c, w, n, answer, t);
    if t.NoTarget? {
      assert rows[n := row] == rows;
      return run;
    }
    var held := HeldNow(c, slots, run, row, t);
    if held {
      assert rows[n := row] == rows;
      return run.(taken := run.taken + {t.program.identity}, stopped := answer == RuleChanged);
    }
    TargetKey(t, row, c.programs);
    FollowOne(p, t, answer, ledger, all);
    next := FollowRun(row, n, t, answer, run);
  }

  ghost predicate Stand(rows: seq<Row>, picks: seq<Pick>)
    reads picks
  {
    |rows| == |picks| && forall i :: 0 <= i < |picks| ==> picks[i].row == rows[i]
  }

  // The walk as the program holds it: the picks' rows, the ledger's keys and the run.
  ghost predicate Holds(w: Walk, picks: seq<Pick>, ledger: Ledger, run: Run)
    reads picks, ledger
  {
    && w.keys == ledger.d.Keys && w.taken == run.taken && w.moved == run.moved && w.stopped == run.stopped && w.recs == run.recs
    && w.edited == run.edited && ById(run.recs) && Stand(w.rows, picks)
  }

  method NextTurnOf(c: Scene, slots: Slots, picks: seq<Pick>, n: nat, ledger: Ledger, run: Run, answer: Answer, ghost all: set<Pick>, ghost w: Walk)
    returns (next: Run, ghost after: Walk)
    requires n < |picks| && NoRepeats(picks) && picks[n] in all && Indexes(ledger, all) && ValidPrograms(c.programs) && c.eps == slots.eps
    requires Holds(w, picks, ledger, run) && !run.stopped
    modifies picks[n], ledger
    ensures Indexes(ledger, all) && Holds(after, picks, ledger, next)
    ensures after == TurnOf(c, w, n, answer)
  {
    next := TakeTurn(c, slots, picks[n], n, ledger, run, answer, all, w.rows);
    after := WalkOf(w.rows[n := picks[n].row], ledger.d.Keys, next);
  }

  // The steps of a walk, as the answers give them.
  ghost predicate Steps(step: Step, c: Scene, answers: seq<Answer>) {
    forall w: Walk, n: nat {:trigger TurnOf(c, w, n, answers[n])} :: n < |w.rows| && n < |answers| ==> step(w, n) == TurnOf(c, w, n, answers[n])
  }

  method NextStep(c: Scene, slots: Slots, picks: seq<Pick>, n: nat, ledger: Ledger, run: Run, answers: seq<Answer>, ghost all: set<Pick>,
                  ghost step: Step, ghost w: Walk)
    returns (next: Run, ghost after: Walk)
    requires n < |picks| <= |answers| && NoRepeats(picks) && picks[n] in all && Indexes(ledger, all) && ValidPrograms(c.programs) && c.eps == slots.eps
    requires Holds(w, picks, ledger, run) && !run.stopped && Steps(step, c, answers)
    modifies picks[n], ledger
    ensures Indexes(ledger, all) && Holds(after, picks, ledger, next)
    ensures after == step(w, n)
  {
    next, after := NextTurnOf(c, slots, picks, n, ledger, run, answers[n], all, w);
  }

  // Follow the picks in turn, until one finds the rule changed.
  method FollowGone(c: Scene, slots: Slots, picks: seq<Pick>, ledger: Ledger, run: Run, answers: seq<Answer>, ghost all: set<Pick>, ghost mine: set<Pick>,
                    ghost step: Step, ghost start: Walk)
    returns (done: Run, ghost n: nat, ghost w: Walk)
    requires NoRepeats(picks) && mine <= all && (forall i :: 0 <= i < |picks| ==> picks[i] in mine) && |answers| >= |picks|
    requires Indexes(ledger, all) && ValidPrograms(c.programs) && c.eps == slots.eps
    requires Holds(start, picks, ledger, run) && !run.stopped && Steps(step, c, answers)
    modifies ledger, mine
    ensures Indexes(ledger, all) && Holds(w, picks, ledger, done)
    ensures n <= |picks| && w == Turns(step, start, n) && (n < |picks| ==> w.stopped)
  {
    done, w := run, start;
    var k := 0;
    while k < |picks| && !done.stopped
      invariant k <= |picks| && Indexes(ledger, all) && Holds(w, picks, ledger, done)
      invariant w == Turns(step, start, k)
    {
      done, w := NextStep(c, slots, picks, k, ledger, done, answers, all, step, w);
      k := k + 1;
    }
    n := k;
  }

  method FollowAll(c: Scene, slots: Slots, picks: seq<Pick>, ledger: Ledger, recs: Recs, edited: set<int>, answers: seq<Answer>,
                   ghost all: set<Pick>, ghost mine: set<Pick>, ghost step: Step, ghost start: Walk)
    returns (done: Run, ghost n: nat, ghost w: Walk)
    requires NoRepeats(picks) && mine <= all && (forall i :: 0 <= i < |picks| ==> picks[i] in mine) && |answers| >= |picks|
    requires Indexes(ledger, all) && ValidPrograms(c.programs) && c.eps == slots.eps && ById(recs) && Steps(step, c, answers)
    requires start == Start(start.rows, ledger.d.Keys, recs, edited) && Stand(start.rows, picks)
    modifies ledger, mine
    ensures Indexes(ledger, all) && Holds(w, picks, ledger, done)
    ensures n <= |picks| && w == Turns(step, start, n) && (n < |picks| ==> w.stopped)
    ensures forall p {:trigger p.row} :: p in all - mine ==> p.row == old(p.row)
  {
    done, n, w := FollowGone(c, slots, picks, ledger, Run({}, {}, false, recs, edited), answers, all, mine, step, start);
  }

  lemma WalkEnds(c: Scene, answers: seq<Answer>, start: Walk, n: nat, m: nat)
    requires n <= m && (n < m ==> Turns(StepOf(c, answers), start, n).stopped)
    ensures Turns(StepOf(c, answers), start, n) == Turns(StepOf(c, answers), start, m)
  {
    if n < m { StoppedStays(c, answers, start, n, m); }
  }

  // Follow every moved pick, whatever the write units answer. The dict stays the index of the
  // rows by key throughout, so no two rows ever meet at one key; the rows it followed and the
  // library end as their turns leave them, and every other row stands.
  method Retrack(c: Scene, slots: Slots, rows: seq<Pick>, ledger: Ledger, now: int, recs: Recs, edited: set<int>, answers: seq<Answer>,
                 ghost all: set<Pick>)
    returns (done: Run, gone: seq<Pick>, ghost w: Walk)
    requires NoRepeats(rows) && forall p :: p in rows <==> p in all
    requires Indexes(ledger, all) && ValidPrograms(c.programs) && |answers| >= |rows| && c.eps == slots.eps && ById(recs)
    modifies ledger, all
    ensures Indexes(ledger, all)
    ensures forall k :: 0 <= k < |gone| ==> gone[k] in rows
    ensures |gone| <= |answers| && old(InOrder(gone, GoneOf(rows, c.programs, ledger.d.Keys, now, recs, c.guide)))
    ensures Holds(w, gone, ledger, done)
    ensures w == Turns(StepOf(c, answers), Start(old(RowsOf(gone)), old(ledger.d.Keys), recs, edited), |gone|)
    ensures forall p {:trigger p.row} :: p in all - (set q | q in gone) ==> p.row == old(p.row)
  {
    gone := GonePicks(rows, ledger, c.programs, now, recs, c.guide);
    ghost var start, n := Start(RowsOf(gone), ledger.d.Keys, recs, edited), 0;
    done, n, w := FollowAll(c, slots, gone, ledger, recs, edited, answers, all, (set p | p in gone), StepOf(c, answers), start);
    WalkEnds(c, answers, start, n, |gone|);
  }

  // ---- episodes learnt later ---------------------------------------------------------------

  ghost predicate Filled(eps: SlotMap, was: Row, row: Row) {
    row == was || (was.key.episode == "" && row == was.(key := IdentityOf(eps, was.key.title, was.key.start, "")))
  }

  method HeldKeys(rows: seq<Pick>) returns (held: set<Identity>)
    ensures forall k :: k in held <==> HoldsKey(RowsOf(rows), k)
  {
    held := {};
    for n := 0 to |rows|
      invariant held == set i | 0 <= i < n :: rows[i].row.key
    {
      held := held + {rows[n].row.key};
    }
    assert forall i :: 0 <= i < |rows| ==> RowsOf(rows)[i].key == rows[i].row.key;
  }

  ghost predicate DistinctKeys(rows: seq<Row>) {
    forall i, j :: 0 <= i < j < |rows| ==> rows[i].key != rows[j].key
  }

  ghost predicate HoldsKey(rows: seq<Row>, k: Identity) { exists i :: 0 <= i < |rows| && rows[i].key == k }

  // After `n` rows: the keys are still distinct, `held` knows every key that names an episode,
  // and none of those rows could be filled.
  ghost predicate FilledSoFar(eps: SlotMap, was: seq<Row>, cur: seq<Row>, held: set<Identity>, n: nat) {
    && |cur| == |was| && n <= |cur| && DistinctKeys(cur)
    && (forall i :: 0 <= i < |cur| ==> cur[i].key in held && Filled(eps, was[i], cur[i]))
    && (forall i :: n <= i < |cur| ==> cur[i] == was[i])
    && (forall i :: 0 <= i < n ==> !Fillable(eps, cur[i], held))
    && (forall k :: k in held && k.episode != "" ==> HoldsKey(cur, k))
  }

  lemma FillStep(eps: SlotMap, was: seq<Row>, cur: seq<Row>, held: set<Identity>, n: nat, row: Row)
    requires FilledSoFar(eps, was, cur, held, n) && n < |cur|
    requires row == if Fillable(eps, cur[n], held) then cur[n].(key := IdentityOf(eps, cur[n].key.title, cur[n].key.start, "")) else cur[n]
    ensures FilledSoFar(eps, was, cur[n := row], held + {row.key}, n + 1)
  {
    forall k | k in held + {row.key} && k.episode != "" ensures HoldsKey(cur[n := row], k) {
      if k == row.key {
        assert cur[n := row][n].key == k;
      } else {
        var i :| 0 <= i < |cur| && cur[i].key == k;
        assert cur[n := row][i].key == k;
      }
    }
  }

  lemma NothingLeftToFill(eps: SlotMap, was: seq<Row>, cur: seq<Row>, held: set<Identity>)
    requires FilledSoFar(eps, was, cur, held, |cur|)
    ensures forall i :: 0 <= i < |cur| ==> !Fillable(eps, cur[i], set r | r in cur :: r.key)
  {
    forall i | 0 <= i < |cur| ensures !Fillable(eps, cur[i], set r | r in cur :: r.key) {
      var k := cur[i].key.(episode := OnlyEpisode(eps, cur[i].key.title, cur[i].key.start));
      if k in held && k.episode != "" {
        assert HoldsKey(cur, k);
        var j :| 0 <= j < |cur| && cur[j].key == k;
        assert cur[j] in cur;
      }
    }
  }

  ghost function RowsOf(picks: seq<Pick>): (rows: seq<Row>)
    reads picks
    ensures |rows| == |picks| && forall i :: 0 <= i < |picks| ==> rows[i] == picks[i].row
  {
    seq(|picks|, i requires 0 <= i < |picks| reads picks => picks[i].row)
  }

  // Filling in keeps the rows' keys distinct and leaves nothing a second fill-in would change.
  method FillEpisodes(picks: seq<Pick>, slots: Slots) returns (fills: seq<(int, string)>)
    requires forall i, j :: 0 <= i < j < |picks| ==> picks[i] != picks[j]
    requires DistinctKeys(RowsOf(picks))
    modifies picks
    ensures DistinctKeys(RowsOf(picks))
    ensures forall i :: 0 <= i < |picks| ==> Filled(slots.eps, old(picks[i].row), picks[i].row)
    ensures forall i :: 0 <= i < |picks| ==> !Fillable(slots.eps, picks[i].row, set r | r in RowsOf(picks) :: r.key)
    ensures fills == FillsOf(picks, old(RowsOf(picks)), RowsOf(picks), |picks|)
  {
    var held := HeldKeys(picks);
    ghost var was := RowsOf(picks);
    fills, held := FillAll(picks, slots, held);
    NothingLeftToFill(slots.eps, was, RowsOf(picks), held);
  }

  method FillAll(picks: seq<Pick>, slots: Slots, keys: set<Identity>) returns (fills: seq<(int, string)>, held: set<Identity>)
    requires forall i, j :: 0 <= i < j < |picks| ==> picks[i] != picks[j]
    requires FilledSoFar(slots.eps, RowsOf(picks), RowsOf(picks), keys, 0)
    modifies picks
    ensures FilledSoFar(slots.eps, old(RowsOf(picks)), RowsOf(picks), held, |picks|)
    ensures fills == FillsOf(picks, old(RowsOf(picks)), RowsOf(picks), |picks|)
  {
    fills, held := [], keys;
    ghost var was := RowsOf(picks);
    for n := 0 to |picks|
      invariant FilledSoFar(slots.eps, was, RowsOf(picks), held, n) && fills == FillsOf(picks, was, RowsOf(picks), n)
    {
      fills, held := FillNext(picks, n, slots, held, fills, was);
    }
  }

  method FillNext(picks: seq<Pick>, n: nat, slots: Slots, held: set<Identity>, fills: seq<(int, string)>, ghost was: seq<Row>)
    returns (fills': seq<(int, string)>, held': set<Identity>)
    requires n < |picks| && forall i :: 0 <= i < |picks| && i != n ==> picks[i] != picks[n]
    requires FilledSoFar(slots.eps, was, RowsOf(picks), held, n) && fills == FillsOf(picks, was, RowsOf(picks), n)
    modifies picks[n]
    ensures FilledSoFar(slots.eps, was, RowsOf(picks), held', n + 1) && fills' == FillsOf(picks, was, RowsOf(picks), n + 1)
  {
    ghost var cur := RowsOf(picks);
    var filled := FillOne(picks, n, slots, held);
    ghost var row := picks[n].row;
    fills' := if filled then fills + [(picks[n].id, picks[n].row.key.episode)] else fills;
    held' := held + {picks[n].row.key};
    assert RowsOf(picks) == cur[n := row];
    FillStep(slots.eps, was, cur, held, n, row);
    FillsNext(picks, was, cur, n, row, slots.eps, held);
  }

  lemma FillsNext(picks: seq<Pick>, was: seq<Row>, cur: seq<Row>, n: nat, row: Row, eps: SlotMap, held: set<Identity>)
    requires n < |picks| == |was| == |cur| && cur[n] == was[n]
    requires row == if Fillable(eps, cur[n], held) then cur[n].(key := IdentityOf(eps, cur[n].key.title, cur[n].key.start, "")) else cur[n]
    ensures FillsOf(picks, was, cur[n := row], n + 1)
      == FillsOf(picks, was, cur, n) + if Fillable(eps, cur[n], held) then [(picks[n].id, row.key.episode)] else []
  {
    FillsStand(picks, was, cur, n, row, n);
  }

  // The rows that were filled in, by id, with the episode each learnt.
  ghost function FillsOf(picks: seq<Pick>, was: seq<Row>, now: seq<Row>, n: nat): seq<(int, string)>
    requires n <= |picks| == |was| == |now|
  {
    if n == 0 then []
    else
      FillsOf(picks, was, now, n - 1) + if now[n - 1] != was[n - 1] then [(picks[n - 1].id, now[n - 1].key.episode)] else []
  }

  lemma {:induction false} FillsStand(picks: seq<Pick>, was: seq<Row>, now: seq<Row>, i: nat, row: Row, n: nat)
    requires n <= i < |picks| == |was| == |now|
    ensures FillsOf(picks, was, now[i := row], n) == FillsOf(picks, was, now, n)
  {
    if n > 0 { FillsStand(picks, was, now, i, row, n - 1); }
  }

  method FillOne(rows: seq<Pick>, n: nat, slots: Slots, held: set<Identity>) returns (filled: bool)
    requires n < |rows| && forall i :: 0 <= i < |rows| && i != n ==> rows[i] != rows[n]
    modifies rows[n]
    ensures filled <==> Fillable(slots.eps, old(rows[n].row), held)
    ensures rows[n].row == if filled
      then old(rows[n].row).(key := IdentityOf(slots.eps, old(rows[n].row.key.title), old(rows[n].row.key.start), ""))
      else old(rows[n].row)
  {
    var p := rows[n];
    if p.row.key.episode != "" { return false; }
    var only := slots.GetOnlyEpisode(p.row.key.title, p.row.key.start);
    var k := p.row.key.(episode := only);
    if only == "" || k in held { return false; }
    p.row := p.row.(key := k);
    return true;
  }
}
