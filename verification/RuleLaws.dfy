// What a rule records and what it passes over, in the terms its page explains them in: statuses,
// titles, air times and counts, with none of the judge's own words (app/auto_rules.py `_Judge`).
module RuleLaws {
  import opened Common
  import opened RuleModel
  import opened RuleJudge
  import opened RulePass
  import opened RulePrograms

  // Scheduled, being made, or made: everything but given up, called off, and words unknown.
  predicate Wanted(status: Status) { status != Failed && status != Aborted && status != OtherStatus }

  // The slot lists this episode and no other.
  ghost predicate Alone(eps: SlotMap, title: string, start: int, episode: string) {
    (title, start) in eps && episode in eps[(title, start)] && forall e :: e in eps[(title, start)] ==> e == episode
  }

  // A listing that names its episode is of that one; else of the only one its slot lists, if any.
  ghost predicate ReadsAs(eps: SlotMap, title: string, start: int, episode: string, read: string) {
    if episode != "" then read == episode
    else Alone(eps, title, start, read) || (read == "" && forall e :: !Alone(eps, title, start, e))
  }

  ghost predicate OfProgram(eps: SlotMap, rec: Lib, title: string, episode: string, start: int) {
    rec.title == title && title != "" && rec.programStart == Some(start) && ReadsAs(eps, title, start, rec.episode, episode)
  }

  // On the listing's channel, or in its group, from its start or before to its stop or after.
  predicate RunsOver(rec: Lib, s: Showing) {
    && ((rec.channel.Some? && rec.channel.value == s.channel) || (rec.group.Some? && rec.group == s.group))
    && !(rec.start > s.start) && !(s.stop > rec.stop)
  }

  ghost predicate OnRecord(eps: SlotMap, recs: Recs, p: Program) {
    exists id :: id in recs && Wanted(recs[id].status)
      && (OfProgram(eps, recs[id], p.identity.title, p.identity.episode, p.identity.start) || exists s :: s in p.showings && RunsOver(recs[id], s))
  }

  // What became of a pick's recording, as kept on the recording or on the row once it is deleted.
  ghost predicate CameTo(row: Row, recs: Recs, status: Status, reason: Reason) {
    match row.recording
    case Some(id) => id in recs && recs[id].status == status && recs[id].reason == reason
    case None => row.removedStatus == Some(status) && row.removedReason == reason
  }

  // A pick that is still wanted, or that a person called off, makes a later airing a replay.
  ghost predicate PickStands(row: Row, recs: Recs) {
    && row.action == ActScheduled
    && exists status, reason :: CameTo(row, recs, status, reason)
         && (Wanted(status) || (status == Aborted && reason != NoReason && reason != GroupChange))
  }

  // A pick holds its place among "so many within so long" while it may still happen or once it
  // was tried: not when it was called off before it began or its recording was deleted unstarted.
  ghost predicate HoldsPlace(row: Row, recs: Recs) {
    && row.action == ActScheduled
    && exists status, reason :: CameTo(row, recs, status, reason) && status != OtherStatus
         && (status == Scheduled ==> row.recording.Some?)
         && (status == Aborted ==> reason != BeforeStart && reason != GroupChange)
  }

  ghost predicate IsReplay(env: Env, st: State, i: Identity) {
    && env.settings.skipRepeats && i.episode != ""
    && ((exists id, start :: id in st.recs && id !in env.userModified && Wanted(st.recs[id].status) && start < i.start
           && OfProgram(env.eps, st.recs[id], i.title, i.episode, start))
        || (exists k :: k in st.rows && k.title == i.title && k.episode == i.episode && k.start < i.start && PickStands(st.rows[k], st.recs)))
  }

  ghost function PlacesIn(st: State, from: int, to: int): set<Identity> {
    set k | k in st.rows && HoldsPlace(st.rows[k], st.recs) && from <= k.start && k.start < to
  }

  ghost predicate NoneFree(st: State, limit: Limit, from: int) { |PlacesIn(st, from, from + limit.window)| >= limit.count }

  // Some stretch of the rule's length around the showing already holds as many picks as it may.
  ghost predicate NoPlaceLeft(env: Env, st: State, t: int) {
    && env.settings.limit.Some?
    && exists from :: from <= t && t < from + env.settings.limit.value.window && NoneFree(st, env.settings.limit.value, from)
  }

  ghost function Upcoming(recs: Recs, rule: int): set<int> { set id | id in recs && recs[id].status == Scheduled && recs[id].rule == Some(rule) }

  ghost predicate CapReached(env: Env, st: State) { env.settings.cap != 0 && |Upcoming(st.recs, env.rule)| >= env.settings.cap }

  // A row that settles nothing: a skip, or a pick whose recording a change of its group took.
  ghost predicate OpenRow(row: Row, recs: Recs) {
    match row.action
    case ActScheduled => CameTo(row, recs, Aborted, GroupChange)
    case UserModified => false
    case OtherAction => false
    case _ => true
  }

  ghost predicate ToJudge(st: State, i: Identity) { i in st.rows ==> OpenRow(st.rows[i], st.recs) }

  // ---- each question, as the judge asks it ---------------------------------------------------

  lemma WantedIsSpokenFor(status: Status)
    ensures SpokenFor(status) <==> Wanted(status)
  {
  }

  lemma OnlyIsAlone(eps: SlotMap, title: string, start: int, read: string)
    ensures OnlyEpisode(eps, title, start) == read <==> Alone(eps, title, start, read) || (read == "" && forall e :: !Alone(eps, title, start, e))
  {
    var k := (title, start);
    forall e | Alone(eps, title, start, e) ensures eps[k] == {e} { }
    if k in eps && |eps[k]| == 1 {
      SingletonElement(eps[k], OnlyEpisode(eps, title, start));
      assert Alone(eps, title, start, OnlyEpisode(eps, title, start));
    }
  }

  // The identity a listing is filed under.
  lemma IdentityIs(eps: SlotMap, title: string, start: int, episode: string, read: Identity)
    ensures IdentityOf(eps, title, start, episode) == read <==> read.title == title && read.start == start && ReadsAs(eps, title, start, episode, read.episode)
  {
    OnlyIsAlone(eps, title, start, read.episode);
  }

  lemma OfProgramIs(eps: SlotMap, rec: Lib, i: Identity)
    ensures Identified(rec) && IdentityOfLib(eps, rec) == i <==> OfProgram(eps, rec, i.title, i.episode, i.start)
  {
    if Identified(rec) { IdentityIs(eps, rec.title, rec.programStart.value, rec.episode, i); }
  }

  lemma OnRecordExactly(eps: SlotMap, recs: Recs, p: Program)
    ensures Existing(eps, recs, p) <==> OnRecord(eps, recs, p)
  {
    forall id | id in recs ensures RecordsProgram(eps, recs[id], p.identity)
      <==> Wanted(recs[id].status) && OfProgram(eps, recs[id], p.identity.title, p.identity.episode, p.identity.start) {
      OfProgramIs(eps, recs[id], p.identity);
    }
    assert forall id, s :: id in recs ==> (CoversShowing(recs[id], s) <==> Wanted(recs[id].status) && RunsOver(recs[id], s));
  }

  lemma FateIs(row: Row, recs: Recs, status: Status, reason: Reason)
    ensures FateOf(row, recs) == Known(status, reason) <==> CameTo(row, recs, status, reason)
  {
  }

  lemma PickStandsExactly(row: Row, recs: Recs)
    ensures row.action.ActScheduled? && PickIsSpokenFor(row, recs) <==> PickStands(row, recs)
  {
    if FateOf(row, recs).Known? { FateIs(row, recs, FateOf(row, recs).status, FateOf(row, recs).reason); }
  }

  lemma HoldsPlaceExactly(row: Row, recs: Recs)
    ensures CountingPick(row, recs) <==> HoldsPlace(row, recs)
  {
    if FateOf(row, recs).Known? { FateIs(row, recs, FateOf(row, recs).status, FateOf(row, recs).reason); }
  }

  lemma AiredExactly(env: Env, rec: Lib, i: Identity)
    ensures EarlierAiring(env, rec, i) <==>
      rec.id !in env.userModified && Wanted(rec.status) && exists start :: start < i.start && OfProgram(env.eps, rec, i.title, i.episode, start)
  {
    if Identified(rec) {
      OfProgramIs(env.eps, rec, IdentityOfLib(env.eps, rec));
    }
    if start :| start < i.start && OfProgram(env.eps, rec, i.title, i.episode, start) {
      OfProgramIs(env.eps, rec, Identity(i.title, i.episode, start));
    }
  }

  lemma ReplayExactly(env: Env, st: State, i: Identity)
    requires ValidState(st)
    ensures Repeat(env, st, i) <==> IsReplay(env, st, i)
  {
    AiredHalf(env, st, i);
    forall k | k in st.rows ensures EarlierPick(st.rows[k], st.recs, i)
      <==> k.title == i.title && k.episode == i.episode && k.start < i.start && PickStands(st.rows[k], st.recs) {
      PickStandsExactly(st.rows[k], st.recs);
    }
  }

  lemma AiredHalf(env: Env, st: State, i: Identity)
    requires ValidState(st)
    ensures (exists id :: id in st.recs && EarlierAiring(env, st.recs[id], i))
      <==> (exists id, start :: id in st.recs && id !in env.userModified && Wanted(st.recs[id].status) && start < i.start
              && OfProgram(env.eps, st.recs[id], i.title, i.episode, start))
  {
    forall id | id in st.recs { AiredExactly(env, st.recs[id], i); }
  }

  lemma PlacesExactly(st: State, from: int, to: int)
    ensures CountingIn(st, from, to) == PlacesIn(st, from, to)
  {
    forall k | k in st.rows { HoldsPlaceExactly(st.rows[k], st.recs); }
  }

  lemma LimitExactly(env: Env, st: State, t: int)
    ensures OverLimit(env, st, t) <==> NoPlaceLeft(env, st, t)
  {
    if env.settings.limit.Some? {
      LimitCheckIsExact(env, st, t);
      var l := env.settings.limit.value;
      forall s ensures WindowFull(st, l, s) <==> NoneFree(st, l, s) { PlacesExactly(st, s, s + l.window); }
    }
  }

  lemma CapExactly(env: Env, st: State)
    ensures AtCap(env, st.recs) <==> CapReached(env, st)
  {
    var ids, upcoming := ScheduledIds(st.recs, env.rule), Upcoming(st.recs, env.rule);
    forall id ensures id in ids <==> id in upcoming { assert id in st.recs ==> (CountsTowardCap(st.recs[id], env.rule) <==> id in upcoming); }
    assert ids == upcoming;
  }

  lemma OpenRowExactly(row: Row, recs: Recs)
    ensures !Decided(row, recs) <==> OpenRow(row, recs)
  {
    FateIs(row, recs, Aborted, GroupChange);
  }

  // ---- the decision ------------------------------------------------------------------------------

  // A program is recorded exactly when no row of the rule settles it, nothing records it or runs
  // over it, it is no replay, its stretch of time has a place left, the cap is not reached, and the
  // planner can place its leading listing; and what it is refused for is the first of these to fail.
  lemma DecidesExactly(env: Env, st: State, p: Program)
    requires ValidState(st) && p.showings != []
    ensures var d, free := Decide(env, st, p), ToJudge(st, p.identity) && !OnRecord(env.eps, st.recs, p);
      && (d == Keep <==> !ToJudge(st, p.identity))
      && (d == Refuse(SkippedExisting) <==> ToJudge(st, p.identity) && OnRecord(env.eps, st.recs, p))
      && (d == Refuse(SkippedRepeat) <==> free && IsReplay(env, st, p.identity))
      && (d == Refuse(SkippedLimit) <==> free && !IsReplay(env, st, p.identity) && NoPlaceLeft(env, st, p.identity.start))
      && (d == Refuse(SkippedCap) <==> free && !IsReplay(env, st, p.identity) && !NoPlaceLeft(env, st, p.identity.start) && CapReached(env, st))
      && (d.Record? <==> free && !IsReplay(env, st, p.identity) && !NoPlaceLeft(env, st, p.identity.start) && !CapReached(env, st)
                         && p.showings[0].entry in env.plans)
      && (d.Record? ==> d.placement == env.plans[p.showings[0].entry])
  {
    if p.identity in st.rows { OpenRowExactly(st.rows[p.identity], st.recs); }
    VerdictExactly(env, st, p);
  }

  lemma VerdictExactly(env: Env, st: State, p: Program)
    requires ValidState(st)
    ensures VerdictOf(env, st, p) ==
      if OnRecord(env.eps, st.recs, p) then SkipAs(SkippedExisting)
      else if IsReplay(env, st, p.identity) then SkipAs(SkippedRepeat)
      else if NoPlaceLeft(env, st, p.identity.start) then SkipAs(SkippedLimit)
      else if CapReached(env, st) then SkipAs(SkippedCap) else Go
  {
    OnRecordExactly(env.eps, st.recs, p);
    ReplayExactly(env, st, p.identity);
    LimitExactly(env, st, p.identity.start);
    CapExactly(env, st);
  }

  // With repeats allowed and neither limit nor cap, only recordings stand in a program's way.
  lemma PlainRuleRecords(env: Env, st: State, p: Program)
    requires ValidState(st) && p.showings != [] && p.identity !in st.rows && p.showings[0].entry in env.plans
    requires !env.settings.skipRepeats && env.settings.limit.None? && env.settings.cap == 0
    ensures Decide(env, st, p).Record? <==> forall id :: id in st.recs ==>
      || st.recs[id].status in {Failed, Aborted, OtherStatus}
      || (!OfProgram(env.eps, st.recs[id], p.identity.title, p.identity.episode, p.identity.start)
          && forall s :: s in p.showings ==> !RunsOver(st.recs[id], s))
  {
    DecidesExactly(env, st, p);
  }

  // What is recorded: one recording, scheduled where the planner put it, under the program's name
  // and the rule's; the program's row now picks it. Everything else stands.
  lemma RecordsWhat(env: Env, st: State, p: Program)
    requires ValidState(st) && p.showings != [] && Decide(env, st, p).Record?
    ensures var t, pl, lead := Step(env, st, p), env.plans[p.showings[0].entry], p.showings[0];
      && t.nextId == st.nextId + 1 && t.recs.Keys == st.recs.Keys + {st.nextId} && t.rows.Keys == st.rows.Keys + {p.identity}
      && (forall id :: id in st.recs ==> t.recs[id] == st.recs[id])
      && (forall k :: k in st.rows && k != p.identity ==> t.rows[k] == st.rows[k])
      && var rec, row := t.recs[st.nextId], t.rows[p.identity];
         && rec.status == Scheduled && rec.rule == Some(env.rule)
         && rec.title == p.identity.title && rec.episode == p.identity.episode && rec.programStart == Some(p.identity.start)
         && rec.start == pl.start && rec.stop == pl.stop && rec.channel == pl.channel && rec.group == pl.group
         && row.action == ActScheduled && row.recording == Some(rec.id) && row.stop == lead.stop && row.channel == pl.channel && row.group == pl.group
         && row.removedStatus == None && row.removedReason == NoReason
  {
    DecidesExactly(env, st, p);
  }

  // A refusal writes its reason and the listing's place on the program's row and keeps what the
  // row says of a recording; it records nothing.
  lemma RefusesWhat(env: Env, st: State, p: Program)
    requires ValidState(st) && p.showings != [] && Decide(env, st, p).Refuse?
    ensures var t, lead := Step(env, st, p), p.showings[0];
      && t.recs == st.recs && t.nextId == st.nextId && t.rows.Keys == st.rows.Keys + {p.identity}
      && (forall k :: k in st.rows && k != p.identity ==> t.rows[k] == st.rows[k])
      && var row := t.rows[p.identity];
         && row.action == Decide(env, st, p).action && row.key == p.identity
         && (p.identity in st.rows ==>
               && row.recording == st.rows[p.identity].recording && row.removedStatus == st.rows[p.identity].removedStatus
               && row.removedReason == st.rows[p.identity].removedReason)
         && (p.identity !in st.rows ==> row.recording == None && row.removedStatus == None && row.removedReason == NoReason)
         && ((p.identity in st.rows && st.rows[p.identity].action == row.action && row == st.rows[p.identity])
             || (row.stop == lead.stop && row.channel == Some(lead.channel) && row.group == lead.group))
  {
  }

  // ---- slots and order ---------------------------------------------------------------------------

  // Reading one listing adds its episode to its slot, when it has a title, a start and an episode.
  lemma AddedIsListed(eps: SlotMap, title: string, start: Option<int>, episode: string, t: string, s: int, e: string)
    ensures InSlot(AddEpisode(eps, title, start, episode), t, s, e)
      <==> InSlot(eps, t, s, e) || (t == title && Some(s) == start && e == episode && title != "" && episode != "")
  {
  }

  // As text compares: at the first character that differs, what ends first being first.
  predicate BeforeAt(a: string, b: string, n: nat) { n <= |a| && n < |b| && a[..n] == b[..n] && (n == |a| || a[n] < b[n]) }

  ghost predicate Before(a: string, b: string) { exists n: nat :: BeforeAt(a, b, n) }

  lemma HeadOff(a: string, b: string, n: nat)
    requires BeforeAt(a, b, n) && n > 0
    ensures a != [] && b != [] && a[0] == b[0] && BeforeAt(a[1..], b[1..], n - 1)
  {
    assert a[..n][0] == a[0] && b[..n][0] == b[0];
    assert a[1..][..n - 1] == a[..n][1..] && b[1..][..n - 1] == b[..n][1..];
  }

  lemma HeadOn(a: string, b: string, n: nat)
    requires a != [] && b != [] && a[0] == b[0] && BeforeAt(a[1..], b[1..], n)
    ensures BeforeAt(a, b, n + 1)
  {
    assert a[..n + 1] == [a[0]] + a[1..][..n] && b[..n + 1] == [b[0]] + b[1..][..n];
  }

  lemma {:induction false} BeforeInText(a: string, b: string)
    ensures Before(a, b) <==> a != b && TextLe(a, b)
  {
    forall n: nat | BeforeAt(a, b, n) && n > 0 { HeadOff(a, b, n); }
    if a == [] || b == [] || a[0] != b[0] {
      if a != b && TextLe(a, b) { assert BeforeAt(a, b, 0); }
    } else {
      BeforeInText(a[1..], b[1..]);
      assert a == [a[0]] + a[1..] && b == [b[0]] + b[1..];
      if n: nat :| BeforeAt(a, b, n) { HeadOff(a, b, n); }
      if n: nat :| BeforeAt(a[1..], b[1..], n) { HeadOn(a, b, n); }
    }
  }

  // A recording is made from the program's best listing: on a group before a single channel, then
  // of the higher score, then the older entry.
  lemma LeadIsBest(eps: SlotMap, showings: seq<Showing>, p: Program, s: Showing)
    requires p in ProgramsOf(eps, showings) && s in p.showings
    ensures p.showings != [] && var lead := p.showings[0];
      && (s.group.Some? ==> lead.group.Some?)
      && (s.group.Some? == lead.group.Some? ==> s.score <= lead.score && (s.score == lead.score ==> lead.entry <= s.entry))
  {
    ProgramMember(eps, showings, p);
  }

  // Programs are judged in the order they start, by title and then episode when they start together.
  lemma ProgramsInOrder(eps: SlotMap, showings: seq<Showing>, j: nat, k: nat)
    requires j < k < |ProgramsOf(eps, showings)|
    ensures var a, b := ProgramsOf(eps, showings)[j].identity, ProgramsOf(eps, showings)[k].identity;
      a.start < b.start || (a.start == b.start && (Before(a.title, b.title) || (a.title == b.title && Before(a.episode, b.episode))))
  {
    var ps := ProgramsOf(eps, showings);
    ProgramMember(eps, showings, ps[j]);
    ProgramMember(eps, showings, ps[k]);
    ProgramLePreorder();
    SortSorted(ProgramLe, ProgramsFor(eps, showings, Identities(eps, showings)));
    assert ProgramLe(ps[j], ps[k]);
    ProgramsDistinct(eps, showings);
    BeforeInText(ps[j].identity.title, ps[k].identity.title);
    BeforeInText(ps[j].identity.episode, ps[k].identity.episode);
  }
}
