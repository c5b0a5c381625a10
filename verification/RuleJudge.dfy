// Judging one rule's programs against its ledger and the library (app/auto_rules.py, section
// 4.3 step 4 of the design it cites): the four checks, the pass that schedules what they let
// through, and the objects that compute it.
module RuleJudge {
  import opened Common
  import opened RuleModel

  type Pos = n: int | n > 0 witness 1
  datatype Limit = Limit(count: Pos, window: Pos)
  // cap == 0 means uncapped.
  datatype Settings = Settings(skipRepeats: bool, limit: Option<Limit>, cap: nat)

  // Where the planner puts a recording of a listing; a listing it cannot place has none.
  datatype Placement = Placement(channel: Option<int>, group: Option<int>, start: int, stop: int)

  datatype Env = Env(rule: int, settings: Settings, eps: SlotMap, userModified: set<int>,
                     plans: map<int, Placement>)

  type Rows = map<Identity, Row>

  // The rule's ledger, the library, and the next recording id (ids are never handed out twice).
  datatype State = State(rows: Rows, recs: Recs, nextId: int)

  ghost predicate ValidState(st: State) {
    && (forall k :: k in st.rows ==> st.rows[k].key == k)
    && (forall k :: k in st.rows && st.rows[k].recording.Some? ==> st.rows[k].recording.value < st.nextId)
    && (forall id :: id in st.recs ==> st.recs[id].id == id && id < st.nextId)
  }

  ghost predicate ValidEnv(env: Env, st: State) {
    forall id :: id in env.userModified ==> id < st.nextId
  }

  ghost predicate ValidProgram(p: Program) {
    && p.showings != []
    && (forall s :: s in p.showings ==> s.title == p.identity.title && s.start == p.identity.start)
  }

  // ---- the four checks, as statements about the ledger and the library -------------------

  ghost predicate RecordsProgram(eps: SlotMap, rec: Lib, i: Identity) {
    SpokenFor(rec.status) && Identified(rec) && IdentityOfLib(eps, rec) == i
  }

  predicate CoversShowing(rec: Lib, s: Showing) {
    && SpokenFor(rec.status)
    && (rec.channel == Some(s.channel) || (s.group.Some? && rec.group == s.group))
    && rec.start <= s.start && rec.stop >= s.stop
  }

  ghost predicate Existing(eps: SlotMap, recs: Recs, p: Program) {
    || (exists id :: id in recs && RecordsProgram(eps, recs[id], p.identity))
    || (exists id, s :: id in recs && s in p.showings && CoversShowing(recs[id], s))
  }

  ghost predicate EarlierAiring(env: Env, rec: Lib, i: Identity) {
    && SpokenFor(rec.status) && Identified(rec) && rec.id !in env.userModified
    && IdentityOfLib(env.eps, rec).title == i.title
    && IdentityOfLib(env.eps, rec).episode == i.episode
    && IdentityOfLib(env.eps, rec).start < i.start
  }

  predicate EarlierPick(row: Row, recs: Recs, i: Identity) {
    && row.action.ActScheduled? && row.key.title == i.title && row.key.episode == i.episode
    && row.key.start < i.start && PickIsSpokenFor(row, recs)
  }

  ghost predicate Repeat(env: Env, st: State, i: Identity) {
    && env.settings.skipRepeats && i.episode != ""
    && ((exists id :: id in st.recs && EarlierAiring(env, st.recs[id], i))
        || (exists k :: k in st.rows && EarlierPick(st.rows[k], st.recs, i)))
  }

  predicate CountingPick(row: Row, recs: Recs) { row.action.ActScheduled? && PickCountsForLimit(row, recs) }

  // The picks that use a limit slot and start in [lo, hi).
  ghost function CountingIn(st: State, lo: int, hi: int): set<Identity> {
    set k | k in st.rows && CountingPick(st.rows[k], st.recs) && lo <= k.start < hi
  }

  ghost predicate WindowFull(st: State, limit: Limit, s: int) {
    |CountingIn(st, s, s + limit.window)| + 1 > limit.count
  }

  // The windows the check looks at: those opening at a counting pick in (t - window, t], and
  // the one opening at t itself.
  ghost predicate CandidateWindow(st: State, limit: Limit, t: int, s: int) {
    s == t || (t - limit.window < s <= t && CountingIn(st, s, s + 1) != {})
  }

  ghost predicate OverLimit(env: Env, st: State, t: int) {
    env.settings.limit.Some? &&
    exists s :: CandidateWindow(st, env.settings.limit.value, t, s) && WindowFull(st, env.settings.limit.value, s)
  }

  predicate CountsTowardCap(rec: Lib, rule: int) { rec.status == Scheduled && rec.rule == Some(rule) }

  ghost function ScheduledIds(recs: Recs, rule: int): set<int> {
    set id | id in recs && CountsTowardCap(recs[id], rule)
  }

  ghost predicate AtCap(env: Env, recs: Recs) {
    env.settings.cap > 0 && |ScheduledIds(recs, env.rule)| >= env.settings.cap
  }

  datatype Verdict = Go | SkipAs(action: Action)

  ghost function VerdictOf(env: Env, st: State, p: Program): Verdict {
    if Existing(env.eps, st.recs, p) then SkipAs(SkippedExisting)
    else if Repeat(env, st, p.identity) then SkipAs(SkippedRepeat)
    else if OverLimit(env, st, p.identity.start) then SkipAs(SkippedLimit)
    else if AtCap(env, st.recs) then SkipAs(SkippedCap)
    else Go
  }

  // ---- one program, then a whole pass ----------------------------------------------------

  datatype Decision = Keep | Refuse(action: Action) | Unplaced | Record(placement: Placement)

  // Does the ledger already decide this program? A standing pick and an edited one do, a row
  // whose action is outside the vocabulary is left alone; a skip is judged again, and so is a
  // pick whose recording a group change aborted.
  predicate Decided(row: Row, recs: Recs) {
    match row.action
    case ActScheduled => !AbortedByGroupChange(row, recs)
    case UserModified => true
    case OtherAction => true
    case _ => false
  }

  ghost function Decide(env: Env, st: State, p: Program): Decision
    requires p.showings != []
  {
    if p.identity in st.rows && Decided(st.rows[p.identity], st.recs) then Keep
    else
      match VerdictOf(env, st, p)
      case SkipAs(a) => Refuse(a)
      case Go => if p.showings[0].entry in env.plans then Record(env.plans[p.showings[0].entry]) else Unplaced
  }

  // The recording as the run's own library holds it from the moment it is created.
  function Created(rule: int, id: int, i: Identity, pl: Placement): Lib {
    Lib(id, Scheduled, NoReason, i.title, i.episode, Some(i.start), pl.channel, pl.group, pl.start, pl.stop, Some(rule))
  }

  function PickRow(i: Identity, lead: Showing, id: int, pl: Placement): Row {
    Row(i, lead.stop, ActScheduled, Some(id), None, NoReason, pl.channel, pl.group)
  }

  // A verdict rewrites what the row says about the showing and keeps what it says about a recording.
  function WriteVerdict(rows: Rows, i: Identity, lead: Showing, a: Action): Rows {
    if i in rows then
      rows[i := rows[i].(action := a, stop := lead.stop, channel := Some(lead.channel), group := lead.group)]
    else
      rows[i := Row(i, lead.stop, a, None, None, NoReason, Some(lead.channel), lead.group)]
  }

  function MakePick(rule: int, st: State, i: Identity, lead: Showing, pl: Placement): State {
    State(st.rows[i := PickRow(i, lead, st.nextId, pl)], st.recs[st.nextId := Created(rule, st.nextId, i, pl)], st.nextId + 1)
  }

  ghost function Step(env: Env, st: State, p: Program): State
    requires p.showings != []
  {
    match Decide(env, st, p)
    case Keep => st
    case Unplaced => st
    case Refuse(a) =>
      if p.identity in st.rows && st.rows[p.identity].action == a then st
      else st.(rows := WriteVerdict(st.rows, p.identity, p.showings[0], a))
    case Record(pl) => MakePick(env.rule, st, p.identity, p.showings[0], pl)
  }

  // What the planner and the checks never disturb: programs are distinct and in start order.
  ghost predicate ValidPrograms(ps: seq<Program>) {
    && (forall i :: 0 <= i < |ps| ==> ValidProgram(ps[i]))
    && (forall i, j :: 0 <= i < j < |ps| ==> ps[i].identity != ps[j].identity)
    && (forall i, j :: 0 <= i < j < |ps| ==> ps[i].identity.start <= ps[j].identity.start)
  }

  ghost function Pass(env: Env, st: State, ps: seq<Program>): State
    requires forall i :: 0 <= i < |ps| ==> ps[i].showings != []
  {
    if ps == [] then st else Step(env, Pass(env, st, ps[..|ps| - 1]), ps[|ps| - 1])
  }

  lemma StepValid(env: Env, st: State, p: Program)
    requires ValidState(st) && ValidEnv(env, st) && p.showings != []
    ensures ValidState(Step(env, st, p)) && ValidEnv(env, Step(env, st, p))
    ensures st.nextId <= Step(env, st, p).nextId
  {
  }

  lemma {:induction false} PassValid(env: Env, st: State, ps: seq<Program>)
    requires ValidState(st) && ValidEnv(env, st)
    requires forall i :: 0 <= i < |ps| ==> ps[i].showings != []
    ensures ValidState(Pass(env, st, ps)) && ValidEnv(env, Pass(env, st, ps))
    ensures st.nextId <= Pass(env, st, ps).nextId
  {
    if ps != [] {
      PassValid(env, st, ps[..|ps| - 1]);
      StepValid(env, Pass(env, st, ps[..|ps| - 1]), ps[|ps| - 1]);
    }
  }
}
