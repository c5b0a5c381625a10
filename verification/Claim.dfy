// The claim protocol (app/auto_rules.py `_claim_rule` and the lifecycle writers): an evaluation
// reads a rule, works outside any transaction, and commits in write units that each re-check
// the rule; people edit, pause, resume and delete rules, and recordings start and go, between
// any two of its units. Every commit is one atomic step; a crashed unit is no step.
module Claim {
  import opened Common

  // `settings` stands for everything a rule is judged by except the spelling of its search and
  // its profile link, which follow a rename or a profile's deletion without a new revision.
  datatype Rule = Rule(revision: int, enabled: bool, settings: int, search: int, profile: Option<int>)
  datatype RecStatus = Scheduled | Started
  datatype Rec = Rec(rule: Option<int>, status: RecStatus)
  datatype Kind = Pick | Skip | Edited
  datatype Row = Row(rule: int, kind: Kind, start: int, recording: Option<int>, removed: Option<RecStatus>)
  datatype Judged = Judged(rule: int, revision: int, settings: int)

  datatype Sys = Sys(rules: map<int, Rule>, recs: map<int, Rec>, rows: map<int, Row>, engines: map<int, Judged>,
                     nextRule: int, nextRec: int, nextRow: int)

  const Empty := Sys(map[], map[], map[], map[], 0, 0, 0)

  datatype Unmatched = Nothing | Cancel(ids: set<int>) | Release(ids: set<int>)

  datatype Op =
    | CreateRule(settings: int, search: int, profile: Option<int>)
    | EditRule(rule: int, settings: int, search: int, profile: Option<int>, unmatched: Unmatched, now: int)
    | SetEnabled(rule: int, enabled: bool)
    | DeleteRule(rule: int, cancelScheduled: bool)
    | RenameInSearches(spelling: map<int, int>)
    | UnlinkProfile(gone: int)
    | CreateByHand
    | StartRecording(rec: int)
    | DeleteRecording(rec: int)
    | PruneHistory(cutoff: int)
    | EngineRead(engine: int, rule: int)
    | EngineSchedule(engine: int, start: int, row: Option<int>)
    | EngineVerdicts(engine: int, rejudged: set<int>, added: seq<int>)
    | EngineRetrack(engine: int, pick: int, at: int, letGo: bool)

  // The conditional update every write unit opens with.
  predicate Claimed(s: Sys, engine: int) {
    && engine in s.engines
    && var j := s.engines[engine];
       j.rule in s.rules && s.rules[j.rule].revision == j.revision && s.rules[j.rule].enabled
  }

  // Deleting recordings stamps what became of them on the rows that named them.
  function Detach(rows: map<int, Row>, recs: map<int, Rec>, gone: set<int>): map<int, Row> {
    map r | r in rows :: if rows[r].recording.Some? && rows[r].recording.value in gone
      then rows[r].(recording := None,
                    removed := if rows[r].recording.value in recs then Some(recs[rows[r].recording.value].status) else None)
      else rows[r]
  }

  function DropRecs(s: Sys, gone: set<int>): Sys {
    s.(recs := s.recs - gone, rows := Detach(s.rows, s.recs, gone))
  }

  function DropRows(s: Sys, gone: set<int>): Sys { s.(rows := s.rows - gone) }

  // The recordings a person's answer still applies to: still scheduled, still this rule's.
  function Settled(s: Sys, rule: int, ids: set<int>): set<int> {
    set id | id in ids && id in s.recs && s.recs[id].rule == Some(rule) && s.recs[id].status == Scheduled
  }

  function RowsNaming(s: Sys, rule: int, ids: set<int>): set<int> {
    set r | r in s.rows && s.rows[r].rule == rule && s.rows[r].recording.Some? && s.rows[r].recording.value in ids
  }

  function Settle(s: Sys, rule: int, u: Unmatched): Sys {
    match u
    case Nothing => s
    case Cancel(ids) =>
      var hit := Settled(s, rule, ids);
      DropRecs(DropRows(s, RowsNaming(s, rule, hit)), hit)
    case Release(ids) =>
      var hit := Settled(s, rule, ids);
      var free := DropRows(s, RowsNaming(s, rule, hit));
      free.(recs := map id | id in s.recs :: if id in hit then s.recs[id].(rule := None) else s.recs[id])
  }

  function Revised(s: Sys, rule: int, r: Rule): Sys { s.(rules := s.rules[rule := r]) }

  function StaleSkips(s: Sys, rule: int, now: int): set<int> {
    set k | k in s.rows && s.rows[k].rule == rule && s.rows[k].kind == Skip && s.rows[k].start > now
  }

  function Edit(s: Sys, rule: int, settings: int, search: int, profile: Option<int>, u: Unmatched, now: int): Sys
    requires rule in s.rules
  {
    var r := s.rules[rule];
    var edited := Revised(s, rule, Rule(r.revision + 1, r.enabled, settings, search, profile));
    Settle(DropRows(edited, StaleSkips(s, rule, now)), rule, u)
  }

  function Delete(s: Sys, rule: int, cancelScheduled: bool): Sys {
    var cancelled := set id | id in s.recs && s.recs[id].rule == Some(rule) && cancelScheduled && s.recs[id].status == Scheduled;
    var kept := (map id | id in s.recs && id !in cancelled ::
      if s.recs[id].rule == Some(rule) then s.recs[id].(rule := None) else s.recs[id]);
    var rows := Detach(s.rows, s.recs, cancelled);
    s.(rules := s.rules - {rule}, recs := kept, rows := map k | k in rows && rows[k].rule != rule :: rows[k])
  }

  function Enable(s: Sys, rule: int, enabled: bool): Sys
    requires rule in s.rules
  {
    Revised(s, rule, s.rules[rule].(enabled := enabled, revision := s.rules[rule].revision + 1))
  }

  // A recording and the ledger row that names it, in one commit. The code finds the row by its id
  // alone; that the row is still the rule's is assumed of ids: `nextRow` never gives one twice,
  // though rule_matches has no AUTOINCREMENT (app/database.py).
  function Schedule(s: Sys, rule: int, start: int, row: Option<int>): Sys {
    var at := if row.Some? && row.value in s.rows && s.rows[row.value].rule == rule then row.value else s.nextRow;
    s.(recs := s.recs[s.nextRec := Rec(Some(rule), Scheduled)],
       rows := s.rows[at := Row(rule, Pick, start, Some(s.nextRec), None)],
       nextRec := s.nextRec + 1, nextRow := s.nextRow + 1)
  }

  function AddSkips(s: Sys, rule: int, starts: seq<int>): Sys {
    if starts == [] then s
    else
      var t := AddSkips(s, rule, starts[..|starts| - 1]);
      t.(rows := t.rows[t.nextRow := Row(rule, Skip, starts[|starts| - 1], None, None)], nextRow := t.nextRow + 1)
  }

  function Rejudged(s: Sys, rule: int, rejudged: set<int>): map<int, Row> {
    map k | k in s.rows :: if k in rejudged && s.rows[k].rule == rule then s.rows[k].(kind := Skip) else s.rows[k]
  }

  function Verdicts(s: Sys, rule: int, rejudged: set<int>, added: seq<int>): Sys {
    AddSkips(s.(rows := Rejudged(s, rule, rejudged)), rule, added)
  }

  function Follow(s: Sys, rule: int, pick: int, at: int, letGo: bool): Sys {
    if pick !in s.rows || s.rows[pick].rule != rule || s.rows[pick].kind != Pick then s
    else if letGo then s.(rows := s.rows[pick := s.rows[pick].(kind := Edited)])
    else s.(rows := s.rows[pick := s.rows[pick].(start := at)])
  }

  function Lifecycle(s: Sys, op: Op): Sys
    requires !EngineWrite(op)
  {
    match op
    case CreateRule(settings, search, profile) =>
      s.(rules := s.rules[s.nextRule := Rule(1, true, settings, search, profile)], nextRule := s.nextRule + 1)
    case EditRule(rule, settings, search, profile, u, now) =>
      if rule in s.rules then Edit(s, rule, settings, search, profile, u, now) else s
    case SetEnabled(rule, enabled) =>
      if rule in s.rules && s.rules[rule].enabled != enabled then Enable(s, rule, enabled) else s
    case DeleteRule(rule, cancelScheduled) => if rule in s.rules then Delete(s, rule, cancelScheduled) else s
    case RenameInSearches(spelling) =>
      s.(rules := map r | r in s.rules :: if r in spelling then s.rules[r].(search := spelling[r]) else s.rules[r])
    case UnlinkProfile(gone) =>
      s.(rules := map r | r in s.rules :: if s.rules[r].profile == Some(gone) then s.rules[r].(profile := None) else s.rules[r])
    case CreateByHand => s.(recs := s.recs[s.nextRec := Rec(None, Scheduled)], nextRec := s.nextRec + 1)
    case StartRecording(rec) => if rec in s.recs then s.(recs := s.recs[rec := s.recs[rec].(status := Started)]) else s
    case DeleteRecording(rec) => if rec in s.recs then DropRecs(s, {rec}) else s
    case PruneHistory(cutoff) => DropRows(s, set k | k in s.rows && s.rows[k].start < cutoff)
    case EngineRead(engine, rule) =>
      if rule in s.rules && s.rules[rule].enabled
      then s.(engines := s.engines[engine := Judged(rule, s.rules[rule].revision, s.rules[rule].settings)])
      else s
    case _ => s
  }

  predicate EngineWrite(op: Op) { op.EngineSchedule? || op.EngineVerdicts? || op.EngineRetrack? }

  function Write(s: Sys, rule: int, op: Op): Sys
    requires EngineWrite(op)
  {
    match op
    case EngineSchedule(_, start, row) => Schedule(s, rule, start, row)
    case EngineVerdicts(_, rejudged, added) => Verdicts(s, rule, rejudged, added)
    case EngineRetrack(_, pick, at, letGo) => Follow(s, rule, pick, at, letGo)
    case _ => s
  }

  function Next(s: Sys, op: Op): Sys {
    if !EngineWrite(op) then Lifecycle(s, op)
    else if Claimed(s, op.engine) then Write(s, s.engines[op.engine].rule, op)
    else s
  }

  function Run(s: Sys, ops: seq<Op>): Sys {
    if ops == [] then s else Next(Run(s, ops[..|ops| - 1]), ops[|ops| - 1])
  }

  // ---- what every run keeps ------------------------------------------------------------------

  // A recording or a ledger row names only a rule that exists; a row names only a recording that
  // exists, and one its own rule made.
  ghost predicate NamesOnlyTheLiving(s: Sys) {
    && (forall id :: id in s.recs && s.recs[id].rule.Some? ==> s.recs[id].rule.value in s.rules)
    && (forall k :: k in s.rows ==> s.rows[k].rule in s.rules)
    && (forall k :: k in s.rows && s.rows[k].recording.Some? ==>
          s.rows[k].recording.value in s.recs && s.recs[s.rows[k].recording.value].rule == Some(s.rows[k].rule))
  }

  // A revision stands for its settings: whoever still holds the current one holds current settings.
  ghost predicate StillMeans(j: Judged, rules: map<int, Rule>) {
    j.rule in rules ==>
      && j.revision <= rules[j.rule].revision
      && (j.revision == rules[j.rule].revision ==> rules[j.rule].settings == j.settings && rules[j.rule].enabled)
  }

  ghost predicate RevisionMeansSettings(rules: map<int, Rule>, engines: map<int, Judged>) {
    forall e :: e in engines ==> StillMeans(engines[e], rules)
  }

  ghost predicate IdsFresh(s: Sys) {
    && (forall r :: r in s.rules ==> r < s.nextRule)
    && (forall e :: e in s.engines ==> s.engines[e].rule < s.nextRule)
    && (forall id :: id in s.recs ==> id < s.nextRec)
    && (forall k :: k in s.rows ==> k < s.nextRow)
  }

  ghost predicate Inv(s: Sys) { NamesOnlyTheLiving(s) && RevisionMeansSettings(s.rules, s.engines) && IdsFresh(s) }

  lemma SettleKeeps(s: Sys, rule: int, u: Unmatched)
    requires Inv(s)
    ensures Inv(Settle(s, rule, u))
  {
  }

  lemma DropRowsKeeps(s: Sys, gone: set<int>)
    requires Inv(s)
    ensures Inv(DropRows(s, gone))
  {
  }

  lemma RevisedKeeps(s: Sys, rule: int, r: Rule)
    requires Inv(s) && rule in s.rules && r.revision == s.rules[rule].revision + 1
    ensures Inv(Revised(s, rule, r))
  {
  }

  lemma SettledRowsKeep(s: Sys, gone: set<int>, rule: int, u: Unmatched)
    requires Inv(s)
    ensures Inv(Settle(DropRows(s, gone), rule, u))
  {
    DropRowsKeeps(s, gone);
    SettleKeeps(DropRows(s, gone), rule, u);
  }

  lemma EditKeeps(s: Sys, rule: int, settings: int, search: int, profile: Option<int>, u: Unmatched, now: int)
    requires Inv(s) && rule in s.rules
    ensures Inv(Edit(s, rule, settings, search, profile, u, now))
  {
    var r := s.rules[rule];
    var next := Rule(r.revision + 1, r.enabled, settings, search, profile);
    RevisedKeeps(s, rule, next);
    SettledRowsKeep(Revised(s, rule, next), StaleSkips(s, rule, now), rule, u);
  }

  lemma DeleteKeeps(s: Sys, rule: int, cancelScheduled: bool)
    requires Inv(s)
    ensures Inv(Delete(s, rule, cancelScheduled))
  {
  }

  lemma DropRecsKeeps(s: Sys, gone: set<int>)
    requires Inv(s)
    ensures Inv(DropRecs(s, gone))
  {
  }

  lemma {:induction false} AddSkipsKeeps(s: Sys, rule: int, starts: seq<int>)
    requires Inv(s) && rule in s.rules
    ensures Inv(AddSkips(s, rule, starts)) && AddSkips(s, rule, starts).rules == s.rules
    ensures AddSkips(s, rule, starts).nextRule == s.nextRule && AddSkips(s, rule, starts).engines == s.engines
  {
    if starts != [] { AddSkipsKeeps(s, rule, starts[..|starts| - 1]); }
  }

  lemma WriteKeeps(s: Sys, rule: int, op: Op)
    requires Inv(s) && rule in s.rules && EngineWrite(op)
    ensures Inv(Write(s, rule, op)) && Write(s, rule, op).rules == s.rules && Write(s, rule, op).nextRule == s.nextRule
  {
    if op.EngineVerdicts? {
      var t := s.(rows := Rejudged(s, rule, op.rejudged));
      assert Inv(t);
      AddSkipsKeeps(t, rule, op.added);
    }
  }

  // Spellings and profile links move without a revision; nothing the invariant reads does.
  lemma RespelledKeeps(s: Sys, rules: map<int, Rule>)
    requires Inv(s) && rules.Keys == s.rules.Keys
    requires forall r :: r in rules ==> rules[r].(search := s.rules[r].search, profile := s.rules[r].profile) == s.rules[r]
    ensures Inv(s.(rules := rules))
  {
  }

  lemma CreateRuleKeeps(s: Sys, r: Rule)
    requires Inv(s)
    ensures Inv(s.(rules := s.rules[s.nextRule := r], nextRule := s.nextRule + 1))
  {
  }

  lemma RecordingKeeps(s: Sys, id: int, rec: Rec, next: int)
    requires Inv(s) && id < next && s.nextRec <= next && rec.rule == if id in s.recs then s.recs[id].rule else None
    ensures Inv(s.(recs := s.recs[id := rec], nextRec := next))
  {
  }

  lemma ReadKeeps(s: Sys, engine: int, rule: int)
    requires Inv(s) && rule in s.rules && s.rules[rule].enabled
    ensures Inv(s.(engines := s.engines[engine := Judged(rule, s.rules[rule].revision, s.rules[rule].settings)]))
  {
  }

  lemma LifecycleKeeps(s: Sys, op: Op)
    requires Inv(s) && !EngineWrite(op)
    ensures Inv(Lifecycle(s, op))
  {
    match op
    case CreateRule(settings, search, profile) => CreateRuleKeeps(s, Rule(1, true, settings, search, profile));
    case EditRule(rule, settings, search, profile, u, now) =>
      if rule in s.rules { EditKeeps(s, rule, settings, search, profile, u, now); }
    case SetEnabled(rule, enabled) =>
      if rule in s.rules { RevisedKeeps(s, rule, s.rules[rule].(enabled := enabled, revision := s.rules[rule].revision + 1)); }
    case DeleteRule(rule, cancelScheduled) => DeleteKeeps(s, rule, cancelScheduled);
    case RenameInSearches(_) => RespelledKeeps(s, Lifecycle(s, op).rules);
    case UnlinkProfile(_) => RespelledKeeps(s, Lifecycle(s, op).rules);
    case CreateByHand => RecordingKeeps(s, s.nextRec, Rec(None, Scheduled), s.nextRec + 1);
    case StartRecording(rec) => if rec in s.recs { RecordingKeeps(s, rec, s.recs[rec].(status := Started), s.nextRec); }
    case DeleteRecording(rec) => DropRecsKeeps(s, {rec});
    case PruneHistory(cutoff) => DropRowsKeeps(s, set k | k in s.rows && s.rows[k].start < cutoff);
    case EngineRead(engine, rule) => if rule in s.rules && s.rules[rule].enabled { ReadKeeps(s, engine, rule); }
    case _ =>
  }

  lemma StepKeepsInv(s: Sys, op: Op)
    requires Inv(s)
    ensures Inv(Next(s, op))
  {
    if !EngineWrite(op) {
      LifecycleKeeps(s, op);
    } else if Claimed(s, op.engine) {
      WriteKeeps(s, s.engines[op.engine].rule, op);
    }
  }

  lemma {:induction false} EveryRunKeepsInv(ops: seq<Op>)
    ensures Inv(Run(Empty, ops))
  {
    if ops != [] {
      EveryRunKeepsInv(ops[..|ops| - 1]);
      StepKeepsInv(Run(Empty, ops[..|ops| - 1]), ops[|ops| - 1]);
    }
  }

  // ---- what an engine's write may rely on ----------------------------------------------------

  // In every interleaving: an engine write that changes anything commits while its rule exists,
  // is enabled, and still has the revision and the settings the engine judged it by.
  lemma EngineWritesAreCurrent(ops: seq<Op>, op: Op)
    requires EngineWrite(op) && Next(Run(Empty, ops), op) != Run(Empty, ops)
    ensures var s := Run(Empty, ops);
      && op.engine in s.engines && s.engines[op.engine].rule in s.rules
      && var j := s.engines[op.engine];
         s.rules[j.rule].enabled && s.rules[j.rule].revision == j.revision && s.rules[j.rule].settings == j.settings
  {
    EveryRunKeepsInv(ops);
  }

  predicate Lives(op: Op, s: Sys, rule: int) {
    || (op.EditRule? && op.rule == rule) || (op.DeleteRule? && op.rule == rule)
    || (op.SetEnabled? && op.rule == rule && rule in s.rules && s.rules[rule].enabled != op.enabled)
  }

  // What the engine read is of a revision gone by, or of a rule that is gone.
  ghost predicate Void(s: Sys, engine: int) {
    && engine in s.engines && s.engines[engine].rule < s.nextRule
    && (s.engines[engine].rule in s.rules ==> s.engines[engine].revision < s.rules[s.engines[engine].rule].revision)
  }

  // Rules only come at the next id, and a rule that stays never goes back a revision.
  ghost predicate RulesAdvance(s: Sys, t: Sys) {
    && s.nextRule <= t.nextRule && t.rules.Keys <= s.rules.Keys + {s.nextRule}
    && forall r :: r in s.rules && r in t.rules ==> s.rules[r].revision <= t.rules[r].revision
  }

  lemma SettleKeepsRules(s: Sys, rule: int, u: Unmatched)
    ensures Settle(s, rule, u).rules == s.rules && Settle(s, rule, u).engines == s.engines && Settle(s, rule, u).nextRule == s.nextRule
  {
  }

  lemma LifecycleAdvances(s: Sys, op: Op)
    requires Inv(s) && !EngineWrite(op)
    ensures RulesAdvance(s, Lifecycle(s, op))
  {
    if op.EditRule? && op.rule in s.rules { EditedRules(s, op); }
  }

  lemma EditedRules(s: Sys, op: Op)
    requires op.EditRule? && op.rule in s.rules
    ensures var r, t := s.rules[op.rule], Lifecycle(s, op);
      t.rules == s.rules[op.rule := Rule(r.revision + 1, r.enabled, op.settings, op.search, op.profile)]
      && t.engines == s.engines && t.nextRule == s.nextRule
  {
    var r := s.rules[op.rule];
    var edited := Revised(s, op.rule, Rule(r.revision + 1, r.enabled, op.settings, op.search, op.profile));
    SettleKeepsRules(DropRows(edited, StaleSkips(s, op.rule, op.now)), op.rule, op.unmatched);
  }

  lemma ReadsStand(s: Sys, op: Op, engine: int)
    requires !EngineWrite(op) && engine in s.engines && !(op.EngineRead? && op.engine == engine)
    ensures engine in Lifecycle(s, op).engines && Lifecycle(s, op).engines[engine] == s.engines[engine]
  {
    if op.EditRule? && op.rule in s.rules { EditedRules(s, op); }
  }

  lemma WriteKeepsReads(s: Sys, rule: int, op: Op)
    requires Inv(s) && rule in s.rules && EngineWrite(op)
    ensures Write(s, rule, op).rules == s.rules && Write(s, rule, op).nextRule == s.nextRule && Write(s, rule, op).engines == s.engines
  {
    WriteKeeps(s, rule, op);
    if op.EngineVerdicts? { AddedSkipsKeepReads(s.(rows := Rejudged(s, rule, op.rejudged)), rule, op.added); }
  }

  lemma {:induction false} AddedSkipsKeepReads(s: Sys, rule: int, starts: seq<int>)
    ensures AddSkips(s, rule, starts).engines == s.engines
  {
    if starts != [] { AddedSkipsKeepReads(s, rule, starts[..|starts| - 1]); }
  }

  lemma VoidStays(s: Sys, op: Op, engine: int)
    requires Inv(s) && Void(s, engine) && !(op.EngineRead? && op.engine == engine)
    ensures Void(Next(s, op), engine)
  {
    if !EngineWrite(op) {
      LifecycleAdvances(s, op);
      ReadsStand(s, op, engine);
    } else if Claimed(s, op.engine) {
      WriteKeepsReads(s, s.engines[op.engine].rule, op);
    }
  }

  ghost predicate ReadsNot(ops: seq<Op>, engine: int) { forall op :: op in ops ==> !(op.EngineRead? && op.engine == engine) }

  lemma {:induction false} VoidStaysVoid(s: Sys, ops: seq<Op>, engine: int)
    requires Inv(s) && Void(s, engine) && ReadsNot(ops, engine)
    ensures Inv(Run(s, ops)) && Void(Run(s, ops), engine)
  {
    if ops != [] {
      VoidStaysVoid(s, ops[..|ops| - 1], engine);
      StepKeepsInv(Run(s, ops[..|ops| - 1]), ops[|ops| - 1]);
      VoidStays(Run(s, ops[..|ops| - 1]), ops[|ops| - 1], engine);
    }
  }

  lemma LifecycleVoids(s: Sys, op: Op, engine: int)
    requires Inv(s) && engine in s.engines && s.engines[engine].rule in s.rules && Lives(op, s, s.engines[engine].rule)
    ensures Void(Next(s, op), engine)
  {
    LifecycleAdvances(s, op);
    ReadsStand(s, op, engine);
    if op.EditRule? { EditedRules(s, op); }
  }

  // Whatever an engine read before the rule was edited, paused, resumed or deleted is void after:
  // however the run goes on, none of its write units changes anything until it reads again.
  lemma LifecycleVoidsEarlierReads(s: Sys, op: Op, ops: seq<Op>, write: Op)
    requires Inv(s) && EngineWrite(write) && write.engine in s.engines
    requires s.engines[write.engine].rule in s.rules && Lives(op, s, s.engines[write.engine].rule)
    requires ReadsNot(ops, write.engine)
    ensures Next(Run(Next(s, op), ops), write) == Run(Next(s, op), ops)
  {
    StepKeepsInv(s, op);
    LifecycleVoids(s, op, write.engine);
    VoidStaysVoid(Next(s, op), ops, write.engine);
  }

  lemma {:induction false} GoneStaysGone(s: Sys, ops: seq<Op>, rule: int)
    requires Inv(s) && rule < s.nextRule && rule !in s.rules
    ensures Inv(Run(s, ops)) && rule < Run(s, ops).nextRule && rule !in Run(s, ops).rules
  {
    if ops != [] {
      var before := Run(s, ops[..|ops| - 1]);
      GoneStaysGone(s, ops[..|ops| - 1], rule);
      StepKeepsInv(before, ops[|ops| - 1]);
      RulesOnlyCreated(before, ops[|ops| - 1]);
    }
  }

  // A rule once deleted is never named again, however the run goes on.
  lemma DeletedIsNeverNamedAgain(s: Sys, rule: int, cancelScheduled: bool, ops: seq<Op>)
    requires Inv(s) && rule in s.rules
    ensures var t := Run(Next(s, DeleteRule(rule, cancelScheduled)), ops);
      && rule !in t.rules
      && (forall id :: id in t.recs ==> t.recs[id].rule != Some(rule))
      && (forall k :: k in t.rows ==> t.rows[k].rule != rule)
  {
    StepKeepsInv(s, DeleteRule(rule, cancelScheduled));
    GoneStaysGone(Next(s, DeleteRule(rule, cancelScheduled)), ops, rule);
  }

  lemma RulesOnlyCreated(s: Sys, op: Op)
    requires Inv(s)
    ensures Next(s, op).rules.Keys <= s.rules.Keys + {s.nextRule} && s.nextRule <= Next(s, op).nextRule
  {
    if EngineWrite(op) && Claimed(s, op.engine) { WriteKeeps(s, s.engines[op.engine].rule, op); }
  }

  // Deleting a rule cancels exactly its recordings that had not started, when asked to, and
  // releases the rest; every other recording is left as it was.
  lemma DeleteTakesOnlyTheUnstarted(s: Sys, rule: int, cancelScheduled: bool, id: int)
    requires id in s.recs
    ensures var t := Delete(s, rule, cancelScheduled);
      && (id !in t.recs <==> cancelScheduled && s.recs[id].rule == Some(rule) && s.recs[id].status == Scheduled)
      && (id in t.recs ==> t.recs[id] == if s.recs[id].rule == Some(rule) then s.recs[id].(rule := None) else s.recs[id])
  {
  }

  // Saving an edit cancels or releases just the recordings the person chose that are still the
  // rule's and have not started.
  lemma EditTouchesOnlyTheUnstarted(s: Sys, rule: int, settings: int, search: int, profile: Option<int>, u: Unmatched, now: int, id: int)
    requires rule in s.rules && id in s.recs
    ensures var t, unstarted := Edit(s, rule, settings, search, profile, u, now), s.recs[id].rule == Some(rule) && s.recs[id].status == Scheduled;
      && (id !in t.recs <==> u.Cancel? && id in u.ids && unstarted)
      && (id in t.recs ==> t.recs[id] == if u.Release? && id in u.ids && unstarted then s.recs[id].(rule := None) else s.recs[id])
  {
  }

  // The recordings an answer names that are the rule's and have not started.
  ghost predicate Unstarted(s: Sys, rule: int, u: Unmatched, id: int) {
    && id in s.recs && s.recs[id].rule == Some(rule) && s.recs[id].status == Scheduled
    && match u case Nothing => false case Cancel(ids) => id in ids case Release(ids) => id in ids
  }

  // An edit is the rule's next revision; it forgets the rule's skips of what is still to come and
  // the rows of the recordings it cancels or releases, and no other row.
  lemma EditKeepsOtherRows(s: Sys, rule: int, settings: int, search: int, profile: Option<int>, u: Unmatched, now: int, k: int)
    requires Inv(s) && rule in s.rules && k in s.rows
    ensures var t, row := Edit(s, rule, settings, search, profile, u, now), s.rows[k];
      && t.rules == s.rules[rule := Rule(s.rules[rule].revision + 1, s.rules[rule].enabled, settings, search, profile)]
      && (k !in t.rows <==>
            || (row.rule == rule && row.kind == Skip && row.start > now)
            || (row.recording != None && Unstarted(s, rule, u, row.recording.value)))
      && (k in t.rows ==> t.rows[k] == row)
  {
    EditedRules(s, EditRule(rule, settings, search, profile, u, now));
  }

  // A recording that starts is no longer one an answer applies to; whose it is does not change.
  lemma StartedIsSettled(s: Sys, id: int, rule: int, u: Unmatched)
    requires id in s.recs
    ensures var t := Lifecycle(s, StartRecording(id));
      && !Unstarted(t, rule, u, id) && t.recs[id].rule == s.recs[id].rule
      && t == s.(recs := t.recs) && t.recs.Keys == s.recs.Keys && forall i :: i in s.recs && i != id ==> t.recs[i] == s.recs[i]
  {
  }

  // A rename moves spellings, a profile's deletion links, and pruning takes the rows that start
  // before its day; none of them touches anything else.
  lemma HousekeepingExactly(s: Sys, spelling: map<int, int>, gone: int, cutoff: int, r: int, k: int)
    requires r in s.rules && k in s.rows
    ensures var t := Lifecycle(s, RenameInSearches(spelling));
      && t == s.(rules := t.rules) && t.rules.Keys == s.rules.Keys
      && t.rules[r] == s.rules[r].(search := if r in spelling then spelling[r] else s.rules[r].search)
    ensures var t := Lifecycle(s, UnlinkProfile(gone));
      && t == s.(rules := t.rules) && t.rules.Keys == s.rules.Keys
      && t.rules[r] == s.rules[r].(profile := if s.rules[r].profile == Some(gone) then None else s.rules[r].profile)
    ensures var t := Lifecycle(s, PruneHistory(cutoff));
      t == s.(rows := t.rows) && (k in t.rows <==> s.rows[k].start >= cutoff) && (k in t.rows ==> t.rows[k] == s.rows[k])
  {
  }

  // Deleting a recording leaves its rows, with what had become of it.
  lemma DeletionIsStamped(s: Sys, id: int, k: int)
    requires id in s.recs && k in s.rows
    ensures var t := Lifecycle(s, DeleteRecording(id));
      && id !in t.recs && k in t.rows
      && t.rows[k] == if s.rows[k].recording == Some(id) then s.rows[k].(recording := None, removed := Some(s.recs[id].status)) else s.rows[k]
  {
  }

  // ---- what the engine's units write ----------------------------------------------------------

  // What the engine read of its rule is still so.
  ghost predicate UpToDate(s: Sys, engine: int, rule: int) {
    && engine in s.engines && s.engines[engine].rule == rule
    && rule in s.rules && s.rules[rule].enabled && s.rules[rule].revision == s.engines[engine].revision
  }

  // A recording is made for the rule, and one row names it: the rule's row handed in, or a new one.
  lemma SchedulesOne(s: Sys, engine: int, rule: int, start: int, row: Option<int>)
    requires Inv(s) && UpToDate(s, engine, rule)
    ensures var t, id := Next(s, EngineSchedule(engine, start, row)), s.nextRec;
      && id !in s.recs && id in t.recs && t.recs[id] == Rec(Some(rule), Scheduled)
      && (forall i :: i in s.recs ==> i in t.recs && t.recs[i] == s.recs[i]) && (forall i :: i in t.recs ==> i in s.recs || i == id)
      && exists at :: at in t.rows && t.rows[at] == Row(rule, Pick, start, Some(id), None)
           && (if at in s.rows then row == Some(at) && s.rows[at].rule == rule
               else row == None || row.value !in s.rows || s.rows[row.value].rule != rule)
           && forall k :: k != at ==> (k in t.rows <==> k in s.rows) && (k in s.rows ==> t.rows[k] == s.rows[k])
  {
    var t := Next(s, EngineSchedule(engine, start, row));
    var at := if row.Some? && row.value in s.rows && s.rows[row.value].rule == rule then row.value else s.nextRow;
    assert at in t.rows && t.rows[at] == Row(rule, Pick, start, Some(s.nextRec), None);
  }

  ghost predicate SkipAt(rows: map<int, Row>, k: int, rule: int, start: int) {
    k in rows && rows[k] == Row(rule, Skip, start, None, None)
  }

  lemma {:induction false} SkipsAdded(s: Sys, rule: int, starts: seq<int>)
    requires IdsFresh(s)
    ensures var t := AddSkips(s, rule, starts);
      && t.nextRow == s.nextRow + |starts| && t.recs == s.recs
      && (forall k :: k in s.rows ==> k in t.rows && t.rows[k] == s.rows[k])
      && (forall i :: 0 <= i < |starts| ==> SkipAt(t.rows, s.nextRow + i, rule, starts[i]))
      && forall k :: k in t.rows ==> k in s.rows || s.nextRow <= k < s.nextRow + |starts|
  {
    if starts != [] {
      var n, t := |starts| - 1, AddSkips(s, rule, starts);
      SkipsAdded(s, rule, starts[..n]);
      forall i | 0 <= i < |starts| ensures SkipAt(t.rows, s.nextRow + i, rule, starts[i]) {
        if i < n { assert SkipAt(AddSkips(s, rule, starts[..n]).rows, s.nextRow + i, rule, starts[..n][i]); }
      }
    }
  }

  // The rule's rows judged again become skips, and the programs newly judged get a skip each, in
  // order; no other row changes, and no recording.
  lemma VerdictsSkip(s: Sys, engine: int, rule: int, rejudged: set<int>, added: seq<int>)
    requires Inv(s) && UpToDate(s, engine, rule)
    ensures var t := Next(s, EngineVerdicts(engine, rejudged, added));
      && t.recs == s.recs
      && (forall k :: k in s.rows ==> k in t.rows && t.rows[k] == if k in rejudged && s.rows[k].rule == rule then s.rows[k].(kind := Skip) else s.rows[k])
      && (forall i :: 0 <= i < |added| ==> s.nextRow + i !in s.rows && SkipAt(t.rows, s.nextRow + i, rule, added[i]))
      && forall k :: k in t.rows ==> k in s.rows || s.nextRow <= k < s.nextRow + |added|
  {
    var mid := s.(rows := Rejudged(s, rule, rejudged));
    assert IdsFresh(mid);
    SkipsAdded(mid, rule, added);
  }

  // A pick of the rule follows its program to the new start, or is let go and becomes the person's;
  // no other row changes, and no recording.
  lemma RetrackMovesOne(s: Sys, engine: int, rule: int, pick: int, at: int, letGo: bool)
    requires UpToDate(s, engine, rule)
    ensures var t := Next(s, EngineRetrack(engine, pick, at, letGo));
      && t.recs == s.recs && t.rows.Keys == s.rows.Keys
      && (forall k :: k in s.rows && k != pick ==> t.rows[k] == s.rows[k])
      && (pick in s.rows && s.rows[pick].rule == rule && s.rows[pick].kind == Pick ==>
            t.rows[pick] == if letGo then s.rows[pick].(kind := Edited) else s.rows[pick].(start := at))
      && (pick in s.rows && !(s.rows[pick].rule == rule && s.rows[pick].kind == Pick) ==> t.rows[pick] == s.rows[pick])
  {
  }

  // A rule switched over is its next revision; switched to what it is, it is left alone.
  lemma SwitchedRevises(s: Sys, rule: int, enabled: bool)
    requires rule in s.rules
    ensures var r, t := s.rules[rule], Next(s, SetEnabled(rule, enabled));
      t == if r.enabled == enabled then s else s.(rules := s.rules[rule := Rule(r.revision + 1, enabled, r.settings, r.search, r.profile)])
  {
  }
}
