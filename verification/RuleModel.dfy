// The snapshots an auto-record evaluation reads once and judges from (app/auto_rules.py),
// and the three pure questions asked of a ledger row: what became of its recording, does it
// make later airings repeats, and does it use one of the rule's "at most X within Y" slots.
module RuleModel {
  import opened Common

  // A recording's status as a rule reads it: a capture that gave up is already Failed here,
  // whatever its join became. OtherStatus stands for text outside the vocabulary.
  datatype Status =
    | Scheduled | InProgress | Paused | Retrying | Concatenating | Analyzing | Converting
    | Completed | Failed | Aborted | OtherStatus

  datatype Reason = NoReason | BeforeStart | GroupChange | DuringCapture | DuringAnalysis | DuringConversion

  datatype Action =
    | ActScheduled | SkippedExisting | SkippedRepeat | SkippedLimit | SkippedCap | UserModified | OtherAction
  {
    predicate Skip?() { SkippedExisting? || SkippedRepeat? || SkippedLimit? || SkippedCap? }
  }

  // "The same program": title key, episode key ("" when unknown) and start.
  datatype Identity = Identity(title: string, episode: string, start: int)

  datatype Lib = Lib(id: int, status: Status, reason: Reason, title: string, episode: string,
                     programStart: Option<int>, channel: Option<int>, group: Option<int>,
                     start: int, stop: int, rule: Option<int>)

  datatype Row = Row(key: Identity, stop: int, action: Action, recording: Option<int>,
                     removedStatus: Option<Status>, removedReason: Reason,
                     channel: Option<int>, group: Option<int>)

  datatype Showing = Showing(entry: int, channel: int, group: Option<int>, title: string,
                             episode: string, start: int, stop: int, score: int)

  datatype Program = Program(identity: Identity, showings: seq<Showing>)

  predicate Live(status: Status) {
    status in {InProgress, Paused, Retrying, Concatenating, Analyzing, Converting}
  }

  predicate SpokenFor(status: Status) { status == Scheduled || Live(status) || status == Completed }

  predicate ByAPerson(reason: Reason) {
    reason in {BeforeStart, DuringCapture, DuringAnalysis, DuringConversion}
  }

  predicate NeverStarted(reason: Reason) { reason in {BeforeStart, GroupChange} }

  // The library keyed by recording id, as lib_by_id.
  type Recs = map<int, Lib>

  datatype Fate = Unknown | Known(status: Status, reason: Reason)

  // The fate of a pick's recording: read from the recording while the row names one, from what
  // its deletion stamped on the row afterwards.
  function FateOf(row: Row, recs: Recs): Fate {
    match row.recording
    case Some(id) => if id in recs then Known(recs[id].status, recs[id].reason) else Unknown
    case None =>
      match row.removedStatus
      case Some(s) => Known(s, row.removedReason)
      case None => Unknown
  }

  predicate PickIsSpokenFor(row: Row, recs: Recs) {
    match FateOf(row, recs)
    case Unknown => false
    case Known(status, reason) =>
      if status == Aborted then ByAPerson(reason)
      else if status == Failed then false
      else SpokenFor(status)
  }

  predicate PickCountsForLimit(row: Row, recs: Recs) {
    match FateOf(row, recs)
    case Unknown => false
    case Known(status, reason) =>
      if status == Scheduled then row.recording.Some?
      else if status == Aborted then !NeverStarted(reason)
      else status == Failed || SpokenFor(status)
  }

  predicate AbortedByGroupChange(row: Row, recs: Recs) {
    FateOf(row, recs) == Known(Aborted, GroupChange)
  }

  // A pick a group change aborted was never a pick: it blocks no replay and holds no slot.
  // A pick a person called off keeps blocking replays; it holds its slot only once it had started.
  lemma FateDecidesBothQuestions(row: Row, recs: Recs)
    ensures AbortedByGroupChange(row, recs) ==> !PickIsSpokenFor(row, recs) && !PickCountsForLimit(row, recs)
    ensures FateOf(row, recs).Known? && FateOf(row, recs).status == Failed
            ==> !PickIsSpokenFor(row, recs) && PickCountsForLimit(row, recs)
    ensures PickIsSpokenFor(row, recs) && !PickCountsForLimit(row, recs) <==>
            FateOf(row, recs) == Known(Aborted, BeforeStart)
            || (row.recording.None? && FateOf(row, recs).Known? && FateOf(row, recs).status == Scheduled)
  {
  }

  // ---- slots: which episodes are listed at one title and start --------------------------

  type SlotMap = map<(string, int), set<string>>

  ghost predicate ValidSlots(eps: SlotMap) {
    forall k :: k in eps ==> eps[k] != {} && "" !in eps[k] && k.0 != ""
  }

  function AddEpisode(eps: SlotMap, title: string, start: Option<int>, episode: string): SlotMap {
    if title == "" || start.None? || episode == "" then eps
    else
      var k := (title, start.value);
      eps[k := (if k in eps then eps[k] else {}) + {episode}]
  }

  ghost function OnlyEpisode(eps: SlotMap, title: string, start: int): string {
    var k := (title, start);
    if k in eps && |eps[k]| == 1 then (var e :| e in eps[k]; e) else ""
  }

  ghost function IdentityOf(eps: SlotMap, title: string, start: int, episode: string): Identity {
    Identity(title, if episode != "" then episode else OnlyEpisode(eps, title, start), start)
  }

  ghost predicate Identified(rec: Lib) { rec.title != "" && rec.programStart.Some? }

  ghost function IdentityOfLib(eps: SlotMap, rec: Lib): Identity
    requires Identified(rec)
  {
    IdentityOf(eps, rec.title, rec.programStart.value, rec.episode)
  }

  // Reading an identity's own episode back gives the same identity: what a recording made from
  // a program is filed under is the program it was made from.
  lemma IdentityStable(eps: SlotMap, title: string, start: int, episode: string)
    ensures var i := IdentityOf(eps, title, start, episode); IdentityOf(eps, i.title, i.start, i.episode) == i
  {
  }

  class Slots {
    var eps: SlotMap

    constructor ()
      ensures eps == map[]
    {
      eps := map[];
    }

    method Add(title: string, start: Option<int>, episode: string)
      modifies this
      ensures eps == AddEpisode(old(eps), title, start, episode)
      ensures ValidSlots(old(eps)) ==> ValidSlots(eps)
    {
      if title != "" && start.Some? && episode != "" {
        var k := (title, start.value);
        if k !in eps { eps := eps[k := {}]; }
        eps := eps[k := eps[k] + {episode}];
      }
    }

    method GetOnlyEpisode(title: string, start: int) returns (episode: string)
      ensures episode == OnlyEpisode(eps, title, start)
    {
      var k := (title, start);
      if k in eps && |eps[k]| == 1 {
        episode :| episode in eps[k];
        SingletonElement(eps[k], episode);
        return episode;
      }
      return "";
    }

    method GetIdentity(title: string, start: int, episode: string) returns (i: Identity)
      ensures i == IdentityOf(eps, title, start, episode)
    {
      if episode != "" { return Identity(title, episode, start); }
      var only := GetOnlyEpisode(title, start);
      return Identity(title, only, start);
    }
  }
}
