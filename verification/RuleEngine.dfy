// The objects that judge (app/auto_rules.py `_LibIndex`, `_Judge`, `_judge_rule`): an index of
// the spoken-for library, the four checks over it and over the list of picks, and the loop that
// schedules as it goes. Each is proved to compute what RuleJudge states.
module RuleEngine {
  import opened Common
  import opened RuleModel
  import opened RuleJudge

  function Bucket<K, V>(m: map<K, seq<V>>, k: K): seq<V> {
    if k in m then m[k] else []
  }

  function Push<K(!new), V(!new)>(m: map<K, seq<V>>, k: K, v: V): (r: map<K, seq<V>>)
    ensures forall j, x :: x in Bucket(r, j) <==> x in Bucket(m, j) || (j == k && x == v)
  {
    m[k := Bucket(m, k) + [v]]
  }

  ghost predicate ByIdentity(m: map<Identity, seq<Lib>>, spoken: set<Lib>, eps: SlotMap) {
    forall i, r :: r in Bucket(m, i) <==> r in spoken && Identified(r) && IdentityOfLib(eps, r) == i
  }

  ghost predicate ByTitleEpisode(m: map<(string, string), seq<(int, Lib)>>, spoken: set<Lib>, eps: SlotMap) {
    forall te, e :: e in Bucket(m, te) <==>
      e.1 in spoken && Identified(e.1) && te.1 != "" && IdentityOfLib(eps, e.1) == Identity(te.0, te.1, e.0)
  }

  ghost predicate ByChannel(m: map<int, seq<Lib>>, spoken: set<Lib>) {
    forall c, r :: r in Bucket(m, c) <==> r in spoken && r.channel == Some(c)
  }

  ghost predicate ByGroup(m: map<int, seq<Lib>>, spoken: set<Lib>) {
    forall g, r :: r in Bucket(m, g) <==> r in spoken && r.group == Some(g)
  }

  class LibIndex {
    const slots: Slots
    var byIdentity: map<Identity, seq<Lib>>
    var byTitleEpisode: map<(string, string), seq<(int, Lib)>>
    var byChannel: map<int, seq<Lib>>
    var byGroup: map<int, seq<Lib>>
    ghost var spoken: set<Lib>

    ghost predicate Valid()
      reads this, slots
    {
      && (forall r :: r in spoken ==> SpokenFor(r.status))
      && ByIdentity(byIdentity, spoken, slots.eps) && ByTitleEpisode(byTitleEpisode, spoken, slots.eps)
      && ByChannel(byChannel, spoken) && ByGroup(byGroup, spoken)
    }

    constructor (slots: Slots)
      ensures Valid() && this.slots == slots && spoken == {}
    {
      this.slots := slots;
      byIdentity, byTitleEpisode, byChannel, byGroup := map[], map[], map[], map[];
      spoken := {};
    }

    method Add(rec: Lib) returns (indexed: bool)
      requires Valid()
      modifies this
      ensures Valid() && indexed == SpokenFor(rec.status)
      ensures spoken == old(spoken) + (if indexed then {rec} else {})
    {
      if !SpokenFor(rec.status) { return false; }
      FileProgram(rec);
      FilePlace(rec);
      spoken := spoken + {rec};
      return true;
    }

    method FileProgram(rec: Lib)
      requires ByIdentity(byIdentity, spoken, slots.eps) && ByTitleEpisode(byTitleEpisode, spoken, slots.eps)
      modifies this`byIdentity, this`byTitleEpisode
      ensures ByIdentity(byIdentity, spoken + {rec}, slots.eps) && ByTitleEpisode(byTitleEpisode, spoken + {rec}, slots.eps)
    {
      ghost var ids, episodes := byIdentity, byTitleEpisode;
      if rec.title != "" && rec.programStart.Some? {
        var i := slots.GetIdentity(rec.title, rec.programStart.value, rec.episode);
        byIdentity := Push(byIdentity, i, rec);
        if i.episode != "" {
          byTitleEpisode := Push(byTitleEpisode, (i.title, i.episode), (i.start, rec));
        }
      }
      IdentityFiled(ids, byIdentity, spoken, rec, slots.eps);
      TitleEpisodeFiled(episodes, byTitleEpisode, spoken, rec, slots.eps);
    }

    method FilePlace(rec: Lib)
      requires ByChannel(byChannel, spoken) && ByGroup(byGroup, spoken)
      modifies this`byChannel, this`byGroup
      ensures ByChannel(byChannel, spoken + {rec}) && ByGroup(byGroup, spoken + {rec})
    {
      ghost var channels, groups := byChannel, byGroup;
      if rec.channel.Some? { byChannel := Push(byChannel, rec.channel.value, rec); }
      if rec.group.Some? { byGroup := Push(byGroup, rec.group.value, rec); }
      PlaceFiled(channels, byChannel, groups, byGroup, spoken, rec);
    }

    // Is some recording on this showing's channel or group over its whole air time?
    method CoveredOn(s: Showing) returns (found: bool)
      requires Valid()
      ensures found <==> exists r :: r in spoken && CoversShowing(r, s)
    {
      var near := Bucket(byChannel, s.channel);
      if s.group.Some? { near := near + Bucket(byGroup, s.group.value); }
      assert forall r :: r in near <==> r in spoken && (r.channel == Some(s.channel) || (s.group.Some? && r.group == s.group));
      for n := 0 to |near|
        invariant forall k :: 0 <= k < n ==> !CoversShowing(near[k], s)
      {
        if near[n].start <= s.start && near[n].stop >= s.stop {
          assert near[n] in near && CoversShowing(near[n], s);
          return true;
        }
      }
      forall r | r in spoken ensures !CoversShowing(r, s) {
        if r in near {
          var k :| 0 <= k < |near| && near[k] == r;
        }
      }
      return false;
    }
  }

  lemma IdentityFiled(m: map<Identity, seq<Lib>>, m': map<Identity, seq<Lib>>, spoken: set<Lib>, rec: Lib, eps: SlotMap)
    requires ByIdentity(m, spoken, eps)
    requires m' == if Identified(rec) then Push(m, IdentityOfLib(eps, rec), rec) else m
    ensures ByIdentity(m', spoken + {rec}, eps)
  {
  }

  lemma PlaceFiled(channels: map<int, seq<Lib>>, channels': map<int, seq<Lib>>, groups: map<int, seq<Lib>>, groups': map<int, seq<Lib>>,
                   spoken: set<Lib>, rec: Lib)
    requires ByChannel(channels, spoken) && ByGroup(groups, spoken)
    requires channels' == if rec.channel.Some? then Push(channels, rec.channel.value, rec) else channels
    requires groups' == if rec.group.Some? then Push(groups, rec.group.value, rec) else groups
    ensures ByChannel(channels', spoken + {rec}) && ByGroup(groups', spoken + {rec})
  {
  }

  lemma TitleEpisodeFiled(m: map<(string, string), seq<(int, Lib)>>, m': map<(string, string), seq<(int, Lib)>>,
                          spoken: set<Lib>, rec: Lib, eps: SlotMap)
    requires ByTitleEpisode(m, spoken, eps)
    requires m' == if Identified(rec) && IdentityOfLib(eps, rec).episode != ""
                   then var i := IdentityOfLib(eps, rec); Push(m, (i.title, i.episode), (i.start, rec)) else m
    ensures ByTitleEpisode(m', spoken + {rec}, eps)
  {
  }

  // The picks' starts that use a slot and lie in [lo, hi), counted as the check counts them.
  ghost function CountBetween(starts: seq<int>, lo: int, hi: int): nat {
    if starts == [] then 0
    else CountBetween(starts[..|starts| - 1], lo, hi) + (if lo <= starts[|starts| - 1] < hi then 1 else 0)
  }

  ghost function CountingStarts(picks: seq<Row>, recs: Recs): seq<int> {
    if picks == [] then []
    else
      var front := CountingStarts(picks[..|picks| - 1], recs);
      var last := picks[|picks| - 1];
      if PickCountsForLimit(last, recs) then front + [last.key.start] else front
  }

  ghost function CountingKeys(picks: seq<Row>, recs: Recs, lo: int, hi: int): set<Identity> {
    if picks == [] then {}
    else
      var last := picks[|picks| - 1];
      CountingKeys(picks[..|picks| - 1], recs, lo, hi)
      + (if PickCountsForLimit(last, recs) && lo <= last.key.start < hi then {last.key} else {})
  }

  ghost predicate DistinctCounting(picks: seq<Row>, recs: Recs) {
    forall m, n :: 0 <= m < n < |picks| && PickCountsForLimit(picks[m], recs) && PickCountsForLimit(picks[n], recs)
      ==> picks[m].key != picks[n].key
  }

  lemma {:induction false} CountingKeysExact(picks: seq<Row>, recs: Recs, lo: int, hi: int)
    ensures forall k :: k in CountingKeys(picks, recs, lo, hi) <==>
      exists n :: 0 <= n < |picks| && PickCountsForLimit(picks[n], recs) && lo <= picks[n].key.start < hi && picks[n].key == k
  {
    if picks != [] {
      var front := picks[..|picks| - 1];
      CountingKeysExact(front, recs, lo, hi);
      assert forall n :: 0 <= n < |front| ==> front[n] == picks[n];
    }
  }

  lemma {:induction false} CountIsCardinality(picks: seq<Row>, recs: Recs, lo: int, hi: int)
    requires DistinctCounting(picks, recs)
    ensures CountBetween(CountingStarts(picks, recs), lo, hi) == |CountingKeys(picks, recs, lo, hi)|
  {
    if picks != [] {
      var front, last := picks[..|picks| - 1], picks[|picks| - 1];
      CountIsCardinality(front, recs, lo, hi);
      var starts := CountingStarts(front, recs);
      if PickCountsForLimit(last, recs) {
        assert (starts + [last.key.start])[..|starts|] == starts;
        CountingKeysExact(front, recs, lo, hi);
        assert last.key !in CountingKeys(front, recs, lo, hi);
      }
    }
  }

  ghost predicate Inert(r: Row, recs: Recs) {
    !PickIsSpokenFor(r, recs) && !PickCountsForLimit(r, recs)
  }

  // The list of picks against the ledger: every standing pick is on it, and whatever else is on
  // it (a pick a group change aborted, since made again or skipped) blocks nothing.
  ghost predicate PicksMatch(picks: seq<Row>, st: State) {
    && (forall r :: r in picks && r.recording.Some? ==> r.recording.value < st.nextId)
    && (forall k :: k in st.rows && st.rows[k].action.ActScheduled? ==> st.rows[k] in picks || Inert(st.rows[k], st.recs))
    && (forall r :: r in picks ==>
          Inert(r, st.recs) || (r.action.ActScheduled? && r.key in st.rows && st.rows[r.key] == r))
    && DistinctCounting(picks, st.recs)
  }

  lemma PicksOfLedger(rows: seq<Row>, picks: seq<Row>, st: State)
    requires ValidState(st) && LedgerOf(rows, st.rows)
    requires forall r :: r in picks <==> r in rows && r.action.ActScheduled?
    requires forall a, b :: 0 <= a < b < |picks| ==> picks[a].key != picks[b].key
    ensures PicksMatch(picks, st)
  {
    forall r | r in rows ensures r.key in st.rows && st.rows[r.key] == r {
      var i :| 0 <= i < |rows| && rows[i] == r;
    }
    forall k | k in st.rows ensures st.rows[k] in rows {
      var i :| 0 <= i < |rows| && rows[i].key == k;
    }
  }

  lemma FatesStand(picks: seq<Row>, st: State, rec: Lib)
    requires ValidState(st) && PicksMatch(picks, st)
    ensures forall r :: r in picks ==> FateOf(r, st.recs[st.nextId := rec]) == FateOf(r, st.recs)
    ensures forall k :: k in st.rows ==> FateOf(st.rows[k], st.recs[st.nextId := rec]) == FateOf(st.rows[k], st.recs)
  {
  }

  lemma DistinctAfterCreate(picks: seq<Row>, st: State, row: Row, recs: Recs)
    requires PicksMatch(picks, st) && forall r :: r in picks ==> FateOf(r, recs) == FateOf(r, st.recs)
    requires row.key in st.rows && st.rows[row.key].action.ActScheduled? ==> Inert(st.rows[row.key], st.recs)
    ensures DistinctCounting(picks + [row], recs)
  {
    var now := picks + [row];
    forall m, n | 0 <= m < n < |now| && PickCountsForLimit(now[m], recs) && PickCountsForLimit(now[n], recs)
      ensures now[m].key != now[n].key
    {
      assert now[m] in picks && !Inert(picks[m], st.recs);
      assert n < |picks| ==> now[n] == picks[n] && picks[n] in picks;
    }
  }

  lemma ListedAfterCreate(picks: seq<Row>, st: State, row: Row, recs: Recs, k: Identity)
    requires PicksMatch(picks, st) && forall j :: j in st.rows ==> FateOf(st.rows[j], recs) == FateOf(st.rows[j], st.recs)
    requires k in st.rows[row.key := row] && st.rows[row.key := row][k].action.ActScheduled?
    ensures st.rows[row.key := row][k] in picks + [row] || Inert(st.rows[row.key := row][k], recs)
  {
    if k == row.key {
      assert (picks + [row])[|picks|] == row;
    }
  }

  lemma KeysCount(picks: seq<Row>, st: State, lo: int, hi: int)
    requires PicksMatch(picks, st)
    ensures CountingKeys(picks, st.recs, lo, hi) <= CountingIn(st, lo, hi)
  {
    CountingKeysExact(picks, st.recs, lo, hi);
    forall k | k in CountingKeys(picks, st.recs, lo, hi) ensures k in CountingIn(st, lo, hi) {
      var n :| 0 <= n < |picks| && PickCountsForLimit(picks[n], st.recs) && lo <= picks[n].key.start < hi && picks[n].key == k;
      assert picks[n] in picks;
    }
  }

  lemma CountedAreKeys(picks: seq<Row>, st: State, lo: int, hi: int)
    requires ValidState(st) && PicksMatch(picks, st)
    ensures CountingIn(st, lo, hi) <= CountingKeys(picks, st.recs, lo, hi)
  {
    CountingKeysExact(picks, st.recs, lo, hi);
    forall k | k in CountingIn(st, lo, hi) ensures k in CountingKeys(picks, st.recs, lo, hi) {
      assert st.rows[k] in picks;
      var n :| 0 <= n < |picks| && picks[n] == st.rows[k];
    }
  }

  // A recording made beside a pick list that matches leaves a list that matches.
  lemma PicksAfterCreate(picks: seq<Row>, st: State, rec: Lib, row: Row, after: State)
    requires ValidState(st) && PicksMatch(picks, st) && row.action.ActScheduled? && row.recording == Some(st.nextId)
    requires after == State(st.rows[row.key := row], st.recs[st.nextId := rec], st.nextId + 1)
    requires row.key in st.rows && st.rows[row.key].action.ActScheduled? ==> Inert(st.rows[row.key], st.recs)
    ensures PicksMatch(picks + [row], after)
  {
    FatesStand(picks, st, rec);
    DistinctAfterCreate(picks, st, row, after.recs);
    forall k | k in after.rows && after.rows[k].action.ActScheduled?
      ensures after.rows[k] in picks + [row] || Inert(after.rows[k], after.recs)
    {
      ListedAfterCreate(picks, st, row, after.recs, k);
    }
  }

  class Judge {
    const env: Env
    const index: LibIndex
    const slots: Slots
    var scheduledCount: nat
    var picks: seq<Row>
    var byId: Recs

    ghost predicate Indexed()
      reads this, index, slots
    {
      && env.eps == slots.eps && index.slots == slots && index.Valid()
      && (forall r :: r in index.spoken <==> r.id in byId && byId[r.id] == r && SpokenFor(r.status))
      && scheduledCount == |ScheduledIds(byId, env.rule)|
    }

    ghost predicate Valid(st: State)
      reads this, index, slots
    {
      ValidState(st) && st.recs == byId && Indexed() && PicksMatch(picks, st)
    }

    constructor (env: Env, slots: Slots, rows: seq<Row>, library: seq<Lib>, ghost st: State)
      requires env.eps == slots.eps
      requires ValidState(st) && LedgerOf(rows, st.rows) && LibraryOf(library, st.recs)
      ensures Valid(st) && this.env == env && this.slots == slots && fresh(index)
    {
      this.env, this.slots := env, slots;
      index := new LibIndex(slots);
      scheduledCount := 0;
      picks := [];
      byId := map[];
      new;
      IndexLibrary(library, st.recs);
      TakePicks(rows, st);
    }

    method IndexLibrary(library: seq<Lib>, ghost recs: Recs)
      requires Indexed() && byId == map[] && LibraryOf(library, recs)
      modifies this, index
      ensures Indexed() && byId == recs
    {
      for n := 0 to |library|
        invariant Indexed()
        invariant forall id :: id in byId <==> exists k :: 0 <= k < n && library[k].id == id
        invariant forall k :: 0 <= k < n ==> library[k].id in byId && byId[library[k].id] == library[k]
      {
        Index(library[n]);
      }
      forall id | id in byId ensures id in recs && byId[id] == recs[id] {
        var k :| 0 <= k < |library| && library[k].id == id;
      }
      forall id | id in recs ensures id in byId {
        var k :| 0 <= k < |library| && library[k].id == id;
      }
      assert byId.Keys == recs.Keys;
    }

    // Every row the ledger has as scheduled, whatever became of its recording.
    method TakePicks(rows: seq<Row>, ghost st: State)
      requires Indexed() && byId == st.recs && ValidState(st) && LedgerOf(rows, st.rows)
      modifies this`picks
      ensures Valid(st)
    {
      picks := [];
      for n := 0 to |rows|
        invariant forall r :: r in picks <==> r in rows[..n] && r.action.ActScheduled?
        invariant forall a, b :: 0 <= a < b < |picks| ==> picks[a].key != picks[b].key
      {
        if rows[n].action.ActScheduled? {
          EarlierKeysDiffer(rows, n);
          picks := picks + [rows[n]];
        }
        assert rows[..n + 1] == rows[..n] + [rows[n]];
      }
      assert rows[..|rows|] == rows;
      PicksOfLedger(rows, picks, st);
    }

    // Take a recording into the index and the cap's count.
    method Index(rec: Lib)
      requires Indexed() && rec.id !in byId
      modifies this`scheduledCount, this`byId, index
      ensures Indexed() && byId == old(byId)[rec.id := rec]
    {
      var indexed := index.Add(rec);
      ScheduledAfter(byId, rec, env.rule);
      if indexed && rec.rule == Some(env.rule) && rec.status == Scheduled {
        scheduledCount := scheduledCount + 1;
      }
      byId := byId[rec.id := rec];
    }

    method CheckExisting(p: Program, ghost st: State) returns (found: bool)
      requires Valid(st)
      ensures found <==> Existing(env.eps, st.recs, p)
    {
      var same := Bucket(index.byIdentity, p.identity);
      if same != [] {
        assert same[0] in same && RecordsProgram(env.eps, st.recs[same[0].id], p.identity);
        return true;
      }
      assert forall id :: id in st.recs && RecordsProgram(env.eps, st.recs[id], p.identity) ==> st.recs[id] in same;
      for n := 0 to |p.showings|
        invariant forall k, id :: 0 <= k < n && id in st.recs ==> !CoversShowing(st.recs[id], p.showings[k])
      {
        found := index.CoveredOn(p.showings[n]);
        if found {
          ghost var r :| r in index.spoken && CoversShowing(r, p.showings[n]);
          assert r.id in st.recs && p.showings[n] in p.showings && CoversShowing(st.recs[r.id], p.showings[n]);
          return true;
        }
        forall id | id in st.recs ensures !CoversShowing(st.recs[id], p.showings[n]) {
          assert SpokenFor(st.recs[id].status) ==> st.recs[id] in index.spoken;
        }
      }
      return false;
    }

    method CheckRepeat(p: Program, ghost st: State) returns (found: bool)
      requires Valid(st)
      ensures found <==> Repeat(env, st, p.identity)
    {
      var i := p.identity;
      if !env.settings.skipRepeats || i.episode == "" { return false; }
      var aired := Bucket(index.byTitleEpisode, (i.title, i.episode));
      for n := 0 to |aired|
        invariant forall k :: 0 <= k < n ==> !(aired[k].0 < i.start && aired[k].1.id !in env.userModified)
      {
        if aired[n].0 < i.start && aired[n].1.id !in env.userModified {
          assert aired[n] in aired;
          assert EarlierAiring(env, st.recs[aired[n].1.id], i);
          return true;
        }
      }
      forall id | id in st.recs ensures !EarlierAiring(env, st.recs[id], i) {
        if SpokenFor(st.recs[id].status) && Identified(st.recs[id]) {
          assert st.recs[id] in index.spoken;
          var e := (IdentityOfLib(env.eps, st.recs[id]).start, st.recs[id]);
          if e in aired {
            var k :| 0 <= k < |aired| && aired[k] == e;
          }
        }
      }
      for n := 0 to |picks|
        invariant forall k :: 0 <= k < n ==> !(picks[k].key.title == i.title && picks[k].key.episode == i.episode
                                               && picks[k].key.start < i.start && PickIsSpokenFor(picks[k], byId))
      {
        var r := picks[n];
        if r.key.title == i.title && r.key.episode == i.episode && r.key.start < i.start && PickIsSpokenFor(r, byId) {
          assert r in picks;
          assert EarlierPick(st.rows[r.key], st.recs, i);
          return true;
        }
      }
      forall k | k in st.rows ensures !EarlierPick(st.rows[k], st.recs, i) {
        if st.rows[k] in picks {
          var n :| 0 <= n < |picks| && picks[n] == st.rows[k];
        }
      }
      return false;
    }

    lemma CountsAgree(st: State, lo: int, hi: int)
      requires Valid(st)
      ensures CountBetween(CountingStarts(picks, byId), lo, hi) == |CountingIn(st, lo, hi)|
    {
      CountIsCardinality(picks, byId, lo, hi);
      KeysCount(picks, st, lo, hi);
      CountedAreKeys(picks, st, lo, hi);
      assert CountingKeys(picks, byId, lo, hi) == CountingIn(st, lo, hi);
    }

    // When the picks that hold a slot start.
    method StartsThatCount() returns (starts: seq<int>)
      ensures starts == CountingStarts(picks, byId)
    {
      starts := [];
      for n := 0 to |picks|
        invariant starts == CountingStarts(picks[..n], byId)
      {
        assert picks[..n + 1][..n] == picks[..n];
        if PickCountsForLimit(picks[n], byId) { starts := starts + [picks[n].key.start]; }
      }
      assert picks[..|picks|] == picks;
    }

    method WindowIsFull(starts: seq<int>, s: int, ghost st: State) returns (full: bool)
      requires Valid(st) && starts == CountingStarts(picks, byId) && env.settings.limit.Some?
      ensures full <==> WindowFull(st, env.settings.limit.value, s)
    {
      var l := env.settings.limit.value;
      var inside := CountIn(starts, s, s + l.window);
      CountsAgree(st, s, s + l.window);
      return inside + 1 > l.count;
    }

    method CheckLimit(p: Program, ghost st: State) returns (found: bool)
      requires Valid(st)
      ensures found <==> OverLimit(env, st, p.identity.start)
    {
      if env.settings.limit.None? { return false; }
      var l := env.settings.limit.value;
      var t := p.identity.start;
      var starts := StartsThatCount();
      for n := 0 to |starts|
        invariant forall k :: 0 <= k < n && t - l.window < starts[k] <= t ==> !WindowFull(st, l, starts[k])
      {
        if t - l.window < starts[n] <= t {
          found := WindowIsFull(starts, starts[n], st);
          if found {
            StartIsCandidate(st, n);
            assert CandidateWindow(st, l, t, starts[n]);
            return true;
          }
        }
      }
      found := WindowIsFull(starts, t, st);
      if found {
        assert CandidateWindow(st, l, t, t);
        return true;
      }
      forall s | CandidateWindow(st, l, t, s) ensures !WindowFull(st, l, s) {
        if s != t {
          var k := CandidateIsStart(st, s);
        }
      }
      return false;
    }

    lemma StartIsCandidate(st: State, n: nat)
      requires Valid(st) && n < |CountingStarts(picks, byId)|
      ensures var s := CountingStarts(picks, byId)[n]; CountingIn(st, s, s + 1) != {}
    {
      var s := CountingStarts(picks, byId)[n];
      CountsAgree(st, s, s + 1);
      PositiveCount(CountingStarts(picks, byId), n);
    }

    lemma CandidateIsStart(st: State, s: int) returns (n: nat)
      requires Valid(st) && CountingIn(st, s, s + 1) != {}
      ensures n < |CountingStarts(picks, byId)| && CountingStarts(picks, byId)[n] == s
    {
      CountsAgree(st, s, s + 1);
      n := FindCounted(CountingStarts(picks, byId), s);
    }

    method Verdict(p: Program, ghost st: State) returns (v: RuleJudge.Verdict)
      requires Valid(st)
      ensures v == VerdictOf(env, st, p)
    {
      var found := CheckExisting(p, st);
      if found { return SkipAs(SkippedExisting); }
      found := CheckRepeat(p, st);
      if found { return SkipAs(SkippedRepeat); }
      found := CheckLimit(p, st);
      if found { return SkipAs(SkippedLimit); }
      if env.settings.cap > 0 && scheduledCount >= env.settings.cap { return SkipAs(SkippedCap); }
      return Go;
    }

    // A recording this run made, and the row naming it, count from here on.
    method AddCreated(rec: Lib, row: Row, ghost st: State)
      requires Valid(st) && rec.id == st.nextId
      requires row.action.ActScheduled? && row.recording == Some(rec.id)
      requires row.key in st.rows && st.rows[row.key].action.ActScheduled? ==> Inert(st.rows[row.key], st.recs)
      modifies this, index
      ensures Valid(State(st.rows[row.key := row], st.recs[rec.id := rec], st.nextId + 1))
      ensures picks == old(picks) + [row]
    {
      Index(rec);
      picks := picks + [row];
      PicksAfterCreate(old(picks), st, rec, row, State(st.rows[row.key := row], st.recs[rec.id := rec], st.nextId + 1));
    }
  }

  lemma ScheduledAfter(recs: Recs, rec: Lib, rule: int)
    requires rec.id !in recs
    ensures |ScheduledIds(recs[rec.id := rec], rule)| == |ScheduledIds(recs, rule)| + (if CountsTowardCap(rec, rule) then 1 else 0)
  {
    if CountsTowardCap(rec, rule) {
      assert ScheduledIds(recs[rec.id := rec], rule) == ScheduledIds(recs, rule) + {rec.id};
    } else {
      assert ScheduledIds(recs[rec.id := rec], rule) == ScheduledIds(recs, rule);
    }
  }

  method CountIn(starts: seq<int>, lo: int, hi: int) returns (inside: nat)
    ensures inside == CountBetween(starts, lo, hi)
  {
    inside := 0;
    for n := 0 to |starts|
      invariant inside == CountBetween(starts[..n], lo, hi)
    {
      assert starts[..n + 1][..n] == starts[..n];
      if lo <= starts[n] < hi { inside := inside + 1; }
    }
    assert starts[..|starts|] == starts;
  }

  lemma {:induction false} PositiveCount(starts: seq<int>, n: nat)
    requires n < |starts|
    ensures CountBetween(starts, starts[n], starts[n] + 1) > 0
  {
    if n < |starts| - 1 { PositiveCount(starts[..|starts| - 1], n); }
  }

  lemma {:induction false} FindCounted(starts: seq<int>, s: int) returns (n: nat)
    requires CountBetween(starts, s, s + 1) > 0
    ensures n < |starts| && starts[n] == s
  {
    if starts[|starts| - 1] == s { return |starts| - 1; }
    n := FindCounted(starts[..|starts| - 1], s);
  }

  // The rows and recordings a run reads, against the tables they were read from.
  ghost predicate LedgerOf(rows: seq<Row>, ledger: Rows) {
    && (forall i, j :: 0 <= i < j < |rows| ==> rows[i].key != rows[j].key)
    && (forall k :: k in ledger <==> exists i :: 0 <= i < |rows| && rows[i].key == k)
    && (forall i :: 0 <= i < |rows| ==> ledger[rows[i].key] == rows[i])
  }

  lemma EarlierKeysDiffer(rows: seq<Row>, n: nat)
    requires n < |rows| && forall i, j :: 0 <= i < j < |rows| ==> rows[i].key != rows[j].key
    ensures forall r :: r in rows[..n] ==> r.key != rows[n].key
  {
  }

  ghost predicate LibraryOf(library: seq<Lib>, recs: Recs) {
    && (forall i, j :: 0 <= i < j < |library| ==> library[i].id != library[j].id)
    && (forall id :: id in recs <==> exists i :: 0 <= i < |library| && library[i].id == id)
    && (forall i :: 0 <= i < |library| ==> recs[library[i].id] == library[i])
  }

  // A skip a run reached, kept back until its last create and then written with the others.
  datatype Held = Held(identity: Identity, lead: Showing, action: Action)

  ghost function WriteAll(rows: Rows, held: seq<Held>): Rows {
    if held == [] then rows
    else
      var last := held[|held| - 1];
      WriteVerdict(WriteAll(rows, held[..|held| - 1]), last.identity, last.lead, last.action)
  }

  ghost predicate Mentions(held: seq<Held>, i: Identity) {
    exists n :: 0 <= n < |held| && held[n].identity == i
  }

  // Holding the verdicts back is invisible to the judging: they name other programs than the
  // ones still to be judged, and commute with the picks written meanwhile.
  lemma {:induction false} WriteAllFrame(rows: Rows, held: seq<Held>, i: Identity, r: Row)
    requires !Mentions(held, i)
    ensures WriteAll(rows[i := r], held) == WriteAll(rows, held)[i := r]
    ensures i in WriteAll(rows, held) <==> i in rows
    ensures i in rows ==> WriteAll(rows, held)[i] == rows[i]
  {
    if held != [] {
      var front := held[..|held| - 1];
      assert forall n :: 0 <= n < |front| ==> front[n] == held[n];
      assert held[|held| - 1].identity != i;
      WriteAllFrame(rows, front, i, r);
    }
  }

  method WriteVerdicts(rows: Rows, held: seq<Held>) returns (written: Rows)
    ensures written == WriteAll(rows, held)
  {
    written := rows;
    for n := 0 to |held|
      invariant written == WriteAll(rows, held[..n])
    {
      assert held[..n + 1][..n] == held[..n];
      written := WriteVerdict(written, held[n].identity, held[n].lead, held[n].action);
    }
    assert held[..|held|] == held;
  }

  // What a run carries from one program to the next: the ledger dict, the rows committed so far
  // and the skips held back.
  datatype Carried = Carried(ledger: Rows, db: Rows, held: seq<Held>, scheduled: nat)

  ghost predicate Pending(c: Carried, st: State, i: Identity) {
    && !Mentions(c.held, i)
    && (i in c.ledger <==> i in st.rows) && (i in c.ledger ==> c.ledger[i] == st.rows[i])
  }

  // A step of the pass that touched only this program's row, as the carried values record it.
  ghost predicate Advanced(c: Carried, c': Carried, st: State, next: State, p: Identity) {
    && next.rows == WriteAll(c'.db, c'.held) && next.nextId - st.nextId == c'.scheduled - c.scheduled
    && (forall i :: i != p && Pending(c, st, i) ==> Pending(c', next, i))
  }

  method HoldVerdict(p: Program, c: Carried, a: Action, ghost st: State) returns (c': Carried)
    requires p.showings != [] && st.rows == WriteAll(c.db, c.held)
    ensures Advanced(c, c', st, st.(rows := WriteVerdict(st.rows, p.identity, p.showings[0], a)), p.identity)
  {
    var h := Held(p.identity, p.showings[0], a);
    c' := c.(held := c.held + [h]);
    assert c'.held[..|c.held|] == c.held;
    MentionsNext(c.held, h);
  }

  method Schedule(judge: Judge, p: Program, c: Carried, pl: Placement, ghost st: State, id: int) returns (c': Carried)
    requires judge.Valid(st) && p.showings != [] && id == st.nextId
    requires st.rows == WriteAll(c.db, c.held) && Pending(c, st, p.identity)
    requires p.identity in st.rows && st.rows[p.identity].action.ActScheduled? ==> AbortedByGroupChange(st.rows[p.identity], st.recs)
    modifies judge, judge.index
    ensures var row := PickRow(p.identity, p.showings[0], id, pl);
      var next := State(st.rows[p.identity := row], st.recs[id := Created(judge.env.rule, id, p.identity, pl)], id + 1);
      judge.Valid(next) && Advanced(c, c', st, next, p.identity)
  {
    var row := PickRow(p.identity, p.showings[0], id, pl);
    judge.AddCreated(Created(judge.env.rule, id, p.identity, pl), row, st);
    c' := Carried(c.ledger[p.identity := row], c.db[p.identity := row], c.held, c.scheduled + 1);
    ScheduledAdvances(c, st, p.identity, row, State(st.rows[p.identity := row], st.recs[id := Created(judge.env.rule, id, p.identity, pl)], id + 1));
  }

  lemma ScheduledAdvances(c: Carried, st: State, i: Identity, row: Row, next: State)
    requires st.rows == WriteAll(c.db, c.held) && Pending(c, st, i)
    requires next.rows == st.rows[i := row] && next.nextId == st.nextId + 1
    ensures Advanced(c, Carried(c.ledger[i := row], c.db[i := row], c.held, c.scheduled + 1), st, next, i)
  {
    WriteAllFrame(c.db, c.held, i, row);
  }

  method JudgeProgram(judge: Judge, p: Program, c: Carried, id: int, ghost st: State) returns (c': Carried)
    requires judge.Valid(st) && p.showings != [] && id == st.nextId
    requires st.rows == WriteAll(c.db, c.held) && Pending(c, st, p.identity)
    modifies judge, judge.index
    ensures judge.Valid(Step(judge.env, st, p)) && Advanced(c, c', st, Step(judge.env, st, p), p.identity)
  {
    c' := c;
    if p.identity in c.ledger && Decided(c.ledger[p.identity], judge.byId) { return; }
    var v := judge.Verdict(p, st);
    if v.SkipAs? {
      SkipStep(judge.env, st, p, v.action);
      if p.identity !in c.ledger || c.ledger[p.identity].action != v.action {
        c' := HoldVerdict(p, c, v.action, st);
        SkipKeepsPicks(judge.picks, st, p, v.action);
      }
    } else {
      GoStep(judge.env, st, p);
      if p.showings[0].entry in judge.env.plans {
        c' := Schedule(judge, p, c, judge.env.plans[p.showings[0].entry], st, id);
      }
    }
  }

  lemma MentionsNext(held: seq<Held>, h: Held)
    ensures forall i :: Mentions(held + [h], i) <==> Mentions(held, i) || i == h.identity
  {
    forall i | Mentions(held, i) || i == h.identity ensures Mentions(held + [h], i) {
      if n :| 0 <= n < |held| && held[n].identity == i {
        assert (held + [h])[n].identity == i;
      } else {
        assert (held + [h])[|held|].identity == i;
      }
    }
  }

  ghost predicate AllPending(c: Carried, st: State, programs: seq<Program>, n: nat) {
    forall k :: n <= k < |programs| ==> Pending(c, st, programs[k].identity)
  }

  lemma LaterPending(c: Carried, c': Carried, st: State, next: State, programs: seq<Program>, n: nat)
    requires ValidPrograms(programs) && n < |programs| && AllPending(c, st, programs, n)
    requires Advanced(c, c', st, next, programs[n].identity)
    ensures AllPending(c', next, programs, n + 1)
  {
    forall k | n + 1 <= k < |programs| ensures Pending(c', next, programs[k].identity) {
      assert Pending(c, st, programs[k].identity) && programs[k].identity != programs[n].identity;
    }
  }

  lemma PassNext(env: Env, st: State, programs: seq<Program>, n: nat)
    requires n < |programs| && forall k :: 0 <= k < |programs| ==> programs[k].showings != []
    ensures Pass(env, st, programs[..n + 1]) == Step(env, Pass(env, st, programs[..n]), programs[n])
  {
    assert programs[..n + 1][..n] == programs[..n];
  }

  method JudgeNth(judge: Judge, programs: seq<Program>, n: nat, c: Carried, id: int, ghost st: State) returns (c': Carried, ghost next: State)
    requires judge.Valid(st) && ValidEnv(judge.env, st) && ValidPrograms(programs) && n < |programs| && id == st.nextId
    requires st.rows == WriteAll(c.db, c.held) && AllPending(c, st, programs, n)
    modifies judge, judge.index
    ensures next == Step(judge.env, st, programs[n]) && judge.Valid(next) && ValidEnv(judge.env, next)
    ensures next.rows == WriteAll(c'.db, c'.held) && next.nextId - st.nextId == c'.scheduled - c.scheduled
    ensures AllPending(c', next, programs, n + 1)
  {
    StepValid(judge.env, st, programs[n]);
    next := Step(judge.env, st, programs[n]);
    c' := JudgeProgram(judge, programs[n], c, id, st);
    LaterPending(c, c', st, next, programs, n);
  }

  // One rule's second pass: programs in start order, the ledger dict grown by what is made, the
  // skips written together after the last create. It computes exactly the pass over the state.
  method JudgeRule(env: Env, slots: Slots, rows: seq<Row>, library: seq<Lib>, programs: seq<Program>, nextId: int,
                   ghost st: State)
    returns (ledger: Rows, recs: Recs, scheduled: nat)
    requires env.eps == slots.eps
    requires ValidState(st) && ValidEnv(env, st) && st.nextId == nextId
    requires LedgerOf(rows, st.rows) && LibraryOf(library, st.recs)
    requires ValidPrograms(programs)
    ensures State(ledger, recs, nextId + scheduled) == Pass(env, st, programs)
  {
    var judge := new Judge(env, slots, rows, library, st);
    var dict := LedgerDict(rows, st.rows);
    var c := JudgeAll(judge, programs, dict, nextId, st);
    ledger := WriteVerdicts(c.db, c.held);
    recs, scheduled := judge.byId, c.scheduled;
  }

  method JudgeAll(judge: Judge, programs: seq<Program>, dict: Rows, nextId: int, ghost st: State) returns (c: Carried)
    requires judge.Valid(st) && ValidEnv(judge.env, st) && ValidPrograms(programs) && dict == st.rows && st.nextId == nextId
    modifies judge, judge.index
    ensures State(WriteAll(c.db, c.held), judge.byId, nextId + c.scheduled) == Pass(judge.env, st, programs)
  {
    c := Carried(dict, dict, [], 0);
    ghost var now := st;
    for n := 0 to |programs|
      invariant now == Pass(judge.env, st, programs[..n]) && ValidEnv(judge.env, now) && judge.Valid(now)
      invariant now.nextId == nextId + c.scheduled && now.rows == WriteAll(c.db, c.held)
      invariant AllPending(c, now, programs, n)
    {
      PassNext(judge.env, st, programs, n);
      c, now := JudgeNth(judge, programs, n, c, nextId + c.scheduled, now);
    }
    assert programs[..|programs|] == programs;
  }

  method LedgerDict(rows: seq<Row>, ghost ledger: Rows) returns (d: Rows)
    requires LedgerOf(rows, ledger)
    ensures d == ledger
  {
    d := map[];
    for n := 0 to |rows|
      invariant forall k :: k in d <==> exists i :: 0 <= i < n && rows[i].key == k
      invariant forall i :: 0 <= i < n ==> rows[i].key in d && d[rows[i].key] == rows[i]
    {
      d := d[rows[n].key := rows[n]];
    }
    forall k | k in d ensures d[k] == ledger[k] {
      var i :| 0 <= i < |rows| && rows[i].key == k;
    }
    assert d.Keys == ledger.Keys;
  }

  // A skip is written only over a row that was no live pick, so the pick list still matches.
  lemma SkipKeepsPicks(picks: seq<Row>, st: State, p: Program, a: Action)
    requires ValidState(st) && PicksMatch(picks, st) && p.showings != [] && a.Skip?()
    requires p.identity in st.rows ==> !Decided(st.rows[p.identity], st.recs)
    ensures var next := st.(rows := WriteVerdict(st.rows, p.identity, p.showings[0], a));
      ValidState(next) && PicksMatch(picks, next)
  {
  }

  lemma SkipStep(env: Env, st: State, p: Program, a: Action)
    requires p.showings != [] && VerdictOf(env, st, p) == SkipAs(a)
    requires p.identity in st.rows ==> !Decided(st.rows[p.identity], st.recs)
    ensures a.Skip?()
    ensures Step(env, st, p) ==
      if p.identity in st.rows && st.rows[p.identity].action == a then st
      else st.(rows := WriteVerdict(st.rows, p.identity, p.showings[0], a))
  {
  }

  lemma GoStep(env: Env, st: State, p: Program)
    requires p.showings != [] && VerdictOf(env, st, p) == Go
    requires p.identity in st.rows ==> !Decided(st.rows[p.identity], st.recs)
    ensures Step(env, st, p) ==
      if p.showings[0].entry !in env.plans then st
      else
        MakePick(env.rule, st, p.identity, p.showings[0], env.plans[p.showings[0].entry])
  {
  }
}
