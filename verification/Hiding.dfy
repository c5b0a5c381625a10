// Hide rules and the columns derived from them (app/channel_hiding.py). SQLite's GLOB is a
// parameter; a comparison with a missing category is false.
module HideRules {
  import opened Common

  type Glob = (string, string) -> bool

  datatype Target = CategoryGlob | CategoryExact | NameGlob
  datatype Rule = Rule(account: Option<int>, target: Target, pattern: string, enabled: bool)
  datatype Reason = Manual | By(target: Target)

  // `protected`: the guide or some channel group has it.
  datatype Channel = Channel(
    id: int, account: int, name: string, category: Option<string>, override: Option<bool>, protected: bool,
    hidden: bool, deferred: bool, reason: Option<Reason>, epgSource: Option<int>)

  predicate OnAccount(account: Option<int>, c: Channel) { account.Some? ==> c.account == account.value }

  // Does a rule with this target and pattern take the channel.
  predicate Matches(glob: Glob, target: Target, pattern: string, account: Option<int>, c: Channel) {
    && OnAccount(account, c)
    && match target
       case NameGlob => glob(c.name, pattern)
       case CategoryGlob => c.category.Some? && glob(c.category.value, pattern)
       case CategoryExact => c.category == Some(pattern)
  }

  ghost predicate AnyRule(glob: Glob, rules: seq<Rule>, target: Target, c: Channel) {
    exists r :: r in rules && r.enabled && r.target == target && Matches(glob, target, r.pattern, r.account, c)
  }

  datatype Answer = Answer(hidden: bool, deferred: bool, reason: Option<Reason>)

  // The answer for one channel, rule by rule: the user's own override, then any enabled matching
  // rule, then protection.
  ghost function AnswerFor(glob: Glob, rules: seq<Rule>, c: Channel): Answer {
    var matched := AnyRule(glob, rules, CategoryGlob, c) || AnyRule(glob, rules, CategoryExact, c) || AnyRule(glob, rules, NameGlob, c);
    var wants := c.override == Some(true) || (c.override.None? && matched);
    Answer(wants && !c.protected, wants && c.protected,
           if c.override == Some(true) then Some(Manual)
           else if c.override.Some? then None
           else if AnyRule(glob, rules, CategoryGlob, c) then Some(By(CategoryGlob))
           else if AnyRule(glob, rules, CategoryExact, c) then Some(By(CategoryExact))
           else if AnyRule(glob, rules, NameGlob, c) then Some(By(NameGlob))
           else None)
  }

  ghost predicate WellAnswered(c: Channel) {
    !(c.hidden && c.deferred) && (c.reason.Some? <==> c.hidden || c.deferred)
  }

  function Put(c: Channel, a: Answer): Channel { c.(hidden := a.hidden, deferred := a.deferred, reason := a.reason) }

  lemma AnswersAreWell(glob: Glob, rules: seq<Rule>, c: Channel)
    ensures WellAnswered(Put(c, AnswerFor(glob, rules, c)))
  {
  }

  // ---- the resolved form -----------------------------------------------------------------------

  datatype Scope = Scope(ids: Option<set<int>>, account: Option<int>)

  predicate InScope(scope: Scope, c: Channel) { (scope.ids.Some? ==> c.id in scope.ids.value) && OnAccount(scope.account, c) }

  datatype Resolved = Resolved(
    globPairs: set<(Option<int>, string)>, exactPairs: set<(Option<int>, string)>, nameGlobs: seq<(Option<int>, string)>)

  predicate GlobRuleTakes(glob: Glob, rules: seq<Rule>, account: int, category: string) {
    exists i :: 0 <= i < |rules| && rules[i].enabled && rules[i].target == CategoryGlob
      && (rules[i].account.Some? ==> rules[i].account.value == account) && glob(category, rules[i].pattern)
  }

  // The category names in a scope, each with its account.
  function Categories(channels: seq<Channel>, scope: Scope): (r: set<(int, string)>)
    ensures forall a, n :: (a, n) in r <==> exists c :: c in channels && InScope(scope, c) && c.account == a && c.category == Some(n)
  {
    set c | c in channels && InScope(scope, c) && c.category.Some? :: (c.account, c.category.value)
  }

  function PatternsOf(rules: seq<Rule>, target: Target): (r: seq<(Option<int>, string)>)
    ensures forall p :: p in r <==> exists k :: k in rules && k.enabled && k.target == target && p == (k.account, k.pattern)
  {
    if rules == [] then []
    else
      var front, last := PatternsOf(rules[..|rules| - 1], target), rules[|rules| - 1];
      assert rules == rules[..|rules| - 1] + [last];
      if last.enabled && last.target == target then front + [(last.account, last.pattern)] else front
  }

  // Category patterns are matched against the scope's categories, not against its channels.
  function Resolve(glob: Glob, rules: seq<Rule>, channels: seq<Channel>, scope: Scope): Resolved {
    var globPairs := set p | p in Categories(channels, scope) && GlobRuleTakes(glob, rules, p.0, p.1) :: (Some(p.0), p.1);
    var exactPairs := set p | p in PatternsOf(rules, CategoryExact);
    Resolved(globPairs, exactPairs, PatternsOf(rules, NameGlob))
  }

  predicate PairsTake(pairs: set<(Option<int>, string)>, c: Channel) {
    c.category.Some? && ((Some(c.account), c.category.value) in pairs || (None, c.category.value) in pairs)
  }

  predicate NamesTake(glob: Glob, globs: seq<(Option<int>, string)>, c: Channel) {
    exists i :: 0 <= i < |globs| && OnAccount(globs[i].0, c) && glob(c.name, globs[i].1)
  }

  // What the one UPDATE writes on a row.
  function RowAnswer(glob: Glob, r: Resolved, c: Channel): Answer {
    var wants := c.override == Some(true)
      || (c.override.None? && (PairsTake(r.globPairs, c) || PairsTake(r.exactPairs, c) || NamesTake(glob, r.nameGlobs, c)));
    Answer(wants && !c.protected, wants && c.protected,
           if c.override == Some(true) then Some(Manual)
           else if c.override.Some? then None
           else if PairsTake(r.globPairs, c) then Some(By(CategoryGlob))
           else if PairsTake(r.exactPairs, c) then Some(By(CategoryExact))
           else if NamesTake(glob, r.nameGlobs, c) then Some(By(NameGlob))
           else None)
  }

  lemma GlobPairsTake(glob: Glob, rules: seq<Rule>, channels: seq<Channel>, scope: Scope, c: Channel)
    ensures PairsTake(Resolve(glob, rules, channels, scope).globPairs, c)
      <==> AnyRule(glob, rules, CategoryGlob, c) && (c.account, c.category.value) in Categories(channels, scope)
  {
    if AnyRule(glob, rules, CategoryGlob, c) {
      var r :| r in rules && r.enabled && r.target == CategoryGlob && Matches(glob, CategoryGlob, r.pattern, r.account, c);
      var i :| 0 <= i < |rules| && rules[i] == r;
      assert GlobRuleTakes(glob, rules, c.account, c.category.value);
    }
    if c.category.Some? && GlobRuleTakes(glob, rules, c.account, c.category.value) {
      var i :| 0 <= i < |rules| && rules[i].enabled && rules[i].target == CategoryGlob
        && (rules[i].account.Some? ==> rules[i].account.value == c.account) && glob(c.category.value, rules[i].pattern);
      assert rules[i] in rules && Matches(glob, CategoryGlob, rules[i].pattern, rules[i].account, c);
    }
  }

  lemma ExactPairsTake(glob: Glob, rules: seq<Rule>, channels: seq<Channel>, scope: Scope, c: Channel)
    ensures PairsTake(Resolve(glob, rules, channels, scope).exactPairs, c) <==> AnyRule(glob, rules, CategoryExact, c)
  {
    var pairs := Resolve(glob, rules, channels, scope).exactPairs;
    if AnyRule(glob, rules, CategoryExact, c) {
      var r :| r in rules && r.enabled && r.target == CategoryExact && Matches(glob, CategoryExact, r.pattern, r.account, c);
      assert (r.account, r.pattern) in pairs;
      assert r.account == None || r.account == Some(c.account);
    }
  }

  lemma NameGlobsTake(glob: Glob, rules: seq<Rule>, channels: seq<Channel>, scope: Scope, c: Channel)
    ensures NamesTake(glob, Resolve(glob, rules, channels, scope).nameGlobs, c) <==> AnyRule(glob, rules, NameGlob, c)
  {
    var globs := PatternsOf(rules, NameGlob);
    if AnyRule(glob, rules, NameGlob, c) {
      var r :| r in rules && r.enabled && r.target == NameGlob && Matches(glob, NameGlob, r.pattern, r.account, c);
      assert (r.account, r.pattern) in globs;
      var i :| 0 <= i < |globs| && globs[i] == (r.account, r.pattern);
      assert OnAccount(globs[i].0, c) && glob(c.name, globs[i].1);
    }
    if NamesTake(glob, globs, c) {
      var i :| 0 <= i < |globs| && OnAccount(globs[i].0, c) && glob(c.name, globs[i].1);
      assert globs[i] in globs;
    }
  }

  // Rules resolved over any scope answer a channel as the rules themselves do, unless a category
  // pattern takes it whose category no channel of that scope carries.
  lemma ResolvedAnswersExactly(glob: Glob, rules: seq<Rule>, channels: seq<Channel>, scope: Scope, c: Channel)
    ensures RowAnswer(glob, Resolve(glob, rules, channels, scope), c) == AnswerFor(glob, rules, c)
      <==> (c.override.None? && AnyRule(glob, rules, CategoryGlob, c) ==> (c.account, c.category.value) in Categories(channels, scope))
  {
    GlobPairsTake(glob, rules, channels, scope, c);
    ExactPairsTake(glob, rules, channels, scope, c);
    NameGlobsTake(glob, rules, channels, scope, c);
  }

  // Resolving over the pass's own scope, or any wider one, is always exact on its channels.
  lemma WideEnoughIsExact(glob: Glob, rules: seq<Rule>, channels: seq<Channel>, wide: Scope, c: Channel)
    requires c in channels && InScope(wide, c)
    ensures RowAnswer(glob, Resolve(glob, rules, channels, wide), c) == AnswerFor(glob, rules, c)
  {
    ResolvedAnswersExactly(glob, rules, channels, wide, c);
  }

  // One resolved over a narrower scope un-hides what only a category pattern hides.
  lemma NarrowUnhides(glob: Glob, rules: seq<Rule>, channels: seq<Channel>, narrow: Scope, c: Channel)
    requires c.override.None? && !c.protected && AnyRule(glob, rules, CategoryGlob, c)
    requires !AnyRule(glob, rules, CategoryExact, c) && !AnyRule(glob, rules, NameGlob, c)
    requires (c.account, c.category.value) !in Categories(channels, narrow)
    ensures AnswerFor(glob, rules, c).hidden && !RowAnswer(glob, Resolve(glob, rules, channels, narrow), c).hidden
  {
    GlobPairsTake(glob, rules, channels, narrow, c);
    ExactPairsTake(glob, rules, channels, narrow, c);
    NameGlobsTake(glob, rules, channels, narrow, c);
  }

  // As a resolution over one account does, handed to a pass over two.
  lemma NarrowCanUnhide() returns (glob: Glob, rules: seq<Rule>, channels: seq<Channel>, narrow: Scope, c: Channel)
    ensures c in channels && (exists d :: d in channels && InScope(narrow, d))
    ensures AnswerFor(glob, rules, c).hidden && !RowAnswer(glob, Resolve(glob, rules, channels, narrow), c).hidden
  {
    glob := (text: string, pattern: string) => pattern == "*";
    rules := [Rule(None, CategoryGlob, "*", true)];
    c := Channel(1, 1, "One", Some("News"), None, false, false, false, None, None);
    var d := Channel(2, 2, "Two", Some("Sport"), None, false, false, false, None, None);
    channels, narrow := [c, d], Scope(None, Some(2));
    assert rules[0] in rules && Matches(glob, CategoryGlob, rules[0].pattern, rules[0].account, c);
    assert InScope(narrow, channels[1]);
    NarrowUnhides(glob, rules, channels, narrow, c);
  }
}

module Hiding {
  import opened Common
  import opened HideRules

  datatype Entry = Entry(channel: int, program: int)

  function CountHidden(channels: seq<Channel>, account: int): nat {
    if channels == [] then 0
    else
      var last := channels[|channels| - 1];
      CountHidden(channels[..|channels| - 1], account) + if last.account == account && last.hidden then 1 else 0
  }

  lemma {:induction false} CountStands(before: seq<Channel>, after: seq<Channel>, account: int)
    requires |before| == |after|
    requires forall i :: 0 <= i < |before| ==> after[i].account == before[i].account && (before[i].account == account ==> after[i].hidden == before[i].hidden)
    ensures CountHidden(after, account) == CountHidden(before, account)
  {
    if before != [] { CountStands(before[..|before| - 1], after[..|after| - 1], account); }
  }

  function Keep(entries: seq<Entry>, gone: set<int>): (r: seq<Entry>)
    ensures forall e :: e in r <==> e in entries && e.channel !in gone
  {
    if entries == [] then []
    else
      var front, last := Keep(entries[..|entries| - 1], gone), entries[|entries| - 1];
      assert entries == entries[..|entries| - 1] + [last];
      if last.channel in gone then front else front + [last]
  }

  function HiddenIds(channels: seq<Channel>, scope: Scope): (r: set<int>)
    ensures forall id :: id in r <==> exists c :: c in channels && InScope(scope, c) && c.hidden && c.id == id
  {
    set c | c in channels && InScope(scope, c) && c.hidden :: c.id
  }

  // A row as the pass leaves it: answered, and with no guide when hidden.
  function Rewritten(glob: Glob, r: Resolved, scope: Scope, c: Channel): Channel {
    if !InScope(scope, c) then c
    else
      var now := Put(c, RowAnswer(glob, r, c));
      if now.hidden then now.(epgSource := None) else now
  }

  function RewriteAll(glob: Glob, r: Resolved, scope: Scope, channels: seq<Channel>): (now: seq<Channel>)
    ensures |now| == |channels| && forall i :: 0 <= i < |now| ==> now[i] == Rewritten(glob, r, scope, channels[i])
  {
    seq(|channels|, i requires 0 <= i < |channels| => Rewritten(glob, r, scope, channels[i]))
  }

  ghost predicate IdsDistinct(channels: seq<Channel>) {
    forall i, j :: 0 <= i < j < |channels| ==> channels[i].id != channels[j].id
  }

  ghost predicate NoGuide(channels: seq<Channel>, entries: seq<Entry>) {
    forall i, e :: 0 <= i < |channels| && channels[i].hidden && e in entries ==> e.channel != channels[i].id
  }

  ghost predicate RowsWell(channels: seq<Channel>) {
    forall i :: 0 <= i < |channels| ==> WellAnswered(channels[i]) && (channels[i].hidden ==> channels[i].epgSource.None?)
  }

  ghost predicate CountsStep(channels: seq<Channel>, counts: map<int, nat>) {
    && (forall i :: 0 <= i < |channels| ==> channels[i].account in counts)
    && forall a :: a in counts ==> counts[a] == CountHidden(channels, a)
  }

  lemma RewrittenIsWell(glob: Glob, r: Resolved, scope: Scope, channels: seq<Channel>)
    requires RowsWell(channels) && IdsDistinct(channels)
    ensures RowsWell(RewriteAll(glob, r, scope, channels)) && IdsDistinct(RewriteAll(glob, r, scope, channels))
  {
    var now := RewriteAll(glob, r, scope, channels);
    forall i, j | 0 <= i < j < |now| ensures now[i].id != now[j].id {
      assert channels[i].id != channels[j].id;
    }
    forall i | 0 <= i < |now| ensures WellAnswered(now[i]) && (now[i].hidden ==> now[i].epgSource.None?) {
      assert WellAnswered(channels[i]);
    }
  }

  lemma PurgedHasNone(glob: Glob, r: Resolved, scope: Scope, channels: seq<Channel>, entries: seq<Entry>)
    requires IdsDistinct(channels) && NoGuide(channels, entries)
    ensures var now := RewriteAll(glob, r, scope, channels); NoGuide(now, Keep(entries, HiddenIds(now, scope)))
  {
    var now := RewriteAll(glob, r, scope, channels);
    forall i, e | 0 <= i < |now| && now[i].hidden && e in Keep(entries, HiddenIds(now, scope)) ensures e.channel != now[i].id {
      if InScope(scope, channels[i]) {
        assert now[i] in now && InScope(scope, now[i]);
      }
    }
  }

  // The accounts whose count a pass could have moved.
  function Touched(channels: seq<Channel>, scope: Scope): Option<set<int>> {
    if scope.account.Some? then Some({scope.account.value})
    else if scope.ids.Some? then Some(set c | c in channels && c.id in scope.ids.value :: c.account)
    else None
  }

  function Recounted(channels: seq<Channel>, counts: map<int, nat>, touched: Option<set<int>>): map<int, nat> {
    map a | a in counts :: if touched.Some? && a !in touched.value then counts[a] else CountHidden(channels, a)
  }

  // Recounting only the accounts of the channels in scope leaves every count right.
  lemma RecountIsEnough(glob: Glob, r: Resolved, scope: Scope, channels: seq<Channel>, counts: map<int, nat>)
    requires CountsStep(channels, counts)
    ensures var now := RewriteAll(glob, r, scope, channels); CountsStep(now, Recounted(now, counts, Touched(channels, scope)))
  {
    var now, touched := RewriteAll(glob, r, scope, channels), Touched(channels, scope);
    forall a | a in counts && touched.Some? && a !in touched.value ensures counts[a] == CountHidden(now, a) {
      forall i | 0 <= i < |channels| && channels[i].account == a ensures !InScope(scope, channels[i]) {
        assert channels[i] in channels;
      }
      CountStands(channels, now, a);
    }
  }

  ghost predicate AnsweredAsRules(glob: Glob, rules: seq<Rule>, scope: Scope, before: seq<Channel>, after: seq<Channel>) {
    && |after| == |before|
    && forall i :: 0 <= i < |after| ==> after[i] == AnsweredRow(glob, rules, scope, before[i])
  }

  ghost function AnsweredRow(glob: Glob, rules: seq<Rule>, scope: Scope, c: Channel): Channel {
    if !InScope(scope, c) then c
    else
      var a := AnswerFor(glob, rules, c);
      Put(c, a).(epgSource := if a.hidden then None else c.epgSource)
  }

  method RewriteRows(glob: Glob, r: Resolved, scope: Scope, channels: seq<Channel>) returns (now: seq<Channel>)
    ensures now == RewriteAll(glob, r, scope, channels)
  {
    now := [];
    for i := 0 to |channels|
      invariant |now| == i && forall k :: 0 <= k < i ==> now[k] == Rewritten(glob, r, scope, channels[k])
    {
      now := now + [Rewritten(glob, r, scope, channels[i])];
    }
  }

  // Is the row's answer the one the rules give it?
  ghost predicate Answered(glob: Glob, rules: seq<Rule>, c: Channel) { c == Put(c, AnswerFor(glob, rules, c)) }

  ghost predicate AllAnswered(glob: Glob, rules: seq<Rule>, channels: seq<Channel>) {
    forall i :: 0 <= i < |channels| ==> Answered(glob, rules, channels[i])
  }

  // Nothing a rule reads is what a pass writes.
  lemma AnsweringStands(glob: Glob, rules: seq<Rule>, c: Channel, a: Answer, epg: Option<int>)
    ensures AnswerFor(glob, rules, Put(c, a).(epgSource := epg)) == AnswerFor(glob, rules, c)
  {
    forall t ensures AnyRule(glob, rules, t, Put(c, a).(epgSource := epg)) <==> AnyRule(glob, rules, t, c) { RulesReadInputs(glob, rules, t, c, a, epg); }
  }

  lemma RulesReadInputs(glob: Glob, rules: seq<Rule>, t: Target, c: Channel, a: Answer, epg: Option<int>)
    ensures AnyRule(glob, rules, t, Put(c, a).(epgSource := epg)) <==> AnyRule(glob, rules, t, c)
  {
    var d := Put(c, a).(epgSource := epg);
    if r :| r in rules && r.enabled && r.target == t && Matches(glob, t, r.pattern, r.account, c) { assert Matches(glob, t, r.pattern, r.account, d); }
    if r :| r in rules && r.enabled && r.target == t && Matches(glob, t, r.pattern, r.account, d) { assert Matches(glob, t, r.pattern, r.account, c); }
  }

  // After a pass every row has the rules' answer exactly when every row out of its scope had.
  lemma PassAnswersExactly(glob: Glob, rules: seq<Rule>, scope: Scope, before: seq<Channel>, after: seq<Channel>)
    requires AnsweredAsRules(glob, rules, scope, before, after)
    ensures AllAnswered(glob, rules, after)
      <==> forall i :: 0 <= i < |before| && !InScope(scope, before[i]) ==> Answered(glob, rules, before[i])
  {
    forall i | 0 <= i < |before| ensures Answered(glob, rules, after[i]) <==> InScope(scope, before[i]) || Answered(glob, rules, before[i]) {
      assert after[i] == AnsweredRow(glob, rules, scope, before[i]);
      var a := AnswerFor(glob, rules, before[i]);
      if InScope(scope, before[i]) { AnsweringStands(glob, rules, before[i], a, if a.hidden then None else before[i].epgSource); }
    }
  }

  // Only rows in scope moved, so a pass over the scope is enough.
  ghost predicate MovedWithin(scope: Scope, before: seq<Channel>, moved: seq<Channel>) {
    forall i :: 0 <= i < |moved| && !InScope(scope, moved[i]) ==> i < |before| && moved[i] == before[i]
  }

  lemma ScopedPassIsEnough(glob: Glob, rules: seq<Rule>, scope: Scope, before: seq<Channel>, moved: seq<Channel>, after: seq<Channel>)
    requires MovedWithin(scope, before, moved) && AnsweredAsRules(glob, rules, scope, moved, after)
    ensures AllAnswered(glob, rules, before) ==> AllAnswered(glob, rules, after)
  {
    PassAnswersExactly(glob, rules, scope, moved, after);
  }

  function Overridden(channels: seq<Channel>, id: int, value: Option<bool>): (r: seq<Channel>)
    ensures |r| == |channels|
  {
    seq(|channels|, i requires 0 <= i < |channels| => if channels[i].id == id then channels[i].(override := value) else channels[i])
  }

  function Guarded(channels: seq<Channel>, ids: set<int>, value: bool): (r: seq<Channel>)
    ensures |r| == |channels|
  {
    seq(|channels|, i requires 0 <= i < |channels| => if channels[i].id in ids then channels[i].(protected := value) else channels[i])
  }

  // What a sync read of one account's channels: new names and categories, and new channels.
  datatype Read = Read(name: string, category: Option<string>)

  function Renamed(channels: seq<Channel>, account: int, read: map<int, Read>): (r: seq<Channel>)
    ensures |r| == |channels|
  {
    seq(|channels|, i requires 0 <= i < |channels| =>
      if channels[i].account == account && channels[i].id in read
      then channels[i].(name := read[channels[i].id].name, category := read[channels[i].id].category) else channels[i])
  }

  function NewChannels(account: int, added: seq<(int, Read)>): (r: seq<Channel>)
    ensures |r| == |added|
  {
    seq(|added|, i requires 0 <= i < |added| =>
      Channel(added[i].0, account, added[i].1.name, added[i].1.category, None, false, false, false, None, None))
  }

  ghost predicate NamedAs(now: Channel, was: Channel, account: int, read: map<int, Read>) {
    && now.id == was.id && now.account == was.account && now.override == was.override && now.protected == was.protected
    && if was.account == account && was.id in read then now.name == read[was.id].name && now.category == read[was.id].category
       else now.name == was.name && now.category == was.category
  }

  ghost predicate NewAs(now: Channel, account: int, id: int, read: Read) {
    && now.id == id && now.account == account && now.name == read.name && now.category == read.category
    && now.override == None && !now.protected
  }

  // The account's channels are named as the sync read them, the rest as before, and the new ones
  // follow with nothing decided about them.
  ghost predicate Synced(before: seq<Channel>, now: seq<Channel>, account: int, read: map<int, Read>, added: seq<(int, Read)>) {
    && |now| == |before| + |added|
    && (forall i :: 0 <= i < |before| ==> NamedAs(now[i], before[i], account, read))
    && forall i :: 0 <= i < |added| ==> NewAs(now[|before| + i], account, added[i].0, added[i].1)
  }

  lemma SyncNames(glob: Glob, rules: seq<Rule>, scope: Scope, before: seq<Channel>, now: seq<Channel>, account: int, read: map<int, Read>, added: seq<(int, Read)>)
    requires AnsweredAsRules(glob, rules, scope, Renamed(before, account, read) + NewChannels(account, added), now)
    ensures Synced(before, now, account, read, added)
  {
    var moved := Renamed(before, account, read) + NewChannels(account, added);
    forall i | 0 <= i < |before| ensures NamedAs(now[i], before[i], account, read) {
      assert now[i] == AnsweredRow(glob, rules, scope, moved[i]);
    }
    forall i | 0 <= i < |added| ensures NewAs(now[|before| + i], account, added[i].0, added[i].1) {
      assert now[|before| + i] == AnsweredRow(glob, rules, scope, moved[|before| + i]) && moved[|before| + i] == NewChannels(account, added)[i];
    }
  }

  // The inputs moved and nothing a pass writes did; a new channel starts shown.
  ghost predicate OnlyInputsMoved(before: seq<Channel>, moved: seq<Channel>) {
    && |moved| >= |before|
    && (forall i :: 0 <= i < |before| ==>
          && moved[i].id == before[i].id && moved[i].account == before[i].account && moved[i].hidden == before[i].hidden
          && moved[i].deferred == before[i].deferred && moved[i].reason == before[i].reason && moved[i].epgSource == before[i].epgSource)
    && (forall i :: |before| <= i < |moved| ==>
          !moved[i].hidden && !moved[i].deferred && moved[i].reason.None? && moved[i].epgSource.None?)
  }

  lemma MovedRowsStayWell(before: seq<Channel>, moved: seq<Channel>)
    requires RowsWell(before) && OnlyInputsMoved(before, moved)
    ensures RowsWell(moved)
  {
    forall i | 0 <= i < |moved| ensures WellAnswered(moved[i]) && (moved[i].hidden ==> moved[i].epgSource.None?) {
      if i < |before| { assert WellAnswered(before[i]); }
    }
  }

  lemma {:induction false} MovedCount(before: seq<Channel>, moved: seq<Channel>, account: int)
    requires OnlyInputsMoved(before, moved)
    ensures CountHidden(moved, account) == CountHidden(before, account)
  {
    if |moved| > |before| {
      MovedCount(before, moved[..|moved| - 1], account);
    } else if before != [] {
      MovedCount(before[..|before| - 1], moved[..|moved| - 1], account);
    }
  }

  lemma MovedCountsStand(before: seq<Channel>, moved: seq<Channel>, counts: map<int, nat>)
    requires OnlyInputsMoved(before, moved) && CountsStep(before, counts)
    requires forall i :: |before| <= i < |moved| ==> moved[i].account in counts
    ensures CountsStep(moved, counts)
  {
    forall a | a in counts ensures CountHidden(moved, a) == counts[a] { MovedCount(before, moved, a); }
    forall i | 0 <= i < |before| ensures moved[i].account in counts { assert before[i].account in counts; }
  }

  lemma MovedHaveNoGuide(before: seq<Channel>, moved: seq<Channel>, entries: seq<Entry>)
    requires OnlyInputsMoved(before, moved) && NoGuide(before, entries)
    ensures NoGuide(moved, entries)
  {
    forall i, e | 0 <= i < |moved| && moved[i].hidden && e in entries ensures e.channel != moved[i].id {
      assert before[i].hidden && before[i].id == moved[i].id;
    }
  }

  class Table {
    const glob: Glob
    var rules: seq<Rule>
    var channels: seq<Channel>
    var epg: seq<Entry>
    var alternates: seq<Entry>
    var hiddenCounts: map<int, nat>

    ghost predicate Valid()
      reads this
    {
      && IdsDistinct(channels) && RowsWell(channels)
      && NoGuide(channels, epg) && NoGuide(channels, alternates)
      && CountsStep(channels, hiddenCounts)
    }

    ghost predicate Current()
      reads this
    {
      AllAnswered(glob, rules, channels)
    }

    constructor (glob: Glob, accounts: set<int>)
      ensures Valid() && Current() && this.glob == glob
      ensures channels == [] && rules == [] && epg == [] && alternates == [] && hiddenCounts.Keys == accounts
    {
      this.glob := glob;
      rules, channels, epg, alternates, hiddenCounts := [], [], [], [], map a | a in accounts :: 0;
    }

    // The one writer of the derived columns. Without a resolution from the caller every channel
    // in scope gets exactly the answer the rules give it; the rest are left alone.
    method Recompute(scope: Scope, given: Option<Resolved>)
      requires Valid()
      modifies this`channels, this`epg, this`alternates, this`hiddenCounts
      ensures Valid()
      ensures var r := if given.Some? then given.value else Resolve(glob, rules, old(channels), scope);
        && channels == RewriteAll(glob, r, scope, old(channels))
        && epg == Keep(old(epg), HiddenIds(channels, scope)) && alternates == Keep(old(alternates), HiddenIds(channels, scope))
        && hiddenCounts == Recounted(channels, old(hiddenCounts), Touched(old(channels), scope))
      ensures given.None? ==> AnsweredAsRules(glob, rules, scope, old(channels), channels)
    {
      var r := if given.Some? then given.value else Resolve(glob, rules, channels, scope);
      var now := RewriteRows(glob, r, scope, channels);
      RewrittenIsWell(glob, r, scope, channels);
      PurgedHasNone(glob, r, scope, channels, epg);
      PurgedHasNone(glob, r, scope, channels, alternates);
      RecountIsEnough(glob, r, scope, channels, hiddenCounts);
      if given.None? { ScopedIsPerRow(glob, rules, channels, scope); }
      var touched := Touched(channels, scope);
      channels := now;
      var gone := HiddenIds(channels, scope);
      epg, alternates := Keep(epg, gone), Keep(alternates, gone);
      hiddenCounts := Recounted(channels, hiddenCounts, touched);
    }

    method AnswerByRules(scope: Scope)
      requires Valid()
      modifies this`channels, this`epg, this`alternates, this`hiddenCounts
      ensures Valid() && AnsweredAsRules(glob, rules, scope, old(channels), channels)
    {
      Recompute(scope, None);
    }

    method MoveInputs(moved: seq<Channel>)
      requires Valid() && OnlyInputsMoved(channels, moved) && IdsDistinct(moved)
      requires forall i :: |channels| <= i < |moved| ==> moved[i].account in hiddenCounts
      modifies this`channels
      ensures Valid() && channels == moved
    {
      MovedRowsStayWell(channels, moved);
      MovedHaveNoGuide(channels, moved, epg);
      MovedHaveNoGuide(channels, moved, alternates);
      MovedCountsStand(channels, moved, hiddenCounts);
      channels := moved;
    }

    // Inputs moved, and in the same transaction the pass over what moved.
    method Move(moved: seq<Channel>, scope: Scope)
      requires Valid() && OnlyInputsMoved(channels, moved) && MovedWithin(scope, channels, moved) && IdsDistinct(moved)
      requires forall i :: |channels| <= i < |moved| ==> moved[i].account in hiddenCounts
      modifies this`channels, this`epg, this`alternates, this`hiddenCounts
      ensures Valid() && AnsweredAsRules(glob, rules, scope, moved, channels)
      ensures old(Current()) ==> Current()
    {
      ghost var before := channels;
      MoveInputs(moved);
      AnswerByRules(scope);
      ScopedPassIsEnough(glob, rules, scope, before, moved, channels);
    }

    // A person's own answer for one channel, and the pass over it.
    method SetOverride(id: int, value: Option<bool>)
      requires Valid()
      modifies this`channels, this`epg, this`alternates, this`hiddenCounts
      ensures Valid() && AnsweredAsRules(glob, rules, Scope(Some({id}), None), Overridden(old(channels), id, value), channels)
      ensures |channels| == |old(channels)| && forall i :: 0 <= i < |channels| ==>
        channels[i].override == (if channels[i].id == id then value else old(channels[i].override)) && channels[i].id == old(channels[i].id)
      ensures old(Current()) ==> Current()
    {
      SameIds(channels, Overridden(channels, id, value));
      Move(Overridden(channels, id, value), Scope(Some({id}), None));
    }

    // Channels join or leave the guide or a group.
    method SetProtected(ids: set<int>, value: bool)
      requires Valid()
      modifies this`channels, this`epg, this`alternates, this`hiddenCounts
      ensures Valid() && AnsweredAsRules(glob, rules, Scope(Some(ids), None), Guarded(old(channels), ids, value), channels)
      ensures |channels| == |old(channels)| && forall i :: 0 <= i < |channels| ==>
        channels[i].protected == (if channels[i].id in ids then value else old(channels[i].protected)) && channels[i].id == old(channels[i].id)
      ensures old(Current()) ==> Current()
    {
      SameIds(channels, Guarded(channels, ids, value));
      Move(Guarded(channels, ids, value), Scope(Some(ids), None));
    }

    // A sync's channels, and the pass over its account.
    method Sync(account: int, read: map<int, Read>, added: seq<(int, Read)>)
      requires Valid() && account in hiddenCounts
      requires forall i, c :: 0 <= i < |added| && c in channels ==> added[i].0 != c.id
      requires forall i, j :: 0 <= i < j < |added| ==> added[i].0 != added[j].0
      modifies this`channels, this`epg, this`alternates, this`hiddenCounts
      ensures Valid()
      ensures AnsweredAsRules(glob, rules, Scope(None, Some(account)), Renamed(old(channels), account, read) + NewChannels(account, added), channels)
      ensures Synced(old(channels), channels, account, read, added)
      ensures old(Current()) ==> Current()
    {
      ghost var before := channels;
      var moved := Renamed(channels, account, read) + NewChannels(account, added);
      NewIdsDistinct(channels, account, read, added);
      Move(moved, Scope(None, Some(account)));
      SyncNames(glob, rules, Scope(None, Some(account)), before, channels, account, read, added);
    }

    // Rules added, edited or deleted, and the pass over the whole table; when that is refused the
    // answers stand as they were, and the retry brings them up to date.
    method SetRules(now: seq<Rule>, granted: bool)
      requires Valid()
      modifies this
      ensures Valid() && rules == now
      ensures granted ==> Current() && AnsweredAsRules(glob, now, Scope(None, None), old(channels), channels)
      ensures !granted ==> channels == old(channels) && epg == old(epg) && alternates == old(alternates) && hiddenCounts == old(hiddenCounts)
    {
      rules := now;
      if granted { Materialize(); }
    }

    method Materialize()
      requires Valid()
      modifies this`channels, this`epg, this`alternates, this`hiddenCounts
      ensures Valid() && Current() && AnsweredAsRules(glob, rules, Scope(None, None), old(channels), channels)
    {
      ghost var before := channels;
      AnswerByRules(Scope(None, None));
      PassAnswersExactly(glob, rules, Scope(None, None), before, channels);
    }
  }

  lemma SameIds(before: seq<Channel>, moved: seq<Channel>)
    requires |moved| == |before| && IdsDistinct(before) && forall i :: 0 <= i < |before| ==> moved[i].id == before[i].id
    ensures IdsDistinct(moved)
  {
    forall i, j | 0 <= i < j < |moved| ensures moved[i].id != moved[j].id {
      assert before[i].id != before[j].id;
    }
  }

  lemma NewIdsDistinct(channels: seq<Channel>, account: int, read: map<int, Read>, added: seq<(int, Read)>)
    requires IdsDistinct(channels) && forall i, c :: 0 <= i < |added| && c in channels ==> added[i].0 != c.id
    requires forall i, j :: 0 <= i < j < |added| ==> added[i].0 != added[j].0
    ensures IdsDistinct(Renamed(channels, account, read) + NewChannels(account, added))
  {
    var moved := Renamed(channels, account, read) + NewChannels(account, added);
    SameIds(channels, Renamed(channels, account, read));
    forall i, j | 0 <= i < |channels| <= j < |moved| ensures moved[i].id != moved[j].id {
      assert channels[i] in channels;
    }
  }

  // A scoped pass answers each channel in scope as the rules do, row by row.
  lemma ScopedIsPerRow(glob: Glob, rules: seq<Rule>, channels: seq<Channel>, scope: Scope)
    ensures AnsweredAsRules(glob, rules, scope, channels, RewriteAll(glob, Resolve(glob, rules, channels, scope), scope, channels))
  {
    forall i | 0 <= i < |channels| && InScope(scope, channels[i])
      ensures RowAnswer(glob, Resolve(glob, rules, channels, scope), channels[i]) == AnswerFor(glob, rules, channels[i])
    {
      assert channels[i] in channels;
      WideEnoughIsExact(glob, rules, channels, scope, channels[i]);
    }
  }
}
