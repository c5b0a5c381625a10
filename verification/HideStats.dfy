// What each hide rule matches (app/channel_hiding.py `refresh_rule_stats`).
module HideStats {
  import opened Common
  import opened HideRules

  // One row of the GROUP BY over account and category.
  datatype Group = Group(account: int, category: string, count: nat, protected: nat)

  datatype Stat = Stat(matched: nat, deferred: nat)

  predicate MatchesRule(glob: Glob, r: Rule, c: Channel) { Matches(glob, r.target, r.pattern, r.account, c) }

  // The count taken channel by channel.
  function CountMatches(glob: Glob, r: Rule, channels: seq<Channel>): Stat {
    if channels == [] then Stat(0, 0)
    else
      var s, last := CountMatches(glob, r, channels[..|channels| - 1]), channels[|channels| - 1];
      if MatchesRule(glob, r, last) then Stat(s.matched + 1, s.deferred + if last.protected then 1 else 0) else s
  }

  // ---- grouping -------------------------------------------------------------------------------

  function AddTo(groups: seq<Group>, account: int, category: string, protected: bool): (r: seq<Group>) {
    if groups == [] then [Group(account, category, 1, if protected then 1 else 0)]
    else if groups[0].account == account && groups[0].category == category
    then [groups[0].(count := groups[0].count + 1, protected := groups[0].protected + if protected then 1 else 0)] + groups[1..]
    else [groups[0]] + AddTo(groups[1..], account, category, protected)
  }

  method GroupByCategory(channels: seq<Channel>) returns (groups: seq<Group>)
    ensures groups == Grouped(channels)
  {
    groups := [];
    for i := 0 to |channels|
      invariant groups == Grouped(channels[..i])
    {
      assert channels[..i + 1][..i] == channels[..i];
      if channels[i].category.Some? {
        groups := AddTo(groups, channels[i].account, channels[i].category.value, channels[i].protected);
      }
    }
    assert channels[..|channels|] == channels;
  }

  function Grouped(channels: seq<Channel>): seq<Group> {
    if channels == [] then []
    else
      var groups, last := Grouped(channels[..|channels| - 1]), channels[|channels| - 1];
      if last.category.Some? then AddTo(groups, last.account, last.category.value, last.protected) else groups
  }

  predicate Takes(names: set<string>, account: Option<int>, a: int, category: string) {
    category in names && (account.Some? ==> a == account.value)
  }

  function Totals(groups: seq<Group>, names: set<string>, account: Option<int>): Stat {
    if groups == [] then Stat(0, 0)
    else
      var s := Totals(groups[1..], names, account);
      if Takes(names, account, groups[0].account, groups[0].category)
      then Stat(s.matched + groups[0].count, s.deferred + groups[0].protected) else s
  }

  lemma {:induction false} AddedTotals(groups: seq<Group>, a: int, category: string, protected: bool, names: set<string>, account: Option<int>)
    ensures var s, t := Totals(groups, names, account), Totals(AddTo(groups, a, category, protected), names, account);
      t == if Takes(names, account, a, category) then Stat(s.matched + 1, s.deferred + if protected then 1 else 0) else s
  {
    var now := AddTo(groups, a, category, protected);
    if groups != [] {
      assert now[1..] == if groups[0].account == a && groups[0].category == category then groups[1..] else AddTo(groups[1..], a, category, protected);
      if !(groups[0].account == a && groups[0].category == category) { AddedTotals(groups[1..], a, category, protected, names, account); }
    }
  }

  // ---- one rule ---------------------------------------------------------------------------------

  function CategoryNames(channels: seq<Channel>): (r: set<string>)
    ensures forall n :: n in r <==> exists c :: c in channels && c.category == Some(n)
  {
    set c | c in channels && c.category.Some? :: c.category.value
  }

  // The category names a category rule takes.
  function NamesOf(glob: Glob, r: Rule, channels: seq<Channel>): set<string> {
    if r.target.CategoryExact? then {r.pattern} else set n | n in CategoryNames(channels) && glob(n, r.pattern)
  }

  lemma TakesIsMatch(glob: Glob, r: Rule, channels: seq<Channel>, c: Channel)
    requires !r.target.NameGlob? && c in channels
    ensures MatchesRule(glob, r, c) <==> c.category.Some? && Takes(NamesOf(glob, r, channels), r.account, c.account, c.category.value)
  {
  }

  // Summing a rule's categories gives the count taken channel by channel.
  lemma {:induction false} TotalsAreMatches(glob: Glob, r: Rule, all: seq<Channel>, channels: seq<Channel>)
    requires !r.target.NameGlob? && forall c :: c in channels ==> c in all
    ensures Totals(Grouped(channels), NamesOf(glob, r, all), r.account) == CountMatches(glob, r, channels)
  {
    if channels != [] {
      var front, last := channels[..|channels| - 1], channels[|channels| - 1];
      assert last in channels;
      TotalsAreMatches(glob, r, all, front);
      TakesIsMatch(glob, r, all, last);
      if last.category.Some? {
        AddedTotals(Grouped(front), last.account, last.category.value, last.protected, NamesOf(glob, r, all), r.account);
      }
    }
  }

  method CategoryStat(glob: Glob, r: Rule, channels: seq<Channel>, groups: seq<Group>) returns (s: Stat)
    requires !r.target.NameGlob? && groups == Grouped(channels)
    ensures s == CountMatches(glob, r, channels)
  {
    var names := NamesOf(glob, r, channels);
    var total: nat, deferred: nat := 0, 0;
    for i := 0 to |groups|
      invariant Totals(groups, names, r.account) == Stat(total + Totals(groups[i..], names, r.account).matched, deferred + Totals(groups[i..], names, r.account).deferred)
    {
      assert groups[i..][1..] == groups[i + 1..];
      var g := groups[i];
      if g.category in names && (r.account.Some? ==> g.account == r.account.value) {
        total, deferred := total + g.count, deferred + g.protected;
      }
    }
    TotalsAreMatches(glob, r, channels, channels);
    s := Stat(total, deferred);
  }

  method NameStat(glob: Glob, r: Rule, channels: seq<Channel>) returns (s: Stat)
    ensures s == CountMatches(glob, r, channels)
  {
    s := Stat(0, 0);
    for i := 0 to |channels|
      invariant s == CountMatches(glob, r, channels[..i])
    {
      assert channels[..i + 1][..i] == channels[..i];
      if MatchesRule(glob, r, channels[i]) {
        s := Stat(s.matched + 1, s.deferred + if channels[i].protected then 1 else 0);
      }
    }
    assert channels[..|channels|] == channels;
  }

  // Every rule, switched off or not, is counted on its own.
  method RefreshRuleStats(glob: Glob, rules: seq<Rule>, channels: seq<Channel>) returns (stats: seq<Stat>)
    ensures |stats| == |rules| && forall i :: 0 <= i < |rules| ==> stats[i] == CountMatches(glob, rules[i], channels)
  {
    var groups := GroupByCategory(channels);
    stats := [];
    for i := 0 to |rules|
      invariant |stats| == i && forall k :: 0 <= k < i ==> stats[k] == CountMatches(glob, rules[k], channels)
    {
      var s;
      if rules[i].target.NameGlob? { s := NameStat(glob, rules[i], channels); } else { s := CategoryStat(glob, rules[i], channels, groups); }
      stats := stats + [s];
    }
  }
}
