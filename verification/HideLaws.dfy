// What the hiding columns say, spelled out from the channel, the rules and the scope.
module HideLaws {
  import opened Common
  import opened HideRules
  import opened Hiding
  import opened HideStats

  // The rule is for the channel's account and its pattern fits.
  ghost predicate Fits(glob: Glob, r: Rule, c: Channel) {
    && (r.account == None || r.account.value == c.account)
    && ((r.target == NameGlob && glob(c.name, r.pattern))
        || (r.target == CategoryGlob && c.category != None && glob(c.category.value, r.pattern))
        || (r.target == CategoryExact && c.category != None && c.category.value == r.pattern))
  }

  ghost predicate FitsAt(glob: Glob, rules: seq<Rule>, i: int, t: Target, c: Channel) {
    0 <= i < |rules| && rules[i].enabled && rules[i].target == t && Fits(glob, rules[i], c)
  }

  ghost predicate SomeFits(glob: Glob, rules: seq<Rule>, t: Target, c: Channel) { exists i :: FitsAt(glob, rules, i, t, c) }

  lemma SomeFitsIs(glob: Glob, rules: seq<Rule>, t: Target, c: Channel)
    ensures SomeFits(glob, rules, t, c) <==> AnyRule(glob, rules, t, c)
  {
    if AnyRule(glob, rules, t, c) {
      var r :| r in rules && r.enabled && r.target == t && Matches(glob, t, r.pattern, r.account, c);
      var i :| 0 <= i < |rules| && rules[i] == r;
      assert FitsAt(glob, rules, i, t, c);
    }
    if i :| FitsAt(glob, rules, i, t, c) {
      assert rules[i] in rules && Matches(glob, t, rules[i].pattern, rules[i].account, c);
    }
  }

  // Wanted away: by the person, or - when the person said nothing - by some rule.
  ghost predicate Unwanted(glob: Glob, rules: seq<Rule>, c: Channel) {
    || c.override == Some(true)
    || (c.override == None && exists i :: FitsAt(glob, rules, i, CategoryGlob, c) || FitsAt(glob, rules, i, CategoryExact, c) || FitsAt(glob, rules, i, NameGlob, c))
  }

  // Hidden when unwanted, unless the guide or a group has it, which only defers it; and the reason
  // is the person, else the first kind of rule that fits: category pattern, category, name pattern.
  lemma AnswerExactly(glob: Glob, rules: seq<Rule>, c: Channel)
    ensures var a := AnswerFor(glob, rules, c);
      && (a.hidden <==> Unwanted(glob, rules, c) && !c.protected)
      && (a.deferred <==> Unwanted(glob, rules, c) && c.protected)
      && (a.reason == Some(Manual) <==> c.override == Some(true))
      && (a.reason == Some(By(CategoryGlob)) <==> c.override == None && SomeFits(glob, rules, CategoryGlob, c))
      && (a.reason == Some(By(CategoryExact)) <==> c.override == None && SomeFits(glob, rules, CategoryExact, c) && !SomeFits(glob, rules, CategoryGlob, c))
      && (a.reason == Some(By(NameGlob)) <==>
            c.override == None && SomeFits(glob, rules, NameGlob, c) && !SomeFits(glob, rules, CategoryGlob, c) && !SomeFits(glob, rules, CategoryExact, c))
  {
    SomeFitsIs(glob, rules, CategoryGlob, c);
    SomeFitsIs(glob, rules, CategoryExact, c);
    SomeFitsIs(glob, rules, NameGlob, c);
    UnwantedIs(glob, rules, c);
  }

  lemma UnwantedIs(glob: Glob, rules: seq<Rule>, c: Channel)
    ensures Unwanted(glob, rules, c) <==>
      c.override == Some(true) || (c.override == None && (SomeFits(glob, rules, CategoryGlob, c) || SomeFits(glob, rules, CategoryExact, c) || SomeFits(glob, rules, NameGlob, c)))
  {
  }

  ghost predicate Reached(scope: Scope, c: Channel) {
    (scope.ids == None || c.id in scope.ids.value) && (scope.account == None || scope.account.value == c.account)
  }

  // A pass writes the three columns of the channels it reaches, takes the guide source of those it
  // hides, and leaves every other column and channel alone.
  lemma PassWrites(glob: Glob, rules: seq<Rule>, scope: Scope, before: seq<Channel>, after: seq<Channel>, i: nat)
    requires AnsweredAsRules(glob, rules, scope, before, after) && i < |before|
    ensures |after| == |before|
    ensures !Reached(scope, before[i]) ==> after[i] == before[i]
    ensures Reached(scope, before[i]) ==>
      && (after[i].hidden <==> Unwanted(glob, rules, before[i]) && !before[i].protected)
      && (after[i].deferred <==> Unwanted(glob, rules, before[i]) && before[i].protected)
      && after[i].reason == AnswerFor(glob, rules, before[i]).reason
      && after[i].epgSource == if after[i].hidden then None else before[i].epgSource
    ensures after[i].id == before[i].id && after[i].account == before[i].account && after[i].name == before[i].name
      && after[i].category == before[i].category && after[i].override == before[i].override && after[i].protected == before[i].protected
  {
    AnswerExactly(glob, rules, before[i]);
    assert after[i] == AnsweredRow(glob, rules, scope, before[i]);
  }

  // The guide rows a pass takes are those of the hidden channels it reached, and only those.
  lemma {:induction false} PurgeTakes(entries: seq<Entry>, channels: seq<Channel>, scope: Scope, e: Entry)
    ensures multiset(Keep(entries, HiddenIds(channels, scope)))[e]
      == if exists c :: c in channels && c.hidden && c.id == e.channel && Reached(scope, c) then 0 else multiset(entries)[e]
  {
    assert e.channel in HiddenIds(channels, scope) <==> exists c :: c in channels && c.hidden && c.id == e.channel && Reached(scope, c);
    if entries != [] {
      PurgeTakes(entries[..|entries| - 1], channels, scope, e);
      assert entries == entries[..|entries| - 1] + [entries[|entries| - 1]];
    }
  }

  // ---- counts ----------------------------------------------------------------------------------

  function HiddenOf(account: int): Channel -> nat { (c: Channel) => if c.account == account && c.hidden then 1 else 0 }

  // The account's stored count: one for each hidden channel of it.
  lemma {:induction false} HiddenAreCounted(channels: seq<Channel>, account: int)
    ensures CountHidden(channels, account) == SumOver(channels, HiddenOf(account))
  {
    if channels != [] { HiddenAreCounted(channels[..|channels| - 1], account); }
  }

  // The channels taken, all of them or those protected from it.
  ghost function Taken(glob: Glob, r: Rule, deferred: bool): Channel -> nat {
    (c: Channel) => if Fits(glob, r, c) && (deferred ==> c.protected) then 1 else 0
  }

  // A rule's two numbers, whether or not it is switched on: the channels it fits, and those of them
  // the guide or a group has.
  lemma {:induction false} FittingAreCounted(glob: Glob, r: Rule, channels: seq<Channel>)
    ensures CountMatches(glob, r, channels).matched == SumOver(channels, Taken(glob, r, false))
    ensures CountMatches(glob, r, channels).deferred == SumOver(channels, Taken(glob, r, true))
  {
    if channels != [] {
      var last := channels[|channels| - 1];
      FittingAreCounted(glob, r, channels[..|channels| - 1]);
      assert MatchesRule(glob, r, last) <==> Fits(glob, r, last);
    }
  }
}
