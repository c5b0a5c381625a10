// Counting a guide file's entries and writing them (app/accounts.py `_program_window`,
// `_match_program`, `_feed_map`, `_count_projected_epg_entries`, `_import_source`;
// app/epg_sources.py `file_id_for`).
module EpgModel {
  import opened Common

  // Times that do not parse are None.
  datatype Program = Program(xmlId: string, times: Option<(int, int)>, content: int)

  datatype Period = Period(start: int, end: int)

  predicate InWindow(p: Program, w: Period) { p.times.Some? && !(p.times.value.1 < w.start || p.times.value.0 > w.end) }

  // The one id of the file each channel key reads, with its channels.
  type Feed = map<string, seq<int>>

  // The channels one <programme> is imported for.
  function Match(p: Program, feed: Feed, w: Period): seq<int> {
    if p.xmlId in feed && InWindow(p, w) then feed[p.xmlId] else []
  }

  function CountIn(programs: seq<Program>, xmlId: string, w: Period): nat {
    if programs == [] then 0
    else
      var last := programs[|programs| - 1];
      CountIn(programs[..|programs| - 1], xmlId, w) + if last.xmlId == xmlId && InWindow(last, w) then 1 else 0
  }

  // One (programme, channel) pair for every row the import could write.
  function Pairs(programs: seq<Program>, feed: Feed, w: Period): nat {
    if programs == [] then 0 else Pairs(programs[..|programs| - 1], feed, w) + |Match(programs[|programs| - 1], feed, w)|
  }

  // ---- the projected count ----------------------------------------------------------------------

  // Summed over the file's ids: how often each is in the window, times its channels.
  function Projected(ids: seq<string>, feed: Feed, counts: map<string, nat>): nat
    requires forall i :: 0 <= i < |ids| ==> ids[i] in feed
  {
    if ids == [] then 0
    else
      var last := ids[|ids| - 1];
      Projected(ids[..|ids| - 1], feed, counts) + (if last in counts then counts[last] else 0) * |feed[last]|
  }

  ghost predicate Counts(counts: map<string, nat>, programs: seq<Program>, w: Period) {
    forall x :: CountIn(programs, x, w) == if x in counts then counts[x] else 0
  }

  ghost predicate Lists(ids: seq<string>, feed: Feed) {
    && (forall i, j :: 0 <= i < j < |ids| ==> ids[i] != ids[j])
    && forall x :: x in feed <==> x in ids
  }

  lemma {:induction false} NoneCounted(ids: seq<string>, feed: Feed)
    requires forall i :: 0 <= i < |ids| ==> ids[i] in feed
    ensures Projected(ids, feed, map[]) == 0
  {
    if ids != [] { NoneCounted(ids[..|ids| - 1], feed); }
  }

  function Bump(counts: map<string, nat>, x: string): map<string, nat> {
    counts[x := (if x in counts then counts[x] else 0) + 1]
  }

  lemma {:induction false} OneMore(ids: seq<string>, feed: Feed, counts: map<string, nat>, x: string)
    requires forall i :: 0 <= i < |ids| ==> ids[i] in feed
    requires forall i, j :: 0 <= i < j < |ids| ==> ids[i] != ids[j]
    ensures Projected(ids, feed, Bump(counts, x)) == Projected(ids, feed, counts) + if x in ids then |feed[x]| else 0
  {
    if ids != [] {
      var front, last := ids[..|ids| - 1], ids[|ids| - 1];
      assert ids == front + [last];
      OneMore(front, feed, counts, x);
      assert x == last ==> x !in front by { assert forall i :: 0 <= i < |front| ==> front[i] != last; }
      var n := if last in counts then counts[last] else 0;
      assert (n + 1) * |feed[last]| == n * |feed[last]| + |feed[last]|;
    }
  }

  lemma SameCounts(ids: seq<string>, feed: Feed, a: map<string, nat>, b: map<string, nat>)
    requires forall i :: 0 <= i < |ids| ==> ids[i] in feed
    requires forall x :: (if x in a then a[x] else 0) == if x in b then b[x] else 0
    ensures Projected(ids, feed, a) == Projected(ids, feed, b)
  {
  }

  // The count taken id by id is the number of (in-window programme, channel) pairs the import
  // matches one by one.
  lemma {:induction false} ProjectedIsPairs(ids: seq<string>, feed: Feed, counts: map<string, nat>, programs: seq<Program>, w: Period)
    requires Lists(ids, feed) && Counts(counts, programs, w)
    ensures Projected(ids, feed, counts) == Pairs(programs, feed, w)
    decreases |programs|
  {
    if programs == [] {
      SameCounts(ids, feed, counts, map[]);
      NoneCounted(ids, feed);
    } else {
      var front, last := programs[..|programs| - 1], programs[|programs| - 1];
      var before := CountsOf(front, w);
      ProjectedIsPairs(ids, feed, before, front, w);
      if InWindow(last, w) {
        OneMore(ids, feed, before, last.xmlId);
        SameCounts(ids, feed, counts, Bump(before, last.xmlId));
      } else {
        SameCounts(ids, feed, counts, before);
      }
    }
  }

  function CountsOf(programs: seq<Program>, w: Period): (r: map<string, nat>)
    ensures Counts(r, programs, w)
  {
    if programs == [] then map[]
    else
      var front, last := CountsOf(programs[..|programs| - 1], w), programs[|programs| - 1];
      if InWindow(last, w) then Bump(front, last.xmlId) else front
  }

  // ---- which id of the file a key reads -------------------------------------------------------------

  // The key's own spelling; else the variant with the most programs, the lowest id among equals.
  ghost predicate IsFileId(key: string, variants: map<string, nat>, id: Option<string>) {
    && (id.None? <==> variants == map[])
    && (id.Some? ==> id.value in variants)
    && (key in variants ==> id == Some(key))
    && (id.Some? && key !in variants ==> forall v :: v in variants ==>
          variants[v] < variants[id.value] || (variants[v] == variants[id.value] && TextLe(id.value, v)))
  }

  method FileIdFor(key: string, variants: map<string, nat>) returns (id: Option<string>)
    ensures IsFileId(key, variants, id)
  {
    if variants == map[] { return None; }
    if key in variants { return Some(key); }
    assert variants.Keys != {};
    var best := Next(variants.Keys);
    var rest := variants.Keys - {best};
    TextLeTotal(best, best);
    while rest != {}
      invariant rest <= variants.Keys && best in variants
      invariant forall v :: v in variants && v !in rest ==> NotBetter(variants, v, best)
      decreases |rest|
    {
      var v := Next(rest);
      if variants[best] < variants[v] || (variants[best] == variants[v] && TextLe(v, best)) {
        BetterThanAll(variants, rest, best, v);
        best := v;
      } else {
        TextLeTotal(best, v);
      }
      TextLeTotal(v, v);
      rest := rest - {v};
    }
    id := Some(best);
  }

  predicate NotBetter(variants: map<string, nat>, v: string, best: string)
    requires v in variants && best in variants
  {
    variants[v] < variants[best] || (variants[v] == variants[best] && TextLe(best, v))
  }

  lemma BetterThanAll(variants: map<string, nat>, rest: set<string>, best: string, now: string)
    requires best in variants && now in variants && NotBetter(variants, best, now)
    requires forall v :: v in variants && v !in rest ==> NotBetter(variants, v, best)
    ensures forall v :: v in variants && v !in rest ==> NotBetter(variants, v, now)
  {
    forall v | v in variants && v !in rest ensures NotBetter(variants, v, now) {
      if variants[v] == variants[now] { TextLeTransitive(now, best, v); }
    }
  }

  // ---- the feed map ------------------------------------------------------------------------------

  // Each channel key with the channels spelled so, in the order the keys were first met.
  datatype Keyed = Keyed(key: string, channels: seq<int>)

  // The file's ids with in-window programs that fold to the key.
  function Variants(counts: map<string, nat>, norm: string -> string, key: string): map<string, nat> {
    map x | x in counts && x != "" && norm(x) == norm(key) :: counts[x]
  }

  // The channels of the first `n` keys that chose this id.
  function Collected(keys: seq<Keyed>, chosen: seq<Option<string>>, id: string, n: nat): seq<int>
    requires n <= |keys| && n <= |chosen|
  {
    if n == 0 then []
    else Collected(keys, chosen, id, n - 1) + if chosen[n - 1] == Some(id) then keys[n - 1].channels else []
  }

  ghost predicate FeedOf(feed: Feed, keys: seq<Keyed>, chosen: seq<Option<string>>) {
    && |chosen| <= |keys|
    && (forall id :: id in feed <==> Some(id) in chosen)
    && forall id :: id in feed ==> feed[id] == Collected(keys, chosen, id, |chosen|)
  }

  ghost predicate ChosenFor(keys: seq<Keyed>, counts: map<string, nat>, norm: string -> string, chosen: seq<Option<string>>) {
    |chosen| <= |keys| && forall i :: 0 <= i < |chosen| ==> IsFileId(keys[i].key, Variants(counts, norm, keys[i].key), chosen[i])
  }

  // An id of the file that means the key, compared as the feed compares them.
  ghost predicate Means(counts: map<string, nat>, norm: string -> string, key: string, id: string) {
    id in counts && |id| > 0 && norm(id) == norm(key)
  }

  // A key reads an id when some id of the file means it: its own spelling if the file has that, else
  // of those that mean it the one with the most programmes, the first in text order among equals.
  lemma ReadsExactly(keys: seq<Keyed>, counts: map<string, nat>, norm: string -> string, chosen: seq<Option<string>>, i: nat)
    requires ChosenFor(keys, counts, norm, chosen) && i < |chosen|
    ensures var key := keys[i].key;
      && (chosen[i] == None <==> forall x :: !Means(counts, norm, key, x))
      && (Means(counts, norm, key, key) ==> chosen[i] == Some(key))
      && (chosen[i] != None ==> Means(counts, norm, key, chosen[i].value))
      && (chosen[i] != None && !Means(counts, norm, key, key) ==> forall x :: Means(counts, norm, key, x) && x != chosen[i].value ==>
            counts[x] <= counts[chosen[i].value] && (counts[x] == counts[chosen[i].value] ==> TextLe(chosen[i].value, x)))
  {
    var key := keys[i].key;
    var v := Variants(counts, norm, key);
    assert IsFileId(key, v, chosen[i]);
    forall x ensures x in v <==> Means(counts, norm, key, x) { assert x in v ==> v[x] == counts[x]; }
    if chosen[i] == None { assert forall x :: x !in v; }
    if v == map[] { assert forall x :: x !in v; } else { var x :| x in v; }
  }

  lemma {:induction false} CollectedNone(keys: seq<Keyed>, chosen: seq<Option<string>>, id: string, n: nat)
    requires n <= |keys| && n <= |chosen| && Some(id) !in chosen
    ensures Collected(keys, chosen, id, n) == []
  {
    if n > 0 { CollectedNone(keys, chosen, id, n - 1); }
  }

  lemma {:induction false} CollectedStands(keys: seq<Keyed>, chosen: seq<Option<string>>, next: Option<string>, id: string, n: nat)
    requires n <= |keys| && n <= |chosen|
    ensures Collected(keys, chosen + [next], id, n) == Collected(keys, chosen, id, n)
  {
    if n > 0 { CollectedStands(keys, chosen, next, id, n - 1); }
  }

  function Extend(feed: Feed, id: Option<string>, channels: seq<int>): Feed {
    if id.None? then feed else feed[id.value := (if id.value in feed then feed[id.value] else []) + channels]
  }

  lemma ExtendedFeed(feed: Feed, keys: seq<Keyed>, chosen: seq<Option<string>>, id: Option<string>)
    requires FeedOf(feed, keys, chosen) && |chosen| < |keys|
    ensures FeedOf(Extend(feed, id, keys[|chosen|].channels), keys, chosen + [id])
  {
    var n := |chosen|;
    var now := Extend(feed, id, keys[n].channels);
    forall x | x in now ensures now[x] == Collected(keys, chosen + [id], x, n + 1) {
      CollectedStands(keys, chosen, id, x, n);
      if x !in feed { CollectedNone(keys, chosen, x, n); }
    }
  }

  method FeedMap(keys: seq<Keyed>, counts: map<string, nat>, norm: string -> string) returns (feed: Feed, ghost chosen: seq<Option<string>>)
    ensures |chosen| == |keys| && ChosenFor(keys, counts, norm, chosen) && FeedOf(feed, keys, chosen)
    ensures feed.Keys <= counts.Keys
  {
    feed, chosen := map[], [];
    for n := 0 to |keys|
      invariant |chosen| == n && ChosenFor(keys, counts, norm, chosen) && FeedOf(feed, keys, chosen)
      invariant feed.Keys <= counts.Keys
    {
      var id := FileIdFor(keys[n].key, Variants(counts, norm, keys[n].key));
      ExtendedFeed(feed, keys, chosen, id);
      feed, chosen := Extend(feed, id, keys[n].channels), chosen + [id];
    }
  }

  ghost predicate NoRepeats(s: seq<int>) { forall i, j :: 0 <= i < j < |s| ==> s[i] != s[j] }

  // Every channel is listed once, under one key.
  ghost predicate ListedOnce(keys: seq<Keyed>) {
    && (forall i :: 0 <= i < |keys| ==> NoRepeats(keys[i].channels))
    && forall i, j, c :: 0 <= i < j < |keys| && c in keys[i].channels ==> c !in keys[j].channels
  }

  ghost predicate From(keys: seq<Keyed>, chosen: seq<Option<string>>, id: string, n: nat, c: int, i: int) {
    0 <= i < n <= |keys| && n <= |chosen| && chosen[i] == Some(id) && c in keys[i].channels
  }

  lemma {:induction false} CollectedFrom(keys: seq<Keyed>, chosen: seq<Option<string>>, id: string, n: nat)
    requires n <= |keys| && n <= |chosen|
    ensures forall c :: c in Collected(keys, chosen, id, n) <==> exists i :: From(keys, chosen, id, n, c, i)
  {
    if n > 0 {
      CollectedFrom(keys, chosen, id, n - 1);
      var m := n - 1;
      forall c ensures c in Collected(keys, chosen, id, n) <==> exists i :: From(keys, chosen, id, n, c, i) {
        if i :| From(keys, chosen, id, n, c, i) {
          assert i < m ==> From(keys, chosen, id, m, c, i);
        }
        if i :| From(keys, chosen, id, m, c, i) { assert From(keys, chosen, id, n, c, i); }
        if chosen[m] == Some(id) && c in keys[m].channels { assert From(keys, chosen, id, n, c, m); }
      }
    }
  }

  lemma {:induction false} CollectedOnce(keys: seq<Keyed>, chosen: seq<Option<string>>, id: string, n: nat)
    requires n <= |keys| && n <= |chosen| && ListedOnce(keys)
    ensures NoRepeats(Collected(keys, chosen, id, n))
  {
    if n > 0 {
      CollectedOnce(keys, chosen, id, n - 1);
      CollectedFrom(keys, chosen, id, n - 1);
      var front := Collected(keys, chosen, id, n - 1);
      forall c | c in front ensures c !in keys[n - 1].channels {
        var i :| From(keys, chosen, id, n - 1, c, i);
      }
      Appended(front, keys[n - 1].channels);
    }
  }

  lemma Appended(a: seq<int>, b: seq<int>)
    requires NoRepeats(a) && NoRepeats(b) && forall c :: c in a ==> c !in b
    ensures NoRepeats(a + b)
  {
    forall i, j | 0 <= i < j < |a + b| ensures (a + b)[i] != (a + b)[j] {
      if i < |a| <= j { assert a[i] in a; }
    }
  }

  // Each channel reads one id of the file: no programme is imported for it twice, and none of
  // another id's.
  lemma EachChannelReadsOneId(keys: seq<Keyed>, chosen: seq<Option<string>>, feed: Feed, p: Program, q: Program, w: Period, c: int)
    requires ListedOnce(keys) && |chosen| == |keys| && FeedOf(feed, keys, chosen)
    ensures NoRepeats(Match(p, feed, w))
    ensures c in Match(p, feed, w) && c in Match(q, feed, w) ==> p.xmlId == q.xmlId
  {
    CollectedOnce(keys, chosen, p.xmlId, |keys|);
    CollectedFrom(keys, chosen, p.xmlId, |keys|);
    CollectedFrom(keys, chosen, q.xmlId, |keys|);
    if c in Match(p, feed, w) && c in Match(q, feed, w) {
      var i :| From(keys, chosen, p.xmlId, |keys|, c, i);
      var j :| From(keys, chosen, q.xmlId, |keys|, c, j);
      assert i == j;
    }
  }

  // One pass over what parses: the window counts, the feed map, and the projected total.
  method CountProjected(programs: seq<Program>, keys: seq<Keyed>, norm: string -> string, w: Period)
    returns (projected: nat, feed: Feed, ghost chosen: seq<Option<string>>)
    ensures projected == Pairs(programs, feed, w)
    ensures |chosen| == |keys| && FeedOf(feed, keys, chosen) && ChosenFor(keys, CountsOf(programs, w), norm, chosen)
  {
    var counts: map<string, nat> := map[];
    for n := 0 to |programs|
      invariant counts == CountsOf(programs[..n], w)
    {
      assert programs[..n + 1][..n] == programs[..n];
      if InWindow(programs[n], w) { counts := Bump(counts, programs[n].xmlId); }
    }
    assert programs[..|programs|] == programs;
    feed, chosen := FeedMap(keys, counts, norm);
    projected := SumFeed(programs, feed, counts, w);
  }

  method SumFeed(programs: seq<Program>, feed: Feed, counts: map<string, nat>, w: Period) returns (projected: nat)
    requires feed.Keys <= counts.Keys && Counts(counts, programs, w)
    ensures projected == Pairs(programs, feed, w)
  {
    projected := 0;
    ghost var ids: seq<string> := [];
    var rest := feed.Keys;
    while rest != {}
      invariant rest <= feed.Keys && Distinct(ids)
      invariant forall x :: x in ids <==> x in feed && x !in rest
      invariant projected == Projected(ids, feed, counts)
      decreases |rest|
    {
      var id := Next(rest);
      assert (ids + [id])[..|ids|] == ids;
      projected := projected + counts[id] * |feed[id]|;
      ids, rest := ids + [id], rest - {id};
    }
    ProjectedIsPairs(ids, feed, counts, programs, w);
  }

  ghost predicate Distinct(ids: seq<string>) { forall i, j :: 0 <= i < j < |ids| ==> ids[i] != ids[j] }

  // ---- what is in the window, in instants -----------------------------------------------------

  ghost predicate Within(from: int, t: int, to: int) { from <= t <= to }

  // On air at some moment of the period, both ends counted.
  ghost predicate OnAir(p: Program, w: Period) {
    match p.times
    case None => false
    case Some(times) => exists t :: Within(times.0, t, times.1) && Within(w.start, t, w.end)
  }

  // A programme is imported for a channel exactly when the channel reads its id and it is on air at
  // some moment of the window.
  lemma MatchExactly(p: Program, feed: Feed, w: Period, c: int)
    requires w.start <= w.end && (p.times.Some? ==> p.times.value.0 <= p.times.value.1)
    ensures c in Match(p, feed, w) <==> p.xmlId in feed && c in feed[p.xmlId] && OnAir(p, w)
  {
    if p.times.Some? {
      var t := if p.times.value.0 < w.start then w.start else p.times.value.0;
      assert Within(p.times.value.0, t, p.times.value.1) && Within(w.start, t, w.end) <==> InWindow(p, w);
    }
  }

  function Readers(feed: Feed, w: Period): Program -> nat {
    (p: Program) =>
      if p.xmlId in feed && p.times != None && w.start <= p.times.value.1 && p.times.value.0 <= w.end then |feed[p.xmlId]| else 0
  }

  // The projected count: one for each channel that reads a programme which ends at or after the
  // window's start and starts at or before its end.
  lemma {:induction false} PairsAreReaders(programs: seq<Program>, feed: Feed, w: Period)
    ensures Pairs(programs, feed, w) == SumOver(programs, Readers(feed, w))
  {
    if programs != [] { PairsAreReaders(programs[..|programs| - 1], feed, w); }
  }
}

module EpgWriter {
  import opened Common
  import opened EpgModel

  datatype Row = Row(channel: int, source: int, program: Program)

  // Who wins each channel's guide, decided before any row is written.
  type Winners = map<int, Option<int>>

  function WinnerOf(winners: Winners, channel: int): Option<int> { if channel in winners then winners[channel] else None }

  // The rows one programme is written as, for the channels whose winner is (or is not) this source.
  function RowsFor(p: Program, channels: seq<int>, winners: Winners, source: int, active: bool): seq<Row> {
    if channels == [] then []
    else
      var front, last := RowsFor(p, channels[..|channels| - 1], winners, source, active), channels[|channels| - 1];
      if WinnerOf(winners, last).Some? && (WinnerOf(winners, last).value == source) == active then front + [Row(last, source, p)] else front
  }

  datatype Plan = Plan(feed: Feed, period: Period, winners: Winners, source: int)

  // All rows the programmes are written as, in file order.
  function AllRows(programs: seq<Program>, plan: Plan, active: bool): seq<Row> {
    if programs == [] then []
    else
      var last := programs[|programs| - 1];
      AllRows(programs[..|programs| - 1], plan, active)
      + RowsFor(last, Match(last, plan.feed, plan.period), plan.winners, plan.source, active)
  }

  lemma {:induction false} RowsForMembers(p: Program, channels: seq<int>, winners: Winners, source: int, active: bool)
    ensures forall r :: r in RowsFor(p, channels, winners, source, active) <==>
      r == Row(r.channel, source, p) && r.channel in channels
      && WinnerOf(winners, r.channel).Some? && ((WinnerOf(winners, r.channel).value == source) == active)
  {
    if channels != [] {
      RowsForMembers(p, channels[..|channels| - 1], winners, source, active);
      assert channels == channels[..|channels| - 1] + [channels[|channels| - 1]];
    }
  }

  // A row stands in the table its channel's winner selects, for a programme of the file matched to
  // its channel - and every such row is there.
  lemma {:induction false} RowsWhereWinnersSay(programs: seq<Program>, plan: Plan, active: bool)
    ensures forall r :: r in AllRows(programs, plan, active) <==>
      r.source == plan.source && r.program in programs && r.channel in Match(r.program, plan.feed, plan.period)
      && WinnerOf(plan.winners, r.channel).Some? && ((WinnerOf(plan.winners, r.channel).value == plan.source) == active)
  {
    if programs != [] {
      var last := programs[|programs| - 1];
      RowsWhereWinnersSay(programs[..|programs| - 1], plan, active);
      RowsForMembers(last, Match(last, plan.feed, plan.period), plan.winners, plan.source, active);
      assert programs == programs[..|programs| - 1] + [last];
    }
  }

  // No channel the feed matches is left without a winner.
  ghost predicate AllWon(channels: seq<int>, winners: Winners) { forall i :: 0 <= i < |channels| ==> WinnerOf(winners, channels[i]).Some? }

  lemma {:induction false} RowsForCount(p: Program, channels: seq<int>, winners: Winners, source: int)
    ensures var n := |RowsFor(p, channels, winners, source, true)| + |RowsFor(p, channels, winners, source, false)|;
      n <= |channels| && (n == |channels| <==> AllWon(channels, winners))
  {
    if channels != [] { RowsForCount(p, channels[..|channels| - 1], winners, source); }
  }

  // The rows written in both tables are as many as were projected exactly when every matched
  // channel has a winner, and fewer otherwise.
  lemma {:induction false} WrittenIsProjected(programs: seq<Program>, plan: Plan)
    ensures var n := |AllRows(programs, plan, true)| + |AllRows(programs, plan, false)|;
      && n <= Pairs(programs, plan.feed, plan.period)
      && (n == Pairs(programs, plan.feed, plan.period) <==>
            forall i :: 0 <= i < |programs| ==> AllWon(Match(programs[i], plan.feed, plan.period), plan.winners))
  {
    if programs != [] {
      var last := programs[|programs| - 1];
      WrittenIsProjected(programs[..|programs| - 1], plan);
      RowsForCount(last, Match(last, plan.feed, plan.period), plan.winners, plan.source);
    }
  }

  // How the loop ended: the file read through, broken off by a parse error, or cancelled.
  datatype Ending = Finished | Truncated | Cancelled

  const BatchSize := 2000
  const Checkpoint := 500

  predicate Stale(r: Row, source: int, windowStart: int) {
    r.source == source && r.program.times.Some? && r.program.times.value.1 >= windowStart
  }

  function WithoutStale(rows: seq<Row>, source: int, windowStart: int): (r: seq<Row>)
    ensures forall x :: x in r <==> x in rows && !Stale(x, source, windowStart)
  {
    if rows == [] then []
    else
      var front, last := WithoutStale(rows[..|rows| - 1], source, windowStart), rows[|rows| - 1];
      assert rows == rows[..|rows| - 1] + [last];
      if Stale(last, source, windowStart) then front else front + [last]
  }

  lemma Regroup(a: seq<Row>, b: seq<Row>, c: seq<Row>)
    ensures a + b + c == a + (b + c)
  {
  }

  class Guide {
    // Committed rows, and the batches not yet committed.
    var active: seq<Row>
    var alternates: seq<Row>
    var activeBatch: seq<Row>
    var alternateBatch: seq<Row>
    var synced: nat
    var handled: nat

    constructor ()
      ensures active == [] && alternates == [] && activeBatch == [] && alternateBatch == []
    {
      active, alternates, activeBatch, alternateBatch, synced, handled := [], [], [], [], 0, 0;
    }

    method Flush()
      modifies this`active, this`alternates, this`activeBatch, this`alternateBatch
      ensures active == old(active + activeBatch) && alternates == old(alternates + alternateBatch)
      ensures activeBatch == [] && alternateBatch == []
    {
      if activeBatch != [] || alternateBatch != [] {
        active, alternates := active + activeBatch, alternates + alternateBatch;
        activeBatch, alternateBatch := [], [];
      }
    }

    method Append(p: Program, channels: seq<int>, winners: Winners, source: int)
      modifies this`activeBatch, this`alternateBatch, this`synced, this`handled
      ensures activeBatch == old(activeBatch) + RowsFor(p, channels, winners, source, true)
      ensures alternateBatch == old(alternateBatch) + RowsFor(p, channels, winners, source, false)
      ensures synced == old(synced) + |RowsFor(p, channels, winners, source, true)|
    {
      for i := 0 to |channels|
        invariant activeBatch == old(activeBatch) + RowsFor(p, channels[..i], winners, source, true)
        invariant alternateBatch == old(alternateBatch) + RowsFor(p, channels[..i], winners, source, false)
        invariant synced == old(synced) + |RowsFor(p, channels[..i], winners, source, true)|
      {
        assert channels[..i + 1][..i] == channels[..i];
        var winner := WinnerOf(winners, channels[i]);
        if winner.Some? {
          var row := Row(channels[i], source, p);
          if winner.value == source {
            activeBatch, synced := activeBatch + [row], synced + 1;
          } else {
            alternateBatch := alternateBatch + [row];
          }
          handled := handled + 1;
        }
      }
      assert channels[..|channels|] == channels;
    }

    // What is committed and what is buffered, after `n` programmes.
    ghost predicate Written(wasActive: seq<Row>, wasAlternates: seq<Row>, programs: seq<Program>, n: nat, plan: Plan)
      requires n <= |programs|
      reads this
    {
      && active + activeBatch == wasActive + AllRows(programs[..n], plan, true)
      && alternates + alternateBatch == wasAlternates + AllRows(programs[..n], plan, false)
      && synced == |AllRows(programs[..n], plan, true)|
    }

    method WriteOne(ghost wasActive: seq<Row>, ghost wasAlternates: seq<Row>, programs: seq<Program>, n: nat, plan: Plan)
      requires n < |programs| && Written(wasActive, wasAlternates, programs, n, plan)
      modifies this`activeBatch, this`alternateBatch, this`synced, this`handled
      ensures Written(wasActive, wasAlternates, programs, n + 1, plan)
    {
      assert programs[..n + 1][..n] == programs[..n];
      var channels := Match(programs[n], plan.feed, plan.period);
      ghost var mine, others := RowsFor(programs[n], channels, plan.winners, plan.source, true), RowsFor(programs[n], channels, plan.winners, plan.source, false);
      Append(programs[n], channels, plan.winners, plan.source);
      Regroup(active, old(activeBatch), mine);
      Regroup(alternates, old(alternateBatch), others);
      Regroup(wasActive, AllRows(programs[..n], plan, true), mine);
      Regroup(wasAlternates, AllRows(programs[..n], plan, false), others);
    }

    // The import loop over the programmes that parse. Whichever way it ends, nothing is left
    // buffered: the committed active rows are those of the programmes read, `synced` of them.
    method Import(programs: seq<Program>, broken: bool, plan: Plan, stopped: int -> bool) returns (ending: Ending, n: nat)
      modifies this
      ensures n <= |programs| && (ending != Cancelled ==> n == |programs|) && (ending == Cancelled ==> exists i :: 0 <= i < n && stopped(i))
      ensures broken && ending != Cancelled ==> ending == Truncated
      ensures active == WithoutStale(old(active), plan.source, plan.period.start) + AllRows(programs[..n], plan, true)
      ensures alternates == WithoutStale(old(alternates), plan.source, plan.period.start) + AllRows(programs[..n], plan, false)
      ensures synced == |AllRows(programs[..n], plan, true)| && activeBatch == [] && alternateBatch == []
    {
      // This source's rows in the window go first, from both tables.
      active := WithoutStale(active, plan.source, plan.period.start);
      alternates := WithoutStale(alternates, plan.source, plan.period.start);
      activeBatch, alternateBatch, synced, handled := [], [], 0, 0;
      ghost var wasActive, wasAlternates := active, alternates;
      var lastCheckpoint := 0;
      n := 0;
      while n < |programs|
        invariant n <= |programs| && Written(wasActive, wasAlternates, programs, n, plan)
      {
        if Match(programs[n], plan.feed, plan.period) == [] {
          WriteOne(wasActive, wasAlternates, programs, n, plan);
          n := n + 1;
          continue;
        }
        WriteOne(wasActive, wasAlternates, programs, n, plan);
        n := n + 1;
        if handled - lastCheckpoint >= Checkpoint {
          lastCheckpoint := handled;
          if stopped(n - 1) {
            Flush();
            ending := Cancelled;
            return;
          }
        }
        if |activeBatch| + |alternateBatch| >= BatchSize { Flush(); }
      }
      Flush();
      ending := if broken then Truncated else Finished;
    }
  }

  // ---- what goes and what comes ------------------------------------------------------------------

  // Of the rows there, an import removes this source's that end at or after the window's start, and
  // no other; those that stay keep their order.
  lemma {:induction false} RemovesExactly(rows: seq<Row>, source: int, windowStart: int, x: Row)
    ensures multiset(WithoutStale(rows, source, windowStart))[x]
      == if x.source == source && x.program.times != None && windowStart <= x.program.times.value.1 then 0 else multiset(rows)[x]
  {
    if rows != [] {
      var front, last := rows[..|rows| - 1], rows[|rows| - 1];
      assert rows == front + [last];
      RemovesExactly(front, source, windowStart, x);
    }
  }

  // A row is written exactly for a programme of the file that is on air in the window, on a channel
  // that reads its id: among the active ones when the channel's winner is this source, among the
  // alternates when it is another.
  lemma WritesExactly(programs: seq<Program>, plan: Plan, r: Row)
    requires plan.period.start <= plan.period.end && (r.program.times.Some? ==> r.program.times.value.0 <= r.program.times.value.1)
    ensures var due := r.source == plan.source && r.program in programs && r.program.xmlId in plan.feed
        && r.channel in plan.feed[r.program.xmlId] && OnAir(r.program, plan.period) && r.channel in plan.winners;
      && (r in AllRows(programs, plan, true) <==> due && plan.winners[r.channel] == Some(plan.source))
      && (r in AllRows(programs, plan, false) <==> due && plan.winners[r.channel] != None && plan.winners[r.channel] != Some(plan.source))
  {
    RowsWhereWinnersSay(programs, plan, true);
    RowsWhereWinnersSay(programs, plan, false);
    MatchExactly(r.program, plan.feed, plan.period, r.channel);
  }
}
