// An account's host list (app/account_links.py `normalize_host`, `current_host`, `add_host`,
// `remove_host`, `roll_host`, `_activate`, `rerender_stream_urls`).
module HostList {
  import opened Common
  import opened UrlSplit
  import opened UrlRender
  import UrlAlgebra

  // In list order.
  datatype HostRow = HostRow(host: string, active: bool)

  function Hosts(rows: seq<HostRow>): (hosts: set<string>)
    ensures forall i :: 0 <= i < |rows| ==> rows[i].host in hosts
  {
    set r | r in rows :: r.host
  }

  // ---- the name typed in ----------------------------------------------------------------------

  function StripLeft(s: string): string { if s != "" && UrlAlgebra.Space(s[0]) then StripLeft(s[1..]) else s }

  function StripRight(s: string): string {
    if s != "" && UrlAlgebra.Space(s[|s| - 1]) then StripRight(s[..|s| - 1]) else s
  }

  function Strip(s: string): string { StripRight(StripLeft(s)) }

  function NoScheme(text: string): string { if FindMark(text).Some? then Rest(text) else text }

  function Typed(raw: string): string {
    var text := NoScheme(Strip(raw));
    var name := text[..Cut(text, "/?")];
    Lower(Strip(name[LastAt(name)..]))
  }

  // How much of it stands before the last colon.
  function LastColon(s: string): (n: nat)
    ensures n <= |s|
    ensures n < |s| ==> s[n] == ':' && Free(s[n + 1..], ":")
  {
    if s == "" then 0
    else if s[|s| - 1] == ':' then |s| - 1
    else
      var n := LastColon(s[..|s| - 1]);
      if n == |s| - 1 then |s|
      else
        assert s[n + 1..] == s[..|s| - 1][n + 1..] + [s[|s| - 1]];
        n
  }

  predicate NameChar(c: char) { Letter(c) || Digit(c) || c == '.' || c == '-' || c == '_' || c == '[' || c == ']' }

  predicate IsName(s: string) { forall i :: 0 <= i < |s| ==> NameChar(s[i]) }

  predicate IsPort(s: string) { forall i :: 0 <= i < |s| ==> Digit(s[i]) }

  function Name(text: string): string { if LastColon(text) == 0 then text else text[..LastColon(text)] }

  function Port(text: string): string {
    var n := LastColon(text);
    if n == |text| || n == 0 then "" else text[n + 1..]
  }

  // The stored form, or nothing for what is no host name.
  function NormalizeHost(raw: string): Option<string> {
    var text := Typed(raw);
    if text == "" || !IsPort(Port(text)) || !IsName(Name(text)) then None else Some(text)
  }

  lemma NamePort(text: string, i: nat)
    requires IsPort(Port(text)) && IsName(Name(text)) && i < |text|
    ensures NameChar(text[i]) || text[i] == ':'
  {
    var n := LastColon(text);
    if n == 0 {
      assert NameChar(text[i]);
    } else if i < n {
      assert text[..n][i] == text[i];
    } else if i > n {
      assert text[n + 1..][i - n - 1] == text[i];
      assert Digit(text[i]);
    }
  }

  // What the list stores can be spliced: lower case, one netloc, no userinfo.
  lemma NormalizedIsValid(raw: string)
    requires NormalizeHost(raw).Some?
    ensures ValidHost(NormalizeHost(raw).value)
  {
    var text := Typed(raw);
    forall i | 0 <= i < |text| ensures text[i] !in "/?#@" { NamePort(text, i); }
    TypedIsLower(raw);
  }

  lemma TypedIsLower(raw: string)
    ensures Lower(Typed(raw)) == Typed(raw)
  {
  }

  // ---- the host most URLs are on -----------------------------------------------------------------

  // Each URL's host.
  type Met = seq<Option<string>>

  function HostsOf(urls: seq<string>): (met: Met)
    ensures |met| == |urls| && forall i :: 0 <= i < |met| ==> met[i] == HostOf(urls[i])
  {
    seq(|urls|, i requires 0 <= i < |urls| => HostOf(urls[i]))
  }

  function Count(met: Met, host: string): nat {
    if met == [] then 0
    else Count(met[..|met| - 1], host) + if met[|met| - 1] == Some(host) then 1 else 0
  }

  // Where a host is first met, or the end.
  function FirstAt(met: Met, host: string): (i: nat)
    ensures i <= |met|
  {
    if met == [] then 0
    else
      var front := met[..|met| - 1];
      var i := FirstAt(front, host);
      if i < |front| then i else if met[|met| - 1] == Some(host) then |front| else |met|
  }

  lemma {:induction false} FirstWhenCounted(met: Met, host: string)
    ensures FirstAt(met, host) < |met| <==> Count(met, host) > 0
    ensures FirstAt(met, host) < |met| ==> met[FirstAt(met, host)] == Some(host)
  {
    if met != [] { FirstWhenCounted(met[..|met| - 1], host); }
  }

  lemma CountAppended(met: Met, next: Option<string>)
    ensures forall h :: Count(met + [next], h) == Count(met, h) + if next == Some(h) then 1 else 0
    ensures forall h :: FirstAt(met, h) < |met| ==> FirstAt(met + [next], h) == FirstAt(met, h)
    ensures forall h :: FirstAt(met, h) == |met| && next == Some(h) ==> FirstAt(met + [next], h) == |met|
  {
    assert (met + [next])[..|met|] == met;
  }

  // How often each host was met, and the hosts in the order they were first met.
  ghost predicate Tallied(met: Met, counts: map<string, nat>) {
    forall h :: Count(met, h) == (if h in counts then counts[h] else 0) && (h in counts ==> counts[h] > 0)
  }

  ghost predicate InOrder(met: Met, seen: seq<string>) {
    && (forall i :: 0 <= i < |seen| ==> FirstAt(met, seen[i]) < |met|)
    && forall i, j :: 0 <= i < j < |seen| ==> FirstAt(met, seen[i]) < FirstAt(met, seen[j])
  }

  ghost predicate Counted(met: Met, counts: map<string, nat>, seen: seq<string>) {
    Tallied(met, counts) && InOrder(met, seen) && forall h :: h in seen <==> h in counts
  }

  function CountOne(counts: map<string, nat>, h: string): map<string, nat> {
    counts[h := (if h in counts then counts[h] else 0) + 1]
  }

  lemma TalliedNext(met: Met, counts: map<string, nat>, next: Option<string>)
    requires Tallied(met, counts)
    ensures Tallied(met + [next], if next.Some? then CountOne(counts, next.value) else counts)
  {
    CountAppended(met, next);
  }

  lemma InOrderNext(met: Met, seen: seq<string>, next: Option<string>)
    requires InOrder(met, seen)
    ensures InOrder(met + [next], seen)
    ensures next.Some? && Count(met, next.value) == 0 ==> InOrder(met + [next], seen + [next.value])
  {
    CountAppended(met, next);
    if next.Some? { FirstWhenCounted(met, next.value); }
  }

  lemma CountedNext(met: Met, counts: map<string, nat>, seen: seq<string>, next: Option<string>)
    requires Counted(met, counts, seen)
    ensures Counted(met + [next], if next.Some? then CountOne(counts, next.value) else counts,
                    if next.Some? && next.value !in counts then seen + [next.value] else seen)
  {
    TalliedNext(met, counts, next);
    InOrderNext(met, seen, next);
  }

  lemma HostsNext(urls: seq<string>, n: nat)
    requires n < |urls|
    ensures HostsOf(urls)[..n + 1] == HostsOf(urls)[..n] + [HostOf(urls[n])]
  {
  }

  method CountNext(h: Option<string>, counts: map<string, nat>, seen: seq<string>, ghost met: Met)
    returns (counts': map<string, nat>, seen': seq<string>)
    requires Counted(met, counts, seen)
    ensures Counted(met + [h], counts', seen')
  {
    CountedNext(met, counts, seen, h);
    counts', seen' := counts, seen;
    if h.Some? {
      if h.value !in counts { seen' := seen + [h.value]; }
      counts' := CountOne(counts, h.value);
    }
  }

  method CountHosts(urls: seq<string>) returns (counts: map<string, nat>, seen: seq<string>)
    ensures Counted(HostsOf(urls), counts, seen)
  {
    counts, seen := map[], [];
    for n := 0 to |urls|
      invariant Counted(HostsOf(urls)[..n], counts, seen)
    {
      HostsNext(urls, n);
      counts, seen := CountNext(HostOf(urls[n]), counts, seen, HostsOf(urls)[..n]);
    }
    assert HostsOf(urls)[..|urls|] == HostsOf(urls);
  }

  // The host most URLs are on - of equally many, the one met first; none when no URL has one.
  ghost predicate IsMost(met: Met, host: Option<string>) {
    match host
    case None => forall h :: Count(met, h) == 0
    case Some(best) =>
      && Count(met, best) > 0
      && (forall h :: Count(met, h) <= Count(met, best))
      && forall h :: h != best && Count(met, h) == Count(met, best) ==> FirstAt(met, best) < FirstAt(met, h)
  }

  lemma OneIsMost(met: Met, a: Option<string>, b: Option<string>)
    requires IsMost(met, a) && IsMost(met, b)
    ensures a == b
  {
    if a.Some? && b.Some? {
      assert Count(met, a.value) == Count(met, b.value);
    }
  }

  method MostCounted(ghost met: Met, counts: map<string, nat>, seen: seq<string>) returns (host: Option<string>)
    requires Counted(met, counts, seen)
    ensures IsMost(met, host)
  {
    if seen == [] {
      assert forall h :: h !in seen;
      return None;
    }
    assert forall i :: 0 <= i < |seen| ==> seen[i] in seen;
    var b := 0;
    for n := 1 to |seen|
      invariant 0 <= b < n
      invariant forall i :: 0 <= i < n ==> counts[seen[i]] <= counts[seen[b]] && (i < b ==> counts[seen[i]] < counts[seen[b]])
    {
      if counts[seen[n]] > counts[seen[b]] { b := n; }
    }
    host := Some(seen[b]);
    forall h | h != seen[b] && Count(met, h) == Count(met, seen[b]) ensures FirstAt(met, seen[b]) < FirstAt(met, h) {
      var i :| 0 <= i < |seen| && seen[i] == h;
      assert i > b;
    }
  }

  method CurrentHost(urls: seq<string>) returns (host: Option<string>)
    ensures IsMost(HostsOf(urls), host)
  {
    var counts, seen := CountHosts(urls);
    host := MostCounted(HostsOf(urls), counts, seen);
  }

  // ---- the rows ------------------------------------------------------------------------------

  ghost predicate Distinct(rows: seq<HostRow>) { forall i, j :: 0 <= i < j < |rows| ==> rows[i].host != rows[j].host }

  ghost predicate ActiveAt(rows: seq<HostRow>, a: int) {
    0 <= a < |rows| && rows[a].active && forall i :: 0 <= i < |rows| && i != a ==> !rows[i].active
  }

  ghost predicate OneActive(rows: seq<HostRow>) { rows == [] || exists a :: ActiveAt(rows, a) }

  ghost predicate ValidRows(rows: seq<HostRow>) {
    Distinct(rows) && OneActive(rows) && forall i :: 0 <= i < |rows| ==> ValidHost(rows[i].host)
  }

  function SetActive(rows: seq<HostRow>, host: string): (r: seq<HostRow>)
    ensures |r| == |rows| && forall i :: 0 <= i < |r| ==> r[i].host == rows[i].host && (r[i].active <==> rows[i].host == host)
  {
    seq(|rows|, i requires 0 <= i < |rows| => rows[i].(active := rows[i].host == host))
  }

  // Activating leaves exactly one host active precisely when the host is still listed: one taken
  // off the list after it was chosen leaves a non-empty list with nothing active.
  lemma ActivateExactly(rows: seq<HostRow>, host: string)
    requires ValidRows(rows)
    ensures ValidRows(SetActive(rows, host)) <==> rows == [] || host in Hosts(rows)
  {
    var now := SetActive(rows, host);
    if host in Hosts(rows) {
      var r :| r in rows && r.host == host;
      var a :| 0 <= a < |rows| && rows[a] == r;
      assert ActiveAt(now, a);
    }
    if rows != [] && OneActive(now) {
      var a :| ActiveAt(now, a);
      assert rows[a] in rows;
    }
  }

  lemma SetActiveKeepsHosts(rows: seq<HostRow>, host: string)
    ensures Hosts(SetActive(rows, host)) == Hosts(rows)
  {
    var now := SetActive(rows, host);
    forall h | h in Hosts(rows) ensures h in Hosts(now) {
      var i :| 0 <= i < |rows| && rows[i].host == h;
      assert now[i] in now;
    }
    forall h | h in Hosts(now) ensures h in Hosts(rows) {
      var i :| 0 <= i < |now| && now[i].host == h;
      assert rows[i] in rows;
    }
  }

  // The order a roll tries the hosts in.
  function RollOrder(rows: seq<HostRow>, a: nat): (order: seq<HostRow>)
    requires a < |rows|
    ensures |order| == |rows|
  {
    rows[a + 1..] + rows[..a] + [rows[a]]
  }

  // The hosts after the active one, wrapping around, the active one last.
  lemma RollOrderIsCyclic(rows: seq<HostRow>, a: nat, d: nat)
    requires a < |rows| && d < |rows|
    ensures RollOrder(rows, a)[d] == rows[if a + 1 + d < |rows| then a + 1 + d else a + 1 + d - |rows|]
  {
    var after := rows[a + 1..];
    if d < |after| {
      assert RollOrder(rows, a)[d] == after[d];
    } else if d < |rows| - 1 {
      assert RollOrder(rows, a)[d] == rows[..a][d - |after|];
    }
  }

  // ---- stranded URLs ---------------------------------------------------------------------------

  // On a listed host that is not the active one.
  predicate Stranded(url: string, rows: seq<HostRow>, active: string) {
    HostOf(url).Some? && HostOf(url).value in Hosts(rows) && HostOf(url).value != active
  }

  ghost predicate NoneStranded(urls: seq<string>, rows: seq<HostRow>) {
    forall i, a :: 0 <= i < |urls| && ActiveAt(rows, a) ==> !Stranded(urls[i], rows, rows[a].host)
  }

  function Rendered(urls: seq<string>, hosts: set<string>, active: string): (r: seq<string>)
    ensures |r| == |urls| && forall i :: 0 <= i < |r| ==> r[i] == RenderHost(urls[i], hosts, active)
  {
    seq(|urls|, i requires 0 <= i < |urls| => RenderHost(urls[i], hosts, active))
  }

  // After activation no URL is left on another listed host, wherever it was.
  lemma ActivateStrandsNone(urls: seq<string>, rows: seq<HostRow>, host: string)
    requires ValidHost(host) && host in Hosts(rows)
    ensures NoneStranded(Rendered(urls, Hosts(rows), host), SetActive(rows, host))
  {
    var now := SetActive(rows, host);
    SetActiveKeepsHosts(rows, host);
    forall i, a | 0 <= i < |urls| && ActiveAt(now, a)
      ensures !Stranded(Rendered(urls, Hosts(rows), host)[i], now, now[a].host)
    {
      RenderHostLands(urls[i], Hosts(rows), host);
    }
  }

  // A list's first rows: the host the URLs carry, active, and then the host added.
  ghost predicate Seeded(rows: seq<HostRow>, urls: seq<string>, host: string) {
    exists current :: IsMost(HostsOf(urls), current) && rows == SeededRows(current, host)
  }

  function SeededRows(current: Option<string>, host: string): seq<HostRow> {
    if current.Some? && current.value != host then [HostRow(current.value, true), HostRow(host, false)] else [HostRow(host, true)]
  }

  lemma HostsAppended(rows: seq<HostRow>, row: HostRow)
    ensures Hosts(rows + [row]) == Hosts(rows) + {row.host}
  {
    var now := rows + [row];
    forall h | h in Hosts(rows) + {row.host} ensures h in Hosts(now) {
      if h in Hosts(rows) {
        var r :| r in rows && r.host == h;
        assert r in now;
      } else {
        assert now[|rows|] in now;
      }
    }
  }

  // Adding a host strands the URLs already on it, and only those.
  lemma AddStrandsExactly(urls: seq<string>, rows: seq<HostRow>, host: string)
    requires ValidRows(rows) && rows != [] && host !in Hosts(rows) && NoneStranded(urls, rows)
    ensures NoneStranded(urls, rows + [HostRow(host, false)]) <==> forall i :: 0 <= i < |urls| ==> HostOf(urls[i]) != Some(host)
  {
    var now := rows + [HostRow(host, false)];
    var a :| ActiveAt(rows, a);
    assert ActiveAt(now, a);
    HostsAppended(rows, HostRow(host, false));
    assert rows[a].host in Hosts(rows);
    if forall i :: 0 <= i < |urls| ==> HostOf(urls[i]) != Some(host) {
      forall i, b | 0 <= i < |urls| && ActiveAt(now, b) ensures !Stranded(urls[i], now, now[b].host) {
        assert b == a;
        assert !Stranded(urls[i], rows, rows[a].host);
      }
    } else {
      var i :| 0 <= i < |urls| && HostOf(urls[i]) == Some(host);
      assert Stranded(urls[i], now, now[a].host);
    }
  }

  // So does the first add, which puts the URLs' own host on the list too: the ones on the host
  // added, when that is another.
  lemma SeedStrandsExactly(urls: seq<string>, rows: seq<HostRow>, host: string)
    requires Seeded(rows, urls, host)
    ensures NoneStranded(urls, rows) <==> |rows| == 1 || forall i :: 0 <= i < |urls| ==> HostOf(urls[i]) != Some(host)
  {
    if |rows| == 1 {
      assert forall a :: ActiveAt(rows, a) ==> a == 0;
    } else {
      var h := rows[0].host;
      assert ActiveAt(rows, 0) && rows == [HostRow(h, true)] + [HostRow(host, false)];
      HostsAppended([HostRow(h, true)], HostRow(host, false));
      assert Hosts([HostRow(h, true)]) == {h};
      assert forall a :: ActiveAt(rows, a) ==> a == 0;
      if i :| 0 <= i < |urls| && HostOf(urls[i]) == Some(host) { assert Stranded(urls[i], rows, h); }
    }
  }

  function On(host: string): string { Join(Url("http", host, "/u/p/1", "")) }

  lemma OnItsHost(host: string)
    requires ValidHost(host)
    ensures HostOf(On(host)) == Some(host)
  {
    var u := Url("http", host, "/u/p/1", "");
    assert Valid(u) by { assert u.path[0] == '/' && Free(u.path, "?#"); }
    JoinSplits(u);
    SplitMark(On(host));
    LastAtIs(host, 0);
    assert host[0..] == host;
  }

  lemma OneHost(h: string)
    requires ValidHost(h)
    ensures ValidRows([HostRow(h, true)]) && Hosts([HostRow(h, true)]) == {h}
  {
    assert ActiveAt([HostRow(h, true)], 0);
  }

  lemma Letters()
    ensures ValidHost("a") && ValidHost("b") && "a" != "b"
  {
    assert Lower("a") == "a" && Lower("b") == "b";
  }

  // A host chosen, taken off the list by someone else, and then activated.
  lemma ActivateCanLeaveNone() returns (rows: seq<HostRow>, i: nat)
    ensures i < |rows| && ValidRows(rows) && ValidRows(rows[..i] + rows[i + 1..])
    ensures !ValidRows(SetActive(rows[..i] + rows[i + 1..], rows[i].host))
  {
    Letters();
    OneHost("a");
    AddedRows([HostRow("a", true)], "b");
    rows, i := [HostRow("a", true)] + [HostRow("b", false)], 1;
    assert rows[..1] + rows[2..] == [HostRow("a", true)];
    ActivateExactly([HostRow("a", true)], "b");
  }

  lemma AddStrandsTheNext(h: string, k: string, url: string)
    requires ValidHost(h) && ValidHost(k) && h != k && HostOf(url) == Some(k)
    ensures ValidRows([HostRow(h, true)]) && k !in Hosts([HostRow(h, true)]) && NoneStranded([url], [HostRow(h, true)])
    ensures !NoneStranded([url], [HostRow(h, true)] + [HostRow(k, false)])
  {
    OneHost(h);
    AddStrandsExactly([url], [HostRow(h, true)], k);
    assert HostOf([url][0]) == Some(k);
  }

  // A list of one host, and a URL that is on the next already.
  lemma AddCanStrand() returns (rows: seq<HostRow>, urls: seq<string>, host: string)
    ensures ValidRows(rows) && rows != [] && host !in Hosts(rows) && ValidHost(host)
    ensures NoneStranded(urls, rows) && !NoneStranded(urls, rows + [HostRow(host, false)])
  {
    Letters();
    OnItsHost("b");
    AddStrandsTheNext("a", "b", On("b"));
    rows, urls, host := [HostRow("a", true)], [On("b")], "b";
  }

  lemma MostlyOn(h: string, k: string)
    requires h != k
    ensures IsMost([Some(h)] + [Some(h)] + [Some(k)], Some(h))
  {
    assert [] + [Some(h)] == [Some(h)];
    CountAppended([], Some(h));
    CountAppended([Some(h)], Some(h));
    CountAppended([Some(h)] + [Some(h)], Some(k));
  }

  lemma SeedStrandsTheAdded(h: string, k: string, u: string, v: string)
    requires h != k && HostOf(u) == Some(h) && HostOf(v) == Some(k)
    ensures Seeded(SeededRows(Some(h), k), [u, u, v], k) && !NoneStranded([u, u, v], SeededRows(Some(h), k))
  {
    assert HostsOf([u, u, v]) == [Some(h)] + [Some(h)] + [Some(k)];
    MostlyOn(h, k);
    SeedStrandsExactly([u, u, v], SeededRows(Some(h), k), k);
    assert HostOf([u, u, v][2]) == Some(k);
  }

  // No list yet, two URLs on one host and one on the host that is added.
  lemma SeedCanStrand() returns (rows: seq<HostRow>, urls: seq<string>, host: string)
    ensures Seeded(rows, urls, host) && !NoneStranded(urls, rows)
  {
    Letters();
    OnItsHost("a");
    OnItsHost("b");
    SeedStrandsTheAdded("a", "b", On("a"), On("b"));
    rows, urls, host := SeededRows(Some("a"), "b"), [On("a"), On("a"), On("b")], "b";
  }

  lemma AddedRows(rows: seq<HostRow>, host: string)
    requires ValidRows(rows) && rows != [] && ValidHost(host) && host !in Hosts(rows)
    ensures ValidRows(rows + [HostRow(host, false)])
  {
    var a :| ActiveAt(rows, a);
    assert ActiveAt(rows + [HostRow(host, false)], a);
  }

  lemma RemovedRows(rows: seq<HostRow>, i: nat)
    requires ValidRows(rows) && i < |rows|
    ensures ValidRows(rows[..i] + rows[i + 1..]) <==> !rows[i].active || |rows| == 1
  {
    var now := rows[..i] + rows[i + 1..];
    var a :| ActiveAt(rows, a);
    if a != i {
      assert ActiveAt(now, if a < i then a else a - 1);
    } else if |rows| > 1 {
      forall k | 0 <= k < |now| ensures !now[k].active { }
      assert now != [];
    }
  }

  lemma LowerTwice(s: string)
    ensures Lower(Lower(s)) == Lower(s)
  {
  }

  lemma HostOfValid(url: string)
    requires HostOf(url).Some?
    ensures ValidHost(HostOf(url).value)
  {
    var netloc := NetlocOf(Rest(url));
    var raw := netloc[LastAt(netloc)..];
    LowerTwice(raw);
    forall i | 0 <= i < |raw| ensures LowerChar(raw[i]) !in "/?#@" {
      assert netloc[LastAt(netloc) + i] !in "/?#";
      assert raw[i] !in "/?#@";
    }
  }

  // ---- the account -------------------------------------------------------------------------------

  datatype Refusal = AlreadyListed | NotAHost | NotFound | IsActive

  // The roll tries the hosts in its order and takes the first that resolves.
  ghost predicate RollsTo(rows: seq<HostRow>, a: int, resolves: set<string>, host: string) {
    && ActiveAt(rows, a)
    && exists d :: 0 <= d < |rows| && FirstUp(RollOrder(rows, a), resolves, d) && host == RollOrder(rows, a)[d].host
  }

  ghost predicate FirstUp(order: seq<HostRow>, resolves: set<string>, d: int)
    requires 0 <= d < |order|
  {
    order[d].host in resolves && forall e :: 0 <= e < d ==> order[e].host !in resolves
  }

  ghost predicate NoneUp(rows: seq<HostRow>, resolves: set<string>) { forall r :: r in rows ==> r.host !in resolves }

  ghost predicate RolledOnto(wasRows: seq<HostRow>, wasUrls: seq<string>, wasAccountUrls: seq<string>,
                             rows: seq<HostRow>, urls: seq<string>, accountUrls: seq<string>, host: string)
  {
    && rows == SetActive(wasRows, host) && NoneStranded(urls, rows)
    && urls == Rendered(wasUrls, Hosts(wasRows), host) && accountUrls == Rendered(wasAccountUrls, Hosts(wasRows), host)
  }

  method FirstActive(rows: seq<HostRow>) returns (a: nat)
    requires rows != [] && OneActive(rows)
    ensures ActiveAt(rows, a)
  {
    ghost var at :| ActiveAt(rows, at);
    a := 0;
    while !rows[a].active
      invariant a <= at < |rows|
      decreases at - a
    {
      a := a + 1;
    }
  }

  method FirstResolving(order: seq<HostRow>, resolves: set<string>) returns (d: nat)
    ensures d <= |order| && (d < |order| ==> FirstUp(order, resolves, d))
    ensures d == |order| ==> forall i :: 0 <= i < |order| ==> order[i].host !in resolves
  {
    d := 0;
    while d < |order| && order[d].host !in resolves
      invariant d <= |order| && forall e :: 0 <= e < d ==> order[e].host !in resolves
    {
      d := d + 1;
    }
  }

  lemma SeedsValid(urls: seq<string>, host: string, seed: string)
    requires ValidHost(host) && seed != host && Count(HostsOf(urls), seed) > 0
    ensures ValidRows([HostRow(seed, true), HostRow(host, false)])
  {
    FirstWhenCounted(HostsOf(urls), seed);
    HostOfValid(urls[FirstAt(HostsOf(urls), seed)]);
    assert ActiveAt([HostRow(seed, true), HostRow(host, false)], 0);
  }

  method SeedRows(urls: seq<string>, host: string) returns (rows: seq<HostRow>)
    requires ValidHost(host)
    ensures ValidRows(rows) && Seeded(rows, urls, host)
  {
    var seed := CurrentHost(urls);
    if seed.Some? && seed.value != host {
      SeedsValid(urls, host, seed.value);
      rows := [HostRow(seed.value, true), HostRow(host, false)];
    } else {
      rows := [HostRow(host, true)];
      assert ActiveAt(rows, 0);
    }
    assert rows == SeededRows(seed, host);
  }

  class Account {
    var rows: seq<HostRow>
    var urls: seq<string>
    var accountUrls: seq<string>
    var streamHost: Option<string>

    ghost predicate Valid()
      reads this
    {
      ValidRows(rows)
    }

    constructor (urls: seq<string>, accountUrls: seq<string>, streamHost: Option<string>)
      ensures Valid() && rows == [] && this.urls == urls
    {
      rows, this.urls, this.accountUrls, this.streamHost := [], urls, accountUrls, streamHost;
    }

    method Listed(host: string) returns (found: bool)
      ensures found <==> host in Hosts(rows)
    {
      for i := 0 to |rows|
        invariant forall k :: 0 <= k < i ==> rows[k].host != host
      {
        if rows[i].host == host { return true; }
      }
      return false;
    }

    method AddHost(raw: string) returns (refused: Option<Refusal>)
      requires Valid()
      modifies this`rows
      ensures Valid()
      ensures NormalizeHost(raw).None? ==> refused == Some(NotAHost)
      ensures NormalizeHost(raw).Some? ==>
        refused == if NormalizeHost(raw).value in Hosts(old(rows)) then Some(AlreadyListed) else None
      ensures refused.Some? ==> rows == old(rows)
      ensures refused == None && old(rows) != [] ==> rows == old(rows) + [HostRow(NormalizeHost(raw).value, false)]
      ensures refused == None && old(rows) == [] ==> Seeded(rows, urls, NormalizeHost(raw).value)
    {
      var host := NormalizeHost(raw);
      if host.None? { return Some(NotAHost); }
      NormalizedIsValid(raw);
      var listed := Listed(host.value);
      if listed { return Some(AlreadyListed); }
      refused := None;
      if rows != [] {
        AddedRows(rows, host.value);
        rows := rows + [HostRow(host.value, false)];
        return;
      }
      rows := SeedRows(urls, host.value);
    }

    method RemoveHost(i: nat) returns (refused: Option<Refusal>)
      requires Valid()
      modifies this`rows
      ensures Valid()
      ensures refused == if i >= |old(rows)| then Some(NotFound) else if old(rows)[i].active && |old(rows)| > 1 then Some(IsActive) else None
      ensures rows == if refused.Some? then old(rows) else old(rows)[..i] + old(rows)[i + 1..]
    {
      if i >= |rows| { return Some(NotFound); }
      if rows[i].active && |rows| > 1 { return Some(IsActive); }
      RemovedRows(rows, i);
      rows := rows[..i] + rows[i + 1..];
      return None;
    }

    // Flip the active host and move every URL on a listed host onto it, in one commit. The host was
    // looked up in an earlier one: the list stays well formed exactly when it still has it.
    method Activate(host: string)
      requires Valid() && ValidHost(host)
      modifies this
      ensures Valid() <==> rows == [] || host in Hosts(rows)
      ensures rows == SetActive(old(rows), host) && Hosts(rows) == Hosts(old(rows))
      ensures urls == Rendered(old(urls), Hosts(rows), host) && accountUrls == Rendered(old(accountUrls), Hosts(rows), host)
      ensures host in Hosts(rows) ==> NoneStranded(urls, rows) && NoneStranded(accountUrls, rows)
      ensures streamHost == if old(streamHost).Some? && old(streamHost).value in Hosts(rows) then Some(host) else old(streamHost)
    {
      ActivateExactly(rows, host);
      SetActiveKeepsHosts(rows, host);
      if host in Hosts(rows) {
        ActivateStrandsNone(urls, rows, host);
        ActivateStrandsNone(accountUrls, rows, host);
      }
      var hosts := Hosts(rows);
      rows := SetActive(rows, host);
      urls, accountUrls := Rendered(urls, hosts, host), Rendered(accountUrls, hosts, host);
      if streamHost.Some? && streamHost.value in hosts { streamHost := Some(host); }
    }

    // The first unit of Make active: which host the row names.
    method FindHost(i: nat) returns (host: Option<string>)
      requires Valid()
      ensures host == if i < |rows| then Some(rows[i].host) else None
      ensures host.Some? ==> ValidHost(host.value)
    {
      return if i < |rows| then Some(rows[i].host) else None;
    }

    // Both units of Make active, nothing between them.
    method SetActiveHost(i: nat) returns (refused: Option<Refusal>)
      requires Valid()
      modifies this
      ensures Valid()
      ensures i >= |old(rows)| ==> refused == Some(NotFound) && rows == old(rows) && urls == old(urls)
      ensures i < |old(rows)| ==> refused == None && ActiveAt(rows, i) && NoneStranded(urls, rows)
      ensures i < |old(rows)| ==> urls == Rendered(old(urls), Hosts(old(rows)), old(rows)[i].host)
    {
      var host := FindHost(i);
      if host.None? { return Some(NotFound); }
      Activate(host.value);
      return None;
    }

    // On to the next host that resolves, unless an attempt was made within the cooldown. When only
    // the active one does, URLs stranded on other listed hosts are moved back; it answers nothing
    // when there were none.
    method RollHost(resolves: set<string>, cooling: bool) returns (summary: Option<string>)
      requires Valid()
      modifies this
      ensures Valid()
      ensures |old(rows)| < 2 || cooling || NoneUp(old(rows), resolves) ==>
        summary == None && rows == old(rows) && urls == old(urls) && accountUrls == old(accountUrls) && streamHost == old(streamHost)
      ensures |old(rows)| >= 2 && !cooling && !NoneUp(old(rows), resolves) ==>
        exists a, host :: RollsTo(old(rows), a, resolves, host) && RolledOnto(old(rows), old(urls), old(accountUrls), rows, urls, accountUrls, host)
          && summary == if host == old(rows)[a].host && urls == old(urls) && accountUrls == old(accountUrls) then None else Some(host)
    {
      if |rows| < 2 || cooling { return None; }
      var active, host := ChooseHost(rows, resolves);
      if host.None? { return None; }
      var wasUrls, wasAccountUrls := urls, accountUrls;
      Activate(host.value);
      if host.value == active && urls == wasUrls && accountUrls == wasAccountUrls { return None; }
      return host;
    }
  }

  // The active host, and the one to roll to.
  method ChooseHost(rows: seq<HostRow>, resolves: set<string>) returns (active: string, host: Option<string>)
    requires rows != [] && ValidRows(rows)
    ensures exists a :: 0 <= a < |rows| && active == rows[a].host && ActiveAt(rows, a) && (host.Some? ==> RollsTo(rows, a, resolves, host.value))
    ensures host.None? <==> NoneUp(rows, resolves)
    ensures host.Some? ==> host.value in Hosts(rows) && ValidHost(host.value)
  {
    var a := FirstActive(rows);
    var order := RollOrder(rows, a);
    active, host := rows[a].host, None;
    assert forall r :: r in order <==> r in rows by { assert rows == rows[..a] + [rows[a]] + rows[a + 1..]; }
    var d := FirstResolving(order, resolves);
    if d < |order| {
      assert order[d] in rows;
      host := Some(order[d].host);
    } else {
      forall r | r in rows ensures r.host !in resolves {
        var k :| 0 <= k < |order| && order[k] == r;
      }
    }
  }
}
