// Splicing an account's active host and login into its URLs (app/account_links.py `host_of`,
// `render_host`, `render_login`).
module UrlRender {
  import opened Common
  import opened UrlSplit
  import opened StreamUrl

  // Where "://" first stands.
  function FindMark(s: string): (k: Option<nat>)
    ensures k.Some? ==> k.value + 3 <= |s| && s[k.value..k.value + 3] == "://"
  {
    if |s| < 3 then None
    else if s[..3] == "://" then Some(0)
    else
      match FindMark(s[1..])
      case None => None
      case Some(k) =>
        assert s[k + 1..k + 4] == s[1..][k..k + 3];
        Some(k + 1)
  }

  function LastAt(netloc: string): (n: nat)
    ensures n <= |netloc| && Free(netloc[n..], "@") && (n > 0 ==> netloc[n - 1] == '@')
  {
    if netloc == "" then 0
    else if netloc[|netloc| - 1] == '@' then |netloc|
    else
      var n := LastAt(netloc[..|netloc| - 1]);
      assert netloc[n..] == netloc[..|netloc| - 1][n..] + [netloc[|netloc| - 1]];
      n
  }

  // The name[:port] of a netloc, lower-cased, without userinfo; empty when there is none.
  function HostIn(netloc: string): string { Lower(netloc[LastAt(netloc)..]) }

  function NetlocOf(rest: string): string { rest[..Cut(rest, "/?#")] }

  function HostOf(url: string): Option<string> {
    match FindMark(url)
    case None => None
    case Some(k) =>
      var host := HostIn(NetlocOf(url[k + 3..]));
      if host == "" then None else Some(host)
  }

  function Before(url: string): string
    requires FindMark(url).Some?
  {
    url[..FindMark(url).value]
  }

  function Rest(url: string): string
    requires FindMark(url).Some?
  {
    url[FindMark(url).value + 3..]
  }

  function After(url: string): string
    requires FindMark(url).Some?
  {
    Rest(url)[|NetlocOf(Rest(url))|..]
  }

  // Is the URL on a listed host other than the active one?
  predicate Moves(netloc: string, hosts: set<string>, active: string) {
    HostIn(netloc) != "" && HostIn(netloc) != active && HostIn(netloc) in hosts
  }

  // The netloc with its host, its last part, replaced.
  function WithHost(netloc: string, active: string): string { netloc[..|netloc| - |HostIn(netloc)|] + active }

  function RenderHost(url: string, hosts: set<string>, active: string): string {
    if url == "" || hosts == {} || active == "" || FindMark(url).None? then url
    else if !Moves(NetlocOf(Rest(url)), hosts, active) then url
    else Before(url) + "://" + WithHost(NetlocOf(Rest(url)), active) + After(url)
  }

  // A host as the list stores it.
  predicate ValidHost(h: string) { h != "" && Free(h, "/?#@") && Lower(h) == h }

  // ---- the netloc alone ------------------------------------------------------------------------

  function RenderNet(netloc: string, hosts: set<string>, active: string): string {
    if Moves(netloc, hosts, active) then WithHost(netloc, active) else netloc
  }

  lemma {:induction false} LastAtIs(netloc: string, n: nat)
    requires n <= |netloc| && Free(netloc[n..], "@") && (n > 0 ==> netloc[n - 1] == '@')
    ensures LastAt(netloc) == n
  {
    if n < |netloc| {
      assert netloc[n..][|netloc| - 1 - n] == netloc[|netloc| - 1];
      assert netloc[..|netloc| - 1][n..] == netloc[n..][..|netloc| - 1 - n];
      LastAtIs(netloc[..|netloc| - 1], n);
    }
  }

  lemma RenderedHost(netloc: string, n: nat, active: string)
    requires n <= |netloc| && n == LastAt(netloc) && ValidHost(active)
    ensures LastAt(netloc[..n] + active) == n && HostIn(netloc[..n] + active) == active
  {
    var now := netloc[..n] + active;
    assert now[n..] == active;
    LastAtIs(now, n);
  }

  // After rendering, a netloc is on the active host or on one outside the list.
  lemma RenderNetLands(netloc: string, hosts: set<string>, active: string)
    requires ValidHost(active)
    ensures HostIn(RenderNet(netloc, hosts, active)) == (if HostIn(netloc) != "" && HostIn(netloc) in hosts then active else HostIn(netloc))
  {
    RenderedHost(netloc, LastAt(netloc), active);
  }

  // Written other than as the list stores it, though on that host.
  predicate OddlySpelled(netloc: string, host: string) { HostIn(netloc) == host && netloc[LastAt(netloc)..] != host }

  lemma HostStands(netloc: string, b: string)
    ensures WithHost(netloc, b) == netloc <==> netloc[LastAt(netloc)..] == b
  {
    var n := LastAt(netloc);
    TakeDrop(netloc, n);
    assert WithHost(netloc, b)[n..] == b;
  }

  lemma HostReplaced(netloc: string, a: string, b: string)
    requires ValidHost(a)
    ensures HostIn(WithHost(netloc, a)) == a && WithHost(WithHost(netloc, a), b) == WithHost(netloc, b)
  {
    var n := LastAt(netloc);
    RenderedHost(netloc, n, a);
    assert (netloc[..n] + a)[..n] == netloc[..n];
  }

  lemma RenderNetTwice(netloc: string, hosts: set<string>, a: string, b: string)
    requires ValidHost(a) && ValidHost(b) && a in hosts && b in hosts
    ensures RenderNet(RenderNet(netloc, hosts, a), hosts, b) == RenderNet(netloc, hosts, b) <==> a == b || !OddlySpelled(netloc, b)
  {
    HostReplaced(netloc, a, b);
    HostStands(netloc, b);
    RehostedTwice(netloc, WithHost(netloc, a), WithHost(netloc, b), hosts, a, b, HostIn(netloc));
  }

  // What remains once both replacements are named: which of them each rendering makes.
  lemma RehostedTwice(netloc: string, withA: string, withB: string, hosts: set<string>, a: string, b: string, host: string)
    requires a in hosts && b in hosts && a != "" && b != "" && host == HostIn(netloc) && HostIn(withA) == a
    requires withA == WithHost(netloc, a) && withB == WithHost(netloc, b) && WithHost(withA, b) == withB
    requires withB == netloc <==> netloc[LastAt(netloc)..] == b
    ensures RenderNet(RenderNet(netloc, hosts, a), hosts, b) == RenderNet(netloc, hosts, b) <==> a == b || !OddlySpelled(netloc, b)
  {
    if Moves(netloc, hosts, a) {
      assert RenderNet(netloc, hosts, a) == withA;
      assert RenderNet(withA, hosts, b) == if a == b then withA else withB;
    } else {
      assert RenderNet(netloc, hosts, a) == netloc;
    }
  }

  // ---- the whole URL ---------------------------------------------------------------------------

  lemma {:induction false} MarkStands(url: string, later: string)
    requires FindMark(url).Some?
    requires FindMark(url).value + 3 <= |later| && later[..FindMark(url).value + 3] == url[..FindMark(url).value + 3]
    ensures FindMark(later) == FindMark(url)
  {
    var k := FindMark(url).value;
    assert later[..3] == later[..k + 3][..3] && url[..3] == url[..k + 3][..3];
    if url[..3] != "://" {
      assert later[1..][..k + 2] == later[..k + 3][1..] && url[1..][..k + 2] == url[..k + 3][1..];
      MarkStands(url[1..], later[1..]);
    }
  }

  lemma MarkSplits(url: string)
    requires FindMark(url).Some?
    ensures url == Before(url) + "://" + Rest(url)
  {
    var k := FindMark(url).value;
    TakeDrop(url, k + 3);
    TakeDrop(url[..k + 3], k);
    assert url[..k + 3][k..] == url[k..k + 3];
  }

  // Rendering rewrites the netloc and keeps every other byte.
  lemma RenderHostParts(url: string, hosts: set<string>, active: string)
    requires FindMark(url).Some? && active != ""
    ensures RenderHost(url, hosts, active) == Before(url) + "://" + (RenderNet(NetlocOf(Rest(url)), hosts, active) + After(url))
  {
    var netloc := NetlocOf(Rest(url));
    if Moves(netloc, hosts, active) {
      Regroup(Before(url) + "://", WithHost(netloc, active), After(url));
    } else {
      MarkSplits(url);
      TakeDrop(Rest(url), |netloc|);
    }
  }

  lemma Regroup(a: string, b: string, c: string)
    ensures a + b + c == a + (b + c)
  {
  }

  lemma Respliced(url: string, netloc: string)
    requires FindMark(url).Some? && Free(netloc, "/?#")
    ensures var later := Before(url) + "://" + (netloc + After(url));
      FindMark(later) == FindMark(url) && Before(later) == Before(url) && NetlocOf(Rest(later)) == netloc && After(later) == After(url)
  {
    var k := FindMark(url).value;
    var later := Before(url) + "://" + (netloc + After(url));
    assert later[..k + 3] == url[..k + 3];
    MarkStands(url, later);
    assert Rest(later) == netloc + After(url);
    AfterStarts(url);
    assert (netloc + After(url))[..|netloc|] == netloc;
    CutIs(netloc + After(url), "/?#", |netloc|);
  }

  lemma AfterStarts(url: string)
    requires FindMark(url).Some?
    ensures After(url) != "" ==> After(url)[0] in "/?#"
  {
  }

  lemma RenderNetFree(netloc: string, hosts: set<string>, active: string)
    requires ValidHost(active) && Free(netloc, "/?#")
    ensures Free(RenderNet(netloc, hosts, active), "/?#")
  {
  }

  lemma RenderedParts(url: string, hosts: set<string>, active: string)
    requires FindMark(url).Some? && ValidHost(active)
    ensures var later := RenderHost(url, hosts, active);
      && FindMark(later) == FindMark(url) && Before(later) == Before(url) && After(later) == After(url)
      && NetlocOf(Rest(later)) == RenderNet(NetlocOf(Rest(url)), hosts, active)
  {
    var netloc := NetlocOf(Rest(url));
    RenderHostParts(url, hosts, active);
    RenderNetFree(netloc, hosts, active);
    Respliced(url, RenderNet(netloc, hosts, active));
  }

  // A rendered URL is on the active host, or on one outside the list.
  lemma RenderHostLands(url: string, hosts: set<string>, active: string)
    requires ValidHost(active)
    ensures HostOf(RenderHost(url, hosts, active)) == match HostOf(url) case Some(h) => Some(if h in hosts then active else h) case None => None
  {
    if FindMark(url).Some? {
      RenderedParts(url, hosts, active);
      RenderNetLands(NetlocOf(Rest(url)), hosts, active);
    }
  }

  predicate OddUrl(url: string, host: string) {
    FindMark(url).Some? && OddlySpelled(NetlocOf(Rest(url)), host)
  }

  lemma SameRest(before: string, after: string, x: string, y: string)
    ensures before + "://" + (x + after) == before + "://" + (y + after) <==> x == y
  {
    if before + "://" + (x + after) == before + "://" + (y + after) {
      var n := |before| + 3;
      assert (before + "://" + (x + after))[n..] == x + after;
      assert (before + "://" + (y + after))[n..] == y + after;
      assert |x| == |y|;
      assert (x + after)[..|x|] == x && (y + after)[..|y|] == y;
    }
  }

  // Rendering to one listed host and then another is rendering to the other, except when the URL
  // was already on it in another spelling: rendering leaves that spelling alone, a detour does not.
  lemma RenderHostAbsorbs(url: string, hosts: set<string>, a: string, b: string)
    requires ValidHost(a) && ValidHost(b) && a in hosts && b in hosts
    ensures RenderHost(RenderHost(url, hosts, a), hosts, b) == RenderHost(url, hosts, b) <==> a == b || !OddUrl(url, b)
  {
    if FindMark(url).Some? {
      var netloc, later := NetlocOf(Rest(url)), RenderHost(url, hosts, a);
      RenderedParts(url, hosts, a);
      RenderHostParts(later, hosts, b);
      RenderHostParts(url, hosts, b);
      SameRest(Before(url), After(url), RenderNet(RenderNet(netloc, hosts, a), hosts, b), RenderNet(netloc, hosts, b));
      RenderNetTwice(netloc, hosts, a, b);
    }
  }

  // ---- with the three spellings ------------------------------------------------------------------

  lemma {:induction false} MarkAtColon(url: string, c: nat)
    requires c == Cut(url, ":") && c + 3 <= |url| && url[c..c + 3] == "://"
    ensures FindMark(url) == Some(c)
  {
    if c > 0 {
      assert url[..c][0] == url[0];
      assert url[..3][0] == url[0];
      assert url[1..][c - 1..c + 2] == url[c..c + 3];
      MarkAtColon(url[1..], c - 1);
    } else {
      assert url[..3] == url[0..3];
    }
  }

  lemma SplitMark(url: string)
    requires Split(url).Some?
    ensures var u := Split(url).value;
      FindMark(url) == Some(|u.scheme|) && Before(url) == u.scheme && NetlocOf(Rest(url)) == u.netloc && After(url) == u.path + u.tail
  {
    MarkAtColon(url, Cut(url, ":"));
    TakeDrop(After(url), Cut(After(url), "?#"));
  }

  lemma RenderHostSplit(url: string, hosts: set<string>, active: string)
    requires Split(url).Some? && ValidHost(active)
    ensures var u := Split(url).value;
      Split(RenderHost(url, hosts, active)) == Some(u.(netloc := RenderNet(u.netloc, hosts, active)))
  {
    var u := Split(url).value;
    var v := u.(netloc := RenderNet(u.netloc, hosts, active));
    SplitJoins(url);
    SplitMark(url);
    RenderHostParts(url, hosts, active);
    RenderNetFree(u.netloc, hosts, active);
    JoinRest(v);
    JoinSplits(v);
  }

  lemma SplitExactly(url: string)
    ensures Split(url).Some? <==> FindMark(url).Some? && SchemeText(Before(url)) && NetlocOf(Rest(url)) != ""
  {
    if Split(url).Some? {
      SplitMark(url);
      SplitJoins(url);
    } else if FindMark(url).Some? && SchemeText(Before(url)) {
      SchemeHasNoColon(Before(url));
      var k := FindMark(url).value;
      assert url[k] == url[k..k + 3][0];
      CutIs(url, ":", k);
    }
  }

  // What urlsplit cannot split, rendering does not make splittable.
  lemma RenderHostUnsplit(url: string, hosts: set<string>, active: string)
    requires Split(url).None? && ValidHost(active)
    ensures Split(RenderHost(url, hosts, active)).None?
  {
    SplitExactly(url);
    SplitExactly(RenderHost(url, hosts, active));
    if FindMark(url).Some? { RenderedParts(url, hosts, active); }
  }
}
