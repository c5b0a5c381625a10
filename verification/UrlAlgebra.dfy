// How the three rewrites of a stream URL combine: the spelling, the host, the login.
module UrlAlgebra {
  import opened Common
  import opened UrlSplit
  import opened StreamUrl
  import opened UrlRender

  lemma NormalizeSplit(url: string, mode: Mode)
    requires Parse(url).Some? && !mode.Disabled?
    ensures var u := Split(url).value;
      Split(Normalize(url, mode)) == Some(Url(Lower(u.scheme), u.netloc, PathOf(Spelled(Parse(url).value, mode)), ""))
  {
    var u := Split(url).value;
    SplitJoins(url);
    ParsedIsValid(url);
    LowerScheme(u.scheme);
    BuildJoins(Parse(url).value, mode, Lower(u.scheme), u.netloc);
    JoinSplits(Url(Lower(u.scheme), u.netloc, PathOf(Spelled(Parse(url).value, mode)), ""));
  }

  lemma RendersTheSame(url: string, mode: Mode, hosts: set<string>, active: string)
    requires ValidHost(active) && Parse(url).Some? && !mode.Disabled?
    requires var u := Split(url).value; Split(RenderHost(url, hosts, active)) == Some(u.(netloc := RenderNet(u.netloc, hosts, active)))
    ensures Normalize(RenderHost(url, hosts, active), mode) == RenderHost(Normalize(url, mode), hosts, active)
  {
    var rendered, normal := RenderHost(url, hosts, active), Normalize(url, mode);
    NormalizeSplit(url, mode);
    NormalizeSplit(rendered, mode);
    RenderHostSplit(normal, hosts, active);
    SplitJoins(Normalize(rendered, mode));
    SplitJoins(RenderHost(normal, hosts, active));
  }

  lemma UnparsedStays(url: string, mode: Mode, hosts: set<string>, active: string)
    requires ValidHost(active) && Parse(url).None?
    ensures Normalize(RenderHost(url, hosts, active), mode) == RenderHost(url, hosts, active)
  {
    if Split(url).None? { RenderHostUnsplit(url, hosts, active); } else { RenderHostSplit(url, hosts, active); }
  }

  // Spelling and host can be rewritten in either order.
  lemma NormalizeCommutesWithHost(url: string, mode: Mode, hosts: set<string>, active: string)
    requires ValidHost(active)
    ensures Normalize(RenderHost(url, hosts, active), mode) == RenderHost(Normalize(url, mode), hosts, active)
  {
    if Parse(url).None? {
      UnparsedStays(url, mode, hosts, active);
    } else if !mode.Disabled? {
      RenderHostSplit(url, hosts, active);
      RendersTheSame(url, mode, hosts, active);
    }
  }

  lemma SameNetloc(a: string, b: string, host: string)
    requires Split(a).Some? && Split(b).Some? && Split(a).value.netloc == Split(b).value.netloc
    ensures HostOf(a) == HostOf(b) && (OddUrl(a, host) <==> OddUrl(b, host))
  {
    SplitMark(a);
    SplitMark(b);
  }

  lemma NormalizeKeepsHost(url: string, mode: Mode, host: string)
    ensures HostOf(Normalize(url, mode)) == HostOf(url)
    ensures OddUrl(Normalize(url, mode), host) <==> OddUrl(url, host)
  {
    if Parse(url).Some? && !mode.Disabled? {
      NormalizeSplit(url, mode);
      SameNetloc(url, Normalize(url, mode), host);
    }
  }

  // What a sync stores for a provider's URL.
  function Stored(raw: string, mode: Mode, hosts: set<string>, active: string): string {
    RenderHost(Normalize(raw, mode), hosts, active)
  }

  // Moving a stored URL to another listed host gives what a sync on that host would store -
  // exactly unless the provider spells that very host in another case.
  lemma RollEqualsFreshSync(raw: string, mode: Mode, hosts: set<string>, was: string, now: string)
    requires ValidHost(was) && ValidHost(now) && was in hosts && now in hosts
    ensures RenderHost(Stored(raw, mode, hosts, was), hosts, now) == Stored(raw, mode, hosts, now)
      <==> was == now || !OddUrl(raw, now)
  {
    RenderHostAbsorbs(Normalize(raw, mode), hosts, was, now);
    NormalizeKeepsHost(raw, mode, now);
  }

  const Capitals := Url("http", "B", "/u/p/1", "")

  lemma CapitalsAreOdd()
    ensures OddUrl(Join(Capitals), "b")
  {
    JoinSplits(Capitals);
    SplitMark(Join(Capitals));
    OddNetloc();
  }

  lemma OddNetloc()
    ensures OddlySpelled("B", "b")
  {
    LastAtIs("B", 0);
    assert "B"[0..] == "B" && Lower("B") == "b";
  }

  lemma Lowered()
    ensures ValidHost("a") && ValidHost("b")
  {
    assert Lower("a") == "a" && Lower("b") == "b";
  }

  // Such a URL exists: a provider that writes a listed host in capitals.
  lemma OddUrlsPart(hosts: set<string>)
    requires hosts == {"a", "b"}
    ensures exists raw :: RenderHost(Stored(raw, Mpegts, hosts, "a"), hosts, "b") != Stored(raw, Mpegts, hosts, "b")
  {
    CapitalsAreOdd();
    Lowered();
    RollEqualsFreshSync(Join(Capitals), Mpegts, hosts, "a", "b");
  }

  // ---- logins ----------------------------------------------------------------------------------

  datatype Login = Login(username: string, password: string)

  function PairOf(url: string): Option<Login> {
    match Parse(url) case None => None case Some(p) => Some(Login(p.user, p.password))
  }

  function RenderLogin(url: string, logins: seq<Login>, login: Login): string {
    if url == "" || logins == [] || PairOf(url).None? then url
    else if PairOf(url).value == login || PairOf(url).value !in logins then url
    else
      MatchedUrl(url);
      SpliceLogin(Split(url).value, MatchPath(Split(url).value.path).value, login)
  }

  function SpliceLogin(u: Url, m: Match, login: Login): string
    requires u.path == PathOf(m)
  {
    Splice(Join(u), |u.scheme| + 3 + |u.netloc|, |u.path|, LoginPath(u.path, m, login))
  }

  function Splice(url: string, at: nat, length: nat, path: string): string
    requires at + length <= |url|
  {
    url[..at] + path + url[at + length..]
  }

  function LoginPath(path: string, m: Match, l: Login): string
    requires path == PathOf(m)
  {
    var userAt := if m.live then 6 else 1;
    path[..userAt] + l.username + "/" + l.password + path[userAt + |m.user| + 1 + |m.password|..]
  }

  // The characters the login dialog lets through.
  const Unrenderable := "/?#%@"
  predicate Space(c: char) { c == ' ' || 9 as char <= c <= 13 as char || 28 as char <= c <= 31 as char }
  predicate Renderable(s: string) { s != "" && Free(s, Unrenderable) && forall i :: 0 <= i < |s| ==> !Space(s[i]) }
  predicate ValidLogin(l: Login) { Renderable(l.username) && Renderable(l.password) }

  predicate OnList(url: string, logins: seq<Login>) {
    PairOf(url).Some? && PairOf(url).value in logins
  }

  function WithLogin(m: Match, l: Login): Match { m.(user := l.username, password := l.password) }

  lemma RenderableFree(s: string)
    requires Renderable(s)
    ensures Free(s, "/?#") && Free(s, "/") && Free(s, "?#")
  {
    forall i | 0 <= i < |s| ensures s[i] !in "/?#" {
      assert s[i] !in Unrenderable;
      assert '/' == Unrenderable[0] && '?' == Unrenderable[1] && '#' == Unrenderable[2];
    }
  }

  lemma WithLoginValid(m: Match, l: Login)
    requires ValidMatch(m) && ValidLogin(l) && Free(PathOf(m), "?#")
    ensures ValidMatch(WithLogin(m, l)) && Free(PathOf(WithLogin(m, l)), "?#")
  {
    RenderableFree(l.username);
    RenderableFree(l.password);
    PathFree(m);
    PathFree(WithLogin(m, l));
  }

  lemma SplicedPath(m: Match, l: Login)
    ensures LoginPath(PathOf(m), m, l) == PathOf(WithLogin(m, l))
  {
    var head := if m.live then "/live/" else "/";
    var path := PathOf(m);
    assert path == head + (m.user + "/" + m.password + "/" + m.last);
    assert path[..|head|] == head;
    assert path == (head + m.user + "/" + m.password) + ("/" + m.last);
    assert path[|head| + |m.user| + 1 + |m.password|..] == "/" + m.last;
  }

  lemma SplicedUrl(u: Url, path: string)
    ensures var head := |u.scheme| + 3 + |u.netloc|;
      |Join(u)| >= head + |u.path| && Splice(Join(u), head, |u.path|, path) == Join(u.(path := path))
  {
    var head := u.scheme + "://" + u.netloc;
    assert Join(u)[..|head|] == head;
    assert Join(u)[|head| + |u.path|..] == u.tail;
  }

  lemma MatchedUrl(url: string)
    requires Parse(url).Some?
    ensures var u := Split(url).value;
      Join(u) == url && PathOf(MatchPath(u.path).value) == u.path && |u.scheme| + 3 + |u.netloc| + |u.path| <= |url|
  {
    PathOfMatch(Split(url).value.path);
    SplitJoins(url);
  }

  lemma SplicedLogin(u: Url, m: Match, l: Login)
    requires u.path == PathOf(m)
    ensures SpliceLogin(u, m, l) == Join(u.(path := PathOf(WithLogin(m, l))))
  {
    SplicedPath(m, l);
    SplicedUrl(u, LoginPath(u.path, m, l));
  }

  lemma RenderedLogin(url: string, logins: seq<Login>, l: Login)
    requires OnList(url, logins)
    ensures var u := Split(url).value;
      RenderLogin(url, logins, l) == Join(u.(path := PathOf(WithLogin(MatchPath(u.path).value, l))))
  {
    var u := Split(url).value;
    var m := MatchPath(u.path).value;
    MatchedUrl(url);
    SplicedLogin(u, m, l);
    if PairOf(url).value == l { assert WithLogin(m, l) == m; }
  }

  // Rendering a login moves the two path segments and nothing else.
  lemma RenderLoginSplit(url: string, logins: seq<Login>, l: Login)
    requires Split(url).Some? && MatchPath(Split(url).value.path).Some? && ValidLogin(l)
    ensures var u := Split(url).value; var m := MatchPath(u.path).value;
      Split(RenderLogin(url, logins, l)) == Some(if OnList(url, logins) then u.(path := PathOf(WithLogin(m, l))) else u)
  {
    if OnList(url, logins) {
      var u := Split(url).value;
      var m := MatchPath(u.path).value;
      PathOfMatch(u.path);
      SplitJoins(url);
      WithLoginValid(m, l);
      RenderedLogin(url, logins, l);
      JoinSplits(u.(path := PathOf(WithLogin(m, l))));
    }
  }

  // The URL rendered for a login that passed the dialog carries it, with the stream id and
  // everything else as they were; a pair the list does not know is left alone.
  lemma LoginReadBack(url: string, logins: seq<Login>, l: Login)
    requires ValidLogin(l)
    ensures Parse(RenderLogin(url, logins, l))
      == if OnList(url, logins) then Some(Parse(url).value.(user := l.username, password := l.password)) else Parse(url)
    ensures !OnList(url, logins) ==> RenderLogin(url, logins, l) == url
  {
    if OnList(url, logins) {
      var u := Split(url).value;
      var m := MatchPath(u.path).value;
      RenderLoginSplit(url, logins, l);
      PathOfMatch(u.path);
      SplitJoins(url);
      WithLoginValid(m, l);
      MatchPathOf(WithLogin(m, l));
    }
  }

  // The last login rendered is the one carried.
  lemma RenderLoginAbsorbs(url: string, logins: seq<Login>, a: Login, b: Login)
    requires ValidLogin(a) && ValidLogin(b) && a in logins && b in logins
    ensures RenderLogin(RenderLogin(url, logins, a), logins, b) == RenderLogin(url, logins, b)
  {
    var via := RenderLogin(url, logins, a);
    LoginReadBack(url, logins, a);
    if OnList(url, logins) {
      var u := Split(url).value;
      var m := MatchPath(u.path).value;
      PathOfMatch(u.path);
      SplitJoins(url);
      WithLoginValid(m, a);
      MatchPathOf(WithLogin(m, a));
      RenderLoginSplit(url, logins, a);
      RenderLoginSplit(via, logins, b);
      RenderLoginSplit(url, logins, b);
      SplitJoins(RenderLogin(via, logins, b));
      SplitJoins(RenderLogin(url, logins, b));
    }
  }

  lemma SplitSame(a: string, b: string)
    requires Split(a) == Split(b) && Split(a).Some?
    ensures a == b
  {
    SplitJoins(a);
    SplitJoins(b);
  }

  lemma HostThenLogin(url: string, logins: seq<Login>, l: Login, hosts: set<string>, active: string)
    requires ValidLogin(l) && ValidHost(active) && OnList(url, logins)
    ensures var u := Split(url).value;
      var v := u.(netloc := RenderNet(u.netloc, hosts, active), path := PathOf(WithLogin(MatchPath(u.path).value, l)));
      Split(RenderLogin(RenderHost(url, hosts, active), logins, l)) == Some(v)
  {
    var rendered := RenderHost(url, hosts, active);
    RenderHostSplit(url, hosts, active);
    RenderHostKeepsPair(url, hosts, active);
    assert OnList(rendered, logins);
    RenderLoginSplit(rendered, logins, l);
  }

  lemma LoginThenHost(url: string, logins: seq<Login>, l: Login, hosts: set<string>, active: string)
    requires ValidLogin(l) && ValidHost(active) && OnList(url, logins)
    ensures var u := Split(url).value;
      var v := u.(netloc := RenderNet(u.netloc, hosts, active), path := PathOf(WithLogin(MatchPath(u.path).value, l)));
      Split(RenderHost(RenderLogin(url, logins, l), hosts, active)) == Some(v)
  {
    RenderLoginSplit(url, logins, l);
    RenderHostSplit(RenderLogin(url, logins, l), hosts, active);
  }

  lemma RenderHostKeepsPair(url: string, hosts: set<string>, active: string)
    requires ValidHost(active)
    ensures PairOf(RenderHost(url, hosts, active)) == PairOf(url)
  {
    if Split(url).None? { RenderHostUnsplit(url, hosts, active); } else { RenderHostSplit(url, hosts, active); }
  }

  // Host and login can be rendered in either order.
  lemma LoginCommutesWithHost(url: string, logins: seq<Login>, l: Login, hosts: set<string>, active: string)
    requires ValidLogin(l) && ValidHost(active)
    ensures RenderLogin(RenderHost(url, hosts, active), logins, l) == RenderHost(RenderLogin(url, logins, l), hosts, active)
  {
    RenderHostKeepsPair(url, hosts, active);
    if OnList(url, logins) {
      HostThenLogin(url, logins, l, hosts, active);
      LoginThenHost(url, logins, l, hosts, active);
      SplitSame(RenderLogin(RenderHost(url, hosts, active), logins, l), RenderHost(RenderLogin(url, logins, l), hosts, active));
    }
  }
}
