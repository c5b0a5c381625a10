// What the URL and host functions answer, spelled out on the text itself.
module UrlLaws {
  import opened Common
  import opened UrlSplit
  import opened StreamUrl
  import opened UrlRender
  import opened UrlAlgebra
  import opened HostList
  import LoginFields

  // ---- text ------------------------------------------------------------------------------------

  ghost predicate Blank(c: char) { c == ' ' || c == '\t' || c == '\n' || c == '\r' || c as int in {11, 12, 28, 29, 30, 31} }
  ghost predicate Blanks(s: string) { forall i :: 0 <= i < |s| ==> Blank(s[i]) }
  ghost predicate Trimmed(s: string) { s != "" ==> !Blank(s[0]) && !Blank(s[|s| - 1]) }

  ghost predicate Capital(c: char) { 'A' <= c <= 'Z' }

  // The same text with its capitals written small.
  ghost predicate Small(s: string, small: string) {
    && |small| == |s|
    && forall i :: 0 <= i < |s| ==> if Capital(s[i]) then small[i] as int - 'a' as int == s[i] as int - 'A' as int else small[i] == s[i]
  }

  ghost predicate NoneOf(s: string, a: char, b: char, c: char) {
    forall i :: 0 <= i < |s| ==> s[i] != a && s[i] != b && s[i] != c
  }

  ghost predicate InPath(s: string) { s != "" && NoneOf(s, '/', '?', '#') }
  ghost predicate Number(s: string) { s != "" && forall i :: 0 <= i < |s| ==> '0' <= s[i] <= '9' }

  ghost predicate SchemeLetter(c: char) { 'a' <= c <= 'z' || 'A' <= c <= 'Z' }

  ghost predicate SchemeName(s: string) {
    && s != "" && SchemeLetter(s[0])
    && forall i :: 0 <= i < |s| ==> SchemeLetter(s[i]) || '0' <= s[i] <= '9' || s[i] == '+' || s[i] == '-' || s[i] == '.'
  }

  lemma SmallIs(s: string)
    ensures forall t :: t == Lower(s) <==> Small(s, t)
  {
  }

  lemma TextIs(s: string)
    ensures NoneOf(s, '/', '?', '#') <==> Free(s, "/?#")
    ensures Number(s) <==> Digits(s)
    ensures SchemeName(s) <==> SchemeText(s)
  {
    if NoneOf(s, '/', '?', '#') {
      assert Free(s, "/?#");
    } else {
      var i :| 0 <= i < |s| && !(s[i] != '/' && s[i] != '?' && s[i] != '#');
      assert "/?#"[0] == '/' && "/?#"[1] == '?' && "/?#"[2] == '#';
      assert s[i] in "/?#";
    }
    if SchemeName(s) { assert forall i :: 0 <= i < |s| ==> SchemeChar(s[i]); }
    if SchemeText(s) { assert forall i :: 0 <= i < |s| ==> SchemeChar(s[i]); }
  }

  // ---- the three spellings -----------------------------------------------------------------------

  // One stream of an account, as a provider names it.
  datatype Stream = Stream(scheme: string, netloc: string, user: string, password: string, id: string)

  ghost predicate Nameable(s: Stream) {
    SchemeName(s.scheme) && InPath(s.netloc) && InPath(s.user) && InPath(s.password) && Number(s.id)
  }

  // With or without "live/", the extension and what follows the path.
  ghost predicate SpelledWith(url: string, s: Stream, live: string, ext: string, tail: string) {
    && url == s.scheme + "://" + s.netloc + "/" + live + s.user + "/" + s.password + "/" + s.id + ext + tail
    && (live == "" || live == "live/")
    && (ext == "" || ext == ".ts" || ext == ".m3u8")
    && (tail == "" || tail[0] == '?' || tail[0] == '#')
  }

  lemma ExtensionRead(id: string, ext: string)
    requires Digits(id) && (ext == "" || ext == ".ts" || ext == ".m3u8")
    ensures StreamId(id + ext) == Some(id)
  {
    var last := id + ext;
    assert last[..|id|] == id && last[|id|..] == ext;
    if ext == "" {
      assert last == id;
    } else {
      assert last[|id|] == '.' && !Digits(last);
      if ext == ".m3u8" { assert last[|last| - 3..][0] == ext[2] == '3'; }
    }
  }

  ghost function FrontOf(s: Stream, live: string): string {
    s.scheme + "://" + s.netloc + "/" + live + s.user + "/" + s.password + "/"
  }

  lemma PathSpelled(s: Stream, m: Match, tail: string)
    requires m.user == s.user && m.password == s.password
    ensures Join(Url(s.scheme, s.netloc, PathOf(m), tail)) == FrontOf(s, if m.live then "live/" else "") + m.last + tail
  {
    var live, front := if m.live then "live/" else "", s.scheme + "://" + s.netloc;
    assert PathOf(m) == "/" + (live + (m.user + ("/" + (m.password + ("/" + m.last)))));
    assert front + PathOf(m) == front + "/" + live + m.user + "/" + m.password + "/" + m.last;
  }

  lemma PathValid(s: Stream, m: Match, tail: string)
    requires ValidMatch(m) && m.user == s.user && m.password == s.password && m.sid == s.id
    requires tail == "" || tail[0] == '?' || tail[0] == '#'
    ensures Nameable(s) <==> Valid(Url(s.scheme, s.netloc, PathOf(m), tail))
  {
    TextIs(s.scheme);
    TextIs(s.netloc);
    PathTextIs(s, m);
    assert "?#"[0] == '?' && "?#"[1] == '#';
  }

  lemma PathTextIs(s: Stream, m: Match)
    requires ValidMatch(m) && m.user == s.user && m.password == s.password && m.sid == s.id
    ensures InPath(s.user) && InPath(s.password) <==> Free(PathOf(m), "?#")
    ensures Number(s.id)
  {
    TextIs(s.user);
    TextIs(s.password);
    TextIs(s.id);
    StreamIdFree(m.last);
    PathFree(m);
    SegmentIs(s.user);
    SegmentIs(s.password);
  }

  lemma SegmentIs(s: string)
    requires Free(s, "/")
    ensures Free(s, "/?#") <==> Free(s, "?#")
  {
    assert forall c: char :: c in "/?#" <==> c in "/" || c in "?#";
  }

  lemma JoinedReads(u: Url, m: Match)
    requires Valid(u) && ValidMatch(m) && u.path == PathOf(m)
    ensures Parse(Join(u)) == Some(Parts(Lower(u.scheme) + "://" + u.netloc, m.user, m.password, m.sid))
  {
    JoinSplits(u);
    MatchPathOf(m);
  }

  lemma SpelledReads(url: string, s: Stream, live: string, ext: string, tail: string)
    requires Nameable(s) && SpelledWith(url, s, live, ext, tail)
    ensures Parse(url) == Some(Parts(Lower(s.scheme) + "://" + s.netloc, s.user, s.password, s.id))
  {
    var m := Match(live != "", s.user, s.password, s.id + ext, s.id);
    TextIs(s.id);
    ExtensionRead(s.id, ext);
    InPathFree(s.user);
    InPathFree(s.password);
    PathSpelled(s, m, tail);
    PathValid(s, m, tail);
    Regroup(FrontOf(s, live), s.id, ext);
    JoinedReads(Url(s.scheme, s.netloc, PathOf(m), tail), m);
  }

  lemma InPathFree(s: string)
    requires InPath(s)
    ensures Free(s, "/")
  {
  }

  lemma ReadIsSpelled(url: string) returns (s: Stream, live: string, ext: string, tail: string)
    requires Parse(url).Some?
    ensures Nameable(s) && SpelledWith(url, s, live, ext, tail)
  {
    ParsedIsValid(url);
    SplitJoins(url);
    var u := Split(url).value;
    var m := MatchPath(u.path).value;
    PathOfMatch(u.path);
    s, live, tail := Stream(u.scheme, u.netloc, m.user, m.password, m.sid), if m.live then "live/" else "", u.tail;
    PathSpelled(s, m, tail);
    TailStarts(tail);
    PathValid(s, m, tail);
    ext := ExtensionIs(m.last, m.sid);
    Regroup(FrontOf(s, live), s.id, ext);
  }

  lemma TailStarts(tail: string)
    requires tail != "" ==> tail[0] in "?#"
    ensures tail == "" || tail[0] == '?' || tail[0] == '#'
  {
  }

  lemma ExtensionIs(last: string, id: string) returns (ext: string)
    requires StreamId(last) == Some(id)
    ensures last == id + ext && (ext == "" || ext == ".ts" || ext == ".m3u8")
  {
    ext := if last == id then "" else if last == id + ".ts" then ".ts" else ".m3u8";
  }

  // A URL is read exactly when it is some stream in one of its spellings - as that stream, with the
  // scheme in small letters.
  lemma ReadExactly(url: string)
    ensures Parse(url).Some? <==> exists s, live, ext, tail :: Nameable(s) && SpelledWith(url, s, live, ext, tail)
    ensures forall s, live, ext, tail :: Nameable(s) && SpelledWith(url, s, live, ext, tail) ==>
      && Parse(url).Some? && Small(s.scheme, Lower(s.scheme))
      && Parse(url).value == Parts(Lower(s.scheme) + "://" + s.netloc, s.user, s.password, s.id)
  {
    forall s, live, ext, tail | Nameable(s) && SpelledWith(url, s, live, ext, tail)
      ensures Parse(url) == Some(Parts(Lower(s.scheme) + "://" + s.netloc, s.user, s.password, s.id)) && Small(s.scheme, Lower(s.scheme))
    {
      SpelledReads(url, s, live, ext, tail);
      SmallIs(s.scheme);
    }
    if Parse(url).Some? {
      var s, live, ext, tail := ReadIsSpelled(url);
    }
  }

  lemma StoredAs(url: string, s: Stream, live: string, ext: string, tail: string, small: string, mode: Mode)
    requires Nameable(s) && SpelledWith(url, s, live, ext, tail) && Small(s.scheme, small) && !mode.Disabled?
    ensures Normalize(url, mode) == Build(Parts(small + "://" + s.netloc, s.user, s.password, s.id), mode)
  {
    SpelledReads(url, s, live, ext, tail);
    SmallIs(s.scheme);
  }

  // What each mode stores for a stream, however the provider spelled it, and that every other URL
  // is stored as it came.
  lemma NormalizedAs(url: string, s: Stream, live: string, ext: string, tail: string, small: string)
    requires Nameable(s) && SpelledWith(url, s, live, ext, tail) && Small(s.scheme, small)
    ensures Normalize(url, Mpegts) == small + "://" + s.netloc + "/" + s.user + "/" + s.password + "/" + s.id
    ensures Normalize(url, MpegtsLive) == small + "://" + s.netloc + "/live/" + s.user + "/" + s.password + "/" + s.id + ".ts"
    ensures Normalize(url, Hls) == small + "://" + s.netloc + "/live/" + s.user + "/" + s.password + "/" + s.id + ".m3u8"
    ensures Normalize(url, Disabled) == url
  {
    StoredAs(url, s, live, ext, tail, small, Mpegts);
    StoredAs(url, s, live, ext, tail, small, MpegtsLive);
    StoredAs(url, s, live, ext, tail, small, Hls);
  }

  lemma UnreadStands(url: string, mode: Mode)
    requires forall s, live, ext, tail :: Nameable(s) ==> !SpelledWith(url, s, live, ext, tail)
    ensures Normalize(url, mode) == url
  {
    ReadExactly(url);
  }

  // ---- the host of a URL --------------------------------------------------------------------------

  // Text before the mark, userinfo with its '@', host, and what follows.
  datatype Address = Address(scheme: string, user: string, host: string, rest: string)

  ghost function Written(a: Address): string { a.scheme + "://" + (a.user + a.host + a.rest) }

  ghost predicate Addressed(a: Address) {
    && (forall i :: 0 <= i < |a.scheme| ==> a.scheme[i] != ':')
    && NoneOf(a.user, '/', '?', '#') && (a.user == "" || a.user[|a.user| - 1] == '@')
    && NoneOf(a.host, '/', '?', '#') && NoneOf(a.host, '@', '@', '@')
    && (a.rest == "" || a.rest[0] == '/' || a.rest[0] == '?' || a.rest[0] == '#')
  }

  lemma {:induction false} MarkIs(before: string, rest: string)
    requires forall i :: 0 <= i < |before| ==> before[i] != ':'
    ensures FindMark(before + "://" + rest) == Some(|before|)
  {
    var s := before + "://" + rest;
    if before == "" {
      assert s[..3] == "://";
    } else {
      assert s[..3][0] == before[0];
      assert s[1..] == before[1..] + "://" + rest;
      MarkIs(before[1..], rest);
    }
  }

  lemma NetlocEnds(netloc: string, rest: string)
    requires NoneOf(netloc, '/', '?', '#') && (rest == "" || rest[0] == '/' || rest[0] == '?' || rest[0] == '#')
    ensures NetlocOf(netloc + rest) == netloc && (netloc + rest)[|netloc|..] == rest
  {
    TextIs(netloc);
    var s := netloc + rest;
    assert s[..|netloc|] == netloc && s[|netloc|..] == rest;
    if rest != "" {
      assert "/?#"[0] == '/' && "/?#"[1] == '?' && "/?#"[2] == '#';
      assert s[|netloc|] == rest[0];
    }
    CutIs(s, "/?#", |netloc|);
  }

  lemma UserEnds(user: string, host: string)
    requires NoneOf(host, '@', '@', '@') && (user == "" || user[|user| - 1] == '@')
    ensures LastAt(user + host) == |user|
  {
    assert (user + host)[|user|..] == host;
    LastAtIs(user + host, |user|);
  }

  lemma AddressParts(a: Address)
    requires Addressed(a)
    ensures var url := Written(a);
      && FindMark(url) == Some(|a.scheme|) && Before(url) == a.scheme && NetlocOf(Rest(url)) == a.user + a.host
      && After(url) == a.rest && LastAt(a.user + a.host) == |a.user|
  {
    MarkParts(a.scheme, a.user + a.host + a.rest);
    NoneOfBoth(a.user, a.host);
    NetlocEnds(a.user + a.host, a.rest);
    UserEnds(a.user, a.host);
  }

  lemma MarkParts(before: string, rest: string)
    requires forall i :: 0 <= i < |before| ==> before[i] != ':'
    ensures var url := before + "://" + rest; FindMark(url) == Some(|before|) && Before(url) == before && Rest(url) == rest
  {
    MarkIs(before, rest);
  }

  lemma NoneOfBoth(a: string, b: string)
    requires NoneOf(a, '/', '?', '#') && NoneOf(b, '/', '?', '#')
    ensures NoneOf(a + b, '/', '?', '#')
  {
  }

  // The host is what stands between the userinfo and the path, in small letters.
  lemma HostIs(a: Address, small: string)
    requires Addressed(a) && Small(a.host, small)
    ensures HostOf(Written(a)) == if small == "" then None else Some(small)
  {
    AddressParts(a);
    SmallIs(a.host);
    assert (a.user + a.host)[|a.user|..] == a.host;
  }

  // Rendering puts the active host in the place of another listed one, and touches nothing else.
  lemma RenderedAs(a: Address, small: string, hosts: set<string>, active: string)
    requires Addressed(a) && Small(a.host, small) && active != ""
    ensures RenderHost(Written(a), hosts, active)
      == Written(if small != "" && small in hosts && small != active then a.(host := active) else a)
  {
    AddressParts(a);
    SmallIs(a.host);
    var netloc := a.user + a.host;
    assert netloc[|a.user|..] == a.host;
    assert netloc[..|netloc| - |a.host|] == a.user;
    RenderHostParts(Written(a), hosts, active);
  }

  // ---- the host typed in -------------------------------------------------------------------------

  lemma {:induction false} LeftStripped(lead: string, s: string)
    requires Blanks(lead) && (s != "" ==> !Blank(s[0]))
    ensures StripLeft(lead + s) == s
  {
    if lead == "" {
      assert lead + s == s;
    } else {
      assert Blank(lead[0]) && (lead + s)[1..] == lead[1..] + s;
      LeftStripped(lead[1..], s);
    }
  }

  lemma {:induction false} RightStripped(s: string, trail: string)
    requires Blanks(trail) && (s != "" ==> !Blank(s[|s| - 1]))
    ensures StripRight(s + trail) == s
  {
    if trail == "" {
      assert s + trail == s;
    } else {
      var n := |s + trail| - 1;
      assert Blank(trail[|trail| - 1]) && (s + trail)[..n] == s + trail[..|trail| - 1];
      RightStripped(s, trail[..|trail| - 1]);
    }
  }

  // Stripping takes the blanks around the text and nothing of the text.
  lemma StripIs(lead: string, s: string, trail: string)
    requires Blanks(lead) && Trimmed(s) && Blanks(trail)
    ensures Strip(lead + s + trail) == s
  {
    if s == "" {
      assert lead + s + trail == (lead + trail) + "";
      LeftStripped(lead + trail, "");
    } else {
      assert lead + s + trail == lead + (s + trail);
      LeftStripped(lead, s + trail);
      RightStripped(s, trail);
    }
  }

  ghost predicate NameLetter(c: char) {
    'a' <= c <= 'z' || 'A' <= c <= 'Z' || '0' <= c <= '9' || c == '.' || c == '-' || c == '_' || c == '[' || c == ']'
  }

  // A name up to n, and then nothing or a colon and digits.
  ghost predicate NamedTo(host: string, n: nat) {
    && 0 < n <= |host|
    && (forall i :: 0 <= i < n ==> NameLetter(host[i]))
    && (n < |host| ==> host[n] == ':' && forall i :: n < i < |host| ==> '0' <= host[i] <= '9')
  }

  lemma {:induction false} LastColonIs(s: string, n: nat)
    requires n <= |s| && (n < |s| ==> s[n] == ':') && forall i :: n < i < |s| ==> s[i] != ':'
    requires n == |s| ==> forall i :: 0 <= i < |s| ==> s[i] != ':'
    ensures LastColon(s) == n
  {
    if s != "" && s[|s| - 1] != ':' {
      LastColonIs(s[..|s| - 1], if n == |s| then n - 1 else n);
    }
  }

  lemma NamedIsTaken(text: string, n: nat)
    requires NamedTo(text, n)
    ensures text != "" && IsPort(Port(text)) && IsName(Name(text))
  {
    LastColonIs(text, n);
    assert Name(text) == text[..n];
  }

  lemma TakenIsNamed(text: string) returns (n: nat)
    requires text != "" && IsPort(Port(text)) && IsName(Name(text))
    ensures NamedTo(text, n)
  {
    n := if LastColon(text) == 0 then |text| else LastColon(text);
    assert Name(text) == text[..n];
    forall i | 0 <= i < n ensures NameLetter(text[i]) {
      assert NameChar(text[..n][i]);
    }
    if n < |text| {
      forall i | n < i < |text| ensures '0' <= text[i] <= '9' {
        assert Digit(Port(text)[i - n - 1]);
      }
    }
  }

  lemma NamedSmall(host: string, small: string, n: nat)
    requires Small(host, small)
    ensures NamedTo(host, n) <==> NamedTo(small, n)
  {
    if n <= |host| {
      forall i | 0 <= i < |host| ensures NameLetter(host[i]) <==> NameLetter(small[i]) {}
      if n < |host| { assert host[n] == ':' <==> small[n] == ':'; }
    }
  }

  // What stands around the host in what was typed: `user` with its '@', `rest` from the path on.
  ghost predicate Surrounded(user: string, host: string, rest: string) {
    && NoneOf(user, '/', '?', '?') && (user == "" || user[|user| - 1] == '@')
    && NoneOf(host, '/', '?', '@') && Trimmed(host)
    && (rest == "" || rest[0] == '/' || rest[0] == '?')
  }

  lemma CutAround(user: string, host: string, rest: string)
    requires Surrounded(user, host, rest)
    ensures var text := user + host + rest;
      Cut(text, "/?") == |user + host| && text[..|user + host|] == user + host && LastAt(user + host) == |user|
  {
    var name := user + host;
    assert "/?"[0] == '/' && "/?"[1] == '?';
    assert (name + rest)[..|name|] == name;
    assert Free(user, "/?") && Free(host, "/?");
    FreeConcat(user, host, "/?");
    if rest != "" { assert (name + rest)[|name|] == rest[0]; }
    CutIs(name + rest, "/?", |name|);
    assert name[|user|..] == host;
    LastAtIs(name, |user|);
  }

  lemma TypedIs(raw: string, user: string, host: string, rest: string)
    requires Surrounded(user, host, rest) && NoScheme(Strip(raw)) == user + host + rest
    ensures Typed(raw) == Lower(host)
  {
    CutAround(user, host, rest);
    assert (user + host)[|user|..] == host;
    StripIs("", host, "");
    assert "" + host + "" == host;
  }

  lemma TakenExactly(raw: string, host: string, small: string)
    requires Typed(raw) == Lower(host) && Small(host, small)
    ensures NormalizeHost(raw) == if exists n :: NamedTo(host, n) then Some(small) else None
  {
    SmallIs(host);
    forall n ensures NamedTo(host, n) <==> NamedTo(small, n) { NamedSmall(host, small, n); }
    if n :| NamedTo(small, n) { NamedIsTaken(small, n); }
    if NormalizeHost(raw).Some? {
      var n := TakenIsNamed(small);
    }
  }

  // A pasted URL is taken for its host with its port, in small letters - if that is a name, with
  // nothing, or a colon and digits, behind it; anything else is refused.
  lemma PastedIsTaken(lead: string, scheme: string, user: string, host: string, rest: string, trail: string, small: string)
    requires Blanks(lead) && Blanks(trail) && Trimmed(scheme + "://" + (user + host + rest))
    requires (forall i :: 0 <= i < |scheme| ==> scheme[i] != ':') && Surrounded(user, host, rest) && Small(host, small)
    ensures NormalizeHost(lead + (scheme + "://" + (user + host + rest)) + trail) == if exists n :: NamedTo(host, n) then Some(small) else None
  {
    var text := scheme + "://" + (user + host + rest);
    StripIs(lead, text, trail);
    MarkIs(scheme, user + host + rest);
    assert Rest(text) == user + host + rest;
    TypedIs(lead + text + trail, user, host, rest);
    TakenExactly(lead + text + trail, host, small);
  }

  ghost predicate MarkAt(text: string, i: nat) { i + 3 <= |text| && text[i..i + 3] == "://" }

  lemma NoMark(text: string)
    requires forall i :: !MarkAt(text, i)
    ensures FindMark(text).None?
  {
    assert FindMark(text).None? || MarkAt(text, FindMark(text).value);
  }

  // So is a host typed without a scheme.
  lemma TypedIsTaken(lead: string, user: string, host: string, rest: string, trail: string, small: string)
    requires Blanks(lead) && Blanks(trail) && Trimmed(user + host + rest)
    requires forall i :: !MarkAt(user + host + rest, i)
    requires Surrounded(user, host, rest) && Small(host, small)
    ensures NormalizeHost(lead + (user + host + rest) + trail) == if exists n :: NamedTo(host, n) then Some(small) else None
  {
    var text := user + host + rest;
    StripIs(lead, text, trail);
    NoMark(text);
    TypedIs(lead + text + trail, user, host, rest);
    TakenExactly(lead + text + trail, host, small);
  }

  // ---- the login typed in --------------------------------------------------------------------------

  // What a path segment can carry unescaped.
  ghost predicate Carried(s: string) {
    forall i :: 0 <= i < |s| ==> !Blank(s[i]) && s[i] != '/' && s[i] != '?' && s[i] != '#' && s[i] != '%' && s[i] != '@'
  }

  lemma BadIs(s: string)
    ensures LoginFields.FirstBad(s).None? <==> Carried(s)
    ensures LoginFields.FirstBad(s).Some? ==> LoginFields.FirstBad(s).value in s
  {
    assert Unrenderable[0] == '/' && Unrenderable[1] == '?' && Unrenderable[2] == '#' && Unrenderable[3] == '%' && Unrenderable[4] == '@';
    forall c: char ensures LoginFields.BadChar(c) <==> Blank(c) || c == '/' || c == '?' || c == '#' || c == '%' || c == '@' {}
    FirstBadIn(s);
  }

  lemma FirstBadIn(s: string)
    ensures LoginFields.FirstBad(s).Some? ==> LoginFields.FirstBad(s).value in s
  {
  }

  // Fields are accepted exactly when there are a name, a username and - for a new login - a
  // password, no character of the two cannot stand in a path, and there is a seat; and they are
  // kept as typed, without the blanks around them.
  lemma FieldsExactly(name: string, username: string, password: string, seats: Option<int>, required: bool, around: seq<string>)
    requires |around| == 6 && forall i :: 0 <= i < 6 ==> Blanks(around[i])
    requires Trimmed(name) && Trimmed(username) && Trimmed(password)
    ensures LoginFields.Check(around[0] + name + around[1], around[2] + username + around[3], Some(around[4] + password + around[5]), seats, required)
      == if name == "" then LoginFields.NoName
         else if username == "" then LoginFields.NoUsername
         else if required && password == "" then LoginFields.NoPassword
         else if !Carried(username) then LoginFields.Unrendered(LoginFields.FirstBad(username).value)
         else if !Carried(password) then LoginFields.Unrendered(LoginFields.FirstBad(password).value)
         else if seats == None || seats.value <= 0 then LoginFields.BadSeats
         else LoginFields.Accepted(name, username, Some(password), seats.value)
  {
    StripIs(around[0], name, around[1]);
    StripIs(around[2], username, around[3]);
    StripIs(around[4], password, around[5]);
    BadIs(username);
    BadIs(password);
  }

  // An edit that leaves the password alone: only the name, the username and the seats are asked.
  lemma PasswordLeft(name: string, username: string, seats: Option<int>, around: seq<string>)
    requires |around| == 4 && forall i :: 0 <= i < 4 ==> Blanks(around[i])
    requires Trimmed(name) && Trimmed(username)
    ensures var checked := LoginFields.Check(around[0] + name + around[1], around[2] + username + around[3], None, seats, false);
      && (checked.Accepted? <==> name != "" && username != "" && Carried(username) && seats != None && seats.value > 0)
      && (checked.Accepted? ==> checked == LoginFields.Accepted(name, username, None, seats.value))
  {
    StripIs(around[0], name, around[1]);
    StripIs(around[2], username, around[3]);
    BadIs(username);
  }

  // ---- the host most URLs are on -------------------------------------------------------------------

  lemma {:induction false} CountIs(met: Met, host: string)
    ensures Count(met, host) == multiset(met)[Some(host)]
  {
    if met != [] {
      assert met == met[..|met| - 1] + [met[|met| - 1]];
      CountIs(met[..|met| - 1], host);
    }
  }

  lemma {:induction false} FirstIs(met: Met, host: string)
    ensures forall i :: 0 <= i < FirstAt(met, host) ==> met[i] != Some(host)
    ensures FirstAt(met, host) < |met| ==> met[FirstAt(met, host)] == Some(host)
  {
    if met != [] { FirstIs(met[..|met| - 1], host); }
  }
}
