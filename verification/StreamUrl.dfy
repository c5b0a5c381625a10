// Stream URLs in their three spellings (app/accounts.py `parse_stream_url_parts`,
// `build_stream_url`, `normalize_url_with_mode`).
module StreamUrl {
  import opened Common
  import opened UrlSplit

  datatype Mode = Disabled | Mpegts | MpegtsLive | Hls
  datatype Parts = Parts(origin: string, user: string, password: string, sid: string)

  // What the path pattern matches: the optional "live/" and the three segments.
  datatype Match = Match(live: bool, user: string, password: string, last: string, sid: string)

  predicate Digits(s: string) { s != "" && forall i :: 0 <= i < |s| ==> Digit(s[i]) }

  function WithoutExt(last: string, ext: string): Option<string> {
    var n := |last| - |ext|;
    if n > 0 && last[n..] == ext && Digits(last[..n]) then Some(last[..n]) else None
  }

  // The numeric id of a last segment, bare or with one of the two extensions.
  function StreamId(last: string): Option<string> {
    if Digits(last) then Some(last)
    else if WithoutExt(last, ".ts").Some? then WithoutExt(last, ".ts")
    else WithoutExt(last, ".m3u8")
  }

  function MatchThree(live: bool, segs: seq<string>): Option<Match>
    requires |segs| == 3
  {
    if segs[0] != "" && segs[1] != "" && StreamId(segs[2]).Some?
    then Some(Match(live, segs[0], segs[1], segs[2], StreamId(segs[2]).value)) else None
  }

  function MatchPath(path: string): Option<Match> {
    if path == "" || path[0] != '/' then None
    else
      var segs := Segments(path[1..]);
      if |segs| == 4 && segs[0] == "live" then MatchThree(true, segs[1..])
      else if |segs| == 3 then MatchThree(false, segs)
      else None
  }

  function PathOf(m: Match): string {
    (if m.live then "/live/" else "/") + m.user + "/" + m.password + "/" + m.last
  }

  predicate Segment(s: string) { s != "" && Free(s, "/?#") }

  ghost predicate ValidMatch(m: Match) {
    && m.user != "" && Free(m.user, "/") && m.password != "" && Free(m.password, "/")
    && StreamId(m.last) == Some(m.sid)
  }

  function Parse(url: string): Option<Parts> {
    match Split(url)
    case None => None
    case Some(u) =>
      match MatchPath(u.path)
      case None => None
      case Some(m) => Some(Parts(Lower(u.scheme) + "://" + u.netloc, m.user, m.password, m.sid))
  }

  function Build(p: Parts, mode: Mode): string
    requires !mode.Disabled?
  {
    match mode
    case Mpegts => p.origin + "/" + p.user + "/" + p.password + "/" + p.sid
    case MpegtsLive => p.origin + "/live/" + p.user + "/" + p.password + "/" + p.sid + ".ts"
    case Hls => p.origin + "/live/" + p.user + "/" + p.password + "/" + p.sid + ".m3u8"
  }

  function Normalize(url: string, mode: Mode): string {
    if mode.Disabled? then url
    else match Parse(url) case None => url case Some(p) => Build(p, mode)
  }

  // ---- paths ----------------------------------------------------------------------------------

  lemma StreamIdFree(last: string)
    requires StreamId(last).Some?
    ensures Digits(StreamId(last).value) && Free(last, "/?#") && last != ""
  {
    var id := StreamId(last).value;
    assert last == id || last == id + ".ts" || last == id + ".m3u8";
  }

  function SegmentsOf(m: Match): seq<string> {
    if m.live then ["live", m.user, m.password, m.last] else [m.user, m.password, m.last]
  }

  lemma JoinTwo(a: string, segs: seq<string>)
    requires segs != []
    ensures JoinSegments([a] + segs) == a + "/" + JoinSegments(segs)
  {
    assert ([a] + segs)[1..] == segs;
  }

  lemma PathSegments(m: Match)
    ensures PathOf(m) == "/" + JoinSegments(SegmentsOf(m))
  {
    JoinTwo(m.password, [m.last]);
    JoinTwo(m.user, [m.password] + [m.last]);
    JoinTwo("live", [m.user] + ([m.password] + [m.last]));
    assert [m.user] + ([m.password] + [m.last]) == [m.user, m.password, m.last];
    assert ["live"] + [m.user, m.password, m.last] == ["live", m.user, m.password, m.last];
    assert m.user + "/" + (m.password + "/" + m.last) == m.user + "/" + m.password + "/" + m.last;
  }

  // A user called "live" is read back too: only four segments can carry the prefix.
  lemma MatchPathOf(m: Match)
    requires ValidMatch(m)
    ensures MatchPath(PathOf(m)) == Some(m)
  {
    StreamIdFree(m.last);
    PathSegments(m);
    var segs := SegmentsOf(m);
    assert Free("live", "/");
    JoinSegmentsSplits(segs);
    MatchSegments(m, PathOf(m));
  }

  lemma MatchSegments(m: Match, path: string)
    requires ValidMatch(m) && path != "" && path[0] == '/' && Segments(path[1..]) == SegmentsOf(m)
    ensures MatchPath(path) == Some(m)
  {
    assert m.live ==> SegmentsOf(m)[1..] == [m.user, m.password, m.last];
  }

  lemma PathOfMatch(path: string)
    requires MatchPath(path).Some?
    ensures PathOf(MatchPath(path).value) == path && ValidMatch(MatchPath(path).value)
  {
    var m := MatchPath(path).value;
    var segs := Segments(path[1..]);
    SegmentsJoin(path[1..]);
    PathSegments(m);
    assert segs == SegmentsOf(m);
    assert path == "/" + path[1..];
  }

  lemma FreeConcat(a: string, b: string, stops: string)
    ensures Free(a + b, stops) <==> Free(a, stops) && Free(b, stops)
  {
    if Free(a + b, stops) {
      forall i | 0 <= i < |a| ensures a[i] !in stops { assert (a + b)[i] == a[i]; }
      forall i | 0 <= i < |b| ensures b[i] !in stops { assert (a + b)[|a| + i] == b[i]; }
    }
  }

  lemma PathFree(m: Match)
    ensures Free(PathOf(m), "?#") <==> Free(m.user, "?#") && Free(m.password, "?#") && Free(m.last, "?#")
  {
    var head := if m.live then "/live/" else "/";
    FreeConcat(head, m.user, "?#");
    FreeConcat(head + m.user, "/", "?#");
    FreeConcat(head + m.user + "/", m.password, "?#");
    FreeConcat(head + m.user + "/" + m.password, "/", "?#");
    FreeConcat(head + m.user + "/" + m.password + "/", m.last, "?#");
  }

  // ---- round trips ----------------------------------------------------------------------------

  ghost predicate Origin(o: string, scheme: string, netloc: string) {
    && o == scheme + "://" + netloc
    && SchemeText(scheme) && Lower(scheme) == scheme
    && netloc != "" && Free(netloc, "/?#")
  }

  ghost predicate ValidParts(p: Parts) {
    && (exists scheme, netloc :: Origin(p.origin, scheme, netloc))
    && Segment(p.user) && Segment(p.password) && Digits(p.sid)
  }

  function Spelled(p: Parts, mode: Mode): Match
    requires !mode.Disabled?
  {
    Match(!mode.Mpegts?, p.user, p.password,
          match mode case Mpegts => p.sid case MpegtsLive => p.sid + ".ts" case _ => p.sid + ".m3u8", p.sid)
  }

  lemma SpelledValid(p: Parts, mode: Mode)
    requires !mode.Disabled? && Segment(p.user) && Segment(p.password) && Digits(p.sid)
    ensures ValidMatch(Spelled(p, mode))
  {
    var last := Spelled(p, mode).last;
    if mode.MpegtsLive? {
      assert last[|last| - 3..] == ".ts" && last[..|last| - 3] == p.sid && last[|last| - 1] == 's';
    } else if mode.Hls? {
      assert last[|last| - 5..] == ".m3u8" && last[..|last| - 5] == p.sid;
      assert last[|last| - 3..][0] == '3' && last[|last| - 5] == '.';
    }
  }

  lemma BuildIsPath(p: Parts, mode: Mode)
    requires !mode.Disabled?
    ensures Build(p, mode) == p.origin + PathOf(Spelled(p, mode))
  {
    var m := Spelled(p, mode);
    assert p.origin + PathOf(m) == p.origin + (if m.live then "/live/" else "/") + m.user + "/" + m.password + "/" + m.last;
  }

  lemma BuildJoins(p: Parts, mode: Mode, scheme: string, netloc: string)
    requires !mode.Disabled? && Origin(p.origin, scheme, netloc)
    requires Segment(p.user) && Segment(p.password) && Digits(p.sid)
    ensures var u := Url(scheme, netloc, PathOf(Spelled(p, mode)), ""); Valid(u) && Join(u) == Build(p, mode)
  {
    BuildIsPath(p, mode);
    SpelledValid(p, mode);
    StreamIdFree(Spelled(p, mode).last);
    PathFree(Spelled(p, mode));
  }

  // Parsing reads back what any enabled mode printed.
  lemma ParseBuild(p: Parts, mode: Mode)
    requires ValidParts(p) && !mode.Disabled?
    ensures Parse(Build(p, mode)) == Some(p)
  {
    var scheme, netloc :| Origin(p.origin, scheme, netloc);
    BuildJoins(p, mode, scheme, netloc);
    JoinSplits(Url(scheme, netloc, PathOf(Spelled(p, mode)), ""));
    SpelledValid(p, mode);
    MatchPathOf(Spelled(p, mode));
  }

  lemma LowerScheme(s: string)
    requires SchemeText(s)
    ensures SchemeText(Lower(s)) && Lower(Lower(s)) == Lower(s)
  {
  }

  // Every parse is printable, and what it drops is only the spelling, the scheme's case and what
  // follows the path.
  lemma ParsedIsValid(url: string)
    requires Parse(url).Some?
    ensures ValidParts(Parse(url).value)
    ensures var u := Split(url).value; var m := MatchPath(u.path).value;
      && url == u.scheme + "://" + u.netloc + PathOf(m) + u.tail
      && Parse(url).value == Parts(Lower(u.scheme) + "://" + u.netloc, m.user, m.password, m.sid)
  {
    var u := Split(url).value;
    SplitJoins(url);
    var m := MatchPath(u.path).value;
    PathOfMatch(u.path);
    LowerScheme(u.scheme);
    assert Origin(Parse(url).value.origin, Lower(u.scheme), u.netloc);
    StreamIdFree(m.last);
    PathFree(m);
    assert Segment(m.user) && Segment(m.password);
  }

  // Normalising twice keeps the last enabled mode's spelling; in particular it is idempotent.
  lemma LastModeWins(url: string, first: Mode, last: Mode)
    requires !last.Disabled?
    ensures Normalize(Normalize(url, first), last) == Normalize(url, last)
  {
    if !first.Disabled? && Parse(url).Some? {
      ParsedIsValid(url);
      ParseBuild(Parse(url).value, first);
    }
  }

  // Whether a URL carries a triplet, and which stream it is, no mode changes.
  lemma NormalizeKeepsParts(url: string, mode: Mode)
    ensures Parse(Normalize(url, mode)) == Parse(url)
  {
    if !mode.Disabled? && Parse(url).Some? {
      ParsedIsValid(url);
      ParseBuild(Parse(url).value, mode);
    }
  }
}
