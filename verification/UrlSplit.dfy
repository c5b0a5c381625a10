// The component split of a URL (section 3 of RFC 3986) as urllib.parse.urlsplit makes it, and
// its inverse.
module UrlSplit {
  import opened Common

  // `tail` is the query and fragment with their marks.
  datatype Url = Url(scheme: string, netloc: string, path: string, tail: string)

  predicate Letter(c: char) { 'a' <= c <= 'z' || 'A' <= c <= 'Z' }
  predicate Digit(c: char) { '0' <= c <= '9' }
  predicate SchemeChar(c: char) { Letter(c) || Digit(c) || c == '+' || c == '-' || c == '.' }

  predicate SchemeText(s: string) { s != "" && Letter(s[0]) && forall i :: 0 <= i < |s| ==> SchemeChar(s[i]) }

  function LowerChar(c: char): char { if 'A' <= c <= 'Z' then ((c as int) + 32) as char else c }

  function Lower(s: string): (r: string)
    ensures |r| == |s| && forall i :: 0 <= i < |s| ==> r[i] == LowerChar(s[i])
  {
    seq(|s|, i requires 0 <= i < |s| => LowerChar(s[i]))
  }

  predicate Free(s: string, stops: string) { forall i :: 0 <= i < |s| ==> s[i] !in stops }

  // Where the first of the stops is, or the end.
  function Cut(s: string, stops: string): (n: nat)
    ensures n <= |s| && Free(s[..n], stops) && (n < |s| ==> s[n] in stops)
  {
    if s == "" || s[0] in stops then 0
    else
      var n := Cut(s[1..], stops);
      assert s[..n + 1] == [s[0]] + s[1..][..n];
      n + 1
  }

  lemma {:induction false} CutIs(s: string, stops: string, n: nat)
    requires n <= |s| && Free(s[..n], stops) && (n < |s| ==> s[n] in stops)
    ensures Cut(s, stops) == n
  {
    if n > 0 {
      assert s[..n][0] == s[0];
      assert s[1..][..n - 1] == s[..n][1..];
      CutIs(s[1..], stops, n - 1);
    }
  }

  predicate Valid(u: Url) {
    && SchemeText(u.scheme)
    && u.netloc != "" && Free(u.netloc, "/?#")
    && Free(u.path, "?#") && (u.path != "" ==> u.path[0] == '/')
    && (u.tail != "" ==> u.tail[0] in "?#")
  }

  function Join(u: Url): string { u.scheme + "://" + u.netloc + u.path + u.tail }

  function SplitRest(scheme: string, rest: string): Url {
    var n := Cut(rest, "/?#");
    var after := rest[n..];
    var p := Cut(after, "?#");
    Url(scheme, rest[..n], after[..p], after[p..])
  }

  // None unless there are both a scheme and a netloc.
  function Split(url: string): (u: Option<Url>)
  {
    var c := Cut(url, ":");
    if c + 3 <= |url| && url[c..c + 3] == "://" && SchemeText(url[..c]) && Cut(url[c + 3..], "/?#") > 0
    then Some(SplitRest(url[..c], url[c + 3..])) else None
  }

  lemma AfterNetloc(after: string)
    requires after != "" ==> after[0] in "/?#"
    ensures var p := Cut(after, "?#"); (p > 0 ==> after[..p][0] == '/') && (p < |after| ==> after[p..][0] in "?#")
  {
  }

  lemma SplitRestValid(scheme: string, rest: string)
    requires SchemeText(scheme) && Cut(rest, "/?#") > 0
    ensures Valid(SplitRest(scheme, rest)) && Join(SplitRest(scheme, rest)) == scheme + "://" + rest
  {
    var n := Cut(rest, "/?#");
    AfterNetloc(rest[n..]);
    SplitRestJoins(scheme, rest);
  }

  lemma JoinRest(u: Url)
    ensures Join(u) == u.scheme + "://" + (u.netloc + (u.path + u.tail))
  {
    var head := u.scheme + "://";
    assert head + u.netloc + u.path + u.tail == head + (u.netloc + (u.path + u.tail));
  }

  lemma SplitRestJoins(scheme: string, rest: string)
    ensures Join(SplitRest(scheme, rest)) == scheme + "://" + rest
  {
    var n := Cut(rest, "/?#");
    JoinRest(SplitRest(scheme, rest));
    TakeDrop(rest, n);
    TakeDrop(rest[n..], Cut(rest[n..], "?#"));
  }

  lemma TakeDrop(s: string, n: nat)
    requires n <= |s|
    ensures s[..n] + s[n..] == s
  {
  }

  // What was split joins back to the same string.
  lemma SplitJoins(url: string)
    requires Split(url).Some?
    ensures Valid(Split(url).value) && Join(Split(url).value) == url
  {
    var c := Cut(url, ":");
    SplitRestValid(url[..c], url[c + 3..]);
    assert url == url[..c] + "://" + url[c + 3..];
  }

  lemma SchemeHasNoColon(scheme: string)
    requires SchemeText(scheme)
    ensures Free(scheme, ":")
  {
  }

  lemma JoinCuts(u: Url)
    requires Valid(u)
    ensures var rest := u.netloc + u.path + u.tail;
      Cut(Join(u), ":") == |u.scheme| && Join(u)[|u.scheme|..|u.scheme| + 3] == "://" && Join(u)[|u.scheme| + 3..] == rest
  {
    SchemeHasNoColon(u.scheme);
    var url := Join(u);
    assert url[..|u.scheme|] == u.scheme && url[|u.scheme|] == ':';
    CutIs(url, ":", |u.scheme|);
  }

  // What was joined splits back to the same components.
  lemma JoinSplits(u: Url)
    requires Valid(u)
    ensures Split(Join(u)) == Some(u)
  {
    JoinCuts(u);
    assert Join(u)[..|u.scheme|] == u.scheme;
    RestSplits(u);
  }

  lemma RestSplits(u: Url)
    requires Valid(u)
    ensures var rest := u.netloc + u.path + u.tail; Cut(rest, "/?#") == |u.netloc| && SplitRest(u.scheme, rest) == u
  {
    var rest, after := u.netloc + u.path + u.tail, u.path + u.tail;
    assert rest[..|u.netloc|] == u.netloc && rest[|u.netloc|..] == after;
    if after != "" { assert rest[|u.netloc|] == after[0]; }
    CutIs(rest, "/?#", |u.netloc|);
    assert after[..|u.path|] == u.path;
    CutIs(after, "?#", |u.path|);
  }

  // ---- '/'-separated segments -----------------------------------------------------------------

  function Segments(s: string): (r: seq<string>)
    ensures r != []
  {
    var n := Cut(s, "/");
    if n == |s| then [s] else [s[..n]] + Segments(s[n + 1..])
  }

  function JoinSegments(segs: seq<string>): string
    requires segs != []
  {
    if |segs| == 1 then segs[0] else segs[0] + "/" + JoinSegments(segs[1..])
  }

  lemma {:induction false} SegmentsJoin(s: string)
    ensures JoinSegments(Segments(s)) == s
    ensures forall i :: 0 <= i < |Segments(s)| ==> Free(Segments(s)[i], "/")
  {
    var n := Cut(s, "/");
    if n < |s| {
      var rest := Segments(s[n + 1..]);
      SegmentsJoin(s[n + 1..]);
      assert Segments(s) == [s[..n]] + rest && Segments(s)[1..] == rest;
      assert s == s[..n] + "/" + s[n + 1..];
    }
  }

  lemma {:induction false} JoinSegmentsSplits(segs: seq<string>)
    requires segs != [] && forall i :: 0 <= i < |segs| ==> Free(segs[i], "/")
    ensures Segments(JoinSegments(segs)) == segs
  {
    var s := JoinSegments(segs);
    if |segs| == 1 {
      CutIs(s, "/", |s|);
    } else {
      JoinSegmentsSplits(segs[1..]);
      assert s[..|segs[0]|] == segs[0] && s[|segs[0]|] == '/';
      CutIs(s, "/", |segs[0]|);
      assert s[|segs[0]| + 1..] == JoinSegments(segs[1..]);
    }
  }
}
