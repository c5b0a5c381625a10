// What the login dialog accepts (app/account_links.py `_validate_login_fields`).
module LoginFields {
  import opened Common
  import opened UrlSplit
  import opened StreamUrl
  import opened UrlAlgebra
  import HostList

  datatype Checked =
    | Accepted(name: string, username: string, password: Option<string>, seats: int)
    | NoName
    | NoUsername
    | NoPassword
    | Unrendered(bad: char)
    | BadSeats

  predicate BadChar(c: char) { c in Unrenderable || Space(c) }

  function FirstBad(s: string): (r: Option<char>)
    ensures r.None? <==> forall i :: 0 <= i < |s| ==> !BadChar(s[i])
    ensures r.Some? ==> BadChar(r.value)
  {
    if s == "" then None else if BadChar(s[0]) then Some(s[0]) else FirstBad(s[1..])
  }

  // `seats` is None when it is no whole number.
  function Check(name: string, username: string, password: Option<string>, seats: Option<int>, required: bool): Checked {
    var n, u := HostList.Strip(name), HostList.Strip(username);
    var p := if password.Some? then Some(HostList.Strip(password.value)) else None;
    var text := if p.Some? then p.value else "";
    if n == "" then NoName
    else if u == "" then NoUsername
    else if required && text == "" then NoPassword
    else if FirstBad(u).Some? then Unrendered(FirstBad(u).value)
    else if FirstBad(text).Some? then Unrendered(FirstBad(text).value)
    else if seats.None? || seats.value < 1 then BadSeats
    else Accepted(n, u, p, seats.value)
  }

  lemma NoBadIsRenderable(s: string)
    requires s != ""
    ensures FirstBad(s).None? <==> Renderable(s)
  {
  }

  // With every field filled in: the characters decide, and nothing else about the credentials.
  lemma AcceptedExactly(name: string, username: string, password: string, seats: Option<int>, required: bool)
    requires HostList.Strip(name) != "" && HostList.Strip(password) != ""
    ensures Check(name, username, Some(password), seats, required).Accepted? <==>
      ValidLogin(Login(HostList.Strip(username), HostList.Strip(password))) && seats.Some? && seats.value >= 1
  {
    NoBadIsRenderable(HostList.Strip(password));
    if HostList.Strip(username) != "" { NoBadIsRenderable(HostList.Strip(username)); }
  }

  // An accepted login is read back from every URL it is rendered into, the stream id unchanged.
  lemma AcceptedReadsBack(name: string, username: string, password: string, seats: Option<int>, url: string, logins: seq<Login>)
    requires Check(name, username, Some(password), seats, true).Accepted? && OnList(url, logins)
    ensures var l := Login(HostList.Strip(username), HostList.Strip(password));
      PairOf(RenderLogin(url, logins, l)) == Some(l) && Parse(RenderLogin(url, logins, l)).value.sid == Parse(url).value.sid
  {
    AcceptedExactly(name, username, password, seats, true);
    LoginReadBack(url, logins, Login(HostList.Strip(username), HostList.Strip(password)));
  }
}
