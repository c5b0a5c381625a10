// When the provider and login writers accept, spelled out on the rows they look at.
module ProviderLaws {
  import opened Common
  import opened UrlSplit
  import opened ProviderModel
  import opened ProviderSafety

  // One letter, whichever case it is written in.
  ghost predicate SameLetter(a: char, b: char) {
    || a == b
    || ('A' <= a <= 'Z' && b as int == a as int + 32)
    || ('A' <= b <= 'Z' && a as int == b as int + 32)
  }

  ghost predicate SameName(a: string, b: string) { |a| == |b| && forall i :: 0 <= i < |a| ==> SameLetter(a[i], b[i]) }

  lemma SameNameIs(a: string, b: string)
    ensures SameName(a, b) <==> Lower(a) == Lower(b)
  {
    forall x: char, y: char ensures SameLetter(x, y) <==> LowerChar(x) == LowerChar(y) {}
    if Lower(a) == Lower(b) {
      forall i | 0 <= i < |a| ensures SameLetter(a[i], b[i]) { assert Lower(a)[i] == Lower(b)[i]; }
    }
  }

  // The account has the login on its list, and the tables have its row.
  ghost predicate On(s: State, account: int, l: int) { account in s.lists && l in s.lists[account] && l in s.logins }

  // Some other login of the account goes by this username, or by this name in whatever case.
  ghost predicate UserTaken(s: State, account: int, username: string, but: set<int>) {
    exists l :: On(s, account, l) && l !in but && s.logins[l].username == username
  }

  ghost predicate LoginNameTaken(s: State, account: int, name: string, but: set<int>) {
    exists l :: On(s, account, l) && l !in but && SameName(s.logins[l].name, name)
  }

  lemma UserTakenIs(s: State, account: int, username: string, but: set<int>)
    ensures UsernameOn(s, account, username, but) <==> UserTaken(s, account, username, but)
  {
    if UsernameOn(s, account, username, but) {
      var l :| l in s.lists[account] && l !in but && l in s.logins && s.logins[l].username == username;
      assert On(s, account, l);
    }
  }

  lemma LoginNameTakenIs(s: State, account: int, name: string, but: set<int>)
    ensures NameOn(s, account, name, but) <==> LoginNameTaken(s, account, name, but)
  {
    forall l | On(s, account, l) ensures SameName(s.logins[l].name, name) <==> Lower(s.logins[l].name) == Lower(name) {
      SameNameIs(s.logins[l].name, name);
    }
    if NameOn(s, account, name, but) {
      var l :| l in s.lists[account] && l !in but && l in s.logins && Lower(s.logins[l].name) == Lower(name);
      assert On(s, account, l);
    }
  }

  ghost function Refused(username: bool, name: bool): Option<Error> {
    if username then Some(UsernameTaken) else if name then Some(NameTaken) else None
  }

  // A new login is refused exactly for an account that is gone, a username on the account's own
  // list, or a name on it, capitals or not.
  lemma AddRefusedExactly(s: State, a: int, id: int, login: Login)
    ensures ErrorOf(s, AddLogin(a, id, login)) == if a !in s.provider then Some(AccountGone)
      else Refused(UserTaken(s, a, login.username, {}), LoginNameTaken(s, a, login.name, {}))
  {
    UserTakenIs(s, a, login.username, {});
    LoginNameTakenIs(s, a, login.name, {});
  }

  // An edit looks at the account's other logins.
  lemma UpdateRefusedExactly(s: State, a: int, id: int, login: Login)
    ensures ErrorOf(s, UpdateLogin(a, id, login)) == if !(a in s.lists && id in s.lists[a]) then Some(LoginGone)
      else Refused(UserTaken(s, a, login.username, {id}), LoginNameTaken(s, a, login.name, {id}))
  {
    UserTakenIs(s, a, login.username, {id});
    LoginNameTakenIs(s, a, login.name, {id});
  }

  // A share is refused exactly when: nobody holds the login; the account is gone, or holds it
  // already, or is on no provider, or some holder is on another; or the account's list has its
  // username or its name.
  lemma ShareRefusedExactly(s: State, a: int, l: int)
    ensures ErrorOf(s, ShareLogin(a, l)) ==
      if !(l in s.logins && exists b :: Holds(s, b, l)) then Some(LoginGone)
      else if a !in s.provider then Some(AccountGone)
      else if l in s.lists[a] then Some(AlreadyHeld)
      else if s.provider[a] == None || exists b :: b in s.provider && l in s.lists[b] && s.provider[b] != s.provider[a] then Some(OtherProvider)
      else Refused(UserTaken(s, a, s.logins[l].username, {}), LoginNameTaken(s, a, s.logins[l].name, {}))
  {
    if Holders(s, l) != {} {
      var b := SomeOf(Holders(s, l));
      assert Holds(s, b, l);
    }
    assert forall b :: b in Holders(s, l) <==> b in s.provider && l in s.lists[b];
    if l in s.logins {
      UserTakenIs(s, a, s.logins[l].username, {});
      LoginNameTakenIs(s, a, s.logins[l].name, {});
      }
  }

  // A provider's name is not another's in any case, and its accounts are there.
  lemma CreateRefusedExactly(s: State, id: int, name: string, accounts: seq<int>)
    ensures ErrorOf(s, CreateProvider(id, name, accounts)) ==
      if exists p :: p in s.names && SameName(s.names[p], name) then Some(NameTaken)
      else if exists a :: a in accounts && a !in s.provider then Some(AccountGone) else None
  {
    NamedLikeIs(s, name);
    var gone := exists i :: 0 <= i < |accounts| && accounts[i] !in s.provider;
    if a :| a in accounts && a !in s.provider {
      var i :| 0 <= i < |accounts| && accounts[i] == a;
      assert gone;
    }
    if gone {
      var i :| 0 <= i < |accounts| && accounts[i] !in s.provider;
      var a := accounts[i];
      assert a in accounts && a !in s.provider;
    }
    assert gone <==> exists a :: a in accounts && a !in s.provider;
    assert ErrorOf(s, CreateProvider(id, name, accounts)) == if NamedLike(s, name) then Some(NameTaken) else if gone then Some(AccountGone) else None;
  }

  lemma NamedLikeIs(s: State, name: string)
    ensures NamedLike(s, name) <==> exists p :: p in s.names && SameName(s.names[p], name)
  {
    forall p | p in s.names ensures SameName(s.names[p], name) <==> Lower(s.names[p]) == Lower(name) { SameNameIs(s.names[p], name); }
  }

  // What is deleted, placed, moved or removed is there.
  lemma OthersRefusedExactly(s: State, a: int, l: int, to: Option<int>, up: bool)
    ensures ErrorOf(s, DeleteProvider(l)) == if l in s.names then None else Some(ProviderGone)
    ensures ErrorOf(s, SetProvider(a, to))
      == if a !in s.provider then Some(AccountGone) else if to != None && to.value !in s.names then Some(ProviderGone) else None
    ensures var held := a in s.lists && l in s.lists[a];
      && ErrorOf(s, RemoveLogin(a, l)) == (if held then None else Some(LoginGone))
      && ErrorOf(s, MoveLogin(a, l, up)) == if held then None else Some(LoginGone)
    ensures ErrorOf(s, DeleteAccount(a)) == if a in s.provider then None else Some(AccountGone)
    ensures ErrorOf(s, NewAccount(a)) == None
  {
  }

  // Unsharing goes ahead exactly while somebody else holds the login too.
  lemma UnshareRefusedExactly(s: State, a: int, l: int)
    ensures UnshareRefusal(s, a, l) ==
      if !Holds(s, a, l) then Some(LoginGone) else if exists b :: b != a && Holds(s, b, l) then None else Some(NotShared)
  {
    var holders := Holders(s, l);
    if Holds(s, a, l) {
      HeldElsewhere(s, a, l);
      assert holders == (holders - {a}) + {a};
      assert |holders| == |holders - {a}| + 1;
    }
  }

  // ---- one username an account --------------------------------------------------------------------

  // No hold is new and no row is another.
  lemma FewerKeepUsernames(s: State, t: State)
    requires UsernamesDistinct(s) && forall b, k :: Holds(t, b, k) ==> Holds(s, b, k)
    requires forall k :: k in t.logins ==> k in s.logins && t.logins[k] == s.logins[k]
    ensures UsernamesDistinct(t)
  {
  }

  // Only an edit can put one username on a list twice: every other operation keeps them apart.
  lemma OnlyEditsDouble(s: State, op: Op)
    requires Inv(s) && UsernamesDistinct(s) && FreshId(s, op) && !op.UpdateLogin?
    ensures UsernamesDistinct(Step(s, op))
  {
    if ErrorOf(s, op).None? {
      if op.AddLogin? || op.ShareLogin? { AddsKeepUsernames(s, op); } else { OthersKeepUsernames(s, op); }
    }
  }

  lemma AddsKeepUsernames(s: State, op: Op)
    requires Inv(s) && UsernamesDistinct(s) && FreshId(s, op) && ErrorOf(s, op).None? && (op.AddLogin? || op.ShareLogin?)
    ensures UsernamesDistinct(Step(s, op))
  {
    if op.AddLogin? { AddLoginExactly(s, op.account, op.id, op.login); } else { ShareLoginExactly(s, op.account, op.id); }
    AppendKeepsUsernames(s, Step(s, op), op.account, op.id);
  }

  lemma OthersKeepUsernames(s: State, op: Op)
    requires Inv(s) && UsernamesDistinct(s) && FreshId(s, op) && ErrorOf(s, op).None?
    requires !op.UpdateLogin? && !op.AddLogin? && !op.ShareLogin?
    ensures UsernamesDistinct(Step(s, op))
  {
    match op {
      case NewAccount(a) =>
      case DeleteAccount(a) => DeleteAccountExactly(s, a);
      case CreateProvider(_, _, _) => CreateProviderExactly(s, op);
      case DeleteProvider(p) => DeleteProviderExactly(s, p);
      case SetProvider(a, to) => if s.provider[a] != to { SetProviderExactly(s, op); }
      case RemoveLogin(a, l) => LetGoExactly(s, a, l);
      case MoveLogin(a, l, up) => MovedSame(s.lists[a], l, up);
    }
    FewerKeepUsernames(s, Step(s, op));
  }

  lemma AppendKeepsUsernames(s: State, t: State, a: int, l: int)
    requires Inv(s) && UsernamesDistinct(s) && l in t.logins && !UsernameOn(s, a, t.logins[l].username, {})
    requires forall b, k :: Holds(t, b, k) <==> Holds(s, b, k) || (b == a && k == l)
    requires forall k :: k in s.logins ==> k in t.logins && (k != l ==> t.logins[k] == s.logins[k])
    requires l in s.logins ==> t.logins[l] == s.logins[l]
    requires !Holds(s, a, l) && (forall b :: Holds(s, b, l) ==> l in s.logins)
    ensures UsernamesDistinct(t)
  {
    forall b, j, k | Holds(t, b, j) && Holds(t, b, k) && j in t.logins && k in t.logins && j != k
      ensures t.logins[j].username != t.logins[k].username
    {
      if b == a && (j == l || k == l) {
        var other := if j == l then k else j;
        assert Holds(s, a, other) && other in s.logins;
      } else {
        assert Holds(s, b, j) && Holds(s, b, k);
      }
    }
  }
}
