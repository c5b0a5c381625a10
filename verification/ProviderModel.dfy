// Accounts, providers, and the logins accounts hold and share (app/account_links.py `add_login`,
// `update_login`, `remove_login`, `move_login`, `delete_logins_for_account`,
// `_drop_shares_off_provider`, `create_provider`, `delete_provider`, `set_account_provider`,
// `share_login`, `unshare_login`).
module ProviderModel {
  import opened Common
  import opened UrlSplit

  datatype Login = Login(name: string, username: string)

  // `lists` holds each account's logins in the order their seats are taken in.
  datatype Tables = Tables(
    provider: map<int, Option<int>>, names: map<int, string>,
    logins: map<int, Login>, lists: map<int, seq<int>>)

  // Every account has a provider field and a list.
  type State = s: Tables | s.lists.Keys == s.provider.Keys witness Tables(map[], map[], map[], map[])

  datatype Error =
    | AccountGone | ProviderGone | LoginGone | NameTaken | UsernameTaken | AlreadyHeld | OtherProvider | NotShared

  datatype Op =
    | NewAccount(account: int)
    | DeleteAccount(account: int)
    | CreateProvider(id: int, name: string, accounts: seq<int>)
    | DeleteProvider(id: int)
    | SetProvider(account: int, to: Option<int>)
    | AddLogin(account: int, id: int, login: Login)
    | UpdateLogin(account: int, id: int, login: Login)
    | RemoveLogin(account: int, id: int)
    | MoveLogin(account: int, id: int, up: bool)
    | ShareLogin(account: int, id: int)

  predicate Holds(s: State, account: int, login: int) { account in s.lists && login in s.lists[account] }

  function Holders(s: State, login: int): (r: set<int>)
    ensures forall a :: a in r <==> Holds(s, a, login)
  {
    set a | a in s.lists && login in s.lists[a]
  }

  // ---- dropping shares -------------------------------------------------------------------------

  // Every other account holding the login is on the provider this one is on.
  predicate Together(s: State, account: int, login: int)
    requires account in s.provider
  {
    forall b :: b in Holders(s, login) && b != account ==> s.provider[account].Some? && s.provider[b] == s.provider[account]
  }

  function KeptList(s: State, account: int, list: seq<int>): (r: seq<int>)
    requires account in s.provider
    ensures forall l :: l in r <==> l in list && Together(s, account, l)
  {
    if list == [] then []
    else
      var front, last := KeptList(s, account, list[..|list| - 1]), list[|list| - 1];
      assert list == list[..|list| - 1] + [last];
      if Together(s, account, last) then front + [last] else front
  }

  function DropShares(s: State, account: int): State
    requires account in s.provider
  {
    s.(lists := s.lists[account := KeptList(s, account, s.lists[account])])
  }

  function DropAll(s: State, accounts: seq<int>): (r: State)
    requires forall i :: 0 <= i < |accounts| ==> accounts[i] in s.provider
    ensures r.provider == s.provider && r.names == s.names && r.logins == s.logins
  {
    if accounts == [] then s else DropShares(DropAll(s, accounts[..|accounts| - 1]), accounts[|accounts| - 1])
  }

  function PutAll(provider: map<int, Option<int>>, accounts: seq<int>, to: Option<int>): map<int, Option<int>> {
    map a | a in provider :: if a in accounts then to else provider[a]
  }

  // ---- the operations ----------------------------------------------------------------------------

  predicate NamedLike(s: State, name: string) { exists p :: p in s.names && Lower(s.names[p]) == Lower(name) }

  predicate UsernameOn(s: State, account: int, username: string, but: set<int>) {
    account in s.lists && exists l :: l in s.lists[account] && l !in but && l in s.logins && s.logins[l].username == username
  }

  predicate NameOn(s: State, account: int, name: string, but: set<int>) {
    account in s.lists && exists l :: l in s.lists[account] && l !in but && l in s.logins && Lower(s.logins[l].name) == Lower(name)
  }

  function Without(list: seq<int>, login: int): (r: seq<int>)
    ensures forall l :: l in r <==> l in list && l != login
  {
    if list == [] then []
    else
      var front, last := Without(list[..|list| - 1], login), list[|list| - 1];
      assert list == list[..|list| - 1] + [last];
      if last == login then front else front + [last]
  }

  // One holder lets go; a login nobody holds any more is deleted.
  function LetGo(s: State, account: int, login: int): State
    requires account in s.lists
  {
    s.(lists := s.lists[account := Without(s.lists[account], login)],
       logins := if Holders(s, login) - {account} == {} then s.logins - {login} else s.logins)
  }

  function Appended(s: State, account: int, login: int, logins: map<int, Login>): State
    requires account in s.lists
  {
    s.(logins := logins, lists := s.lists[account := s.lists[account] + [login]])
  }

  function Position(list: seq<int>, login: int): (i: nat)
    requires login in list
    ensures i < |list| && list[i] == login
  {
    if list[0] == login then 0 else Position(list[1..], login) + 1
  }

  // Swapped with its neighbour, if it has one on that side.
  function Moved(list: seq<int>, login: int, up: bool): (r: seq<int>)
    requires login in list
    ensures |r| == |list|
  {
    var i := Position(list, login);
    var j := if up then i - 1 else i + 1;
    if 0 <= j < |list| then list[i := list[j]][j := login] else list
  }

  predicate Shareable(s: State, account: int, login: int) {
    && account in s.provider && s.provider[account].Some?
    && forall b :: b in Holders(s, login) ==> b in s.provider && s.provider[b] == s.provider[account]
  }

  function ErrorOf(s: State, op: Op): Option<Error>
  {
    match op
    case NewAccount(_) => None
    case DeleteAccount(a) => if a !in s.provider then Some(AccountGone) else None
    case CreateProvider(_, name, accounts) =>
      if NamedLike(s, name) then Some(NameTaken)
      else if exists i :: 0 <= i < |accounts| && accounts[i] !in s.provider then Some(AccountGone) else None
    case DeleteProvider(p) => if p !in s.names then Some(ProviderGone) else None
    case SetProvider(a, to) =>
      if a !in s.provider then Some(AccountGone)
      else if to.Some? && to.value !in s.names then Some(ProviderGone) else None
    case AddLogin(a, _, login) =>
      if a !in s.provider then Some(AccountGone)
      else if UsernameOn(s, a, login.username, {}) then Some(UsernameTaken)
      else if NameOn(s, a, login.name, {}) then Some(NameTaken) else None
    case UpdateLogin(a, l, login) =>
      if !Holds(s, a, l) then Some(LoginGone)
      else if UsernameOn(s, a, login.username, {l}) then Some(UsernameTaken)
      else if NameOn(s, a, login.name, {l}) then Some(NameTaken) else None
    case RemoveLogin(a, l) => if !Holds(s, a, l) then Some(LoginGone) else None
    case MoveLogin(a, l, _) => if !Holds(s, a, l) then Some(LoginGone) else None
    case ShareLogin(a, l) =>
      if l !in s.logins || Holders(s, l) == {} then Some(LoginGone)
      else if a !in s.provider then Some(AccountGone)
      else if Holds(s, a, l) then Some(AlreadyHeld)
      else if !Shareable(s, a, l) then Some(OtherProvider)
      else if UsernameOn(s, a, s.logins[l].username, {}) then Some(UsernameTaken)
      else if NameOn(s, a, s.logins[l].name, {}) then Some(NameTaken) else None
  }

  // Unsharing is two units: this check, and a removal once it passed.
  function UnshareRefusal(s: State, account: int, login: int): Option<Error> {
    if !Holds(s, account, login) then Some(LoginGone)
    else if |Holders(s, login)| < 2 then Some(NotShared) else None
  }

  function Held(s: State, account: int): (r: set<int>)
    requires account in s.lists
    ensures forall l :: l in r <==> l in s.lists[account] && Holders(s, l) - {account} == {}
  {
    set l | l in s.lists[account] && Holders(s, l) - {account} == {}
  }

  // What each operation leaves; a refused one leaves everything.
  function Step(s: State, op: Op): (r: State)
  {
    if ErrorOf(s, op).Some? then s
    else
      match op
      case NewAccount(a) => if a in s.provider then s else s.(provider := s.provider[a := None], lists := s.lists[a := []])
      case DeleteAccount(a) => s.(provider := s.provider - {a}, lists := s.lists - {a}, logins := s.logins - Held(s, a))
      case CreateProvider(id, name, accounts) =>
        DropAll(s.(provider := PutAll(s.provider, accounts, Some(id)), names := s.names[id := name]), accounts)
      case DeleteProvider(p) =>
        s.(provider := map a | a in s.provider :: if s.provider[a] == Some(p) then None else s.provider[a], names := s.names - {p})
      case SetProvider(a, to) =>
        if s.provider[a] == to then s else DropShares(s.(provider := s.provider[a := to]), a)
      case AddLogin(a, id, login) => Appended(s, a, id, s.logins[id := login])
      case UpdateLogin(_, l, login) => s.(logins := s.logins[l := login])
      case RemoveLogin(a, l) => LetGo(s, a, l)
      case MoveLogin(a, l, up) => s.(lists := s.lists[a := Moved(s.lists[a], l, up)])
      case ShareLogin(a, l) => Appended(s, a, l, s.logins)
  }

  // New rows get ids the tables do not hold.
  predicate FreshId(s: State, op: Op) {
    && (op.CreateProvider? ==> op.id !in s.names)
    && (op.AddLogin? ==> op.id !in s.logins)
  }
}

module ProviderSafety {
  import opened Common
  import opened UrlSplit
  import opened ProviderModel

  ghost predicate NoRepeats(list: seq<int>) { forall i, j :: 0 <= i < j < |list| ==> list[i] != list[j] }

  ghost predicate Formed(s: State) {
    && (forall a :: a in s.lists ==> NoRepeats(s.lists[a]))
    && (forall a, l :: Holds(s, a, l) ==> l in s.logins)
    && (forall a :: a in s.provider && s.provider[a].Some? ==> s.provider[a].value in s.names)
  }

  // All holders of one login are on one provider, or all on none.
  ghost predicate OneProvider(s: State) {
    forall a, b, l :: Holds(s, a, l) && Holds(s, b, l) && a in s.provider && b in s.provider ==> s.provider[a] == s.provider[b]
  }

  ghost predicate IsHeld(s: State, l: int) { exists a :: Holds(s, a, l) }

  ghost predicate EveryLoginHeld(s: State) { forall l :: l in s.logins ==> IsHeld(s, l) }

  ghost predicate Inv(s: State) { Formed(s) && OneProvider(s) && EveryLoginHeld(s) }

  // ---- putting several accounts on a new provider -----------------------------------------------

  // The logins whose every holder is among the accounts moved.
  ghost predicate WhollyMoved(s: State, accounts: seq<int>, login: int) { forall a :: Holds(s, a, login) ==> a in accounts }

  // However far the judging has come, an account keeps a login exactly when all its holders moved.
  lemma {:induction false} DropAllExactly(s: State, accounts: seq<int>, n: nat, id: int)
    requires n <= |accounts|
    requires forall i :: 0 <= i < |accounts| ==> accounts[i] in s.provider
    requires forall a :: a in s.provider ==> (s.provider[a] == Some(id) <==> a in accounts)
    ensures forall a, l :: Holds(DropAll(s, accounts[..n]), a, l) <==> Holds(s, a, l) && (a in accounts[..n] ==> WhollyMoved(s, accounts, l))
  {
    if n > 0 {
      DropAllExactly(s, accounts, n - 1, id);
      assert accounts[..n][..n - 1] == accounts[..n - 1];
      var mid, x := DropAll(s, accounts[..n - 1]), accounts[n - 1];
      assert accounts[..n] == accounts[..n - 1] + [x];
      forall l | Holds(mid, x, l) ensures Together(mid, x, l) <==> WhollyMoved(s, accounts, l) {
        JudgedAlike(s, mid, accounts, n - 1, id, x, l);
      }
    }
  }

  lemma JudgedAlike(s: State, mid: State, accounts: seq<int>, n: nat, id: int, x: int, l: int)
    requires mid.provider == s.provider
    requires n < |accounts| && x == accounts[n] && x in s.provider
    requires forall a :: a in s.provider ==> (s.provider[a] == Some(id) <==> a in accounts)
    requires forall a, k :: Holds(mid, a, k) <==> Holds(s, a, k) && (a in accounts[..n] ==> WhollyMoved(s, accounts, k))
    requires Holds(mid, x, l)
    ensures Together(mid, x, l) <==> WhollyMoved(s, accounts, l)
  {
    if !WhollyMoved(s, accounts, l) {
      var c :| Holds(s, c, l) && c !in accounts;
      assert Holds(mid, c, l) && c in Holders(mid, l);
      assert mid.provider[c] != Some(id);
    }
  }

  lemma {:induction false} KeptNoRepeats(s: State, account: int, list: seq<int>)
    requires account in s.provider && NoRepeats(list)
    ensures NoRepeats(KeptList(s, account, list))
  {
    if list != [] {
      var front, last := list[..|list| - 1], list[|list| - 1];
      KeptNoRepeats(s, account, front);
      assert last !in front by { assert forall i :: 0 <= i < |front| ==> front[i] == list[i]; }
      assert last !in KeptList(s, account, front);
    }
  }

  lemma {:induction false} WithoutNoRepeats(list: seq<int>, login: int)
    requires NoRepeats(list)
    ensures NoRepeats(Without(list, login))
  {
    if list != [] {
      var front, last := list[..|list| - 1], list[|list| - 1];
      WithoutNoRepeats(front, login);
      assert last !in front by { assert forall i :: 0 <= i < |front| ==> front[i] == list[i]; }
      assert last !in Without(front, login);
    }
  }

  lemma MovedSame(list: seq<int>, login: int, up: bool)
    requires login in list && NoRepeats(list)
    ensures NoRepeats(Moved(list, login, up)) && forall l :: l in Moved(list, login, up) <==> l in list
  {
    var i := Position(list, login);
    var j := if up then i - 1 else i + 1;
    var r := Moved(list, login, up);
    if 0 <= j < |list| {
      forall l | l in list ensures l in r {
        var k :| 0 <= k < |list| && list[k] == l;
        assert r[if k == i then j else if k == j then i else k] == l;
      }
    }
  }

  lemma {:induction false} DropAllNoRepeats(s: State, accounts: seq<int>)
    requires forall i :: 0 <= i < |accounts| ==> accounts[i] in s.provider
    requires forall a :: a in s.lists ==> NoRepeats(s.lists[a])
    ensures forall a :: a in DropAll(s, accounts).lists ==> NoRepeats(DropAll(s, accounts).lists[a])
  {
    if accounts != [] {
      var mid, x := DropAll(s, accounts[..|accounts| - 1]), accounts[|accounts| - 1];
      DropAllNoRepeats(s, accounts[..|accounts| - 1]);
      KeptNoRepeats(mid, x, mid.lists[x]);
    }
  }

  // ---- every operation keeps the invariant ---------------------------------------------------------

  // The accounts just moved, as the drop sees them.
  function Placed(s: State, op: Op): State
    requires op.CreateProvider?
  {
    s.(provider := PutAll(s.provider, op.accounts, Some(op.id)), names := s.names[op.id := op.name])
  }

  // A created provider's accounts keep just the logins no other account holds - all judged after
  // all were moved, so the order they are judged in makes no difference.
  lemma CreateProviderExactly(s: State, op: Op)
    requires Formed(s) && op.CreateProvider? && FreshId(s, op) && ErrorOf(s, op).None?
    ensures var t := Step(s, op);
      && t.provider == PutAll(s.provider, op.accounts, Some(op.id)) && t.logins == s.logins
      && forall a, l :: Holds(t, a, l) <==> Holds(s, a, l) && (a in op.accounts ==> WhollyMoved(s, op.accounts, l))
  {
    var p := Placed(s, op);
    assert op.accounts[..|op.accounts|] == op.accounts;
    DropAllExactly(p, op.accounts, |op.accounts|, op.id);
    assert forall l :: WhollyMoved(p, op.accounts, l) <==> WhollyMoved(s, op.accounts, l);
  }

  lemma CreateKeepsInv(s: State, op: Op)
    requires Inv(s) && op.CreateProvider? && FreshId(s, op) && ErrorOf(s, op).None?
    ensures Inv(Step(s, op))
  {
    var t := Step(s, op);
    CreateProviderExactly(s, op);
    DropAllNoRepeats(Placed(s, op), op.accounts);
    CreateStaysTogether(s, t, op.accounts, op.id);
    forall l | l in t.logins ensures IsHeld(t, l) {
      var a :| Holds(s, a, l);
      if !Holds(t, a, l) {
        var c :| Holds(s, c, l) && c !in op.accounts;
        assert Holds(t, c, l);
      }
    }
  }

  lemma CreateStaysTogether(s: State, t: State, accounts: seq<int>, id: int)
    requires OneProvider(s) && t.provider == PutAll(s.provider, accounts, Some(id))
    requires forall a, l :: Holds(t, a, l) <==> Holds(s, a, l) && (a in accounts ==> WhollyMoved(s, accounts, l))
    ensures OneProvider(t)
  {
  }

  lemma DropShared(s: State, a: int, to: Option<int>)
    requires Formed(s) && a in s.provider
    ensures var t := DropShares(s.(provider := s.provider[a := to]), a);
      && (forall b, l :: b != a ==> (Holds(t, b, l) <==> Holds(s, b, l)))
      && (forall l :: Holds(t, a, l) <==> Holds(s, a, l) && forall b :: Holds(s, b, l) && b != a ==> to.Some? && s.provider[b] == to)
  {
    var p := s.(provider := s.provider[a := to]);
    assert forall l :: Holders(p, l) == Holders(s, l);
    assert forall b :: b in s.lists && b != a ==> p.provider[b] == s.provider[b];
  }

  // Leaving, joining or moving gives up just the logins held with an account not on the new
  // provider.
  lemma SetProviderExactly(s: State, op: Op)
    requires Formed(s) && op.SetProvider? && ErrorOf(s, op).None? && s.provider[op.account] != op.to
    ensures var t := Step(s, op);
      && t.provider == s.provider[op.account := op.to] && t.logins == s.logins
      && (forall b, l :: b != op.account ==> (Holds(t, b, l) <==> Holds(s, b, l)))
      && (forall l :: Holds(t, op.account, l) <==>
            Holds(s, op.account, l) && forall b :: Holds(s, b, l) && b != op.account ==> op.to.Some? && s.provider[b] == op.to)
  {
    DropShared(s, op.account, op.to);
  }

  lemma SetKeepsInv(s: State, op: Op)
    requires Inv(s) && op.SetProvider? && ErrorOf(s, op).None? && s.provider[op.account] != op.to
    ensures Inv(Step(s, op))
  {
    SetProviderExactly(s, op);
    SetStaysTogether(s, Step(s, op), op.account, op.to);
    SetStaysHeld(s, Step(s, op), op.account, op.to);
    SetFormed(s, op.account, op.to);
  }

  // One account's provider moved, and the shares that had to go went.
  ghost predicate SharesDropped(s: State, t: State, a: int, to: Option<int>) {
    && t.provider == s.provider[a := to]
    && (forall b, l :: b != a ==> (Holds(t, b, l) <==> Holds(s, b, l)))
    && (forall l :: Holds(t, a, l) <==> Holds(s, a, l) && forall b :: Holds(s, b, l) && b != a ==> b in s.provider && to.Some? && s.provider[b] == to)
  }

  lemma SetStaysTogether(s: State, t: State, a: int, to: Option<int>)
    requires OneProvider(s) && SharesDropped(s, t, a, to)
    ensures OneProvider(t)
  {
    forall b, c, l | Holds(t, b, l) && Holds(t, c, l) && b in t.provider && c in t.provider ensures t.provider[b] == t.provider[c] {
      assert Holds(s, b, l) && Holds(s, c, l);
    }
  }

  lemma SetStaysHeld(s: State, t: State, a: int, to: Option<int>)
    requires EveryLoginHeld(s) && SharesDropped(s, t, a, to) && t.logins == s.logins
    ensures EveryLoginHeld(t)
  {
    forall l | l in t.logins ensures IsHeld(t, l) {
      var b :| Holds(s, b, l);
      if !Holds(t, b, l) {
        var c :| Holds(s, c, l) && c != a;
        assert Holds(t, c, l);
      }
    }
  }

  lemma SetFormed(s: State, a: int, to: Option<int>)
    requires Formed(s) && a in s.provider && (to.Some? ==> to.value in s.names)
    ensures Formed(DropShares(s.(provider := s.provider[a := to]), a))
  {
    KeptNoRepeats(s.(provider := s.provider[a := to]), a, s.lists[a]);
    DropShared(s, a, to);
    var t := DropShares(s.(provider := s.provider[a := to]), a);
    forall b, l | Holds(t, b, l) ensures l in s.logins { assert Holds(s, b, l); }
  }

  // ---- the other operations, by who holds what -----------------------------------------------------

  // Its accounts end on none; nobody's list changes.
  lemma DeleteProviderExactly(s: State, p: int)
    requires p in s.names
    ensures var t := Step(s, DeleteProvider(p));
      && (forall a, l :: Holds(t, a, l) <==> Holds(s, a, l)) && t.logins == s.logins && t.lists == s.lists
      && (forall a :: a in t.provider <==> a in s.provider)
      && (forall a, q :: a in s.provider ==> (t.provider[a] == Some(q) <==> s.provider[a] == Some(q) && q != p))
      && (forall q :: q in t.names <==> q in s.names && q != p)
  {
  }

  lemma AppendHolds(s: State, a: int, l: int, logins: map<int, Login>)
    requires a in s.lists
    ensures forall b, k :: Holds(Appended(s, a, l, logins), b, k) <==> Holds(s, b, k) || (b == a && k == l)
  {
  }

  // The account holds one login more, last on its list; every other login and hold stands.
  lemma AddLoginExactly(s: State, a: int, id: int, login: Login)
    requires Formed(s) && ErrorOf(s, AddLogin(a, id, login)).None? && id !in s.logins
    ensures var t := Step(s, AddLogin(a, id, login));
      && (forall b, k :: Holds(t, b, k) <==> Holds(s, b, k) || (b == a && k == id))
      && t.lists[a][|t.lists[a]| - 1] == id && !Holds(s, a, id)
      && (forall k :: k in t.logins <==> k in s.logins || k == id) && t.logins[id] == login
      && (forall k :: k in s.logins ==> t.logins[k] == s.logins[k])
  {
    AppendHolds(s, a, id, s.logins[id := login]);
  }

  // The same for a share, which copies nothing; all its holders are on one provider.
  lemma ShareLoginExactly(s: State, a: int, l: int)
    requires ErrorOf(s, ShareLogin(a, l)).None?
    ensures var t := Step(s, ShareLogin(a, l));
      && (forall b, k :: Holds(t, b, k) <==> Holds(s, b, k) || (b == a && k == l))
      && t.lists[a][|t.lists[a]| - 1] == l && !Holds(s, a, l) && t.logins == s.logins && t.provider == s.provider
      && (forall b :: Holds(t, b, l) ==> b in t.provider && t.provider[b] == t.provider[a] && t.provider[b].Some?)
  {
    AppendHolds(s, a, l, s.logins);
    assert forall b :: b in Holders(s, l) <==> Holds(s, b, l);
  }

  // One row changes, for every account that holds it.
  lemma UpdateLoginExactly(s: State, a: int, l: int, login: Login)
    requires Formed(s) && ErrorOf(s, UpdateLogin(a, l, login)).None?
    ensures var t := Step(s, UpdateLogin(a, l, login));
      && (forall b, k :: Holds(t, b, k) <==> Holds(s, b, k)) && l in s.logins
      && (forall k :: k in t.logins <==> k in s.logins)
      && (forall k :: k in s.logins ==> t.logins[k] == if k == l then login else s.logins[k])
  {
    assert Holds(s, a, l);
  }

  // The hold goes; the login goes with it exactly when nobody else holds it.
  lemma LetGoExactly(s: State, a: int, l: int)
    requires a in s.lists
    ensures var t := LetGo(s, a, l);
      && (forall b, k :: Holds(t, b, k) <==> Holds(s, b, k) && !(b == a && k == l))
      && (forall k :: k in t.logins <==> k in s.logins && (k == l ==> exists b :: b != a && Holds(s, b, l)))
      && (forall k :: k in t.logins ==> t.logins[k] == s.logins[k]) && t.provider == s.provider && t.names == s.names
  {
    HeldElsewhere(s, a, l);
  }

  lemma HeldElsewhere(s: State, a: int, l: int)
    ensures Holders(s, l) - {a} != {} <==> exists b :: b != a && Holds(s, b, l)
  {
    if b :| b != a && Holds(s, b, l) { assert b in Holders(s, l) - {a}; }
    if Holders(s, l) - {a} != {} {
      var b := SomeOf(Holders(s, l) - {a});
      assert Holds(s, b, l);
    }
  }

  lemma RemoveLoginExactly(s: State, a: int, l: int)
    requires ErrorOf(s, RemoveLogin(a, l)).None?
    ensures var t := Step(s, RemoveLogin(a, l));
      && (forall b, k :: Holds(t, b, k) <==> Holds(s, b, k) && !(b == a && k == l))
      && (forall k :: k in t.logins <==> k in s.logins && (k == l ==> exists b :: b != a && Holds(s, b, l)))
  {
    LetGoExactly(s, a, l);
  }

  // Its holds go, and exactly the logins it alone held.
  lemma DeleteAccountExactly(s: State, a: int)
    requires a in s.provider
    ensures var t := Step(s, DeleteAccount(a));
      && a !in t.provider && (forall b :: b != a ==> (b in t.provider <==> b in s.provider))
      && (forall b, k :: Holds(t, b, k) <==> Holds(s, b, k) && b != a)
      && (forall k :: k in t.logins <==> k in s.logins && (Holds(s, a, k) ==> exists b :: b != a && Holds(s, b, k)))
      && (forall k :: k in t.logins ==> t.logins[k] == s.logins[k])
  {
    var t := Step(s, DeleteAccount(a));
    forall k ensures k in t.logins <==> k in s.logins && (Holds(s, a, k) ==> exists b :: b != a && Holds(s, b, k)) {
      HeldElsewhere(s, a, k);
    }
  }

  lemma LetGoKeepsInv(s: State, a: int, l: int)
    requires Inv(s) && Holds(s, a, l)
    ensures Inv(LetGo(s, a, l))
  {
    var t := LetGo(s, a, l);
    LetGoExactly(s, a, l);
    WithoutNoRepeats(s.lists[a], l);
    FewerHolds(s, t);
    forall k | k in t.logins ensures IsHeld(t, k) {
      var b :| Holds(s, b, k) && !(b == a && k == l);
      assert Holds(t, b, k);
    }
  }

  // Nobody gains a hold or changes provider, and no login goes while it is held.
  lemma FewerHolds(s: State, t: State)
    requires Inv(s) && t.names == s.names && (forall a :: a in t.lists ==> NoRepeats(t.lists[a]))
    requires forall b :: b in t.provider ==> b in s.provider && t.provider[b] == s.provider[b]
    requires forall b, k :: Holds(t, b, k) ==> Holds(s, b, k) && k in t.logins
    ensures Formed(t) && OneProvider(t)
  {
  }

  lemma SomeOf(x: set<int>) returns (e: int)
    requires x != {}
    ensures e in x
  {
    e := AnyOf(x);
  }

  lemma DeleteAccountKeepsInv(s: State, a: int)
    requires Inv(s) && a in s.provider
    ensures Inv(Step(s, DeleteAccount(a)))
  {
    var t := Step(s, DeleteAccount(a));
    DeleteAccountExactly(s, a);
    FewerHolds(s, t);
    forall k | k in t.logins ensures IsHeld(t, k) {
      var b :| Holds(s, b, k) && b != a;
      assert Holds(t, b, k);
    }
  }

  lemma AppendFormed(s: State, a: int, l: int, logins: map<int, Login>)
    requires Formed(s) && a in s.provider && !Holds(s, a, l) && logins.Keys == s.logins.Keys + {l}
    ensures Formed(Appended(s, a, l, logins))
  {
    AppendHolds(s, a, l, logins);
  }

  lemma AppendStaysTogether(s: State, a: int, l: int, logins: map<int, Login>)
    requires OneProvider(s) && a in s.provider && forall b :: Holds(s, b, l) && b in s.provider ==> s.provider[b] == s.provider[a]
    ensures OneProvider(Appended(s, a, l, logins))
  {
    AppendHolds(s, a, l, logins);
  }

  lemma AppendKeepsInv(s: State, a: int, l: int, logins: map<int, Login>)
    requires Inv(s) && a in s.provider && !Holds(s, a, l)
    requires logins.Keys == s.logins.Keys + {l}
    requires forall b :: Holds(s, b, l) ==> b in s.provider && s.provider[b] == s.provider[a]
    ensures Inv(Appended(s, a, l, logins))
  {
    AppendFormed(s, a, l, logins);
    AppendStaysTogether(s, a, l, logins);
    AppendHolds(s, a, l, logins);
    forall k | k in logins ensures IsHeld(Appended(s, a, l, logins), k) {
      if k == l {
        assert Holds(Appended(s, a, l, logins), a, l);
      } else {
        var b :| Holds(s, b, k);
        assert Holds(Appended(s, a, l, logins), b, k);
      }
    }
  }

  lemma SameHoldsKeepInv(s: State, t: State)
    requires Inv(s) && Formed(t) && t.logins.Keys == s.logins.Keys
    requires forall b, k :: Holds(t, b, k) <==> Holds(s, b, k)
    requires forall a, b :: a in s.provider && b in s.provider && s.provider[a] == s.provider[b] ==> a in t.provider && b in t.provider && t.provider[a] == t.provider[b]
    requires t.provider.Keys == s.provider.Keys
    ensures Inv(t)
  {
    SameHoldsStayHeld(s, t);
  }

  lemma NewAccountKeepsInv(s: State, a: int)
    requires Inv(s)
    ensures Inv(Step(s, NewAccount(a)))
  {
    var t := Step(s, NewAccount(a));
    assert forall b, k :: Holds(t, b, k) <==> Holds(s, b, k);
    assert Formed(t);
    SameHoldsStayTogether(s, t);
    SameHoldsStayHeld(s, t);
  }

  lemma SameHoldsStayTogether(s: State, t: State)
    requires OneProvider(s) && forall b, k :: Holds(t, b, k) <==> Holds(s, b, k)
    requires forall b, k :: Holds(s, b, k) ==> b in s.provider && b in t.provider && t.provider[b] == s.provider[b]
    ensures OneProvider(t)
  {
  }

  lemma SameHoldsStayHeld(s: State, t: State)
    requires EveryLoginHeld(s) && t.logins.Keys == s.logins.Keys
    requires forall b, k :: Holds(t, b, k) <==> Holds(s, b, k)
    ensures EveryLoginHeld(t)
  {
    forall k | k in t.logins ensures IsHeld(t, k) {
      var b :| Holds(s, b, k);
      assert Holds(t, b, k);
    }
  }

  lemma DeleteProviderKeepsInv(s: State, p: int)
    requires Inv(s) && p in s.names
    ensures Inv(Step(s, DeleteProvider(p)))
  {
    var t := Step(s, DeleteProvider(p));
    assert forall b, k :: Holds(t, b, k) <==> Holds(s, b, k);
    SameHoldsKeepInv(s, t);
  }

  lemma UpdateKeepsInv(s: State, a: int, l: int, login: Login)
    requires Inv(s) && Holds(s, a, l)
    ensures Inv(Step(s, UpdateLogin(a, l, login)))
  {
    var t := Step(s, UpdateLogin(a, l, login));
    assert forall b, k :: Holds(t, b, k) <==> Holds(s, b, k);
    assert t.logins.Keys == s.logins.Keys;
    SameHoldsKeepInv(s, t);
  }

  lemma MoveKeepsInv(s: State, a: int, l: int, up: bool)
    requires Inv(s) && Holds(s, a, l)
    ensures Inv(Step(s, MoveLogin(a, l, up)))
  {
    var t := Step(s, MoveLogin(a, l, up));
    MovedSame(s.lists[a], l, up);
    assert forall b, k :: Holds(t, b, k) <==> Holds(s, b, k);
    SameHoldsKeepInv(s, t);
  }

  lemma StepKeepsInv(s: State, op: Op)
    requires Inv(s) && FreshId(s, op)
    ensures Inv(Step(s, op))
  {
    if ErrorOf(s, op).None? {
      match op
      case NewAccount(a) => NewAccountKeepsInv(s, a);
      case DeleteAccount(a) => DeleteAccountKeepsInv(s, a);
      case CreateProvider(_, _, _) => CreateKeepsInv(s, op);
      case DeleteProvider(p) => DeleteProviderKeepsInv(s, p);
      case SetProvider(a, to) => if s.provider[a] != to { SetKeepsInv(s, op); }
      case AddLogin(a, id, login) => AppendKeepsInv(s, a, id, s.logins[id := login]);
      case UpdateLogin(a, l, login) => UpdateKeepsInv(s, a, l, login);
      case RemoveLogin(a, l) => LetGoKeepsInv(s, a, l);
      case MoveLogin(a, l, up) => MoveKeepsInv(s, a, l, up);
      case ShareLogin(a, l) => AppendKeepsInv(s, a, l, s.logins);
    }
  }

  ghost predicate Run(states: seq<State>, ops: seq<Op>) {
    && |states| == |ops| + 1 && states[0] == Tables(map[], map[], map[], map[])
    && forall i :: 0 <= i < |ops| ==> FreshId(states[i], ops[i]) && states[i + 1] == Step(states[i], ops[i])
  }

  // In every run all holders of one login are on one provider or all on none, and no login is
  // left without a holder.
  lemma {:induction false} EveryRunKeepsInv(states: seq<State>, ops: seq<Op>)
    requires Run(states, ops)
    ensures Inv(states[|ops|])
  {
    if ops != [] {
      var n := |ops| - 1;
      forall i | 0 <= i < n
        ensures FreshId(states[..n + 1][i], ops[..n][i]) && states[..n + 1][i + 1] == Step(states[..n + 1][i], ops[..n][i])
      {
        assert FreshId(states[i], ops[i]);
      }
      EveryRunKeepsInv(states[..n + 1], ops[..n]);
      StepKeepsInv(states[n], ops[n]);
    }
  }

  // ---- what is not kept ------------------------------------------------------------------------

  // No account holds two logins of one username.
  ghost predicate UsernamesDistinct(s: State) {
    forall a, k, l :: Holds(s, a, k) && Holds(s, a, l) && k in s.logins && l in s.logins && k != l
      ==> s.logins[k].username != s.logins[l].username
  }

  // Editing a shared login checks only the account it is edited from: the usernames stay distinct
  // exactly when no account that holds it has the new one on another login.
  lemma UpdateKeepsUsernamesExactly(s: State, op: Op)
    requires Inv(s) && UsernamesDistinct(s) && op.UpdateLogin? && ErrorOf(s, op).None?
    ensures UsernamesDistinct(Step(s, op)) <==> forall a :: Holds(s, a, op.id) ==> !UsernameOn(s, a, op.login.username, {op.id})
  {
    var t := Step(s, op);
    assert forall b, k :: Holds(t, b, k) <==> Holds(s, b, k);
    if a, k :| Holds(s, a, op.id) && Holds(s, a, k) && k != op.id && k in s.logins && s.logins[k].username == op.login.username {
      assert Holds(t, a, op.id) && Holds(t, a, k);
      assert UsernameOn(s, a, op.login.username, {op.id});
    }
  }

  const First: Login := Login("a", "u")
  const Second: Login := Login("b", "v")
  const Edited: Login := Login("a", "v")
  const Both: map<int, Option<int>> := map[1 := Some(5), 2 := Some(5)]

  const Nothing: State := Tables(map[], map[], map[], map[])
  const One: State := Tables(map[1 := None], map[], map[], map[1 := []])
  const Two: State := Tables(map[1 := None, 2 := None], map[], map[], map[1 := [], 2 := []])
  const Joined: State := Tables(Both, map[5 := "p"], map[], map[1 := [], 2 := []])
  const Listed: State := Tables(Both, map[5 := "p"], map[10 := First], map[1 := [10], 2 := []])
  const Shared: State := Tables(Both, map[5 := "p"], map[10 := First], map[1 := [10], 2 := [10]])
  const Beside: State := Tables(Both, map[5 := "p"], map[10 := First, 11 := Second], map[1 := [10, 11], 2 := [10]])
  const Doubled: State := Tables(Both, map[5 := "p"], map[10 := Edited, 11 := Second], map[1 := [10, 11], 2 := [10]])

  ghost predicate Leads(s: State, op: Op, t: State) { FreshId(s, op) && Step(s, op) == t }

  lemma TwoAccounts()
    ensures Leads(Nothing, NewAccount(1), One) && Leads(One, NewAccount(2), Two)
  {
  }

  lemma BothJoin()
    ensures Leads(Two, CreateProvider(5, "p", [1, 2]), Joined)
  {
    var p := Placed(Two, CreateProvider(5, "p", [1, 2]));
    assert p == Joined;
    assert [1, 2][..1] == [1] && [1][..0] == [];
    assert DropAll(p, [1]) == DropShares(p, 1) == p;
    assert DropAll(p, [1, 2]) == DropShares(p, 2) == p;
  }

  lemma FirstListed()
    ensures Leads(Joined, AddLogin(1, 10, First), Listed)
  {
    assert Joined.lists[1] == [];
    assert ErrorOf(Joined, AddLogin(1, 10, First)).None?;
    assert Joined.lists[1] + [10] == [10];
  }

  lemma ThenShared()
    ensures Leads(Listed, ShareLogin(2, 10), Shared)
  {
    assert Holds(Listed, 1, 10) && 1 in Holders(Listed, 10);
    assert forall x :: x in Holders(Listed, 10) ==> x == 1;
    assert ErrorOf(Listed, ShareLogin(2, 10)).None?;
    assert Listed.lists[2] + [10] == [10];
  }

  lemma SecondBeside()
    ensures Leads(Shared, AddLogin(1, 11, Second), Beside) && UsernamesDistinct(Beside)
  {
    assert Lower("a") == "a" && Lower("b") == "b";
    assert ErrorOf(Shared, AddLogin(1, 11, Second)).None?;
    assert Shared.lists[1] + [11] == [10, 11];
  }

  lemma EditDoubles()
    ensures ErrorOf(Beside, UpdateLogin(2, 10, Edited)).None? && Leads(Beside, UpdateLogin(2, 10, Edited), Doubled)
    ensures !UsernamesDistinct(Doubled)
  {
    assert Holds(Doubled, 1, 10) && Holds(Doubled, 1, 11);
  }

  lemma RunExtends(states: seq<State>, ops: seq<Op>, op: Op, t: State)
    requires Run(states, ops) && Leads(states[|ops|], op, t)
    ensures Run(states + [t], ops + [op]) && (states + [t])[|ops + [op]|] == t && (states + [t])[|ops + [op]| - 1] == states[|ops|]
  {
  }

  lemma RunToJoined() returns (states: seq<State>, ops: seq<Op>)
    ensures Run(states, ops) && states[|ops|] == Joined
  {
    states, ops := [Nothing], [];
    TwoAccounts();
    BothJoin();
    RunExtends(states, ops, NewAccount(1), One);
    states, ops := states + [One], ops + [NewAccount(1)];
    RunExtends(states, ops, NewAccount(2), Two);
    states, ops := states + [Two], ops + [NewAccount(2)];
    RunExtends(states, ops, CreateProvider(5, "p", [1, 2]), Joined);
    states, ops := states + [Joined], ops + [CreateProvider(5, "p", [1, 2])];
  }

  lemma RunToBeside() returns (states: seq<State>, ops: seq<Op>)
    ensures Run(states, ops) && states[|ops|] == Beside
  {
    states, ops := RunToJoined();
    FirstListed();
    ThenShared();
    SecondBeside();
    RunExtends(states, ops, AddLogin(1, 10, First), Listed);
    states, ops := states + [Listed], ops + [AddLogin(1, 10, First)];
    RunExtends(states, ops, ShareLogin(2, 10), Shared);
    states, ops := states + [Shared], ops + [ShareLogin(2, 10)];
    RunExtends(states, ops, AddLogin(1, 11, Second), Beside);
    states, ops := states + [Beside], ops + [AddLogin(1, 11, Second)];
  }

  // A run to such an edit: account 1 shares its login with account 2, adds a second one, and
  // account 2 gives the shared one the second's username.
  lemma UpdateCanDoubleAUsername() returns (states: seq<State>, ops: seq<Op>)
    ensures ops != [] && Run(states, ops) && UsernamesDistinct(states[|ops| - 1])
    ensures ops[|ops| - 1].UpdateLogin? && ErrorOf(states[|ops| - 1], ops[|ops| - 1]).None? && !UsernamesDistinct(states[|ops|])
  {
    states, ops := RunToBeside();
    SecondBeside();
    EditDoubles();
    RunExtends(states, ops, UpdateLogin(2, 10, Edited), Doubled);
    states, ops := states + [Doubled], ops + [UpdateLogin(2, 10, Edited)];
  }

  // ---- unsharing in two units ----------------------------------------------------------------------

  // With nothing in between, a hold given up leaves the login and every other hold.
  lemma UnshareKeepsTheLogin(s: State, a: int, l: int)
    requires Inv(s) && UnshareRefusal(s, a, l).None?
    ensures var t := Step(s, RemoveLogin(a, l));
      && t.logins == s.logins && !Holds(t, a, l) && (forall b :: b != a ==> (Holds(t, b, l) <==> Holds(s, b, l)))
      && exists b :: Holds(t, b, l)
  {
    var t := Step(s, RemoveLogin(a, l));
    LetGoExactly(s, a, l);
    HeldElsewhere(s, a, l);
    if Holders(s, l) - {a} == {} { SubsetSize(Holders(s, l), {a}); }
    var b :| b != a && Holds(s, b, l);
    assert Holds(t, b, l);
  }

  // Two holders that both pass the check before either lets go delete the login between them,
  // exactly when no third account holds it.
  lemma CrossedUnsharesDeleteExactly(s: State, a: int, b: int, l: int)
    requires Inv(s) && a != b && UnshareRefusal(s, a, l).None? && UnshareRefusal(s, b, l).None?
    ensures var t := Step(Step(s, RemoveLogin(a, l)), RemoveLogin(b, l));
      l !in t.logins <==> Holders(s, l) == {a, b}
  {
    var mid := Step(s, RemoveLogin(a, l));
    LetGoExactly(s, a, l);
    assert Holds(mid, b, l);
    LetGoExactly(mid, b, l);
    assert Holds(s, a, l) && l in s.logins;
    if c :| c != b && Holds(mid, c, l) { assert c in Holders(s, l); }
  }

  lemma CrossedUnsharesCanDelete(s: State, a: int, b: int, l: int)
    requires Inv(s) && a != b && Holders(s, l) == {a, b}
    ensures UnshareRefusal(s, a, l).None? && UnshareRefusal(s, b, l).None?
    ensures l !in Step(Step(s, RemoveLogin(a, l)), RemoveLogin(b, l)).logins
  {
    assert a in Holders(s, l) && b in Holders(s, l);
    CrossedUnsharesDeleteExactly(s, a, b, l);
  }

  lemma BesideHolders()
    ensures Holders(Beside, 10) == {1, 2}
  {
    assert Holds(Beside, 1, 10) && Holds(Beside, 2, 10);
  }

  // Two accounts that come to share a login, and both unshare it.
  lemma UnsharesCanCross() returns (states: seq<State>, ops: seq<Op>)
    ensures Run(states, ops) && UnshareRefusal(states[|ops|], 1, 10).None? && UnshareRefusal(states[|ops|], 2, 10).None?
    ensures 10 in states[|ops|].logins && 10 !in Step(Step(states[|ops|], RemoveLogin(1, 10)), RemoveLogin(2, 10)).logins
  {
    states, ops := RunToBeside();
    EveryRunKeepsInv(states, ops);
    BesideHolders();
    CrossedUnsharesCanDelete(Beside, 1, 2, 10);
  }

  // ---- which way a login moves -----------------------------------------------------------------

  lemma {:induction false} PositionAfter(a: seq<int>, login: int, b: seq<int>)
    requires login !in a
    ensures login in a + [login] + b && Position(a + [login] + b, login) == |a|
  {
    var list := a + [login] + b;
    assert list[|a|] == login;
    if a != [] {
      PositionAfter(a[1..], login, b);
      assert list[1..] == a[1..] + [login] + b;
      assert list[0] == a[0] && a[0] in a;
    }
  }

  // Up is towards the head of the list, where seats are taken first, and down away from it: it
  // changes places with the one next to it, and at the end it stays.
  lemma MovesOnePlace(a: seq<int>, x: int, login: int, b: seq<int>)
    requires login !in a && login != x && login !in b
    ensures login in a + [x] + [login] + b && Moved(a + [x] + [login] + b, login, true) == a + [login] + [x] + b
    ensures login in a + [login] + [x] + b && Moved(a + [login] + [x] + b, login, false) == a + [x] + [login] + b
    ensures login in [login] + b && Moved([login] + b, login, true) == [login] + b
    ensures login in a + [login] && Moved(a + [login], login, false) == a + [login]
  {
    PositionAfter(a + [x], login, b);
    PositionAfter(a, login, [x] + b);
    PositionAfter([], login, b);
    PositionAfter(a, login, []);
    assert a + [login] + ([x] + b) == a + [login] + [x] + b;
    assert [] + [login] + b == [login] + b && a + [login] + [] == a + [login];
    assert Moved(a + [x] + [login] + b, login, true)[|a|] == login;
  }
}
