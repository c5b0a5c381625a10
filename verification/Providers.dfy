// The provider and login writers over their tables (app/account_links.py:831-974, 1132-1342).
module Providers {
  import opened Common
  import opened UrlSplit
  import opened ProviderModel
  import opened ProviderSafety

  class Registry {
    var provider: map<int, Option<int>>
    var names: map<int, string>
    var logins: map<int, Login>
    var lists: map<int, seq<int>>

    ghost predicate Valid()
      reads this
    {
      lists.Keys == provider.Keys && Inv(View())
    }

    function View(): State
      requires lists.Keys == provider.Keys
      reads this
    {
      Tables(provider, names, logins, lists)
    }

    constructor ()
      ensures Valid() && View() == Tables(map[], map[], map[], map[])
    {
      provider, names, logins, lists := map[], map[], map[], map[];
    }

    method Taken(account: int, username: string, name: string, but: set<int>) returns (refused: Option<Error>)
      requires Valid() && account in lists
      ensures refused == if UsernameOn(View(), account, username, but) then Some(UsernameTaken)
        else if NameOn(View(), account, name, but) then Some(NameTaken) else None
    {
      var list := lists[account];
      forall k | 0 <= k < |list| ensures list[k] in logins { assert Holds(View(), account, list[k]); }
      for i := 0 to |list|
        invariant forall k :: 0 <= k < i && list[k] !in but ==> logins[list[k]].username != username
      {
        if list[i] !in but && logins[list[i]].username == username {
          assert list[i] in View().lists[account] && list[i] in View().logins;
          return Some(UsernameTaken);
        }
      }
      for i := 0 to |list|
        invariant forall k :: 0 <= k < i && list[k] !in but ==> Lower(logins[list[k]].name) != Lower(name)
      {
        if list[i] !in but && Lower(logins[list[i]].name) == Lower(name) {
          assert list[i] in View().lists[account] && list[i] in View().logins;
          return Some(NameTaken);
        }
      }
      return None;
    }

    method DropSharesOf(account: int)
      requires lists.Keys == provider.Keys && account in provider
      modifies this`lists
      ensures lists.Keys == provider.Keys && View() == DropShares(old(View()), account)
    {
      var list, kept := lists[account], [];
      for i := 0 to |list|
        invariant kept == KeptList(View(), account, list[..i])
      {
        assert list[..i + 1][..i] == list[..i];
        if Together(View(), account, list[i]) { kept := kept + [list[i]]; }
      }
      assert list[..|list|] == list;
      lists := lists[account := kept];
    }

    method CreateProvider(id: int, name: string, accounts: seq<int>) returns (refused: Option<Error>)
      requires Valid() && FreshId(View(), ProviderModel.CreateProvider(id, name, accounts))
      modifies this
      ensures Valid() && refused == ErrorOf(old(View()), ProviderModel.CreateProvider(id, name, accounts))
      ensures View() == Step(old(View()), ProviderModel.CreateProvider(id, name, accounts))
    {
      StepKeepsInv(View(), ProviderModel.CreateProvider(id, name, accounts));
      if NamedLike(View(), name) { return Some(NameTaken); }
      for i := 0 to |accounts|
        invariant forall k :: 0 <= k < i ==> accounts[k] in provider
      {
        if accounts[i] !in provider { return Some(AccountGone); }
      }
      refused := None;
      // Every account moves before the first share is looked at.
      provider, names := PutAll(provider, accounts, Some(id)), names[id := name];
      DropSharesOfAll(accounts);
    }

    method DropSharesOfAll(accounts: seq<int>)
      requires lists.Keys == provider.Keys && forall i :: 0 <= i < |accounts| ==> accounts[i] in provider
      modifies this`lists
      ensures lists.Keys == provider.Keys && View() == DropAll(old(View()), accounts)
    {
      for i := 0 to |accounts|
        invariant lists.Keys == provider.Keys
        invariant View() == DropAll(old(View()), accounts[..i])
      {
        assert accounts[..i + 1][..i] == accounts[..i];
        DropSharesOf(accounts[i]);
      }
      assert accounts[..|accounts|] == accounts;
    }

    method DeleteProvider(id: int) returns (refused: Option<Error>)
      requires Valid()
      modifies this`provider, this`names
      ensures Valid() && refused == ErrorOf(old(View()), ProviderModel.DeleteProvider(id))
      ensures View() == Step(old(View()), ProviderModel.DeleteProvider(id))
    {
      StepKeepsInv(View(), ProviderModel.DeleteProvider(id));
      if id !in names { return Some(ProviderGone); }
      provider := map a | a in provider :: if provider[a] == Some(id) then None else provider[a];
      names := names - {id};
      return None;
    }

    method SetAccountProvider(account: int, to: Option<int>) returns (refused: Option<Error>)
      requires Valid()
      modifies this`provider, this`lists
      ensures Valid() && refused == ErrorOf(old(View()), SetProvider(account, to))
      ensures View() == Step(old(View()), SetProvider(account, to))
    {
      StepKeepsInv(View(), SetProvider(account, to));
      if account !in provider { return Some(AccountGone); }
      if to.Some? && to.value !in names { return Some(ProviderGone); }
      if provider[account] == to { return None; }
      provider := provider[account := to];
      DropSharesOf(account);
      return None;
    }

    method ShareLogin(account: int, login: int) returns (refused: Option<Error>)
      requires Valid()
      modifies this`lists
      ensures Valid() && refused == ErrorOf(old(View()), ProviderModel.ShareLogin(account, login))
      ensures View() == Step(old(View()), ProviderModel.ShareLogin(account, login))
    {
      StepKeepsInv(View(), ProviderModel.ShareLogin(account, login));
      if login !in logins || Holders(View(), login) == {} { return Some(LoginGone); }
      if account !in provider { return Some(AccountGone); }
      if Holds(View(), account, login) { return Some(AlreadyHeld); }
      if !Shareable(View(), account, login) { return Some(OtherProvider); }
      refused := Taken(account, logins[login].username, logins[login].name, {});
      if refused.None? { lists := lists[account := lists[account] + [login]]; }
    }

    method AddLogin(account: int, id: int, login: Login) returns (refused: Option<Error>)
      requires Valid() && FreshId(View(), ProviderModel.AddLogin(account, id, login))
      modifies this`logins, this`lists
      ensures Valid() && refused == ErrorOf(old(View()), ProviderModel.AddLogin(account, id, login))
      ensures View() == Step(old(View()), ProviderModel.AddLogin(account, id, login))
    {
      StepKeepsInv(View(), ProviderModel.AddLogin(account, id, login));
      if account !in provider { return Some(AccountGone); }
      refused := Taken(account, login.username, login.name, {});
      if refused.None? { logins, lists := logins[id := login], lists[account := lists[account] + [id]]; }
    }

    method UpdateLogin(account: int, id: int, login: Login) returns (refused: Option<Error>)
      requires Valid()
      modifies this`logins
      ensures Valid() && refused == ErrorOf(old(View()), ProviderModel.UpdateLogin(account, id, login))
      ensures View() == Step(old(View()), ProviderModel.UpdateLogin(account, id, login))
    {
      StepKeepsInv(View(), ProviderModel.UpdateLogin(account, id, login));
      if !Holds(View(), account, id) { return Some(LoginGone); }
      refused := Taken(account, login.username, login.name, {id});
      if refused.None? { logins := logins[id := login]; }
    }

    method RemoveLogin(account: int, id: int) returns (refused: Option<Error>)
      requires Valid()
      modifies this`logins, this`lists
      ensures Valid() && refused == ErrorOf(old(View()), ProviderModel.RemoveLogin(account, id))
      ensures View() == Step(old(View()), ProviderModel.RemoveLogin(account, id))
    {
      StepKeepsInv(View(), ProviderModel.RemoveLogin(account, id));
      if !Holds(View(), account, id) { return Some(LoginGone); }
      var stillHeld := Holders(View(), id) - {account};
      lists := lists[account := Without(lists[account], id)];
      if stillHeld == {} { logins := logins - {id}; }
      return None;
    }

    // The first of unsharing's two units; RemoveLogin is the second.
    method CheckUnshare(account: int, id: int) returns (refused: Option<Error>)
      requires Valid()
      ensures refused == UnshareRefusal(View(), account, id)
    {
      if !Holds(View(), account, id) { return Some(LoginGone); }
      if |Holders(View(), id)| < 2 { return Some(NotShared); }
      return None;
    }

    method MoveLogin(account: int, id: int, up: bool) returns (refused: Option<Error>)
      requires Valid()
      modifies this`lists
      ensures Valid() && refused == ErrorOf(old(View()), ProviderModel.MoveLogin(account, id, up))
      ensures View() == Step(old(View()), ProviderModel.MoveLogin(account, id, up))
    {
      StepKeepsInv(View(), ProviderModel.MoveLogin(account, id, up));
      if !Holds(View(), account, id) { return Some(LoginGone); }
      var list := lists[account];
      var i := 0;
      while list[i] != id
        invariant 0 <= i < |list| && i <= Position(list, id)
        invariant Position(list[i..], id) + i == Position(list, id)
        decreases |list| - i
      {
        assert list[i..][1..] == list[i + 1..];
        i := i + 1;
      }
      var j := if up then i - 1 else i + 1;
      if 0 <= j < |list| { lists := lists[account := list[i := list[j]][j := id]]; }
      return None;
    }

    method DeleteAccount(account: int) returns (refused: Option<Error>)
      requires Valid()
      modifies this`provider, this`logins, this`lists
      ensures Valid() && refused == ErrorOf(old(View()), ProviderModel.DeleteAccount(account))
      ensures View() == Step(old(View()), ProviderModel.DeleteAccount(account))
    {
      StepKeepsInv(View(), ProviderModel.DeleteAccount(account));
      if account !in provider { return Some(AccountGone); }
      logins := logins - Held(View(), account);
      provider, lists := provider - {account}, lists - {account};
      return None;
    }
  }
}
