// What the seat arithmetic guarantees: more blocks never free a seat, and reading only the blocks
// of login siblings changes no answer.
module FreeSeat {
  import opened Common
  import opened SlotSum
  import opened Seats

  // ---- more blocks, fewer seats --------------------------------------------------------------

  lemma {:induction false} DemandWithout(items: Items, i: nat, account: int)
    requires i < |items|
    ensures Demand(items, account) ==
      (var rest := Demand(items[..i] + items[i + 1..], account);
       if items[i].0 == account then Plus(rest, items[i].1) else rest)
  {
    var without := items[..i] + items[i + 1..];
    if i == |items| - 1 {
      assert without == items[..|items| - 1];
    } else {
      var front := items[..|items| - 1];
      DemandWithout(front, i, account);
      assert front[..i] + front[i + 1..] == without[..|without| - 1];
      assert without[|without| - 1] == items[|items| - 1];
    }
  }

  lemma DropMatched<T>(xs: seq<T>, ys: seq<T>, i: nat)
    requires multiset(xs) <= multiset(ys) && xs != [] && i < |ys| && ys[i] == xs[|xs| - 1]
    ensures multiset(xs[..|xs| - 1]) <= multiset(ys[..i] + ys[i + 1..])
  {
    var front, last, rest := xs[..|xs| - 1], xs[|xs| - 1], ys[..i] + ys[i + 1..];
    assert xs == front + [last] && ys == ys[..i] + [last] + ys[i + 1..];
    forall x ensures multiset(front)[x] <= multiset(rest)[x] {
      assert multiset(xs)[x] <= multiset(ys)[x];
      assert multiset(xs)[x] == multiset(front)[x] + multiset{last}[x];
      assert multiset(ys)[x] == multiset(rest)[x] + multiset{last}[x];
    }
  }

  lemma {:induction false} DemandMonotone(xs: Items, ys: Items, account: int)
    requires multiset(xs) <= multiset(ys)
    ensures AtMost(Demand(xs, account), Demand(ys, account))
  {
    if xs != [] {
      var front, last := xs[..|xs| - 1], xs[|xs| - 1];
      assert xs == front + [last];
      assert last in multiset(ys);
      var i :| 0 <= i < |ys| && ys[i] == last;
      var rest := ys[..i] + ys[i + 1..];
      DropMatched(xs, ys, i);
      DemandMonotone(front, rest, account);
      DemandWithout(ys, i, account);
    }
  }

  lemma {:induction false} TakenFromMonotone(pools: seq<(Pool, Option<nat>)>, a: Slots, b: Slots, pool: Pool)
    requires AtMost(a, b)
    ensures AtMost(TakenFrom(pools, a, pool), TakenFrom(pools, b, pool))
  {
    if pools != [] { TakenFromMonotone(pools[1..], Rest(a, pools[0].1), Rest(b, pools[0].1), pool); }
  }

  lemma {:induction false} NothingTaken(pools: seq<(Pool, Option<nat>)>, pool: Pool)
    ensures TakenFrom(pools, Some(0), pool) == Some(0)
  {
    if pools != [] { NothingTaken(pools[1..], pool); }
  }

  lemma BlockedMonotone(xs: Items, ys: Items, account: int)
    requires multiset(xs) <= multiset(ys) && Blocked(xs, account)
    ensures Blocked(ys, account)
  {
    var i :| 0 <= i < |xs| && xs[i].0 == account;
    assert xs[i] in multiset(ys);
    var j :| 0 <= j < |ys| && ys[j] == xs[i];
  }

  lemma TakenMonotone(seating: Seating, xs: Items, ys: Items, pool: Pool)
    requires multiset(xs) <= multiset(ys)
    ensures AtMost(Taken(seating, DemandsOf(xs), pool), Taken(seating, DemandsOf(ys), pool))
  {
    var f, g := Shares(seating, DemandsOf(xs), pool), Shares(seating, DemandsOf(ys), pool);
    forall a | a in f ensures a in g && AtMost(f[a], g[a]) {
      BlockedMonotone(xs, ys, a);
      DemandMonotone(xs, ys, a);
      TakenFromMonotone(AccountPools(seating, a, None), Demand(xs, a), Demand(ys, a), pool);
    }
    SumMonotone(f, DemandsOf(xs).Keys, g, DemandsOf(ys).Keys);
  }

  // Full-blockedness is monotone in the block set, through the ordered fill of shared pools.
  lemma FullyBlockedMonotone(seating: Seating, xs: Items, ys: Items, account: int)
    requires multiset(xs) <= multiset(ys) && FullyBlocked(seating, xs, account)
    ensures FullyBlocked(seating, ys, account)
  {
    forall p | p in AccountPools(seating, account, Some(LimitOf(seating, account)))
      ensures EffectiveLimit(PoolSize(p), Taken(seating, DemandsOf(ys), p.0)) == 0
    {
      TakenMonotone(seating, xs, ys, p.0);
    }
  }

  lemma UnblockedAccountHasItsSeats(seating: Seating, account: int)
    requires HasSeat(seating, account)
    ensures !FullyBlocked(seating, [], account)
  {
    var p :| p in AccountPools(seating, account, Some(LimitOf(seating, account))) && PoolSize(p) > 0;
    assert DemandsOf([]).Keys == {};
    assert Taken(seating, DemandsOf([]), p.0) == Some(0);
  }

  // ---- selections as multisets ---------------------------------------------------------------

  lemma {:induction false} ItemsMultiset(xs: seq<Block>, ys: seq<Block>)
    requires multiset(xs) <= multiset(ys)
    ensures multiset(ItemsOf(xs)) <= multiset(ItemsOf(ys))
  {
    if xs != [] {
      var front, last := xs[..|xs| - 1], xs[|xs| - 1];
      assert xs == front + [last];
      assert last in multiset(ys);
      var i :| 0 <= i < |ys| && ys[i] == last;
      var rest := ys[..i] + ys[i + 1..];
      DropMatched(xs, ys, i);
      ItemsMultiset(front, rest);
      ItemsAt(ys, i);
    }
  }

  lemma ItemsLast(front: seq<Block>, last: Block)
    ensures ItemsOf(front + [last]) == ItemsOf(front) + [(last.account, last.slots)]
  {
    assert (front + [last])[..|front|] == front;
  }

  lemma {:induction false} ItemsAt(ys: seq<Block>, i: nat)
    requires i < |ys|
    ensures multiset(ItemsOf(ys)) == multiset(ItemsOf(ys[..i] + ys[i + 1..])) + multiset{(ys[i].account, ys[i].slots)}
  {
    var front, last := ys[..|ys| - 1], ys[|ys| - 1];
    assert ys == front + [last];
    ItemsLast(front, last);
    if i == |front| {
      assert ys[..i] + ys[i + 1..] == front;
    } else {
      ItemsAt(front, i);
      assert ys[..i] + ys[i + 1..] == front[..i] + front[i + 1..] + [last];
      ItemsLast(front[..i] + front[i + 1..], last);
    }
  }

  lemma {:induction false} SelectMultiset(xs: seq<Block>, keep: Block -> bool, b: Block)
    ensures multiset(Select(xs, keep))[b] == if keep(b) then multiset(xs)[b] else 0
  {
    if xs != [] {
      SelectMultiset(xs[..|xs| - 1], keep, b);
      assert xs == xs[..|xs| - 1] + [xs[|xs| - 1]];
    }
  }

  lemma SelectNarrower(xs: seq<Block>, f: Block -> bool, ys: seq<Block>, g: Block -> bool)
    requires multiset(xs) <= multiset(ys)
    requires forall b :: b in xs && f(b) ==> g(b)
    ensures multiset(Select(xs, f)) <= multiset(Select(ys, g))
  {
    forall b ensures multiset(Select(xs, f))[b] <= multiset(Select(ys, g))[b] {
      SelectMultiset(xs, f, b);
      SelectMultiset(ys, g, b);
      assert multiset(xs)[b] > 0 ==> b in xs;
    }
  }

  // ---- only the siblings' blocks matter ------------------------------------------------------

  predicate ShareLogin(seating: Seating, a: int, b: int) {
    exists i, j | 0 <= i < |LoginsOf(seating, a)| && 0 <= j < |LoginsOf(seating, b)| ::
      LoginsOf(seating, a)[i].0 == LoginsOf(seating, b)[j].0
  }

  predicate Reach(seating: Seating, ids: set<int>, c: int) {
    c in ids || exists a | a in ids :: ShareLogin(seating, a, c)
  }

  function WithSiblings(seating: Seating, ids: set<int>): (wider: set<int>)
    ensures forall c :: c in wider <==> Reach(seating, ids, c)
  {
    ids + set c | c in seating.logins.Keys && exists a | a in ids :: ShareLogin(seating, a, c)
  }

  lemma {:induction false} NotAmongPools(pools: seq<(Pool, Option<nat>)>, left: Slots, pool: Pool)
    requires forall p :: p in pools ==> p.0 != pool
    ensures TakenFrom(pools, left, pool) == Some(0)
  {
    if pools != [] { NotAmongPools(pools[1..], Rest(left, pools[0].1), pool); }
  }

  lemma PoolReachesOnlySharers(seating: Seating, account: int, limit: Option<nat>, other: int, p: (Pool, Option<nat>), left: Slots)
    requires p in AccountPools(seating, account, limit) && other != account && !ShareLogin(seating, account, other)
    ensures TakenFrom(AccountPools(seating, other, None), left, p.0) == Some(0)
  {
    var pools := AccountPools(seating, other, None);
    var i :| 0 <= i < |AccountPools(seating, account, limit)| && AccountPools(seating, account, limit)[i] == p;
    forall q | q in pools ensures q.0 != p.0 {
      var j :| 0 <= j < |pools| && pools[j] == q;
    }
    NotAmongPools(pools, left, p.0);
  }

  lemma {:induction false} DemandOfSelected(blocks: seq<Block>, keep: Block -> bool, account: int)
    requires forall b :: b in blocks && b.account == account ==> keep(b)
    ensures Demand(ItemsOf(Select(blocks, keep)), account) == Demand(ItemsOf(blocks), account)
  {
    if blocks != [] {
      var front, last := blocks[..|blocks| - 1], blocks[|blocks| - 1];
      assert blocks == front + [last];
      DemandOfSelected(front, keep, account);
      if keep(last) { assert Select(blocks, keep)[..|Select(front, keep)|] == Select(front, keep); }
      DemandOfLast(front, last, account);
      DemandOfLast(Select(front, keep), last, account);
    }
  }

  lemma DemandOfLast(front: seq<Block>, last: Block, account: int)
    ensures Demand(ItemsOf(front + [last]), account) ==
      if last.account == account then Plus(Demand(ItemsOf(front), account), last.slots) else Demand(ItemsOf(front), account)
  {
    assert (front + [last])[..|front|] == front;
    assert ItemsOf(front + [last])[..|front|] == ItemsOf(front);
  }

  lemma {:induction false} DemandAppend(xs: Items, ys: Items, more: Items, account: int)
    requires Demand(xs, account) == Demand(ys, account)
    ensures Demand(xs + more, account) == Demand(ys + more, account)
  {
    if more == [] {
      assert xs + more == xs && ys + more == ys;
    } else {
      DemandAppend(xs, ys, more[..|more| - 1], account);
      assert (xs + more)[..|xs + more| - 1] == xs + more[..|more| - 1];
      assert (ys + more)[..|ys + more| - 1] == ys + more[..|more| - 1];
    }
  }

  function In(accounts: set<int>): Block -> bool { (b: Block) => b.account in accounts }

  // Pending blocks of other accounts are dropped the same way.
  function PendingOf(pending: Items, accounts: set<int>): (r: Items)
    ensures forall i :: i in r <==> i in pending && i.0 in accounts
  {
    if pending == [] then []
    else
      var front := PendingOf(pending[..|pending| - 1], accounts);
      var last := pending[|pending| - 1];
      assert pending == pending[..|pending| - 1] + [last];
      if last.0 in accounts then front + [last] else front
  }

  lemma {:induction false} DemandOfPending(items: Items, pending: Items, accounts: set<int>, account: int)
    requires account in accounts
    ensures Demand(items + PendingOf(pending, accounts), account) == Demand(items + pending, account)
  {
    if pending == [] {
      assert items + [] == items;
    } else {
      var front, last := pending[..|pending| - 1], pending[|pending| - 1];
      DemandOfPending(items, front, accounts, account);
      assert (items + pending)[..|items + pending| - 1] == items + front;
      var some := PendingOf(pending, accounts);
      if last.0 in accounts {
        assert (items + some)[..|items + some| - 1] == items + PendingOf(front, accounts);
      }
    }
  }

  ghost predicate SameFor(xs: Items, ys: Items, account: int) { Demand(xs, account) == Demand(ys, account) }

  // Two readings of the blocks that agree on an account and on everyone sharing a login with it
  // agree on whether it is fully blocked.
  lemma SiblingsDecide(seating: Seating, xs: Items, ys: Items, account: int)
    requires forall c :: c == account || ShareLogin(seating, account, c) ==> SameFor(xs, ys, c)
    ensures FullyBlocked(seating, xs, account) <==> FullyBlocked(seating, ys, account)
  {
    forall p | p in AccountPools(seating, account, Some(LimitOf(seating, account)))
      ensures Taken(seating, DemandsOf(xs), p.0) == Taken(seating, DemandsOf(ys), p.0)
    {
      TakenBySiblings(seating, xs, ys, account, p);
    }
  }

  lemma TakenBySiblings(seating: Seating, xs: Items, ys: Items, account: int, p: (Pool, Option<nat>))
    requires forall c :: c == account || ShareLogin(seating, account, c) ==> SameFor(xs, ys, c)
    requires p in AccountPools(seating, account, Some(LimitOf(seating, account)))
    ensures Taken(seating, DemandsOf(xs), p.0) == Taken(seating, DemandsOf(ys), p.0)
  {
    var f, g := Shares(seating, DemandsOf(xs), p.0), Shares(seating, DemandsOf(ys), p.0);
    forall c | c in f || c in g
      ensures c in f && c !in g ==> f[c] == Some(0)
      ensures c in g && c !in f ==> g[c] == Some(0)
      ensures c in f && c in g ==> f[c] == g[c]
    {
      if c != account && !ShareLogin(seating, account, c) {
        PoolReachesOnlySharers(seating, account, Some(LimitOf(seating, account)), c, p, Demand(xs, c));
        PoolReachesOnlySharers(seating, account, Some(LimitOf(seating, account)), c, p, Demand(ys, c));
      } else {
        assert SameFor(xs, ys, c);
        NothingTaken(AccountPools(seating, c, None), p.0);
        if c !in f { UnblockedDemandsNothing(xs, c); }
        if c !in g { UnblockedDemandsNothing(ys, c); }
      }
    }
    SumEqual(f, DemandsOf(xs).Keys, g, DemandsOf(ys).Keys);
  }

  // Reading the blocks of the asked accounts and their login siblings answers as all blocks do.
  lemma SiblingReadIsEnough(seating: Seating, blocks: seq<Block>, pending: Items, ids: set<int>, account: int)
    requires account in ids
    ensures var wider := WithSiblings(seating, ids);
      FullyBlocked(seating, ItemsOf(Select(blocks, In(wider))) + PendingOf(pending, wider), account)
      <==> FullyBlocked(seating, ItemsOf(blocks) + pending, account)
  {
    var wider := WithSiblings(seating, ids);
    var some := ItemsOf(Select(blocks, In(wider))) + PendingOf(pending, wider);
    forall c | c == account || ShareLogin(seating, account, c) ensures SameFor(some, ItemsOf(blocks) + pending, c) {
      assert Reach(seating, ids, c);
      DemandOfPending(ItemsOf(Select(blocks, In(wider))), pending, wider, c);
      DemandOfSelected(blocks, In(wider), c);
      DemandAppend(ItemsOf(Select(blocks, In(wider))), ItemsOf(blocks), pending, c);
    }
    SiblingsDecide(seating, some, ItemsOf(blocks) + pending, account);
  }
}
