// When an account has no seat left, counted on its own limit, its own logins and the blocks
// themselves (app/account_blocks.py).
module SeatLaws {
  import opened Common
  import opened SlotSum
  import opened Seats
  import opened FreeSeat
  import opened SeatSearch
  import opened SeatWindow

  // ---- what is asked of an account -----------------------------------------------------------

  ghost predicate TakenWhole(items: Items, account: int) { exists x :: x in items && x.0 == account && x.1 == None }

  function PartsOf(account: int): ((int, Slots)) -> nat { (x: (int, Slots)) => if x.0 == account && x.1 != None then x.1.value else 0 }

  function Parts(items: Items, account: int): nat { SumOver(items, PartsOf(account)) }

  // The partial blocks of one account add up, unless one of its blocks takes it whole.
  lemma {:induction false} DemandIs(items: Items, account: int)
    ensures Demand(items, account) == if TakenWhole(items, account) then None else Some(Parts(items, account))
  {
    if items != [] {
      var front, last := items[..|items| - 1], items[|items| - 1];
      assert items == front + [last];
      DemandIs(front, account);
    }
  }

  ghost predicate WholeBlock(blocks: seq<Block>, keep: Block -> bool, account: int) {
    exists b :: b in blocks && keep(b) && b.account == account && b.slots == None
  }

  function PartOf(keep: Block -> bool, account: int): Block -> nat {
    (b: Block) => if keep(b) && b.account == account && b.slots != None then b.slots.value else 0
  }

  function KeptAsks(blocks: seq<Block>, keep: Block -> bool, account: int): Slots {
    if blocks == [] then Some(0)
    else
      var front, last := KeptAsks(blocks[..|blocks| - 1], keep, account), blocks[|blocks| - 1];
      if keep(last) && last.account == account then Plus(front, last.slots) else front
  }

  lemma {:induction false} DemandIsKept(blocks: seq<Block>, keep: Block -> bool, account: int)
    ensures Demand(ItemsOf(Select(blocks, keep)), account) == KeptAsks(blocks, keep, account)
  {
    if blocks != [] {
      var front, last := blocks[..|blocks| - 1], blocks[|blocks| - 1];
      assert blocks == front + [last];
      DemandIsKept(front, keep, account);
      DemandOfLast(Select(front, keep), last, account);
    }
  }

  lemma {:induction false} KeptAsk(blocks: seq<Block>, keep: Block -> bool, account: int)
    ensures KeptAsks(blocks, keep, account)
      == if WholeBlock(blocks, keep, account) then None else Some(SumOver(blocks, PartOf(keep, account)))
  {
    if blocks != [] {
      var front, last := blocks[..|blocks| - 1], blocks[|blocks| - 1];
      assert blocks == front + [last];
      KeptAsk(front, keep, account);
      WholeNext(front, last, keep, account);
    }
  }

  lemma WholeNext(front: seq<Block>, last: Block, keep: Block -> bool, account: int)
    ensures WholeBlock(front + [last], keep, account) <==>
      WholeBlock(front, keep, account) || (keep(last) && last.account == account && last.slots == None)
  {
    assert last in front + [last];
    if b :| b in front && keep(b) && b.account == account && b.slots == None { assert b in front + [last]; }
  }

  // ---- an account without logins -----------------------------------------------------------------

  ghost predicate NoLogins(seating: Seating, account: int) { account in seating.logins ==> seating.logins[account] == [] }

  function OwnLimit(seating: Seating, account: int): nat { if account in seating.limits then seating.limits[account] else 0 }

  lemma OwnPoolTaken(seating: Seating, items: Items, account: int)
    requires NoLogins(seating, account)
    ensures Taken(seating, DemandsOf(items), OwnPool(account)) == Demand(items, account)
  {
    var demands := DemandsOf(items);
    var f := Shares(seating, demands, OwnPool(account));
    forall a | a in demands && a != account ensures f[a] == Some(0) {
      NotAmongPools(AccountPools(seating, a, None), demands[a], OwnPool(account));
    }
    OnlyOneGives(f, demands.Keys, account);
    if Blocked(items, account) {
      OwnPoolTakesAll(seating, account, demands[account]);
    } else {
      UnblockedDemandsNothing(items, account);
    }
  }

  lemma OwnPoolTakesAll(seating: Seating, account: int, demand: Slots)
    requires NoLogins(seating, account)
    ensures TakenFrom(AccountPools(seating, account, None), demand, OwnPool(account)) == demand
  {
    var pools := AccountPools(seating, account, None);
    assert pools[0].0 == OwnPool(account) && pools[1..] == [];
  }

  // Its limit is all it has: it is full when its blocks take it whole or ask for that many seats.
  lemma OwnLimitDecides(seating: Seating, items: Items, account: int)
    requires NoLogins(seating, account)
    ensures FullyBlocked(seating, items, account) <==> TakenWhole(items, account) || Parts(items, account) >= OwnLimit(seating, account)
    ensures HasSeat(seating, account) <==> OwnLimit(seating, account) > 0
  {
    OwnPoolTaken(seating, items, account);
    DemandIs(items, account);
    OneOwnPool(seating, account);
  }

  lemma OneOwnPool(seating: Seating, account: int)
    requires NoLogins(seating, account)
    ensures forall p :: p in AccountPools(seating, account, Some(LimitOf(seating, account))) <==> p == (OwnPool(account), Some(OwnLimit(seating, account)))
  {
  }

  // ---- an account with logins of its own -------------------------------------------------------------

  // Each login is listed once, and by nobody else.
  ghost predicate OwnLogins(seating: Seating, account: int) {
    && account in seating.logins && seating.logins[account] != []
    && (forall i, j :: 0 <= i < j < |seating.logins[account]| ==> seating.logins[account][i].0 != seating.logins[account][j].0)
    && forall b, i, j :: b in seating.logins && b != account && 0 <= i < |seating.logins[account]| && 0 <= j < |seating.logins[b]| ==>
         seating.logins[account][i].0 != seating.logins[b][j].0
  }

  function LoginSeats(): ((int, nat)) -> nat { (l: (int, nat)) => l.1 }

  lemma {:induction false} TotalIsSum(logins: seq<(int, nat)>)
    ensures TotalSeats(logins) == SumOver(logins, LoginSeats())
  {
    if logins != [] { TotalFromBack(logins); TotalIsSum(logins[..|logins| - 1]); }
  }

  lemma {:induction false} TotalFromBack(logins: seq<(int, nat)>)
    requires logins != []
    ensures TotalSeats(logins) == TotalSeats(logins[..|logins| - 1]) + logins[|logins| - 1].1
  {
    if |logins| > 1 {
      TotalFromBack(logins[1..]);
      assert logins[..|logins| - 1][1..] == logins[1..][..|logins| - 2];
    }
  }

  lemma OwnLoginTaken(seating: Seating, items: Items, account: int, i: nat)
    requires OwnLogins(seating, account) && i < |seating.logins[account]|
    ensures var pool := LoginPool(seating.logins[account][i].0);
      Taken(seating, DemandsOf(items), pool) == TakenFrom(AccountPools(seating, account, None), Demand(items, account), pool)
  {
    var demands, pool := DemandsOf(items), LoginPool(seating.logins[account][i].0);
    var f := Shares(seating, demands, pool);
    forall a | a in demands && a != account ensures f[a] == Some(0) {
      OthersLackIt(seating, account, i, a);
      NotAmongPools(AccountPools(seating, a, None), demands[a], pool);
    }
    OnlyOneGives(f, demands.Keys, account);
    if !Blocked(items, account) {
      UnblockedDemandsNothing(items, account);
      NothingTaken(AccountPools(seating, account, None), pool);
    }
  }

  lemma OthersLackIt(seating: Seating, account: int, i: nat, a: int)
    requires OwnLogins(seating, account) && i < |seating.logins[account]| && a != account
    ensures forall p :: p in AccountPools(seating, a, None) ==> p.0 != LoginPool(seating.logins[account][i].0)
  {
    var pools := AccountPools(seating, a, None);
    forall p | p in pools ensures p.0 != LoginPool(seating.logins[account][i].0) {
      var j :| 0 <= j < |pools| && pools[j] == p;
    }
  }

  // Its logins' seats together are all it has, however a demand spreads over them.
  lemma OwnLoginsDecide(seating: Seating, items: Items, account: int)
    requires OwnLogins(seating, account)
    ensures var seats := SumOver(seating.logins[account], LoginSeats());
      && (FullyBlocked(seating, items, account) <==> TakenWhole(items, account) || Parts(items, account) >= seats)
      && (HasSeat(seating, account) <==> seats > 0)
  {
    var logins := seating.logins[account];
    DemandIs(items, account);
    TotalIsSum(logins);
    SpreadFillsAll(AccountPools(seating, account, None), Demand(items, account), logins);
    FullIsAllFull(seating, items, account);
    SpreadFillsAll(AccountPools(seating, account, None), Some(0), logins);
    SeatWhenUnfilled(seating, account);
  }

  lemma FullIsAllFull(seating: Seating, items: Items, account: int)
    requires OwnLogins(seating, account)
    ensures FullyBlocked(seating, items, account) <==> AllFull(AccountPools(seating, account, None), Demand(items, account))
  {
    var pools := AccountPools(seating, account, None);
    assert AccountPools(seating, account, Some(LimitOf(seating, account))) == pools;
    forall p | p in pools ensures Taken(seating, DemandsOf(items), p.0) == TakenFrom(pools, Demand(items, account), p.0) {
      var i :| 0 <= i < |pools| && pools[i] == p;
      OwnLoginTaken(seating, items, account, i);
    }
  }

  lemma SeatWhenUnfilled(seating: Seating, account: int)
    requires OwnLogins(seating, account)
    ensures HasSeat(seating, account) <==> !AllFull(AccountPools(seating, account, None), Some(0))
  {
    var pools := AccountPools(seating, account, None);
    assert AccountPools(seating, account, Some(LimitOf(seating, account))) == pools;
    forall p | p in pools ensures TakenFrom(pools, Some(0), p.0) == Some(0) { NothingTaken(pools, p.0); }
  }

  // ---- the ordered fill --------------------------------------------------------------------------

  function SeatsBefore(pools: seq<(Pool, Option<nat>)>, i: nat): nat
    requires i <= |pools|
  {
    if i == 0 then 0 else SeatsBefore(pools, i - 1) + PoolSize(pools[i - 1])
  }

  lemma {:induction false} SeatsAfterFirst(pools: seq<(Pool, Option<nat>)>, i: nat)
    requires 0 < i <= |pools|
    ensures SeatsBefore(pools, i) == PoolSize(pools[0]) + SeatsBefore(pools[1..], i - 1)
  {
    if i > 1 { SeatsAfterFirst(pools, i - 1); }
  }

  // Logins fill in list order: each takes what is left of the demand after those before it, up to
  // its own seats.
  lemma {:induction false} LoginsFillInOrder(pools: seq<(Pool, Option<nat>)>, n: nat, i: nat)
    requires i < |pools| && forall j :: 0 <= j < |pools| ==> pools[j].1.Some?
    requires forall j, k :: 0 <= j < k < |pools| ==> pools[j].0 != pools[k].0
    ensures var before, size := SeatsBefore(pools, i), PoolSize(pools[i]);
      TakenFrom(pools, Some(n), pools[i].0) == Some(if n <= before then 0 else if n - before >= size then size else n - before)
  {
    var left := if n >= PoolSize(pools[0]) then n - PoolSize(pools[0]) else 0;
    if i == 0 {
      NotAmongPools(pools[1..], Some(left), pools[0].0);
    } else {
      LoginsFillInOrder(pools[1..], left, i - 1);
      SeatsAfterFirst(pools, i);
    }
  }

  // ---- at an instant, waiting, and over a window ---------------------------------------------------

  predicate Runs(b: Block, t: int) { b.start <= t && t < b.stop }

  // Full at an instant: by the blocks that have started and not ended.
  lemma FullAtInstantExactly(seating: Seating, blocks: seq<Block>, account: int, t: int)
    requires NoLogins(seating, account)
    ensures FullyBlocked(seating, ItemsOf(Select(blocks, At(t))), account) <==>
      || WholeBlock(blocks, (b: Block) => Runs(b, t), account)
      || SumOver(blocks, PartOf((b: Block) => Runs(b, t), account)) >= OwnLimit(seating, account)
  {
    FullByKept(seating, blocks, At(t), account);
    SameKept(blocks, At(t), (b: Block) => Runs(b, t), account);
  }

  // Still full at `t`: by the blocks that run at `at` and have not ended by then.
  lemma StillFullExactly(seating: Seating, blocks: seq<Block>, account: int, at: int, t: int)
    requires NoLogins(seating, account)
    ensures FullAt(seating, blocks, account, at, t) <==>
      || WholeBlock(blocks, (b: Block) => Runs(b, at) && t < b.stop, account)
      || SumOver(blocks, PartOf((b: Block) => Runs(b, at) && t < b.stop, account)) >= OwnLimit(seating, account)
  {
    FullByKept(seating, blocks, StillInForce(at, t), account);
    SameKept(blocks, StillInForce(at, t), (b: Block) => Runs(b, at) && t < b.stop, account);
  }

  lemma FullByKept(seating: Seating, blocks: seq<Block>, keep: Block -> bool, account: int)
    requires NoLogins(seating, account)
    ensures FullyBlocked(seating, ItemsOf(Select(blocks, keep)), account) <==>
      WholeBlock(blocks, keep, account) || SumOver(blocks, PartOf(keep, account)) >= OwnLimit(seating, account)
  {
    OwnLimitDecides(seating, ItemsOf(Select(blocks, keep)), account);
    DemandIs(ItemsOf(Select(blocks, keep)), account);
    DemandIsKept(blocks, keep, account);
    KeptAsk(blocks, keep, account);
  }

  lemma SameKept(blocks: seq<Block>, f: Block -> bool, g: Block -> bool, account: int)
    requires forall b :: f(b) <==> g(b)
    ensures WholeBlock(blocks, f, account) <==> WholeBlock(blocks, g, account)
    ensures SumOver(blocks, PartOf(f, account)) == SumOver(blocks, PartOf(g, account))
  {
    SameParts(blocks, f, g, account);
  }

  lemma {:induction false} SameParts(blocks: seq<Block>, f: Block -> bool, g: Block -> bool, account: int)
    requires forall b :: f(b) <==> g(b)
    ensures SumOver(blocks, PartOf(f, account)) == SumOver(blocks, PartOf(g, account))
  {
    if blocks != [] { SameParts(blocks[..|blocks| - 1], f, g, account); }
  }

  // A block counts for a window exactly when it runs at some instant of it.
  lemma CountsWhenItRuns(b: Block, start: int, stop: int)
    requires b.start < b.stop && start < stop
    ensures During(start, stop)(b) <==> exists t :: start <= t < stop && Runs(b, t)
  {
    if During(start, stop)(b) { assert Runs(b, if b.start < start then start else b.start); }
  }
}
