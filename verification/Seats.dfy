// Connection-seat blocks (app/account_blocks.py): how many seats the blocks of a moment take
// from each login pool, which accounts that leaves with none, and when one next has a seat.
module Seats {
  import opened Common
  import opened SlotSum

  // A block with its window resolved; the window is half-open.
  datatype Block = Block(account: int, start: int, stop: int, slots: Slots)

  predicate InForce(b: Block, at: int) { b.start <= at < b.stop }
  predicate Overlaps(b: Block, start: int, stop: int) { b.start < stop && b.stop > start }

  function Select(blocks: seq<Block>, keep: Block -> bool): (r: seq<Block>)
    ensures forall b :: b in r <==> b in blocks && keep(b)
  {
    if blocks == [] then []
    else
      var front := Select(blocks[..|blocks| - 1], keep);
      var last := blocks[|blocks| - 1];
      assert blocks == blocks[..|blocks| - 1] + [last];
      if keep(last) then front + [last] else front
  }

  // ---- what the blocks take from one account -------------------------------------------------

  // An item is one block's (account, slots), or one not yet saved.
  type Items = seq<(int, Slots)>

  function ItemsOf(blocks: seq<Block>): (r: Items)
    ensures |r| == |blocks|
  {
    if blocks == [] then [] else ItemsOf(blocks[..|blocks| - 1]) + [(blocks[|blocks| - 1].account, blocks[|blocks| - 1].slots)]
  }

  ghost predicate Blocked(items: Items, account: int) { exists i :: 0 <= i < |items| && items[i].0 == account }

  // Two partial blocks add up, one whole-account block wins.
  function Demand(items: Items, account: int): Slots {
    if items == [] then Some(0)
    else
      var last := items[|items| - 1];
      var front := Demand(items[..|items| - 1], account);
      if last.0 == account then Plus(front, last.1) else front
  }

  ghost function DemandsOf(items: Items): (m: map<int, Slots>)
    ensures forall a :: a in m <==> Blocked(items, a)
    ensures forall a :: a in m ==> m[a] == Demand(items, a)
  {
    map a | a in (set i | 0 <= i < |items| :: items[i].0) :: Demand(items, a)
  }

  method BlockedSlots(blocks: seq<Block>, pending: Items) returns (merged: map<int, Slots>)
    ensures merged == DemandsOf(ItemsOf(blocks) + pending)
  {
    merged := map[];
    var items := ItemsOf(blocks) + pending;
    for n := 0 to |items|
      invariant forall a :: a in merged <==> Blocked(items[..n], a)
      invariant forall a :: a in merged ==> merged[a] == Demand(items[..n], a)
    {
      var (account, slots) := items[n];
      NextItem(items, n);
      if account !in merged { UnblockedDemandsNothing(items[..n], account); }
      if account in merged && merged[account].None? {
        continue;
      }
      if slots.None? {
        merged := merged[account := None];
      } else {
        merged := merged[account := Some((if account in merged then merged[account].value else 0) + slots.value)];
      }
    }
    assert items[..|items|] == items;
    assert forall a :: a in merged.Keys <==> a in DemandsOf(items).Keys;
  }

  lemma NextItem(items: Items, n: nat)
    requires n < |items|
    ensures forall a :: Blocked(items[..n + 1], a) <==> Blocked(items[..n], a) || a == items[n].0
    ensures forall a :: Demand(items[..n + 1], a) == Plus(Demand(items[..n], a), if items[n].0 == a then items[n].1 else Some(0))
  {
    var now, was := items[..n + 1], items[..n];
    assert now[..n] == was && now[n] == items[n];
    forall a | Blocked(was, a) ensures Blocked(now, a) {
      var i :| 0 <= i < n && was[i].0 == a;
      assert now[i].0 == a;
    }
    forall a | Blocked(now, a) && a != items[n].0 ensures Blocked(was, a) {
      var i :| 0 <= i < n + 1 && now[i].0 == a;
      assert was[i].0 == a;
    }
  }

  lemma {:induction false} UnblockedDemandsNothing(items: Items, account: int)
    requires !Blocked(items, account)
    ensures Demand(items, account) == Some(0)
  {
    if items != [] {
      var front := items[..|items| - 1];
      assert forall i :: 0 <= i < |front| ==> front[i] == items[i];
      UnblockedDemandsNothing(front, account);
    }
  }

  // ---- spreading it over the account's pools -------------------------------------------------

  datatype Pool = LoginPool(login: int) | OwnPool(account: int)

  // An account's logins in list order with their seat counts; an account with none has one pool
  // of its own, sized by its limit.
  datatype Seating = Seating(logins: map<int, seq<(int, nat)>>, limits: map<int, nat>)

  function LoginsOf(seating: Seating, account: int): seq<(int, nat)> {
    if account in seating.logins then seating.logins[account] else []
  }

  function LoginPools(logins: seq<(int, nat)>): (r: seq<(Pool, Option<nat>)>)
    ensures |r| == |logins|
    ensures forall i :: 0 <= i < |r| ==> r[i] == (LoginPool(logins[i].0), Some(logins[i].1))
  {
    if logins == [] then []
    else LoginPools(logins[..|logins| - 1]) + [(LoginPool(logins[|logins| - 1].0), Some(logins[|logins| - 1].1))]
  }

  function AccountPools(seating: Seating, account: int, limit: Option<nat>): seq<(Pool, Option<nat>)> {
    if LoginsOf(seating, account) != [] then LoginPools(LoginsOf(seating, account)) else [(OwnPool(account), limit)]
  }

  function Min(a: nat, b: nat): nat { if a < b then a else b }

  // What one pool in the list is asked for, and what is left to ask of the next.
  function Share(left: Slots, size: Option<nat>): Slots {
    if left.None? then None else if size.None? then left else Some(Min(left.value, size.value))
  }

  function Rest(left: Slots, size: Option<nat>): Slots {
    if left.None? || size.None? then left else Some(left.value - Min(left.value, size.value))
  }

  // What an account's demand takes from `pool`, walking its pools in order.
  function TakenFrom(pools: seq<(Pool, Option<nat>)>, left: Slots, pool: Pool): Slots {
    if pools == [] then Some(0)
    else
      var rest := TakenFrom(pools[1..], Rest(left, pools[0].1), pool);
      if pools[0].0 == pool then Plus(Share(left, pools[0].1), rest) else rest
  }

  // What each blocked account takes from `pool`.
  ghost function Shares(seating: Seating, demands: map<int, Slots>, pool: Pool): (f: map<int, Slots>)
    ensures f.Keys == demands.Keys
  {
    map a | a in demands :: TakenFrom(AccountPools(seating, a, None), demands[a], pool)
  }

  ghost function Taken(seating: Seating, demands: map<int, Slots>, pool: Pool): Slots {
    Sum(Shares(seating, demands, pool), demands.Keys)
  }

  function Lookup(taken: map<Pool, Slots>, pool: Pool): Slots { if pool in taken then taken[pool] else Some(0) }

  // Whatever order the accounts are walked in, each pool ends with the sum of what they take.
  method PoolTaken(demands: map<int, Slots>, seating: Seating) returns (out: map<Pool, Slots>)
    ensures forall p :: Lookup(out, p) == Taken(seating, demands, p)
  {
    out := map[];
    var todo := demands.Keys;
    while todo != {}
      invariant todo <= demands.Keys
      invariant forall p :: Lookup(out, p) == Sum(Shares(seating, demands, p), demands.Keys - todo)
      decreases |todo|
    {
      var account := Next(todo);
      ghost var before, done := out, demands.Keys - (todo - {account});
      out := TakeFromPools(out, AccountPools(seating, account, None), demands[account]);
      forall p ensures Lookup(out, p) == Sum(Shares(seating, demands, p), done) {
        assert done - {account} == demands.Keys - todo;
        SumSplit(Shares(seating, demands, p), done, account);
        PlusCommutes(Lookup(before, p), Shares(seating, demands, p)[account]);
      }
      todo := todo - {account};
    }
    assert demands.Keys - todo == demands.Keys;
  }

  lemma PlusCommutes(a: Slots, b: Slots)
    ensures Plus(a, b) == Plus(b, a)
  {
  }

  method TakeFromPools(taken: map<Pool, Slots>, pools: seq<(Pool, Option<nat>)>, demand: Slots) returns (out: map<Pool, Slots>)
    ensures forall p :: Lookup(out, p) == Plus(Lookup(taken, p), TakenFrom(pools, demand, p))
  {
    out := taken;
    var left := demand;
    for n := 0 to |pools|
      invariant forall p :: Plus(Lookup(out, p), TakenFrom(pools[n..], left, p)) == Plus(Lookup(taken, p), TakenFrom(pools, demand, p))
    {
      assert pools[n..][1..] == pools[n + 1..];
      var (pool, size) := pools[n];
      var share := Share(left, size);
      left := Rest(left, size);
      if !(pool in out && out[pool].None?) {
        out := out[pool := if share.None? then None else Some((if pool in out then out[pool].value else 0) + share.value)];
      }
    }
  }

  // ---- fully blocked -------------------------------------------------------------------------

  function EffectiveLimit(limit: nat, taken: Slots): nat {
    if taken.None? || taken.value >= limit then 0 else limit - taken.value
  }

  function LimitOf(seating: Seating, account: int): nat {
    if account in seating.limits then seating.limits[account] else 0
  }

  function PoolSize(p: (Pool, Option<nat>)): nat { if p.1.Some? then p.1.value else 0 }

  // No pool of the account has a seat left.
  ghost predicate NoSeatLeft(seating: Seating, demands: map<int, Slots>, account: int) {
    forall p :: p in AccountPools(seating, account, Some(LimitOf(seating, account))) ==>
      EffectiveLimit(PoolSize(p), Taken(seating, demands, p.0)) == 0
  }

  ghost predicate FullyBlocked(seating: Seating, items: Items, account: int) {
    NoSeatLeft(seating, DemandsOf(items), account)
  }

  method IsFullyBlocked(account: int, taken: map<Pool, Slots>, seating: Seating, ghost demands: map<int, Slots>) returns (full: bool)
    requires forall p :: Lookup(taken, p) == Taken(seating, demands, p)
    ensures full <==> NoSeatLeft(seating, demands, account)
  {
    var pools := AccountPools(seating, account, Some(LimitOf(seating, account)));
    for n := 0 to |pools|
      invariant forall k :: 0 <= k < n ==> EffectiveLimit(PoolSize(pools[k]), Taken(seating, demands, pools[k].0)) == 0
    {
      if EffectiveLimit(PoolSize(pools[n]), Lookup(taken, pools[n].0)) != 0 {
        assert pools[n] in pools;
        return false;
      }
    }
    return true;
  }

  // Those of the accounts asked about whose every pool is used up.
  method FullyBlockedPools(candidates: set<int>, taken: map<Pool, Slots>, seating: Seating, ghost demands: map<int, Slots>)
    returns (out: set<int>)
    requires forall p :: Lookup(taken, p) == Taken(seating, demands, p)
    ensures forall a :: a in out <==> a in candidates && NoSeatLeft(seating, demands, a)
  {
    out := {};
    var todo := candidates;
    while todo != {}
      invariant todo <= candidates
      invariant forall a :: a in out <==> (a in candidates && a !in todo && NoSeatLeft(seating, demands, a))
      decreases |todo|
    {
      var a := Next(todo);
      var full := IsFullyBlocked(a, taken, seating, demands);
      if full { out := out + {a}; }
      todo := todo - {a};
    }
  }

  // The account can use a seat when nothing is blocked.
  ghost predicate HasSeat(seating: Seating, account: int) {
    exists p :: p in AccountPools(seating, account, Some(LimitOf(seating, account))) && PoolSize(p) > 0
  }
}
