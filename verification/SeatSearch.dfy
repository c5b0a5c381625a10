// The two questions asked of the blocks (app/account_blocks.py): which accounts are fully
// blocked, and when a blocked account next has a seat.
module SeatSearch {
  import opened Common
  import opened SlotSum
  import opened Seats
  import opened FreeSeat

  // ---- the first free instant ----------------------------------------------------------------

  // The blocks in force at `at` that are still in force at `t`.
  function StillInForce(at: int, t: int): Block -> bool { (b: Block) => InForce(b, at) && t < b.stop }

  // Fully blocked at `t` by what was in force at `at`: a block starting later is not looked ahead to.
  ghost predicate FullAt(seating: Seating, blocks: seq<Block>, account: int, at: int, t: int) {
    FullyBlocked(seating, ItemsOf(Select(blocks, StillInForce(at, t))), account)
  }

  ghost predicate FullUntil(seating: Seating, blocks: seq<Block>, account: int, at: int, stop: int) {
    forall t :: at <= t < stop ==> FullAt(seating, blocks, account, at, t)
  }

  predicate StopLe(a: Block, b: Block) { a.stop <= b.stop }

  lemma SameBlocksSameAnswer(seating: Seating, xs: seq<Block>, ys: seq<Block>, account: int)
    requires multiset(xs) == multiset(ys)
    ensures FullyBlocked(seating, ItemsOf(xs), account) <==> FullyBlocked(seating, ItemsOf(ys), account)
  {
    ItemsMultiset(xs, ys);
    ItemsMultiset(ys, xs);
    if FullyBlocked(seating, ItemsOf(xs), account) { FullyBlockedMonotone(seating, ItemsOf(xs), ItemsOf(ys), account); }
    if FullyBlocked(seating, ItemsOf(ys), account) { FullyBlockedMonotone(seating, ItemsOf(ys), ItemsOf(xs), account); }
  }

  lemma FewerBlocks(seating: Seating, xs: seq<Block>, ys: seq<Block>, account: int)
    requires multiset(xs) <= multiset(ys) && FullyBlocked(seating, ItemsOf(xs), account)
    ensures FullyBlocked(seating, ItemsOf(ys), account)
  {
    ItemsMultiset(xs, ys);
    FullyBlockedMonotone(seating, ItemsOf(xs), ItemsOf(ys), account);
  }

  lemma CountAround(s: seq<Block>, i: nat, b: Block)
    requires i <= |s|
    ensures multiset(s)[b] == multiset(s[..i])[b] + multiset(s[i..])[b]
  {
    assert s == s[..i] + s[i..];
  }

  lemma EndsByThen(s: seq<Block>, i: nat, b: Block)
    requires SortedBy(StopLe, s) && 0 < i <= |s| && b in s[..i]
    ensures b.stop <= s[i - 1].stop
  {
    var k :| 0 <= k < i && s[k] == b;
    assert k == i - 1 || StopLe(s[k], s[i - 1]);
  }

  lemma EndsNoEarlier(s: seq<Block>, i: nat, b: Block)
    requires SortedBy(StopLe, s) && i < |s| && b in s[i..]
    ensures s[i].stop <= b.stop && b in s
  {
    var k :| 0 <= k < |s[i..]| && s[i..][k] == b;
    assert s[i + k] == b;
    assert k == 0 || StopLe(s[i], s[i + k]);
  }

  // Once the i earliest-ending blocks are over, those left are among the rest of the list.
  lemma LeftAfter(s: seq<Block>, i: nat, at: int, t: int)
    requires SortedBy(StopLe, s) && i <= |s| && (i > 0 ==> s[i - 1].stop <= t)
    ensures multiset(Select(s, StillInForce(at, t))) <= multiset(s[i..])
  {
    forall b ensures multiset(Select(s, StillInForce(at, t)))[b] <= multiset(s[i..])[b] {
      SelectMultiset(s, StillInForce(at, t), b);
      CountAround(s, i, b);
      if t < b.stop && b in multiset(s[..i]) { EndsByThen(s, i, b); }
    }
  }

  lemma StillThere(s: seq<Block>, i: nat, at: int, t: int, b: Block)
    requires SortedBy(StopLe, s) && i < |s| && t < s[i].stop && b in s[i..] && InForce(b, at)
    ensures StillInForce(at, t)(b)
  {
    EndsNoEarlier(s, i, b);
  }

  ghost predicate AllInForce(s: seq<Block>, at: int) { forall b :: b in s ==> InForce(b, at) }

  // Before the i-th block ends, it and all that end after it are still in force.
  lemma LeftBefore(s: seq<Block>, i: nat, at: int, t: int)
    requires SortedBy(StopLe, s) && i < |s| && t < s[i].stop && AllInForce(s, at)
    ensures multiset(s[i..]) <= multiset(Select(s, StillInForce(at, t)))
  {
    var rest, kept := s[i..], Select(s, StillInForce(at, t));
    forall b ensures multiset(rest)[b] <= multiset(kept)[b] { LeftOne(s, i, at, t, b); }
  }

  lemma LeftOne(s: seq<Block>, i: nat, at: int, t: int, b: Block)
    requires SortedBy(StopLe, s) && i < |s| && t < s[i].stop && AllInForce(s, at)
    ensures multiset(s[i..])[b] <= multiset(Select(s, StillInForce(at, t)))[b]
  {
    if b in s[i..] {
      EndsNoEarlier(s, i, b);
      StillThere(s, i, at, t, b);
    }
    KeptCount(s, i, StillInForce(at, t), b);
  }

  lemma KeptCount(s: seq<Block>, i: nat, keep: Block -> bool, b: Block)
    requires i <= |s| && (b in s[i..] ==> keep(b))
    ensures multiset(s[i..])[b] <= multiset(Select(s, keep))[b]
  {
    SelectMultiset(s, keep, b);
    CountAround(s, i, b);
    assert b in multiset(s[i..]) <==> b in s[i..];
  }

  ghost predicate SiblingBlocksNow(s: seq<Block>, blocks: seq<Block>, wider: set<int>, at: int) {
    multiset(s) == multiset(Select(Select(blocks, In(wider)), StillInForce(at, at)))
  }

  lemma SameSelection(s: seq<Block>, blocks: seq<Block>, wider: set<int>, at: int, t: int, b: Block)
    requires at <= t && SiblingBlocksNow(s, blocks, wider, at)
    ensures multiset(Select(Select(blocks, StillInForce(at, t)), In(wider)))[b] == multiset(Select(s, StillInForce(at, t)))[b]
  {
    SelectMultiset(Select(blocks, StillInForce(at, t)), In(wider), b);
    SelectMultiset(blocks, StillInForce(at, t), b);
    SelectMultiset(s, StillInForce(at, t), b);
    SelectMultiset(Select(blocks, In(wider)), StillInForce(at, at), b);
    SelectMultiset(blocks, In(wider), b);
  }

  // The sorted sibling blocks answer for all the blocks there are.
  lemma SiblingsAnswerForAll(seating: Seating, blocks: seq<Block>, s: seq<Block>, account: int, at: int, t: int)
    requires at <= t && SiblingBlocksNow(s, blocks, WithSiblings(seating, {account}), at)
    ensures FullAt(seating, blocks, account, at, t) <==> FullyBlocked(seating, ItemsOf(Select(s, StillInForce(at, t))), account)
  {
    var wider := WithSiblings(seating, {account});
    var all := Select(blocks, StillInForce(at, t));
    SiblingReadIsEnough(seating, all, [], {account}, account);
    assert ItemsOf(Select(all, In(wider))) + PendingOf([], wider) == ItemsOf(Select(all, In(wider)));
    assert ItemsOf(all) + [] == ItemsOf(all);
    var some := Select(s, StillInForce(at, t));
    forall b ensures multiset(Select(all, In(wider)))[b] == multiset(some)[b] {
      SameSelection(s, blocks, wider, at, t, b);
    }
    SameBlocksSameAnswer(seating, Select(all, In(wider)), some, account);
  }

  lemma StopLePreorder()
    ensures TotalPreorder(StopLe)
  {
  }

  // The first i at which the blocks from the i-th on leave a seat.
  method FirstFree(s: seq<Block>, account: int, seating: Seating) returns (i: nat)
    ensures i <= |s|
    ensures i < |s| ==> !FullyBlocked(seating, ItemsOf(s[i..]), account)
    ensures i > 0 ==> FullyBlocked(seating, ItemsOf(s[i - 1..]), account)
  {
    i := 0;
    while i < |s|
      invariant i <= |s|
      invariant i > 0 ==> FullyBlocked(seating, ItemsOf(s[i - 1..]), account)
    {
      var merged := BlockedSlots(s[i..], []);
      assert ItemsOf(s[i..]) + [] == ItemsOf(s[i..]);
      var taken := PoolTaken(merged, seating);
      var full := IsFullyBlocked(account, taken, seating, merged);
      if !full { return; }
      i := i + 1;
    }
  }

  // None iff the account is not fully blocked at `at`; otherwise the least instant from `at` on at
  // which the blocks in force at `at` leave it a seat - over all blocks, though it reads only the
  // account's login siblings', and whatever ends tie. An account that has no seat to begin with
  // is answered the last block end instead.
  method FreeAt(account: int, at: int, blocks: seq<Block>, seating: Seating) returns (r: Option<int>)
    ensures HasSeat(seating, account) ==> (r.None? <==> !FullAt(seating, blocks, account, at, at))
    ensures HasSeat(seating, account) && r.Some? ==> !FullAt(seating, blocks, account, at, r.value)
    ensures r.Some? ==> at < r.value && forall t :: at <= t < r.value ==> FullAt(seating, blocks, account, at, t)
  {
    var wider := WithSiblings(seating, {account});
    var found := Select(Select(blocks, In(wider)), StillInForce(at, at));
    var s := Sort(StopLe, found);
    StopLePreorder();
    SortSorted(StopLe, found);
    SameElements(s, found);
    var i := FirstFree(s, account, seating);
    SearchIsExact(seating, blocks, s, i, account, at);
    if i == 0 { return None; }
    assert s[i - 1] in s;
    return Some(s[i - 1].stop);
  }

  // Where the search stops: at `at` itself, or at the end of the block before the i-th.
  function StopsAt(s: seq<Block>, i: nat, at: int): int
    requires i <= |s|
  {
    if i == 0 then at else s[i - 1].stop
  }

  ghost predicate Searched(seating: Seating, blocks: seq<Block>, s: seq<Block>, account: int, at: int) {
    SortedBy(StopLe, s) && SiblingBlocksNow(s, blocks, WithSiblings(seating, {account}), at) && AllInForce(s, at)
  }

  lemma SearchIsExact(seating: Seating, blocks: seq<Block>, s: seq<Block>, i: nat, account: int, at: int)
    requires Searched(seating, blocks, s, account, at) && i <= |s|
    requires i < |s| ==> !FullyBlocked(seating, ItemsOf(s[i..]), account)
    requires i > 0 ==> FullyBlocked(seating, ItemsOf(s[i - 1..]), account)
    ensures HasSeat(seating, account) ==> !FullAt(seating, blocks, account, at, StopsAt(s, i, at))
    ensures FullUntil(seating, blocks, account, at, StopsAt(s, i, at))
  {
    BlockedBefore(seating, blocks, s, i, account, at);
    FreeFrom(seating, blocks, s, i, account, at);
  }

  lemma BlockedBefore(seating: Seating, blocks: seq<Block>, s: seq<Block>, i: nat, account: int, at: int)
    requires Searched(seating, blocks, s, account, at) && i <= |s|
    requires i > 0 ==> FullyBlocked(seating, ItemsOf(s[i - 1..]), account)
    ensures FullUntil(seating, blocks, account, at, StopsAt(s, i, at))
  {
    if i > 0 { BlockedUntil(seating, blocks, s, i - 1, account, at); }
  }

  lemma FreeFrom(seating: Seating, blocks: seq<Block>, s: seq<Block>, i: nat, account: int, at: int)
    requires Searched(seating, blocks, s, account, at) && i <= |s|
    requires i < |s| ==> !FullyBlocked(seating, ItemsOf(s[i..]), account)
    ensures HasSeat(seating, account) ==> !FullAt(seating, blocks, account, at, StopsAt(s, i, at))
  {
    if HasSeat(seating, account) { FreeThen(seating, blocks, s, i, account, at); }
  }

  lemma EndsAfter(s: seq<Block>, i: nat, at: int)
    requires AllInForce(s, at) && i <= |s|
    ensures at <= StopsAt(s, i, at)
  {
    if i > 0 { assert s[i - 1] in s; }
  }

  lemma FreeThen(seating: Seating, blocks: seq<Block>, s: seq<Block>, i: nat, account: int, at: int)
    requires Searched(seating, blocks, s, account, at) && i <= |s|
    requires i < |s| ==> !FullyBlocked(seating, ItemsOf(s[i..]), account)
    requires HasSeat(seating, account)
    ensures !FullAt(seating, blocks, account, at, StopsAt(s, i, at))
  {
    var t := StopsAt(s, i, at);
    EndsAfter(s, i, at);
    LeftAfter(s, i, at, t);
    UnblockedAccountHasItsSeats(seating, account);
    assert i == |s| ==> ItemsOf(s[i..]) == [];
    FreeOnce(seating, s, i, account, at, t);
    SiblingsAnswerForAll(seating, blocks, s, account, at, t);
  }

  lemma FreeOnce(seating: Seating, s: seq<Block>, i: nat, account: int, at: int, t: int)
    requires i <= |s| && multiset(Select(s, StillInForce(at, t))) <= multiset(s[i..])
    requires !FullyBlocked(seating, ItemsOf(s[i..]), account)
    ensures !FullyBlocked(seating, ItemsOf(Select(s, StillInForce(at, t))), account)
  {
    if FullyBlocked(seating, ItemsOf(Select(s, StillInForce(at, t))), account) {
      FewerBlocks(seating, Select(s, StillInForce(at, t)), s[i..], account);
    }
  }

  lemma BlockedUntil(seating: Seating, blocks: seq<Block>, s: seq<Block>, i: nat, account: int, at: int)
    requires Searched(seating, blocks, s, account, at) && i < |s| && FullyBlocked(seating, ItemsOf(s[i..]), account)
    ensures FullUntil(seating, blocks, account, at, s[i].stop)
  {
    forall t | at <= t < s[i].stop ensures FullAt(seating, blocks, account, at, t) {
      LeftBefore(s, i, at, t);
      FewerBlocks(seating, s[i..], Select(s, StillInForce(at, t)), account);
      SiblingsAnswerForAll(seating, blocks, s, account, at, t);
    }
  }

  // ---- fully blocked accounts ---------------------------------

  // No block reaches the account's pools, so it keeps the seats it has.
  lemma OnlyReachedAreBlocked(seating: Seating, items: Items, account: int)
    requires HasSeat(seating, account) && FullyBlocked(seating, items, account)
    ensures Reach(seating, DemandsOf(items).Keys, account)
  {
    if !Reach(seating, DemandsOf(items).Keys, account) {
      forall c | c == account || ShareLogin(seating, account, c) ensures SameFor([], items, c) {
        assert ShareLogin(seating, account, c) ==> ShareLogin(seating, c, account);
        UnblockedDemandsNothing(items, c);
      }
      UnblockedAccountHasItsSeats(seating, account);
      SiblingsDecide(seating, [], items, account);
    }
  }

  method PoolBlocked(merged: map<int, Slots>, candidates: Option<set<int>>, seating: Seating) returns (out: set<int>)
    ensures forall a :: a in out <==>
      (candidates.Some? ==> a in candidates.value) && Reach(seating, merged.Keys, a) && NoSeatLeft(seating, merged, a)
  {
    var reached := WithSiblings(seating, merged.Keys);
    if candidates.Some? { reached := reached * candidates.value; }
    var taken := PoolTaken(merged, seating);
    out := FullyBlockedPools(reached, taken, seating, merged);
  }

  // The blocks are already narrowed to the question's instant or window.
  method BlockedAccountIds(ids: Option<set<int>>, blocks: seq<Block>, pending: Items, seating: Seating) returns (out: set<int>)
    ensures var items := ItemsOf(blocks) + pending;
      forall a :: (ids.Some? ==> a in ids.value) && HasSeat(seating, a) ==> (a in out <==> FullyBlocked(seating, items, a))
    ensures ids.Some? ==> forall a :: a in out ==> a in ids.value
  {
    if ids.Some? && ids.value == {} { return {}; }
    if ids.None? {
      var merged := BlockedSlots(blocks, pending);
      out := PoolBlocked(merged, None, seating);
      forall a | HasSeat(seating, a) && FullyBlocked(seating, ItemsOf(blocks) + pending, a) ensures a in out {
        OnlyReachedAreBlocked(seating, ItemsOf(blocks) + pending, a);
      }
    } else {
      var wider := WithSiblings(seating, ids.value);
      var some, rest := Select(blocks, In(wider)), PendingOf(pending, wider);
      var merged := BlockedSlots(some, rest);
      out := PoolBlocked(merged, ids, seating);
      forall a | a in ids.value && HasSeat(seating, a)
        ensures a in out <==> FullyBlocked(seating, ItemsOf(blocks) + pending, a)
      {
        SiblingReadIsEnough(seating, blocks, pending, ids.value, a);
        if FullyBlocked(seating, ItemsOf(some) + rest, a) { OnlyReachedAreBlocked(seating, ItemsOf(some) + rest, a); }
      }
    }
  }

  // ---- the ordered fill ----------------------------------------------------------------------

  function TotalSeats(logins: seq<(int, nat)>): nat {
    if logins == [] then 0 else logins[0].1 + TotalSeats(logins[1..])
  }

  ghost predicate AllFull(pools: seq<(Pool, Option<nat>)>, left: Slots) {
    forall p :: p in pools ==> EffectiveLimit(PoolSize(p), TakenFrom(pools, left, p.0)) == 0
  }

  // With distinct pools, all are full when the first is and the rest are by what it leaves.
  lemma FirstPoolFills(pools: seq<(Pool, Option<nat>)>, left: Slots)
    requires pools != [] && forall i, j :: 0 <= i < j < |pools| ==> pools[i].0 != pools[j].0
    ensures AllFull(pools, left)
      <==> EffectiveLimit(PoolSize(pools[0]), Share(left, pools[0].1)) == 0 && AllFull(pools[1..], Rest(left, pools[0].1))
  {
    var rest := Rest(left, pools[0].1);
    NotAmongPools(pools[1..], rest, pools[0].0);
    assert forall k :: 1 <= k < |pools| ==> pools[k].0 != pools[0].0;
    assert forall q :: q in pools[1..] ==> TakenFrom(pools, left, q.0) == TakenFrom(pools[1..], rest, q.0);
    assert pools == [pools[0]] + pools[1..];
  }

  // A demand spread over an account's logins leaves no seat exactly when it asks for them all.
  lemma {:induction false} SpreadFillsAll(pools: seq<(Pool, Option<nat>)>, left: Slots, logins: seq<(int, nat)>)
    requires |pools| == |logins| && forall i :: 0 <= i < |pools| ==> pools[i] == (LoginPool(logins[i].0), Some(logins[i].1))
    requires forall i, j :: 0 <= i < j < |logins| ==> logins[i].0 != logins[j].0
    ensures AllFull(pools, left) <==> left.None? || left.value >= TotalSeats(logins)
  {
    if pools != [] {
      var rest := Rest(left, pools[0].1);
      SpreadFillsAll(pools[1..], rest, logins[1..]);
      FirstPoolFills(pools, left);
    }
  }
}
