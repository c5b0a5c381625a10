// What the windowed answer to "which accounts are fully blocked" is worth (app/account_blocks.py):
// it is never too small, and it is some instant's answer, however seats are shared, exactly when
// at one instant the blocks take all of the account or ask everyone for what they ask in the window.
module SeatWindow {
  import opened Common
  import opened SlotSum
  import opened Seats
  import opened FreeSeat

  function At(t: int): Block -> bool { (b: Block) => InForce(b, t) }
  function During(start: int, stop: int): Block -> bool { (b: Block) => Overlaps(b, start, stop) }

  // An account with no seat at some instant of a window is in the window's answer.
  lemma WindowCoversItsInstants(seating: Seating, blocks: seq<Block>, pending: Items, account: int, start: int, stop: int, t: int)
    requires start <= t < stop
    requires FullyBlocked(seating, ItemsOf(Select(blocks, At(t))) + pending, account)
    ensures FullyBlocked(seating, ItemsOf(Select(blocks, During(start, stop))) + pending, account)
  {
    SelectNarrower(blocks, At(t), blocks, During(start, stop));
    ItemsMultiset(Select(blocks, At(t)), Select(blocks, During(start, stop)));
    FullyBlockedMonotone(seating, ItemsOf(Select(blocks, At(t))) + pending, ItemsOf(Select(blocks, During(start, stop))) + pending, account);
  }

  function Asking(blocks: seq<Block>, keep: Block -> bool, pending: Items): Items { ItemsOf(Select(blocks, keep)) + pending }

  ghost predicate FullAtInstant(seating: Seating, blocks: seq<Block>, pending: Items, account: int, t: int) {
    FullyBlocked(seating, Asking(blocks, At(t), pending), account)
  }

  ghost predicate FullInWindow(seating: Seating, blocks: seq<Block>, pending: Items, account: int, start: int, stop: int) {
    FullyBlocked(seating, Asking(blocks, During(start, stop), pending), account)
  }

  // An account called full over the window is full at some instant of it.
  ghost predicate ExactFor(seating: Seating, blocks: seq<Block>, pending: Items, account: int, start: int, stop: int) {
    FullInWindow(seating, blocks, pending, account, start, stop)
    ==> exists t :: start <= t < stop && FullAtInstant(seating, blocks, pending, account, t)
  }

  ghost predicate SameAsked(xs: Items, ys: Items) { forall c :: Demand(xs, c) == Demand(ys, c) }

  // At `t` the account is taken whole, or every account is asked for what the window asks of it.
  ghost predicate AskedAtOnce(blocks: seq<Block>, pending: Items, account: int, start: int, stop: int, t: int) {
    && start <= t < stop
    && (Demand(Asking(blocks, At(t), pending), account).None? || SameAsked(Asking(blocks, At(t), pending), Asking(blocks, During(start, stop), pending)))
  }

  // ---- taken whole -------------------------------------------------------------------------------

  lemma {:induction false} WholeFillsItsPools(pools: seq<(Pool, Option<nat>)>, pool: Pool)
    requires exists p :: p in pools && p.0 == pool
    ensures TakenFrom(pools, None, pool) == None
  {
    if pools[0].0 != pool {
      assert pools == [pools[0]] + pools[1..];
      WholeFillsItsPools(pools[1..], pool);
    }
  }

  lemma SumAtLeast(f: map<int, Slots>, s: set<int>, a: int)
    requires s <= f.Keys && a in s
    ensures AtMost(f[a], Sum(f, s))
  {
    SumSplit(f, s, a);
  }

  lemma WholeBlocks(seating: Seating, items: Items, account: int)
    requires Demand(items, account).None?
    ensures FullyBlocked(seating, items, account)
  {
    if !Blocked(items, account) { UnblockedDemandsNothing(items, account); }
    var demands := DemandsOf(items);
    forall p | p in AccountPools(seating, account, Some(LimitOf(seating, account)))
      ensures EffectiveLimit(PoolSize(p), Taken(seating, demands, p.0)) == 0
    {
      var pools := AccountPools(seating, account, None);
      var i :| 0 <= i < |AccountPools(seating, account, Some(LimitOf(seating, account)))|
        && AccountPools(seating, account, Some(LimitOf(seating, account)))[i] == p;
      assert pools[i] in pools && pools[i].0 == p.0;
      WholeFillsItsPools(pools, p.0);
      SumAtLeast(Shares(seating, demands, p.0), demands.Keys, account);
    }
  }

  // ---- the seating that tells --------------------------------------------------------------------

  ghost function Listed(s: set<int>): (r: seq<int>)
    ensures forall c :: c in r <==> c in s
    ensures forall i, j :: 0 <= i < j < |r| ==> r[i] != r[j]
    decreases |s|
  {
    if s == {} then [] else var c := AnyOf(s); [c] + Listed(s - {c})
  }

  // What the window asks of an account, or more than any instant can when that is everything.
  function Size(asked: Slots, spare: nat): nat { if asked.None? then spare else asked.value }

  function Sized(w: Items, ids: seq<int>, spare: nat): (r: seq<(int, nat)>)
    ensures |r| == |ids| && forall i :: 0 <= i < |r| ==> r[i] == (ids[i], Size(Demand(w, ids[i]), spare))
  {
    seq(|ids|, i requires 0 <= i < |ids| => (ids[i], Size(Demand(w, ids[i]), spare)))
  }

  ghost function Others(w: Items, account: int): set<int> { DemandsOf(w).Keys - {account} }

  // Every account blocked has one login, as large as the window asks of it; the account asked
  // about holds its own first and then all of them.
  ghost function Telling(w: Items, account: int, spare: nat): Seating {
    Seating(map c | c in Others(w, account) + {account} :: Sized(w, if c == account then [account] + Listed(Others(w, account)) else [c], spare), map[])
  }

  ghost function IdsOf(w: Items, account: int, c: int): seq<int> {
    if c == account then [account] + Listed(Others(w, account)) else [c]
  }

  lemma PoolsOf(w: Items, account: int, spare: nat, c: int, limit: Option<nat>)
    requires c == account || c in Others(w, account)
    ensures var ids, pools := IdsOf(w, account, c), AccountPools(Telling(w, account, spare), c, limit);
      |pools| == |ids| && forall i :: 0 <= i < |ids| ==> pools[i] == (LoginPool(ids[i]), Some(Size(Demand(w, ids[i]), spare)))
  {
    var logins := LoginsOf(Telling(w, account, spare), c);
    assert logins == Sized(w, IdsOf(w, account, c), spare);
    assert logins != [];
  }

  lemma FirstTakes(pools: seq<(Pool, Option<nat>)>, left: Slots, pool: Pool)
    requires pools != [] && pools[0].0 == pool && forall i :: 1 <= i < |pools| ==> pools[i].0 != pool
    ensures TakenFrom(pools, left, pool) == Share(left, pools[0].1)
  {
    NotAmongPools(pools[1..], Rest(left, pools[0].1), pool);
  }

  lemma FirstAbsorbs(pools: seq<(Pool, Option<nat>)>, left: nat, pool: Pool)
    requires pools != [] && pools[0].0 != pool && pools[0].1.Some? && left <= pools[0].1.value
    ensures TakenFrom(pools, Some(left), pool) == Some(0)
  {
    NothingTaken(pools[1..], pool);
  }

  lemma FirstId(w: Items, account: int, c: int)
    ensures var ids := IdsOf(w, account, c); ids[0] == c && forall i :: 1 <= i < |ids| ==> ids[i] != c
  {
    var rest := Listed(Others(w, account));
    forall i | 0 <= i < |rest| ensures rest[i] != account { assert rest[i] in rest; }
  }

  // An account takes from its own login before any other.
  lemma OwnLoginFirst(w: Items, account: int, spare: nat, c: int, left: Slots)
    requires c == account || c in Others(w, account)
    ensures TakenFrom(AccountPools(Telling(w, account, spare), c, None), left, LoginPool(c)) == Share(left, Some(Size(Demand(w, c), spare)))
  {
    PoolsOf(w, account, spare, c, None);
    FirstId(w, account, c);
    FirstTakes(AccountPools(Telling(w, account, spare), c, None), left, LoginPool(c));
  }

  // With those seats the account is full over the window.
  lemma TellingIsFull(w: Items, account: int, spare: nat)
    ensures FullyBlocked(Telling(w, account, spare), w, account)
  {
    var seating, ids := Telling(w, account, spare), IdsOf(w, account, account);
    var pools := AccountPools(seating, account, Some(LimitOf(seating, account)));
    PoolsOf(w, account, spare, account, Some(LimitOf(seating, account)));
    forall p | p in pools ensures EffectiveLimit(PoolSize(p), Taken(seating, DemandsOf(w), p.0)) == 0 {
      var i :| 0 <= i < |pools| && pools[i] == p;
      assert ids[i] in ids;
      TellingFills(w, account, spare, ids[i]);
    }
  }

  lemma OwnShareIsTaken(w: Items, account: int, spare: nat, c: int)
    requires (c == account || c in Others(w, account)) && Blocked(w, c)
    ensures AtMost(Share(Demand(w, c), Some(Size(Demand(w, c), spare))), Taken(Telling(w, account, spare), DemandsOf(w), LoginPool(c)))
  {
    OwnLoginFirst(w, account, spare, c, Demand(w, c));
    SumAtLeast(Shares(Telling(w, account, spare), DemandsOf(w), LoginPool(c)), DemandsOf(w).Keys, c);
  }

  lemma TellingFills(w: Items, account: int, spare: nat, c: int)
    requires c == account || c in Others(w, account)
    ensures EffectiveLimit(Size(Demand(w, c), spare), Taken(Telling(w, account, spare), DemandsOf(w), LoginPool(c))) == 0
  {
    if Blocked(w, c) { OwnShareIsTaken(w, account, spare, c); } else { UnblockedDemandsNothing(w, c); }
  }

  lemma OnlyOneGives(f: map<int, Slots>, s: set<int>, c: int)
    requires s <= f.Keys && forall a :: a in s && a != c ==> f[a] == Some(0)
    ensures Sum(f, s) == if c in s then f[c] else Some(0)
  {
    if c in s {
      SumEqual(f, s, f, {c});
      SumSplit(f, {c}, c);
      assert {c} - {c} == {};
    } else {
      SumEqual(f, s, f, {});
    }
  }

  // Nobody else takes from c's login: the account asked about only once its own is used up.
  lemma AccountTakesNone(w: Items, account: int, spare: nat, c: int, left: nat)
    requires account != c && left <= Size(Demand(w, account), spare)
    ensures TakenFrom(AccountPools(Telling(w, account, spare), account, None), Some(left), LoginPool(c)) == Some(0)
  {
    PoolsOf(w, account, spare, account, None);
    FirstAbsorbs(AccountPools(Telling(w, account, spare), account, None), left, LoginPool(c));
  }

  lemma OneOtherPool(w: Items, account: int, spare: nat, c: int, a: int)
    requires a != c && a != account
    ensures var pools := AccountPools(Telling(w, account, spare), a, None); |pools| == 1 && pools[0].0 != LoginPool(c)
  {
    if a in Others(w, account) {
      PoolsOf(w, account, spare, a, None);
    } else {
      assert LoginsOf(Telling(w, account, spare), a) == [];
    }
  }

  lemma OthersTakeNone(w: Items, account: int, spare: nat, c: int, a: int, left: Slots)
    requires a != c && a != account
    ensures TakenFrom(AccountPools(Telling(w, account, spare), a, None), left, LoginPool(c)) == Some(0)
  {
    OneOtherPool(w, account, spare, c, a);
    NotAmongPools(AccountPools(Telling(w, account, spare), a, None), left, LoginPool(c));
  }

  ghost predicate OwnFits(w: Items, now: Items, account: int, spare: nat) {
    Demand(now, account).Some? && Demand(now, account).value <= Size(Demand(w, account), spare)
  }

  lemma OnlyOwnTake(w: Items, now: Items, account: int, spare: nat, c: int)
    requires c != account ==> OwnFits(w, now, account, spare)
    ensures var seating, demands := Telling(w, account, spare), DemandsOf(now);
      Taken(seating, demands, LoginPool(c))
      == if c in demands then TakenFrom(AccountPools(seating, c, None), demands[c], LoginPool(c)) else Some(0)
  {
    var seating, demands := Telling(w, account, spare), DemandsOf(now);
    var f := Shares(seating, demands, LoginPool(c));
    forall a | a in demands && a != c ensures f[a] == Some(0) {
      if a == account { AccountTakesNone(w, account, spare, c, demands[a].value); } else { OthersTakeNone(w, account, spare, c, a, demands[a]); }
    }
    OnlyOneGives(f, demands.Keys, c);
  }

  lemma TakenBelowSize(w: Items, now: Items, account: int, spare: nat, c: int)
    requires c == account || c in Others(w, account)
    requires Demand(now, c).Some? && Demand(now, c).value < Size(Demand(w, c), spare)
    requires c != account ==> OwnFits(w, now, account, spare)
    ensures EffectiveLimit(Size(Demand(w, c), spare), Taken(Telling(w, account, spare), DemandsOf(now), LoginPool(c))) != 0
  {
    OnlyOwnTake(w, now, account, spare, c);
    OwnLoginFirst(w, account, spare, c, Demand(now, c));
  }

  // Someone asked for less than in the window leaves a seat on their login.
  lemma TellingLeavesOne(w: Items, now: Items, account: int, spare: nat, c: int)
    requires c == account || c in Others(w, account)
    requires Demand(now, c).Some? && Demand(now, c).value < Size(Demand(w, c), spare)
    requires c != account ==> OwnFits(w, now, account, spare)
    ensures !FullyBlocked(Telling(w, account, spare), now, account)
  {
    TakenBelowSize(w, now, account, spare, c);
    SizedLoginListed(w, account, spare, c);
  }

  lemma SizedLoginListed(w: Items, account: int, spare: nat, c: int)
    requires c == account || c in Others(w, account)
    ensures var seating := Telling(w, account, spare);
      (LoginPool(c), Some(Size(Demand(w, c), spare))) in AccountPools(seating, account, Some(LimitOf(seating, account)))
  {
    var seating, ids := Telling(w, account, spare), IdsOf(w, account, account);
    PoolsOf(w, account, spare, account, Some(LimitOf(seating, account)));
    assert c in ids;
    var i :| 0 <= i < |ids| && ids[i] == c;
    assert AccountPools(seating, account, Some(LimitOf(seating, account)))[i] == (LoginPool(c), Some(Size(Demand(w, c), spare)));
  }

  // `now` asks no account for more than `w`, and for less than `spare` when not for everything.
  ghost predicate Within(now: Items, w: Items, spare: nat) {
    forall c :: AtMost(Demand(now, c), Demand(w, c)) && (Demand(now, c).Some? ==> Demand(now, c).value < spare)
  }

  lemma LessIsBelowSize(now: Slots, asked: Slots, spare: nat)
    requires AtMost(now, asked) && now.Some? && now.value < spare
    ensures now.value <= Size(asked, spare) && (now != asked ==> now.value < Size(asked, spare) && asked != Some(0))
  {
  }

  lemma AskedIsListed(w: Items, account: int, c: int)
    requires c != account && Demand(w, c) != Some(0)
    ensures c in Others(w, account)
  {
    if !Blocked(w, c) { UnblockedDemandsNothing(w, c); }
  }

  lemma TellingTells(w: Items, now: Items, account: int, spare: nat)
    requires Within(now, w, spare) && Demand(now, account).Some? && !SameAsked(now, w)
    ensures !FullyBlocked(Telling(w, account, spare), now, account)
  {
    LessIsBelowSize(Demand(now, account), Demand(w, account), spare);
    if Demand(now, account) != Demand(w, account) {
      TellingLeavesOne(w, now, account, spare, account);
    } else {
      OtherTells(w, now, account, spare);
    }
  }

  lemma OtherTells(w: Items, now: Items, account: int, spare: nat)
    requires Within(now, w, spare) && Demand(now, account).Some? && Demand(now, account) == Demand(w, account) && !SameAsked(now, w)
    ensures !FullyBlocked(Telling(w, account, spare), now, account)
  {
    var c :| Demand(now, c) != Demand(w, c);
    LessIsBelowSize(Demand(now, c), Demand(w, c), spare);
    AskedIsListed(w, account, c);
    TellingLeavesOne(w, now, account, spare, c);
  }

  // ---- how much an instant can ask for -------------------------------------------------------------

  // Every partial block at once.
  function Partials(items: Items): nat {
    if items == [] then 0
    else Partials(items[..|items| - 1]) + var last := items[|items| - 1].1; if last.Some? then last.value else 0
  }

  lemma {:induction false} DemandWithin(items: Items, account: int)
    requires Demand(items, account).Some?
    ensures Demand(items, account).value <= Partials(items)
  {
    if items != [] {
      var front, last := items[..|items| - 1], items[|items| - 1];
      if Demand(front, account).Some? { DemandWithin(front, account); }
    }
  }

  lemma {:induction false} PartialsOfSelected(blocks: seq<Block>, keep: Block -> bool)
    ensures Partials(ItemsOf(Select(blocks, keep))) <= Partials(ItemsOf(blocks))
  {
    if blocks != [] {
      var front, last := blocks[..|blocks| - 1], blocks[|blocks| - 1];
      assert blocks == front + [last];
      PartialsOfSelected(front, keep);
      ItemsLast(front, last);
      ItemsLast(Select(front, keep), last);
    }
  }

  lemma {:induction false} PartialsAppend(xs: Items, ys: Items)
    ensures Partials(xs + ys) == Partials(xs) + Partials(ys)
  {
    if ys == [] {
      assert xs + ys == xs;
    } else {
      PartialsAppend(xs, ys[..|ys| - 1]);
      assert (xs + ys)[..|xs + ys| - 1] == xs + ys[..|ys| - 1];
    }
  }

  function Spare(blocks: seq<Block>, pending: Items): nat { Partials(ItemsOf(blocks)) + Partials(pending) + 1 }

  lemma InstantsAreWithin(blocks: seq<Block>, pending: Items, start: int, stop: int, t: int)
    requires start <= t < stop
    ensures Within(Asking(blocks, At(t), pending), Asking(blocks, During(start, stop), pending), Spare(blocks, pending))
  {
    var now, w := Asking(blocks, At(t), pending), Asking(blocks, During(start, stop), pending);
    SelectNarrower(blocks, At(t), blocks, During(start, stop));
    ItemsMultiset(Select(blocks, At(t)), Select(blocks, During(start, stop)));
    PartialsOfSelected(blocks, At(t));
    PartialsAppend(ItemsOf(Select(blocks, At(t))), pending);
    forall c ensures AtMost(Demand(now, c), Demand(w, c)) && (Demand(now, c).Some? ==> Demand(now, c).value < Spare(blocks, pending)) {
      DemandMonotone(now, w, c);
      if Demand(now, c).Some? { DemandWithin(now, c); }
    }
  }

  // ---- the exact condition ---------------------------------------------------------------------------

  // When no instant asks for what the window does, there are seats - shared between the accounts
  // blocked - that are called full over the window and are never all taken.
  lemma WindowCanOverstate(blocks: seq<Block>, pending: Items, account: int, start: int, stop: int) returns (seating: Seating)
    requires forall t :: !AskedAtOnce(blocks, pending, account, start, stop, t)
    ensures FullInWindow(seating, blocks, pending, account, start, stop)
    ensures forall t :: start <= t < stop ==> !FullAtInstant(seating, blocks, pending, account, t)
  {
    var w := Asking(blocks, During(start, stop), pending);
    seating := Telling(w, account, Spare(blocks, pending));
    TellingIsFull(w, account, Spare(blocks, pending));
    forall t | start <= t < stop ensures !FullAtInstant(seating, blocks, pending, account, t) {
      assert !AskedAtOnce(blocks, pending, account, start, stop, t);
      InstantsAreWithin(blocks, pending, start, stop, t);
      TellingTells(w, Asking(blocks, At(t), pending), account, Spare(blocks, pending));
    }
  }

  lemma AskedAtOnceIsFull(seating: Seating, blocks: seq<Block>, pending: Items, account: int, start: int, stop: int, t: int)
    requires AskedAtOnce(blocks, pending, account, start, stop, t) && FullInWindow(seating, blocks, pending, account, start, stop)
    ensures FullAtInstant(seating, blocks, pending, account, t)
  {
    var now, w := Asking(blocks, At(t), pending), Asking(blocks, During(start, stop), pending);
    if Demand(now, account).None? {
      WholeBlocks(seating, now, account);
    } else {
      forall c ensures SameFor(now, w, c) { assert Demand(now, c) == Demand(w, c); }
      SiblingsDecide(seating, now, w, account);
    }
  }

  // The window is answered as some instant of it, however many seats there are and whoever shares
  // them, exactly when some instant takes the account whole or asks everyone for what the window asks.
  lemma WindowIsExactWhenAskedAtOnce(blocks: seq<Block>, pending: Items, account: int, start: int, stop: int)
    ensures (forall seating :: ExactFor(seating, blocks, pending, account, start, stop))
      <==> exists t :: AskedAtOnce(blocks, pending, account, start, stop, t)
  {
    if t :| AskedAtOnce(blocks, pending, account, start, stop, t) {
      forall seating ensures ExactFor(seating, blocks, pending, account, start, stop) {
        if FullInWindow(seating, blocks, pending, account, start, stop) { AskedAtOnceIsFull(seating, blocks, pending, account, start, stop, t); }
      }
    } else {
      var seating := WindowCanOverstate(blocks, pending, account, start, stop);
      assert !ExactFor(seating, blocks, pending, account, start, stop);
    }
  }

  const Early: Block := Block(1, 0, 10, Some(1))
  const Late: Block := Block(2, 10, 20, Some(1))

  lemma AsksOf(keep: Block -> bool)
    ensures var asked := Asking([Early, Late], keep, []);
      Demand(asked, 1) == Some(if keep(Early) then 1 else 0) && Demand(asked, 2) == Some(if keep(Late) then 1 else 0)
  {
    AsksOfBoth(Early, Late, keep, 1);
    AsksOfBoth(Early, Late, keep, 2);
  }

  lemma AsksOfBoth(a: Block, b: Block, keep: Block -> bool, account: int)
    ensures Demand(Asking([a, b], keep, []), account) ==
      Plus(Plus(Some(0), if keep(a) && a.account == account then a.slots else Some(0)), if keep(b) && b.account == account then b.slots else Some(0))
  {
    AsksOfLast([], a, keep, account);
    AsksOfLast([a], b, keep, account);
    assert [] + [a] == [a] && [a] + [b] == [a, b];
  }

  lemma AsksOfLast(front: seq<Block>, last: Block, keep: Block -> bool, account: int)
    ensures Demand(Asking(front + [last], keep, []), account) ==
      Plus(Demand(Asking(front, keep, []), account), if keep(last) && last.account == account then last.slots else Some(0))
  {
    assert (front + [last])[..|front|] == front;
    DemandOfLast(Select(front, keep), last, account);
    assert forall xs: Items :: xs + [] == xs;
  }

  // Two accounts blocked one after the other: some seats they share are called full throughout.
  lemma SharersCanBeOverstated() returns (seating: Seating)
    ensures FullInWindow(seating, [Early, Late], [], 1, 0, 20)
    ensures forall t :: 0 <= t < 20 ==> !FullAtInstant(seating, [Early, Late], [], 1, t)
  {
    AsksOf(During(0, 20));
    forall t ensures !AskedAtOnce([Early, Late], [], 1, 0, 20, t) { AsksOf(At(t)); }
    seating := WindowCanOverstate([Early, Late], [], 1, 0, 20);
  }

  // ---- one account's blocks ------------------------------------------------------------------------

  ghost predicate OneAccount(blocks: seq<Block>, account: int) { forall b :: b in blocks ==> b.account == account }

  // What the blocks kept ask of their account.
  function AskedOf(blocks: seq<Block>, keep: Block -> bool): Slots {
    if blocks == [] then Some(0)
    else
      var front, last := AskedOf(blocks[..|blocks| - 1], keep), blocks[|blocks| - 1];
      if keep(last) then Plus(front, last.slots) else front
  }

  // All that the window's blocks ask for is asked for at one instant of it.
  ghost predicate MeetsAt(blocks: seq<Block>, start: int, stop: int, t: int) {
    start <= t < stop && AskedOf(blocks, At(t)) == AskedOf(blocks, During(start, stop))
  }

  ghost predicate Seated(blocks: seq<Block>, b: Block, start: int, stop: int) {
    b in blocks && Overlaps(b, start, stop) && b.slots != Some(0)
  }

  // A block of the window takes every seat, or those that take one meet in pairs.
  ghost predicate Meeting(blocks: seq<Block>, start: int, stop: int) {
    || (exists b :: Seated(blocks, b, start, stop) && b.slots.None? && b.start < b.stop)
    || (forall a, b :: Seated(blocks, a, start, stop) && Seated(blocks, b, start, stop) ==> a.start < b.stop)
  }

  lemma {:induction false} ItemsOfOne(blocks: seq<Block>, account: int)
    requires OneAccount(blocks, account)
    ensures forall i :: 0 <= i < |ItemsOf(blocks)| ==> ItemsOf(blocks)[i].0 == account
  {
    if blocks != [] {
      assert blocks == blocks[..|blocks| - 1] + [blocks[|blocks| - 1]];
      ItemsOfOne(blocks[..|blocks| - 1], account);
    }
  }

  lemma {:induction false} AskedIsDemand(blocks: seq<Block>, keep: Block -> bool, account: int)
    requires OneAccount(blocks, account)
    ensures Demand(ItemsOf(Select(blocks, keep)), account) == AskedOf(blocks, keep)
  {
    if blocks != [] {
      var front, last := blocks[..|blocks| - 1], blocks[|blocks| - 1];
      assert blocks == front + [last];
      AskedIsDemand(front, keep, account);
      DemandOfLast(Select(front, keep), last, account);
    }
  }

  // Blocks that take no seat make no difference.
  lemma {:induction false} SameTaken(blocks: seq<Block>, f: Block -> bool, g: Block -> bool)
    requires forall b :: b in blocks && b.slots != Some(0) ==> (f(b) <==> g(b))
    ensures AskedOf(blocks, f) == AskedOf(blocks, g)
  {
    if blocks != [] {
      var front, last := blocks[..|blocks| - 1], blocks[|blocks| - 1];
      assert blocks == front + [last];
      SameTaken(front, f, g);
    }
  }

  ghost predicate Narrower(blocks: seq<Block>, f: Block -> bool, g: Block -> bool) { forall b :: b in blocks && f(b) ==> g(b) }

  lemma {:induction false} AskedGrows(blocks: seq<Block>, f: Block -> bool, g: Block -> bool)
    requires Narrower(blocks, f, g)
    ensures AtMost(AskedOf(blocks, f), AskedOf(blocks, g))
  {
    if blocks != [] {
      var front, last := blocks[..|blocks| - 1], blocks[|blocks| - 1];
      assert blocks == front + [last];
      AskedGrows(front, f, g);
    }
  }

  // A block left out that takes a seat is missed, unless another takes them all.
  lemma {:induction false} LeftOutIsMissed(blocks: seq<Block>, f: Block -> bool, g: Block -> bool, b: Block)
    requires Narrower(blocks, f, g)
    requires b in blocks && g(b) && !f(b) && b.slots != Some(0) && AskedOf(blocks, g).Some?
    ensures AskedOf(blocks, f) != AskedOf(blocks, g)
  {
    var front, last := blocks[..|blocks| - 1], blocks[|blocks| - 1];
    assert blocks == front + [last];
    AskedGrows(front, f, g);
    if b in front && AskedOf(front, f) == AskedOf(front, g) { LeftOutIsMissed(front, f, g, b); }
  }

  lemma {:induction false} WholeIsAsked(blocks: seq<Block>, keep: Block -> bool)
    ensures AskedOf(blocks, keep).None? <==> exists b :: b in blocks && keep(b) && b.slots.None?
  {
    if blocks != [] {
      var front, last := blocks[..|blocks| - 1], blocks[|blocks| - 1];
      assert blocks == front + [last];
      WholeIsAsked(front, keep);
    }
  }

  function TakesSeat(): Block -> bool { (b: Block) => b.slots != Some(0) }

  // The blocks meet in pairs exactly when they all meet at some instant.
  lemma MeetingIsAtOnce(blocks: seq<Block>, start: int, stop: int)
    requires start < stop
    ensures Meeting(blocks, start, stop) <==> exists t :: MeetsAt(blocks, start, stop, t)
  {
    if t :| MeetsAt(blocks, start, stop, t) { MeetsInPairs(blocks, start, stop, t); }
    if Meeting(blocks, start, stop) { var t := MeetingInstant(blocks, start, stop); }
  }

  lemma MeetsInPairs(blocks: seq<Block>, start: int, stop: int, t: int)
    requires MeetsAt(blocks, start, stop, t)
    ensures Meeting(blocks, start, stop)
  {
    WholeIsAsked(blocks, At(t));
    if b :| b in blocks && InForce(b, t) && b.slots.None? { assert Seated(blocks, b, start, stop); }
    if AskedOf(blocks, At(t)).Some? {
      forall b | Seated(blocks, b, start, stop) ensures InForce(b, t) {
        if !InForce(b, t) { LeftOutIsMissed(blocks, At(t), During(start, stop), b); }
      }
    }
  }

  lemma MeetingInstant(blocks: seq<Block>, start: int, stop: int) returns (t: int)
    requires start < stop && Meeting(blocks, start, stop)
    ensures MeetsAt(blocks, start, stop, t)
  {
    if b :| Seated(blocks, b, start, stop) && b.slots.None? && b.start < b.stop {
      t := if b.start < start then start else b.start;
      WholeIsAsked(blocks, At(t));
      WholeIsAsked(blocks, During(start, stop));
    } else {
      t := LatestStart(Select(blocks, TakesSeat()), start, stop);
      forall b | b in blocks && b.slots != Some(0) ensures At(t)(b) <==> During(start, stop)(b) {
        assert b in Select(blocks, TakesSeat());
        assert Overlaps(b, start, stop) ==> Seated(blocks, b, start, stop);
      }
      SameTaken(blocks, At(t), During(start, stop));
    }
  }

  lemma OthersNeverAsked(blocks: seq<Block>, account: int, c: int)
    requires OneAccount(blocks, account) && c != account
    ensures Demand(ItemsOf(blocks), c) == Some(0)
  {
    ItemsOfOne(blocks, account);
    UnblockedDemandsNothing(ItemsOf(blocks), c);
  }

  lemma MeetingIsAskedAtOnce(blocks: seq<Block>, account: int, start: int, stop: int, t: int)
    requires OneAccount(blocks, account)
    ensures AskedAtOnce(blocks, [], account, start, stop, t) <==> MeetsAt(blocks, start, stop, t)
  {
    var now, w := Select(blocks, At(t)), Select(blocks, During(start, stop));
    assert ItemsOf(now) + [] == ItemsOf(now) && ItemsOf(w) + [] == ItemsOf(w);
    AskedIsDemand(blocks, At(t), account);
    AskedIsDemand(blocks, During(start, stop), account);
    if start <= t < stop { AskedGrows(blocks, At(t), During(start, stop)); }
    forall c | c != account ensures Demand(ItemsOf(now), c) == Demand(ItemsOf(w), c) {
      OthersNeverAsked(now, account, c);
      OthersNeverAsked(w, account, c);
    }
  }

  // With one account's blocks and nothing pending: exactly when its blocks meet.
  lemma WindowIsExactWhenMeeting(blocks: seq<Block>, account: int, start: int, stop: int)
    requires OneAccount(blocks, account) && start < stop
    ensures (forall seating :: ExactFor(seating, blocks, [], account, start, stop)) <==> Meeting(blocks, start, stop)
  {
    WindowIsExactWhenAskedAtOnce(blocks, [], account, start, stop);
    MeetingIsAtOnce(blocks, start, stop);
    forall t ensures AskedAtOnce(blocks, [], account, start, stop, t) <==> MeetsAt(blocks, start, stop, t) {
      MeetingIsAskedAtOnce(blocks, account, start, stop, t);
    }
  }

  // When the blocks of a window meet pairwise inside it they all meet at one instant, and there
  // the window's answer is the instant's: nothing is overstated.
  lemma MeetingBlocksAreExact(seating: Seating, blocks: seq<Block>, pending: Items, account: int, start: int, stop: int)
      returns (t: int)
    requires start < stop
    requires forall a, b :: a in blocks && b in blocks && Overlaps(a, start, stop) && Overlaps(b, start, stop)
               ==> a.start < b.stop
    ensures AskedAtOnce(blocks, pending, account, start, stop, t)
    ensures FullAtInstant(seating, blocks, pending, account, t) <==> FullInWindow(seating, blocks, pending, account, start, stop)
  {
    t := LatestStart(blocks, start, stop);
    forall b | b in blocks ensures At(t)(b) <==> During(start, stop)(b) {
    }
    SelectSame(blocks, At(t), During(start, stop));
  }

  lemma {:induction false} SelectSame(blocks: seq<Block>, f: Block -> bool, g: Block -> bool)
    requires forall b :: b in blocks ==> (f(b) <==> g(b))
    ensures Select(blocks, f) == Select(blocks, g)
  {
    if blocks != [] {
      assert blocks == blocks[..|blocks| - 1] + [blocks[|blocks| - 1]];
      SelectSame(blocks[..|blocks| - 1], f, g);
    }
  }

  lemma {:induction false} LatestStart(blocks: seq<Block>, start: int, stop: int) returns (t: int)
    requires start < stop
    ensures start <= t < stop
    ensures forall b :: b in blocks && Overlaps(b, start, stop) ==> b.start <= t
    ensures t == start || exists b :: b in blocks && Overlaps(b, start, stop) && b.start == t
  {
    if blocks == [] { return start; }
    var last := blocks[|blocks| - 1];
    t := LatestStart(blocks[..|blocks| - 1], start, stop);
    assert blocks == blocks[..|blocks| - 1] + [last];
    if Overlaps(last, start, stop) && last.start > t {
      assert last in blocks;
      return last.start;
    }
  }
}
