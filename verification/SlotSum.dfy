// Sums of seat counts in which "every seat" absorbs, over a set of accounts in any order.
module SlotSum {
  import opened Common

  // Seats taken: Some(n), or None for every seat.
  type Slots = Option<nat>

  function Plus(a: Slots, b: Slots): Slots {
    if a.None? || b.None? then None else Some(a.value + b.value)
  }

  predicate AtMost(a: Slots, b: Slots) { b.None? || (a.Some? && a.value <= b.value) }

  ghost function Sum(f: map<int, Slots>, s: set<int>): Slots
    requires s <= f.Keys
    decreases |s|
  {
    if s == {} then Some(0)
    else
      var a := AnyOf(s);
      Plus(f[a], Sum(f, s - {a}))
  }

  lemma {:induction false} SumSplit(f: map<int, Slots>, s: set<int>, b: int)
    requires s <= f.Keys && b in s
    ensures Sum(f, s) == Plus(f[b], Sum(f, s - {b}))
    decreases |s|
  {
    var a := AnyOf(s);
    if a != b {
      SumSplit(f, s - {a}, b);
      SumSplit(f, s - {b}, a);
      assert s - {a} - {b} == s - {b} - {a};
    }
  }

  // Accounts that contribute nothing may be left out, and more demanded of each is no less in all.
  lemma {:induction false} SumMonotone(f: map<int, Slots>, s: set<int>, g: map<int, Slots>, t: set<int>)
    requires s <= f.Keys && t <= g.Keys
    requires forall a :: a in s && a !in t ==> f[a] == Some(0)
    requires forall a :: a in s && a in t ==> AtMost(f[a], g[a])
    ensures AtMost(Sum(f, s), Sum(g, t))
    decreases |s|
  {
    if s != {} {
      var a := AnyOf(s);
      SumMonotone(f, s - {a}, g, t - {a});
      if a in t {
        SumSplit(g, t, a);
      } else {
        assert t - {a} == t;
      }
    }
  }

  lemma SumEqual(f: map<int, Slots>, s: set<int>, g: map<int, Slots>, t: set<int>)
    requires s <= f.Keys && t <= g.Keys
    requires forall a :: a in s && a !in t ==> f[a] == Some(0)
    requires forall a :: a in t && a !in s ==> g[a] == Some(0)
    requires forall a :: a in s && a in t ==> f[a] == g[a]
    ensures Sum(f, s) == Sum(g, t)
  {
    SumMonotone(f, s, g, t);
    SumMonotone(g, t, f, s);
  }
}
