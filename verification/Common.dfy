// Shared vocabulary: an optional value, and the stable sort that the program's
// `sorted(..., key=...)` and `list.sort(key=...)` calls compute.
module Common {

  datatype Option<+T> = None | Some(value: T)

  // A key comparison usable by the sort: every two elements compare, and the comparison chains.
  ghost predicate TotalPreorder<T(!new)>(le: (T, T) -> bool) {
    && (forall x, y :: le(x, y) || le(y, x))
    && (forall x, y, z :: le(x, y) && le(y, z) ==> le(x, z))
  }

  ghost predicate SortedBy<T>(le: (T, T) -> bool, s: seq<T>) {
    forall i, j :: 0 <= i < j < |s| ==> le(s[i], s[j])
  }

  function Insert<T>(le: (T, T) -> bool, x: T, s: seq<T>): (r: seq<T>)
    ensures multiset(r) == multiset{x} + multiset(s)
    ensures |r| == |s| + 1
  {
    if s == [] || le(x, s[0]) then [x] + s
    else
      assert s == [s[0]] + s[1..];
      [s[0]] + Insert(le, x, s[1..])
  }

  // Insertion from the right end keeps equal keys in their original order, so this is the stable sort.
  function Sort<T>(le: (T, T) -> bool, s: seq<T>): (r: seq<T>)
    ensures multiset(r) == multiset(s)
    ensures |r| == |s|
  {
    if s == [] then []
    else
      assert s == [s[0]] + s[1..];
      Insert(le, s[0], Sort(le, s[1..]))
  }

  lemma {:induction false} InsertSorted<T(!new)>(le: (T, T) -> bool, x: T, s: seq<T>)
    requires TotalPreorder(le) && SortedBy(le, s)
    ensures SortedBy(le, Insert(le, x, s))
  {
    if s == [] || le(x, s[0]) {
    } else {
      var rest := Insert(le, x, s[1..]);
      InsertSorted(le, x, s[1..]);
      forall y | y in rest ensures le(s[0], y) {
        assert y in multiset(rest);
        assert y == x || y in s[1..];
      }
    }
  }

  lemma {:induction false} SortSorted<T(!new)>(le: (T, T) -> bool, s: seq<T>)
    requires TotalPreorder(le)
    ensures SortedBy(le, Sort(le, s))
  {
    if s != [] {
      SortSorted(le, s[1..]);
      InsertSorted(le, s[0], Sort(le, s[1..]));
    }
  }

  lemma SameElements<T>(a: seq<T>, b: seq<T>)
    requires multiset(a) == multiset(b)
    ensures forall x :: x in a <==> x in b
  {
    forall x ensures x in a <==> x in b {
      assert x in a <==> x in multiset(a);
      assert x in b <==> x in multiset(b);
    }
  }

  // A value that occurs at most once stands at one place.
  lemma OncePerPosition<T>(s: seq<T>, j: nat, k: nat)
    requires j < k < |s| && multiset(s)[s[j]] <= 1
    ensures s[j] != s[k]
  {
    assert s == s[..j + 1] + s[j + 1..];
    assert s[..j + 1][j] == s[j] && s[j + 1..][k - j - 1] == s[k];
    assert s[j] in multiset(s[..j + 1]) && s[k] in multiset(s[j + 1..]);
  }

  ghost predicate Rising<T(!new)>(key: T -> int, s: seq<T>) {
    forall i, j :: 0 <= i < j < |s| ==> key(s[i]) < key(s[j])
  }

  lemma SameLast<T(!new)>(key: T -> int, xs: seq<T>, ys: seq<T>)
    requires Rising(key, xs) && Rising(key, ys) && xs != [] && ys != []
    requires forall x :: x in xs <==> x in ys
    ensures xs[|xs| - 1] == ys[|ys| - 1]
  {
    var x, y := xs[|xs| - 1], ys[|ys| - 1];
    assert x in ys && y in xs;
    var i :| 0 <= i < |ys| && ys[i] == x;
    var j :| 0 <= j < |xs| && xs[j] == y;
  }

  lemma FrontMembers<T(!new)>(key: T -> int, xs: seq<T>)
    requires Rising(key, xs) && xs != []
    ensures Rising(key, xs[..|xs| - 1])
    ensures forall x :: x in xs[..|xs| - 1] <==> x in xs && x != xs[|xs| - 1]
  {
    assert xs == xs[..|xs| - 1] + [xs[|xs| - 1]];
    assert forall i :: 0 <= i < |xs| - 1 ==> key(xs[i]) < key(xs[|xs| - 1]);
  }

  // Two sequences that rise and hold the same values are one.
  lemma {:induction false} RisingUnique<T(!new)>(key: T -> int, xs: seq<T>, ys: seq<T>)
    requires Rising(key, xs) && Rising(key, ys)
    requires forall x :: x in xs <==> x in ys
    ensures xs == ys
  {
    assert xs == [] || xs[0] in xs;
    assert ys == [] || ys[0] in ys;
    if xs != [] {
      SameLast(key, xs, ys);
      FrontMembers(key, xs);
      FrontMembers(key, ys);
      var front, others := xs[..|xs| - 1], ys[..|ys| - 1];
      assert forall x :: x in front <==> x in xs && x != xs[|xs| - 1];
      assert forall x :: x in others <==> x in ys && x != ys[|ys| - 1];
      RisingUnique(key, front, others);
      assert xs == front + [xs[|xs| - 1]] && ys == others + [ys[|ys| - 1]];
    }
  }

  // Text compares as Python compares it: by the first differing character, a prefix first.
  predicate TextLe(a: string, b: string) {
    a == [] || (b != [] && (a[0] < b[0] || (a[0] == b[0] && TextLe(a[1..], b[1..]))))
  }

  lemma {:induction false} TextLeTotal(a: string, b: string)
    ensures TextLe(a, b) || TextLe(b, a)
  {
    if a != [] && b != [] { TextLeTotal(a[1..], b[1..]); }
  }

  lemma {:induction false} TextLeTransitive(a: string, b: string, c: string)
    requires TextLe(a, b) && TextLe(b, c)
    ensures TextLe(a, c)
  {
    if a != [] && b != [] && c != [] && a[0] == b[0] && b[0] == c[0] {
      TextLeTransitive(a[1..], b[1..], c[1..]);
    }
  }

  lemma {:induction false} TextLeAntisymmetric(a: string, b: string)
    requires TextLe(a, b) && TextLe(b, a)
    ensures a == b
  {
    if a != [] && b != [] {
      TextLeAntisymmetric(a[1..], b[1..]);
      assert a == [a[0]] + a[1..] && b == [b[0]] + b[1..];
    }
  }

  lemma SingletonElement<T>(s: set<T>, e: T)
    requires |s| == 1 && e in s
    ensures s == {e}
  {
    var rest := s - {e};
    assert |rest| == 0;
    assert s == {e} + rest;
  }

  function SumOver<T>(xs: seq<T>, value: T -> nat): nat {
    if xs == [] then 0 else SumOver(xs[..|xs| - 1], value) + value(xs[|xs| - 1])
  }

  lemma SubsetSize<T>(a: set<T>, b: set<T>)
    requires a <= b
    ensures |a| <= |b|
  {
    assert b == a + (b - a);
  }

  method Next<T(==)>(s: set<T>) returns (x: T)
    requires s != {}
    ensures x in s
  {
    ghost var a := AnyOf(s);
    assert a in s;
    assert exists y :: y in s;
    x :| x in s;
  }

  ghost function AnyOf<T>(s: set<T>): (x: T)
    requires s != {}
    ensures x in s
  {
    var x :| x in s;
    x
  }
}
