/** The effect of Go's `sort` package: a stable sort by an ordering. */
module Sorting {

  /** Code-point order, which is also the byte order of the UTF-8 text. */
  predicate Before(a: string, b: string) {
    b != "" && (a == "" || a[0] < b[0] || (a[0] == b[0] && Before(a[1..], b[1..])))
  }

  lemma {:induction false} BeforeIsOrder(a: string, b: string, c: string)
    ensures Before(a, b) ==> !Before(b, a)
    ensures !Before(b, a) && !Before(c, b) ==> !Before(c, a)
    ensures !Before(a, b) && !Before(b, a) ==> a == b
    decreases |a| + |b| + |c|
  {
    if a != "" && b != "" {
      BeforeIsOrder(a[1..], b[1..], if c == "" then "" else c[1..]);
      assert a == [a[0]] + a[1..] && b == [b[0]] + b[1..];
    }
  }

  /** At the first place where the texts differ the smaller character comes first; a
      text comes before its continuations. */
  lemma {:induction false} BeforeMeans(a: string, b: string, n: nat)
    requires n <= |a| && n <= |b| && a[..n] == b[..n] && (n < |a| && n < |b| ==> a[n] != b[n])
    ensures Before(a, b) <==> n < |b| && (n == |a| || a[n] < b[n])
    decreases n
  {
    if n > 0 {
      assert a[0] == a[..n][0] == b[..n][0] == b[0];
      assert a[1..][..n - 1] == a[..n][1..] && b[1..][..n - 1] == b[..n][1..];
      BeforeMeans(a[1..], b[1..], n - 1);
    }
  }

  /** `less` is a strict weak order. */
  ghost predicate Order<T(!new)>(less: (T, T) -> bool) {
    && (forall a, b :: less(a, b) ==> !less(b, a))
    && (forall a, b, c :: !less(b, a) && !less(c, b) ==> !less(c, a))
  }

  ghost predicate Sorted<T>(less: (T, T) -> bool, s: seq<T>) {
    forall i, j :: 0 <= i < j < |s| ==> !less(s[j], s[i])
  }

  function Insert<T>(less: (T, T) -> bool, x: T, s: seq<T>): seq<T> {
    if s == [] || less(x, s[0]) then [x] + s else [s[0]] + Insert(less, x, s[1..])
  }

  function Sort<T>(less: (T, T) -> bool, s: seq<T>): seq<T> {
    if s == [] then [] else Insert(less, s[|s| - 1], Sort(less, s[..|s| - 1]))
  }

  lemma {:induction false} InsertSorts<T(!new)>(less: (T, T) -> bool, x: T, s: seq<T>)
    requires Order(less) && Sorted(less, s)
    ensures Sorted(less, Insert(less, x, s))
    ensures multiset(Insert(less, x, s)) == multiset{x} + multiset(s)
  {
    if s == [] {
    } else if less(x, s[0]) {
      var r := [x] + s;
      forall i, j | 0 <= i < j < |r| ensures !less(r[j], r[i]) {
        if i == 0 && j > 1 { assert !less(s[j - 1], s[0]); }
      }
    } else {
      assert s == [s[0]] + s[1..];
      InsertSorts(less, x, s[1..]);
      var r := Insert(less, x, s[1..]);
      forall y | y in r ensures !less(y, s[0]) {
        assert y in multiset(r);
        assert y == x || y in s[1..];
      }
    }
  }

  lemma SortedNone<T>(less: (T, T) -> bool)
    ensures Sorted(less, [])
  {}

  /** Sorting gives an ordered permutation. */
  lemma {:induction false} SortSorts<T(!new)>(less: (T, T) -> bool, s: seq<T>)
    requires Order(less)
    ensures Sorted(less, Sort(less, s)) && multiset(Sort(less, s)) == multiset(s)
  {
    hide Insert, Order, Sorted;
    if s == [] {
      SortedNone(less);
    } else {
      SortSorts(less, s[..|s| - 1]);
      InsertSorts(less, s[|s| - 1], Sort(less, s[..|s| - 1]));
      assert s == s[..|s| - 1] + [s[|s| - 1]];
    }
  }

  lemma BeforeOrders()
    ensures Order(Before)
  {
    forall a, b, c
      ensures (Before(a, b) ==> !Before(b, a)) && (!Before(b, a) && !Before(c, b) ==> !Before(c, a))
    {
      BeforeIsOrder(a, b, c);
    }
  }

  function Where<T>(p: T -> bool, s: seq<T>): seq<T> {
    if s == [] then [] else Where(p, s[..|s| - 1]) + (if p(s[|s| - 1]) then [s[|s| - 1]] else [])
  }

  lemma {:induction false} WhereJoins<T>(p: T -> bool, s: seq<T>, t: seq<T>)
    ensures Where(p, s + t) == Where(p, s) + Where(p, t)
  {
    if t == [] {
      assert s + t == s;
    } else {
      var n := |t| - 1;
      assert (s + t)[..|s + t| - 1] == s + t[..n];
      WhereJoins(p, s, t[..n]);
    }
  }

  lemma {:induction false} WhereNone<T>(p: T -> bool, s: seq<T>)
    requires forall x :: x in s ==> !p(x)
    ensures Where(p, s) == []
  {
    if s != [] { WhereNone(p, s[..|s| - 1]); }
  }

  lemma WhereOne<T>(p: T -> bool, x: T)
    ensures Where(p, [x]) == if p(x) then [x] else []
  {
    assert [x][..0] == [];
  }

  lemma {:induction false} InsertKeepsPlaces<T(!new)>(less: (T, T) -> bool, p: T -> bool, x: T, s: seq<T>)
    requires Order(less) && Sorted(less, s) && forall a, b :: p(a) && p(b) ==> !less(a, b)
    ensures Where(p, Insert(less, x, s)) == Where(p, s) + Where(p, [x])
  {
    if s == [] {
      assert [x] + s == [x] && Where(p, s) == [];
    } else if less(x, s[0]) {
      if p(x) {
        forall y | y in s ensures !p(y) {
          var i :| 0 <= i < |s| && s[i] == y;
          assert !less(y, s[0]);
        }
        WhereNone(p, s);
      }
      WhereJoins(p, [x], s);
      WhereOne(p, x);
    } else {
      InsertKeepsPlaces(less, p, x, s[1..]);
      WhereJoins(p, [s[0]], Insert(less, x, s[1..]));
      WhereJoins(p, [s[0]], s[1..]);
      assert s == [s[0]] + s[1..];
    }
  }

  /** The sort is stable: elements none of which comes before another stay in the
      order they had. */
  lemma {:induction false} SortIsStable<T(!new)>(less: (T, T) -> bool, p: T -> bool, s: seq<T>)
    requires Order(less) && forall a, b :: p(a) && p(b) ==> !less(a, b)
    ensures Where(p, Sort(less, s)) == Where(p, s)
  {
    if s != [] {
      var n := |s| - 1;
      SortIsStable(less, p, s[..n]);
      SortSorts(less, s[..n]);
      InsertKeepsPlaces(less, p, s[n], Sort(less, s[..n]));
      WhereOne(p, s[n]);
    }
  }
}
