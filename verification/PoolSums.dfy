/** Sums over the workers of a pool. */
module PoolSums {
  /** The sum of `f` over the workers. */
  function Sum<W>(ws: seq<W>, f: W -> nat): nat {
    if ws == [] then 0 else f(ws[0]) + Sum(ws[1..], f)
  }

  lemma {:induction false} SumUpdate<W>(ws: seq<W>, w: nat, x: W, f: W -> nat)
    requires w < |ws|
    ensures Sum(ws[w := x], f) + f(ws[w]) == Sum(ws, f) + f(x)
  {
    if w == 0 {
      assert ws[0 := x][1..] == ws[1..];
    } else {
      assert ws[w := x][1..] == ws[1..][w - 1 := x];
      SumUpdate(ws[1..], w - 1, x, f);
    }
  }

  lemma {:induction false} SumBound<W>(ws: seq<W>, f: W -> nat, b: nat)
    requires forall w :: 0 <= w < |ws| ==> f(ws[w]) <= b
    ensures Sum(ws, f) <= b * |ws|
  {
    if ws != [] { SumBound(ws[1..], f, b); }
  }

  lemma {:induction false} SumMono<W>(ws: seq<W>, f: W -> nat, g: W -> nat)
    requires forall w :: 0 <= w < |ws| ==> f(ws[w]) <= g(ws[w])
    ensures Sum(ws, f) <= Sum(ws, g)
  {
    if ws != [] { SumMono(ws[1..], f, g); }
  }

  lemma {:induction false} SumZero<W>(ws: seq<W>, f: W -> nat)
    requires forall w :: 0 <= w < |ws| ==> f(ws[w]) == 0
    ensures Sum(ws, f) == 0
  {
    if ws != [] { SumZero(ws[1..], f); }
  }

  lemma {:induction false} SumOnes<W>(ws: seq<W>, f: W -> nat)
    requires forall w :: 0 <= w < |ws| ==> f(ws[w]) == 1
    ensures Sum(ws, f) == |ws|
  {
    if ws != [] { SumOnes(ws[1..], f); }
  }

  lemma {:induction false} SumAt<W>(ws: seq<W>, w: nat, f: W -> nat)
    requires w < |ws|
    ensures f(ws[w]) <= Sum(ws, f)
  {
    if w > 0 { SumAt(ws[1..], w - 1, f); }
  }

  lemma {:induction false} SumTwo<W>(ws: seq<W>, v: nat, w: nat, f: W -> nat)
    requires v < |ws| && w < |ws| && v != w
    ensures f(ws[v]) + f(ws[w]) <= Sum(ws, f)
  {
    if v == 0 {
      SumAt(ws[1..], w - 1, f);
    } else if w == 0 {
      SumAt(ws[1..], v - 1, f);
    } else {
      SumTwo(ws[1..], v - 1, w - 1, f);
    }
  }

  lemma {:induction false} SumAdd<W>(ws: seq<W>, f: W -> nat, g: W -> nat, h: W -> nat)
    requires forall w :: 0 <= w < |ws| ==> f(ws[w]) + g(ws[w]) == h(ws[w])
    ensures Sum(ws, f) + Sum(ws, g) == Sum(ws, h)
  {
    if ws != [] { SumAdd(ws[1..], f, g, h); }
  }

  /** How often `i` occurs in `s`. */
  function Times(s: seq<nat>, i: nat): nat { multiset(s)[i] }

  lemma TimesAppend(s: seq<nat>, x: nat, i: nat)
    ensures Times(s + [x], i) == Times(s, i) + (if i == x then 1 else 0)
  {}

  lemma TimesTail(s: seq<nat>, i: nat)
    requires s != []
    ensures Times(s[1..], i) == Times(s, i) - (if i == s[0] then 1 else 0)
  {
    assert s == [s[0]] + s[1..];
  }

  /** The bag {0, ..., n - 1}. */
  function UpTo(n: nat): multiset<nat> {
    if n == 0 then multiset{} else UpTo(n - 1) + multiset{n - 1}
  }

  lemma {:induction false} UpToCounts(n: nat, i: nat)
    ensures UpTo(n)[i] == if i < n then 1 else 0
  {
    if n > 0 { UpToCounts(n - 1, i); }
  }

  lemma {:induction false} UpToSize(n: nat)
    ensures |UpTo(n)| == n
  {
    if n > 0 { UpToSize(n - 1); }
  }
}
