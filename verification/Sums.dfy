/** Finite sums over sets of keys and over sequences, and their invariance under reordering. */
module Sums {

  ghost function SumOver(s: set<string>, f: string -> int): int
    decreases |s|
  {
    if s == {} then 0
    else
      var k :| k in s;
      f(k) + SumOver(s - {k}, f)
  }

  lemma {:induction false} SumPick(s: set<string>, f: string -> int, k: string)
    requires k in s
    ensures SumOver(s, f) == f(k) + SumOver(s - {k}, f)
    decreases |s|
  {
    var p :| p in s && SumOver(s, f) == f(p) + SumOver(s - {p}, f);
    if p != k {
      SumPick(s - {p}, f, k);
      SumPick(s - {k}, f, p);
      assert s - {p} - {k} == s - {k} - {p};
    }
  }

  lemma {:induction false} SumSame(s: set<string>, f: string -> int, g: string -> int)
    requires forall k :: k in s ==> f(k) == g(k)
    ensures SumOver(s, f) == SumOver(s, g)
    decreases |s|
  {
    if s != {} {
      var k :| k in s;
      SumPick(s, f, k);
      SumPick(s, g, k);
      SumSame(s - {k}, f, g);
    }
  }

  /** Raising one term raises the sum by as much. */
  lemma SumBump(s: set<string>, f: string -> int, g: string -> int, k: string, d: int)
    requires k in s && g(k) == f(k) + d
    requires forall j :: j in s && j != k ==> g(j) == f(j)
    ensures SumOver(s, g) == SumOver(s, f) + d
  {
    SumPick(s, f, k);
    SumPick(s, g, k);
    SumSame(s - {k}, f, g);
  }

  lemma {:induction false} SumZero(s: set<string>, f: string -> int)
    requires forall k :: k in s ==> f(k) == 0
    ensures SumOver(s, f) == 0
    decreases |s|
  {
    if s != {} {
      var k :| k in s;
      SumPick(s, f, k);
      SumZero(s - {k}, f);
    }
  }

  /** Raising one term, which may be new to the set. */
  lemma SumAbsent(s: set<string>, f: string -> int, g: string -> int, k: string, d: int)
    requires g(k) == (if k in s then f(k) else 0) + d
    requires forall j :: j in s && j != k ==> g(j) == f(j)
    ensures SumOver(s + {k}, g) == SumOver(s, f) + d
  {
    if k in s {
      assert s + {k} == s;
      SumBump(s, f, g, k, d);
    } else {
      SumPick(s + {k}, g, k);
      assert s + {k} - {k} == s;
      SumSame(s, f, g);
    }
  }

  // ----- Real-valued sums -----

  ghost function RealSum(s: set<string>, f: string -> real): real
    decreases |s|
  {
    if s == {} then 0.0
    else
      var k :| k in s;
      f(k) + RealSum(s - {k}, f)
  }

  lemma {:induction false} RealSumPick(s: set<string>, f: string -> real, k: string)
    requires k in s
    ensures RealSum(s, f) == f(k) + RealSum(s - {k}, f)
    decreases |s|
  {
    var p :| p in s && RealSum(s, f) == f(p) + RealSum(s - {p}, f);
    if p != k {
      RealSumPick(s - {p}, f, k);
      RealSumPick(s - {k}, f, p);
      assert s - {p} - {k} == s - {k} - {p};
    }
  }

  lemma {:induction false} RealSumSame(s: set<string>, f: string -> real, g: string -> real)
    requires forall k :: k in s ==> f(k) == g(k)
    ensures RealSum(s, f) == RealSum(s, g)
    decreases |s|
  {
    if s != {} {
      var k :| k in s;
      RealSumPick(s, f, k);
      RealSumPick(s, g, k);
      RealSumSame(s - {k}, f, g);
    }
  }

  lemma RealSumBump(s: set<string>, f: string -> real, g: string -> real, k: string, d: real)
    requires k in s && g(k) == f(k) + d
    requires forall j :: j in s && j != k ==> g(j) == f(j)
    ensures RealSum(s, g) == RealSum(s, f) + d
  {
    RealSumPick(s, f, k);
    RealSumPick(s, g, k);
    RealSumSame(s - {k}, f, g);
  }

  lemma {:induction false} RealSumZero(s: set<string>, f: string -> real)
    requires forall k :: k in s ==> f(k) == 0.0
    ensures RealSum(s, f) == 0.0
    decreases |s|
  {
    if s != {} {
      var k :| k in s;
      RealSumPick(s, f, k);
      RealSumZero(s - {k}, f);
    }
  }

  // ----- Sums over sequences -----

  function Total<T>(xs: seq<T>, f: T -> int): int {
    if xs == [] then 0 else Total(xs[..|xs| - 1], f) + f(xs[|xs| - 1])
  }

  function Without<T>(xs: seq<T>, i: nat): seq<T>
    requires i < |xs|
  {
    xs[..i] + xs[i + 1..]
  }

  lemma WithoutEarlier<T>(xs: seq<T>, i: nat)
    requires i < |xs| - 1
    ensures |Without(xs, i)| == |xs| - 1
    ensures Without(xs, i)[..|xs| - 2] == Without(xs[..|xs| - 1], i)
    ensures Without(xs, i)[|xs| - 2] == xs[|xs| - 1]
  {
    var init := xs[..|xs| - 1];
    assert init[..i] == xs[..i] && init[i + 1..] == xs[i + 1..|xs| - 1];
    assert xs[i + 1..][..|xs| - 2 - i] == xs[i + 1..|xs| - 1];
  }

  lemma {:induction false} TotalWithout<T>(xs: seq<T>, f: T -> int, i: nat)
    requires i < |xs|
    ensures Total(xs, f) == Total(Without(xs, i), f) + f(xs[i])
  {
    var n := |xs|;
    if i == n - 1 {
      assert Without(xs, i) == xs[..n - 1];
    } else {
      TotalWithout(xs[..n - 1], f, i);
      WithoutEarlier(xs, i);
      hide Without;
    }
  }

  lemma MultisetWithout<T>(xs: seq<T>, i: nat)
    requires i < |xs|
    ensures multiset(Without(xs, i)) == multiset(xs) - multiset{xs[i]}
  {
    assert xs == xs[..i] + [xs[i]] + xs[i + 1..];
  }

  /** A sum does not depend on the order of its terms. */
  lemma {:induction false} TotalPermutes<T>(xs: seq<T>, ys: seq<T>, f: T -> int)
    requires multiset(xs) == multiset(ys)
    ensures Total(xs, f) == Total(ys, f)
    decreases |xs|
  {
    assert |xs| == |multiset(xs)| == |multiset(ys)| == |ys|;
    if xs != [] {
      var init, x := xs[..|xs| - 1], xs[|xs| - 1];
      assert x in multiset(ys);
      var i :| 0 <= i < |ys| && ys[i] == x;
      var rest := Without(ys, i);
      MultisetWithout(xs, |xs| - 1);
      assert Without(xs, |xs| - 1) == init;
      MultisetWithout(ys, i);
      TotalPermutes(init, rest, f);
      TotalWithout(ys, f, i);
    }
  }

  // ----- Real-valued sums over sequences -----

  function RealTotal<T>(xs: seq<T>, f: T -> real): real {
    if xs == [] then 0.0 else RealTotal(xs[..|xs| - 1], f) + f(xs[|xs| - 1])
  }

  lemma RealTotalAppend<T>(xs: seq<T>, x: T, f: T -> real)
    ensures RealTotal(xs + [x], f) == RealTotal(xs, f) + f(x)
  {
    assert (xs + [x])[..|xs|] == xs;
  }

  lemma {:induction false} RealTotalConcat<T>(xs: seq<T>, ys: seq<T>, f: T -> real)
    ensures RealTotal(xs + ys, f) == RealTotal(xs, f) + RealTotal(ys, f)
  {
    if ys == [] {
      assert xs + ys == xs;
    } else {
      RealTotalConcat(xs, ys[..|ys| - 1], f);
      assert (xs + ys)[..|xs + ys| - 1] == xs + ys[..|ys| - 1];
    }
  }

  lemma {:induction false} TotalConcat<T>(xs: seq<T>, ys: seq<T>, f: T -> int)
    ensures Total(xs + ys, f) == Total(xs, f) + Total(ys, f)
  {
    if ys == [] {
      assert xs + ys == xs;
    } else {
      TotalConcat(xs, ys[..|ys| - 1], f);
      assert (xs + ys)[..|xs + ys| - 1] == xs + ys[..|ys| - 1];
    }
  }
}
