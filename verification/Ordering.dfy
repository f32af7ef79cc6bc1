/** Orders and sorting as Python provides them: code-point order on strings,
    `sorted`/`list.sort` as a stable sort under a key order. */
module Ordering {

  /** Lexicographic order on code points, which is `<=` on Python's str. */
  predicate LexLeq(a: string, b: string) {
    a == [] || (b != [] && (a[0] < b[0] || (a[0] == b[0] && LexLeq(a[1..], b[1..]))))
  }

  predicate LexLess(a: string, b: string) {
    LexLeq(a, b) && a != b
  }

  lemma {:induction false} LexTotal(a: string, b: string)
    ensures LexLeq(a, b) || LexLeq(b, a)
  {
    if a != [] && b != [] && a[0] == b[0] {
      LexTotal(a[1..], b[1..]);
    }
  }

  lemma {:induction false} LexAntisymmetric(a: string, b: string)
    requires LexLeq(a, b) && LexLeq(b, a)
    ensures a == b
  {
    if a != [] {
      LexAntisymmetric(a[1..], b[1..]);
      assert a == [a[0]] + a[1..] && b == [b[0]] + b[1..];
    }
  }

  lemma {:induction false} LexTransitive(a: string, b: string, c: string)
    requires LexLeq(a, b) && LexLeq(b, c)
    ensures LexLeq(a, c)
  {
    if a != [] && a[0] == b[0] == c[0] {
      LexTransitive(a[1..], b[1..], c[1..]);
    }
  }

  ghost predicate TotalPreorder<T(!new)>(leq: (T, T) -> bool) {
    && (forall x, y :: leq(x, y) || leq(y, x))
    && (forall x, y, z :: leq(x, y) && leq(y, z) ==> leq(x, z))
  }

  lemma LexIsTotalPreorder()
    ensures TotalPreorder(LexLeq)
  {
    forall x, y ensures LexLeq(x, y) || LexLeq(y, x) { LexTotal(x, y); }
    forall x, y, z | LexLeq(x, y) && LexLeq(y, z) ensures LexLeq(x, z) { LexTransitive(x, y, z); }
  }

  predicate SortedBy<T>(leq: (T, T) -> bool, s: seq<T>) {
    forall i, j :: 0 <= i < j < |s| ==> leq(s[i], s[j])
  }

  function Insert<T>(leq: (T, T) -> bool, x: T, s: seq<T>): seq<T> {
    if s == [] || leq(x, s[0]) then [x] + s else [s[0]] + Insert(leq, x, s[1..])
  }

  /** The stable sort: an element is placed before every equal one that followed it. */
  function Sort<T>(leq: (T, T) -> bool, s: seq<T>): seq<T> {
    if s == [] then [] else Insert(leq, s[0], Sort(leq, s[1..]))
  }

  lemma {:induction false} InsertCorrect<T(!new)>(leq: (T, T) -> bool, x: T, s: seq<T>)
    requires TotalPreorder(leq) && SortedBy(leq, s)
    ensures SortedBy(leq, Insert(leq, x, s))
    ensures multiset(Insert(leq, x, s)) == multiset(s) + multiset{x}
  {
    if s != [] {
      assert s == [s[0]] + s[1..];
      if leq(x, s[0]) {
        var r := [x] + s;
        forall j | 0 < j < |r| ensures leq(x, r[j]) {
          assert j > 1 ==> leq(s[0], s[j-1]);
        }
      } else {
        InsertCorrect(leq, x, s[1..]);
        var t := Insert(leq, x, s[1..]);
        forall j | 0 <= j < |t| ensures leq(s[0], t[j]) {
          assert t[j] in multiset(t);
          assert t[j] in s[1..] || t[j] == x;
        }
      }
    }
  }

  lemma {:induction false} SortCorrect<T(!new)>(leq: (T, T) -> bool, s: seq<T>)
    requires TotalPreorder(leq)
    ensures SortedBy(leq, Sort(leq, s))
    ensures multiset(Sort(leq, s)) == multiset(s)
    ensures |Sort(leq, s)| == |s|
  {
    if s != [] {
      SortCorrect(leq, s[1..]);
      InsertCorrect(leq, s[0], Sort(leq, s[1..]));
      assert s == [s[0]] + s[1..];
    }
    assert |Sort(leq, s)| == |multiset(Sort(leq, s))| == |multiset(s)| == |s|;
  }

  ghost predicate Pairwise<T>(R: (T, T) -> bool, s: seq<T>) {
    forall i, j :: 0 <= i < j < |s| ==> R(s[i], s[j])
  }

  /** Q holds of whichever of two R-related elements the sort puts first. */
  ghost predicate SortTurns<T(!new)>(leq: (T, T) -> bool, R: (T, T) -> bool, Q: (T, T) -> bool) {
    forall x, y :: R(x, y) ==> if leq(x, y) then Q(x, y) else Q(y, x)
  }

  lemma {:induction false} InsertRelates<T(!new)>(
      leq: (T, T) -> bool, R: (T, T) -> bool, Q: (T, T) -> bool, x: T, s: seq<T>)
    requires TotalPreorder(leq) && SortTurns(leq, R, Q)
    requires SortedBy(leq, s) && Pairwise(Q, s)
    requires forall y :: y in s ==> R(x, y)
    ensures Pairwise(Q, Insert(leq, x, s))
  {
    if s != [] {
      assert R(x, s[0]);
      if leq(x, s[0]) {
        var r := [x] + s;
        forall j | 0 < j < |r| ensures Q(x, r[j]) {
          assert r[j] in s && R(x, r[j]);
          assert j > 1 ==> leq(s[0], s[j - 1]);
        }
      } else {
        InsertRelates(leq, R, Q, x, s[1..]);
        InsertCorrect(leq, x, s[1..]);
        var t := Insert(leq, x, s[1..]);
        forall j | 0 <= j < |t| ensures Q(s[0], t[j]) {
          assert t[j] in multiset(t);
          if t[j] != x {
            assert t[j] in s[1..];
          }
        }
      }
    }
  }

  /** Stability and more: a relation between every element and those after it carries over
      to the sorted sequence, turned around where the sort swapped the two. */
  lemma {:induction false} SortRelates<T(!new)>(
      leq: (T, T) -> bool, R: (T, T) -> bool, Q: (T, T) -> bool, s: seq<T>)
    requires TotalPreorder(leq) && SortTurns(leq, R, Q) && Pairwise(R, s)
    ensures Pairwise(Q, Sort(leq, s))
  {
    if s != [] {
      var rest := Sort(leq, s[1..]);
      SortRelates(leq, R, Q, s[1..]);
      SortCorrect(leq, s[1..]);
      forall y | y in rest ensures R(s[0], y) {
        assert y in multiset(rest);
        assert y in s[1..];
      }
      InsertRelates(leq, R, Q, s[0], rest);
    }
  }

  lemma SameElements<T>(s: seq<T>, t: seq<T>)
    requires multiset(s) == multiset(t)
    ensures forall x :: x in s <==> x in t
  {
    forall x ensures x in s <==> x in t {
      assert x in s <==> x in multiset(s);
      assert x in t <==> x in multiset(t);
    }
  }

  predicate IsLeast(s: set<string>, x: string) {
    x in s && forall y :: y in s ==> LexLeq(x, y)
  }

  lemma {:induction false} LeastExists(s: set<string>) returns (x: string)
    requires s != {}
    ensures IsLeast(s, x)
  {
    x :| x in s;
    LexTotal(x, x);
    if s != {x} {
      var rest := s - {x};
      var y := LeastExists(rest);
      LexTotal(x, y);
      if LexLeq(x, y) {
        forall z | z in s ensures LexLeq(x, z) {
          if z != x { assert z in rest; LexTransitive(x, y, z); }
        }
      } else {
        forall z | z in s ensures LexLeq(y, z) {
          if z != x { assert z in rest; }
        }
        x := y;
      }
    }
  }

  lemma LeastIsUnique(s: set<string>, x: string, y: string)
    requires IsLeast(s, x) && IsLeast(s, y)
    ensures x == y
  {
    LexAntisymmetric(x, y);
  }

  function Least(s: set<string>): (x: string)
    requires s != {}
    ensures IsLeast(s, x)
  {
    assert exists x :: IsLeast(s, x) by { var w := LeastExists(s); }
    assert forall x, y :: IsLeast(s, x) && IsLeast(s, y) ==> x == y by {
      forall x, y | IsLeast(s, x) && IsLeast(s, y) ensures x == y { LeastIsUnique(s, x, y); }
    }
    var x :| x in s && IsLeast(s, x);
    x
  }

  ghost predicate StrictlySorted(r: seq<string>) {
    forall i, j :: 0 <= i < j < |r| ==> LexLess(r[i], r[j])
  }

  /** `sorted(s)` of a set of strings. */
  function SortedSet(s: set<string>): (r: seq<string>)
    ensures |r| == |s|
    ensures forall x :: x in r <==> x in s
    decreases |s|
  {
    if s == {} then [] else
      var x := Least(s);
      [x] + SortedSet(s - {x})
  }

  lemma {:induction false} SortedSetIsSorted(s: set<string>)
    ensures StrictlySorted(SortedSet(s))
    decreases |s|
  {
    if s != {} {
      var x := Least(s);
      var rest := SortedSet(s - {x});
      SortedSetIsSorted(s - {x});
      forall j | 0 <= j < |rest| ensures LexLess(x, rest[j]) {
        assert rest[j] in s - {x};
      }
    }
  }
}
