/** Undirected reachability over a finite set of edges. The clustering of IP
    profiles and the capped co-occurrence graph are both stated against it. */
module Connectivity {

  predicate Adjacent<V(==)>(E: set<(V, V)>, x: V, y: V) {
    (x, y) in E || (y, x) in E
  }

  ghost predicate IsPath<V>(E: set<(V, V)>, p: seq<V>, x: V, y: V) {
    && |p| > 0 && p[0] == x && p[|p| - 1] == y
    && forall i :: 0 <= i < |p| - 1 ==> Adjacent(E, p[i], p[i + 1])
  }

  ghost predicate Connected<V(!new)>(E: set<(V, V)>, x: V, y: V) {
    exists p :: IsPath(E, p, x, y)
  }

  lemma Reflexive<V(!new)>(E: set<(V, V)>, x: V)
    ensures Connected(E, x, x)
  {
    assert IsPath(E, [x], x, x);
  }

  lemma OneEdge<V(!new)>(E: set<(V, V)>, x: V, y: V)
    requires Adjacent(E, x, y)
    ensures Connected(E, x, y)
  {
    assert IsPath(E, [x, y], x, y);
  }

  lemma Symmetric<V(!new)>(E: set<(V, V)>, x: V, y: V)
    requires Connected(E, x, y)
    ensures Connected(E, y, x)
  {
    var p :| IsPath(E, p, x, y);
    var q := seq(|p|, i requires 0 <= i < |p| => p[|p| - 1 - i]);
    forall i | 0 <= i < |q| - 1 ensures Adjacent(E, q[i], q[i + 1]) {
      var j := |p| - 2 - i;
      assert Adjacent(E, p[j], p[j + 1]);
    }
    assert IsPath(E, q, y, x);
  }

  lemma Transitive<V(!new)>(E: set<(V, V)>, x: V, y: V, z: V)
    requires Connected(E, x, y) && Connected(E, y, z)
    ensures Connected(E, x, z)
  {
    var p :| IsPath(E, p, x, y);
    var q :| IsPath(E, q, y, z);
    var r := p + q[1..];
    forall i | 0 <= i < |r| - 1 ensures Adjacent(E, r[i], r[i + 1]) {
      if i < |p| - 1 {
        assert Adjacent(E, p[i], p[i + 1]);
      } else {
        var j := i - (|p| - 1);
        assert r[i] == q[j] && r[i + 1] == q[j + 1];
      }
    }
    assert IsPath(E, r, x, z);
  }

  /** A connection has a path that repeats no vertex. */
  lemma SimplePath<V(!new)>(E: set<(V, V)>, x: V, y: V) returns (p: seq<V>)
    requires Connected(E, x, y)
    ensures IsPath(E, p, x, y) && forall i, j :: 0 <= i < j < |p| ==> p[i] != p[j]
  {
    var q :| IsPath(E, q, x, y);
    p := WithoutLoops(E, q, x, y);
  }

  lemma {:induction false} WithoutLoops<V(!new)>(E: set<(V, V)>, q: seq<V>, x: V, y: V) returns (p: seq<V>)
    requires IsPath(E, q, x, y)
    ensures IsPath(E, p, x, y) && forall i, j :: 0 <= i < j < |p| ==> p[i] != p[j]
    decreases |q|
  {
    if i, j :| 0 <= i < j < |q| && q[i] == q[j] {
      var r := q[..i] + q[j..];
      forall k | 0 <= k < |r| - 1 ensures Adjacent(E, r[k], r[k + 1]) {
        if k < i {
          assert Adjacent(E, q[k], q[k + 1]);
          assert r[k + 1] == q[k + 1];
        } else {
          assert Adjacent(E, q[k - i + j], q[k - i + j + 1]);
        }
      }
      p := WithoutLoops(E, r, x, y);
    } else {
      p := q;
    }
  }

  /** If every edge of E is a connection of F, every connection of E is one of F. */
  lemma Simulates<V(!new)>(E: set<(V, V)>, F: set<(V, V)>, x: V, y: V)
    requires Connected(E, x, y)
    requires forall u, v :: (u, v) in E ==> Connected(F, u, v)
    ensures Connected(F, x, y)
  {
    var p :| IsPath(E, p, x, y);
    PathSimulates(E, F, p, |p| - 1);
  }

  lemma {:induction false} PathSimulates<V(!new)>(E: set<(V, V)>, F: set<(V, V)>, p: seq<V>, k: nat)
    requires k < |p|
    requires forall i :: 0 <= i < |p| - 1 ==> Adjacent(E, p[i], p[i + 1])
    requires forall u, v :: (u, v) in E ==> Connected(F, u, v)
    ensures Connected(F, p[0], p[k])
  {
    if k == 0 {
      Reflexive(F, p[0]);
    } else {
      PathSimulates(E, F, p, k - 1);
      assert Adjacent(E, p[k - 1], p[k]);
      if (p[k - 1], p[k]) !in E { Symmetric(F, p[k], p[k - 1]); }
      Transitive(F, p[0], p[k - 1], p[k]);
    }
  }

  /** A label that is equal at both ends of every edge is equal along every connection. */
  lemma {:induction false} LabelsAgree<V(!new), L>(E: set<(V, V)>, tag: map<V, L>, x: V, y: V)
    requires Connected(E, x, y) && x in tag
    requires forall u, v :: (u, v) in E ==> u in tag && v in tag && tag[u] == tag[v]
    ensures y in tag && tag[x] == tag[y]
  {
    var p :| IsPath(E, p, x, y);
    var k := 0;
    while k < |p| - 1
      invariant k < |p| && p[k] in tag && tag[p[k]] == tag[x]
    {
      assert Adjacent(E, p[k], p[k + 1]);
      k := k + 1;
    }
  }

  /** One more edge merges exactly the two classes it touches. */
  lemma AddEdge<V(!new)>(E: set<(V, V)>, a: V, b: V, x: V, y: V)
    ensures Connected(E + {(a, b)}, x, y) <==>
              (Connected(E, x, y)
               || (Connected(E, x, a) && Connected(E, b, y))
               || (Connected(E, x, b) && Connected(E, a, y)))
  {
    var F := E + {(a, b)};
    if Connected(F, x, y) {
      var p :| IsPath(F, p, x, y);
      Split(E, a, b, p, |p| - 1);
    }
    forall u, v | Connected(E, u, v) ensures Connected(F, u, v) { Monotone(E, F, u, v); }
    OneEdge(F, a, b);
    OneEdge(F, b, a);
    if Connected(E, x, a) && Connected(E, b, y) {
      Transitive(F, x, a, b);
      Transitive(F, x, b, y);
    }
    if Connected(E, x, b) && Connected(E, a, y) {
      Transitive(F, x, b, a);
      Transitive(F, x, a, y);
    }
  }

  lemma Monotone<V(!new)>(E: set<(V, V)>, F: set<(V, V)>, x: V, y: V)
    requires Connected(E, x, y) && E <= F
    ensures Connected(F, x, y)
  {
    var p :| IsPath(E, p, x, y);
    assert IsPath(F, p, x, y) by {
      forall i | 0 <= i < |p| - 1 ensures Adjacent(F, p[i], p[i + 1]) {
        assert Adjacent(E, p[i], p[i + 1]);
      }
    }
  }

  ghost predicate ConnectedVia<V(!new)>(E: set<(V, V)>, a: V, b: V, x: V, y: V) {
    || Connected(E, x, y)
    || (Connected(E, x, a) && Connected(E, b, y))
    || (Connected(E, x, b) && Connected(E, a, y))
  }

  lemma {:induction false} Split<V(!new)>(E: set<(V, V)>, a: V, b: V, p: seq<V>, k: nat)
    requires k < |p|
    requires forall i :: 0 <= i < |p| - 1 ==> Adjacent(E + {(a, b)}, p[i], p[i + 1])
    ensures ConnectedVia(E, a, b, p[0], p[k])
  {
    if k == 0 {
      Reflexive(E, p[0]);
    } else {
      Split(E, a, b, p, k - 1);
      var u, v, x := p[k - 1], p[k], p[0];
      assert Adjacent(E + {(a, b)}, u, v);
      Reflexive(E, v);
      if Adjacent(E, u, v) {
        OneEdge(E, u, v);
        Extend(E, a, b, x, u, v);
      } else if (u, v) == (a, b) {
        assert ConnectedVia(E, a, b, x, v) by {
          Reflexive(E, b);
        }
      } else {
        assert (u, v) == (b, a);
        assert ConnectedVia(E, a, b, x, v) by {
          Reflexive(E, a);
        }
      }
    }
  }

  lemma Extend<V(!new)>(E: set<(V, V)>, a: V, b: V, x: V, u: V, v: V)
    requires ConnectedVia(E, a, b, x, u) && Connected(E, u, v)
    ensures ConnectedVia(E, a, b, x, v)
  {
    if Connected(E, x, u) {
      Transitive(E, x, u, v);
    } else if Connected(E, x, a) && Connected(E, b, u) {
      Transitive(E, b, u, v);
    } else {
      Transitive(E, a, u, v);
    }
  }
}
