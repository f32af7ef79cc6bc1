/** The union-find of the infrastructure clusterer: `parent` and `rank`
    dictionaries, recursive path compression, union by rank. */
module DisjointSets {
  import opened Connectivity
  import opened FiniteSets

  function Pow2(n: nat): nat {
    if n == 0 then 1 else 2 * Pow2(n - 1)
  }

  lemma {:induction false} Pow2Exceeds(n: nat)
    ensures n < Pow2(n)
  {
    if n > 0 { Pow2Exceeds(n - 1); }
  }

  lemma {:induction false} Pow2Monotone(m: nat, n: nat)
    requires m <= n
    ensures Pow2(m) <= Pow2(n)
  {
    if m < n { Pow2Monotone(m, n - 1); }
  }

  type Parents = map<string, string>
  type Ranks = map<string, nat>

  ghost predicate GoodLink(parent: Parents, rank: Ranks, x: string)
    requires parent.Keys == rank.Keys
  {
    x in parent ==>
      && parent[x] in parent
      && (parent[x] != x ==> rank[x] < rank[parent[x]])
      && rank[x] <= |parent|
  }

  /** Ranks strictly increase along every parent link, so links never form a cycle. */
  ghost predicate Forest(parent: Parents, rank: Ranks) {
    && parent.Keys == rank.Keys
    && forall x {:trigger GoodLink(parent, rank, x)} :: GoodLink(parent, rank, x)
  }

  /** The representative that `find` returns. */
  ghost function Root(parent: Parents, rank: Ranks, x: string): (r: string)
    requires Forest(parent, rank) && x in parent
    ensures r in parent && parent[r] == r && rank[r] <= |parent|
    ensures x == r || rank[x] < rank[r]
    decreases |parent| - rank[x]
  {
    assert GoodLink(parent, rank, x);
    if parent[x] == x then x else Root(parent, rank, parent[x])
  }

  /** The elements `find(x)` visits. */
  ghost function Chain(parent: Parents, rank: Ranks, x: string): (c: set<string>)
    requires Forest(parent, rank) && x in parent
    ensures x in c && c <= parent.Keys
    ensures forall y :: y in c ==> Root(parent, rank, y) == Root(parent, rank, x)
    decreases |parent| - rank[x]
  {
    assert GoodLink(parent, rank, x);
    if parent[x] == x then {x} else {x} + Chain(parent, rank, parent[x])
  }

  /** Recursive calls below `find(x)`. */
  ghost function Depth(parent: Parents, rank: Ranks, x: string): (d: nat)
    requires Forest(parent, rank) && x in parent
    decreases |parent| - rank[x]
  {
    assert GoodLink(parent, rank, x);
    if parent[x] == x then 0 else 1 + Depth(parent, rank, parent[x])
  }

  /** Path compression: everything on the way from x points straight at the root. */
  ghost function Compressed(parent: Parents, rank: Ranks, x: string): Parents
    requires Forest(parent, rank) && x in parent
  {
    map y | y in parent ::
      if y in Chain(parent, rank, x) then Root(parent, rank, x) else parent[y]
  }

  lemma CompressedForest(parent: Parents, rank: Ranks, x: string)
    requires Forest(parent, rank) && x in parent
    ensures Forest(Compressed(parent, rank, x), rank)
  {
    var c := Compressed(parent, rank, x);
    assert c.Keys == parent.Keys;
    forall y ensures GoodLink(c, rank, y) {
      assert GoodLink(parent, rank, y);
      if y in Chain(parent, rank, x) { assert Root(parent, rank, y) == c[y]; }
    }
  }

  /** Compression moves no element to another class. */
  lemma {:induction false} CompressedKeepsRoot(parent: Parents, rank: Ranks, x: string, y: string)
    requires Forest(parent, rank) && x in parent && y in parent
    requires Forest(Compressed(parent, rank, x), rank)
    ensures Root(Compressed(parent, rank, x), rank, y) == Root(parent, rank, y)
    decreases |parent| - rank[y]
  {
    var c := Compressed(parent, rank, x);
    assert c.Keys == parent.Keys;
    assert GoodLink(parent, rank, y);
    if y in Chain(parent, rank, x) {
      var r := Root(parent, rank, x);
      assert c[r] == r;
      assert Root(parent, rank, y) == r && c[y] == r;
    } else if parent[y] != y {
      CompressedKeepsRoot(parent, rank, x, parent[y]);
    }
  }

  lemma {:induction false} DepthWithinRank(parent: Parents, rank: Ranks, x: string)
    requires Forest(parent, rank) && x in parent
    ensures rank[x] + Depth(parent, rank, x) <= rank[Root(parent, rank, x)]
    decreases |parent| - rank[x]
  {
    assert GoodLink(parent, rank, x);
    if parent[x] != x { DepthWithinRank(parent, rank, parent[x]); }
  }

  ghost function Class(parent: Parents, rank: Ranks, r: string): (c: set<string>)
    requires Forest(parent, rank)
  {
    set y | y in parent && Root(parent, rank, y) == r
  }

  /** A root of rank k owns at least 2^k elements. */
  ghost predicate Weighted(parent: Parents, rank: Ranks)
    requires Forest(parent, rank)
  {
    forall r {:trigger Class(parent, rank, r)} :: r in parent && parent[r] == r ==>
      Pow2(rank[r]) <= |Class(parent, rank, r)|
  }

  /** `find` recurses at most log2(n) deep. */
  lemma FindIsLogarithmic(parent: Parents, rank: Ranks, x: string)
    requires Forest(parent, rank) && Weighted(parent, rank) && x in parent
    ensures Pow2(Depth(parent, rank, x)) <= |parent|
  {
    var r := Root(parent, rank, x);
    DepthWithinRank(parent, rank, x);
    Pow2Monotone(Depth(parent, rank, x), rank[r]);
    SubsetSize(Class(parent, rank, r), parent.Keys);
  }

  lemma CompressedKeepsWeights(parent: Parents, rank: Ranks, x: string)
    requires Forest(parent, rank) && Weighted(parent, rank) && x in parent
    ensures Forest(Compressed(parent, rank, x), rank) && Weighted(Compressed(parent, rank, x), rank)
  {
    CompressedForest(parent, rank, x);
    var c := Compressed(parent, rank, x);
    assert c.Keys == parent.Keys;
    forall r | r in c && c[r] == r ensures Pow2(rank[r]) <= |Class(c, rank, r)| {
      forall y | y in parent ensures Root(c, rank, y) == Root(parent, rank, y) {
        CompressedKeepsRoot(parent, rank, x, y);
      }
      assert Class(c, rank, r) == Class(parent, rank, r);
      assert Root(c, rank, r) == r == Root(parent, rank, r);
    }
  }

  /** Hanging root `a` below root `b`; b's rank may only grow. */
  ghost predicate Hung(parent: Parents, rank: Ranks, parent': Parents, rank': Ranks, a: string, b: string)
    requires Forest(parent, rank)
  {
    && a in parent && b in parent && a != b && parent[a] == a && parent[b] == b
    && parent' == parent[a := b]
    && rank'.Keys == rank.Keys
    && (forall y :: y in rank && y != b ==> rank'[y] == rank[y])
    && rank[b] <= rank'[b] <= |parent|
    && rank[a] < rank'[b]
  }

  lemma HungForest(parent: Parents, rank: Ranks, parent': Parents, rank': Ranks, a: string, b: string)
    requires Forest(parent, rank) && Hung(parent, rank, parent', rank', a, b)
    ensures Forest(parent', rank')
  {
    assert parent'.Keys == parent.Keys;
    forall y ensures GoodLink(parent', rank', y) {
      assert GoodLink(parent, rank, y);
    }
  }

  lemma {:induction false} HungRoot(parent: Parents, rank: Ranks, parent': Parents, rank': Ranks,
                                    a: string, b: string, y: string)
    requires Forest(parent, rank) && Hung(parent, rank, parent', rank', a, b)
    requires Forest(parent', rank') && y in parent
    ensures Root(parent', rank', y) ==
              if Root(parent, rank, y) == a then b else Root(parent, rank, y)
    decreases |parent| - rank[y]
  {
    assert GoodLink(parent, rank, y);
    if parent[y] != y {
      HungRoot(parent, rank, parent', rank', a, b, parent[y]);
    } else if y == a {
      assert Root(parent', rank', b) == b;
    }
  }

  lemma HungRoots(parent: Parents, rank: Ranks, parent': Parents, rank': Ranks, a: string, b: string)
    requires Forest(parent, rank) && Hung(parent, rank, parent', rank', a, b) && Forest(parent', rank')
    ensures parent'.Keys == parent.Keys
    ensures forall y {:trigger Root(parent', rank', y)} :: y in parent ==>
              Root(parent', rank', y) == if Root(parent, rank, y) == a then b else Root(parent, rank, y)
  {
    forall y {:trigger Root(parent', rank', y)} | y in parent
      ensures Root(parent', rank', y) == if Root(parent, rank, y) == a then b else Root(parent, rank, y)
    {
      HungRoot(parent, rank, parent', rank', a, b, y);
    }
  }

  lemma HungClasses(parent: Parents, rank: Ranks, parent': Parents, rank': Ranks, a: string, b: string)
    requires Forest(parent, rank) && Hung(parent, rank, parent', rank', a, b) && Forest(parent', rank')
    ensures |Class(parent', rank', b)| == |Class(parent, rank, a)| + |Class(parent, rank, b)|
    ensures forall r :: r in parent && r != a && r != b ==>
              Class(parent', rank', r) == Class(parent, rank, r)
  {
    assert parent'.Keys == parent.Keys;
    HungRoots(parent, rank, parent', rank', a, b);
    var ca, cb := Class(parent, rank, a), Class(parent, rank, b);
    assert Class(parent', rank', b) == ca + cb;
    assert ca !! cb;
    assert |ca + cb| == |ca| + |cb|;
  }

  lemma HungWeights(parent: Parents, rank: Ranks, parent': Parents, rank': Ranks, a: string, b: string)
    requires Forest(parent, rank) && Weighted(parent, rank)
    requires Hung(parent, rank, parent', rank', a, b) && Forest(parent', rank')
    requires rank'[b] == rank[b] || (rank[a] == rank[b] && rank'[b] == rank[b] + 1)
    ensures Weighted(parent', rank')
  {
    HungClasses(parent, rank, parent', rank', a, b);
    assert Pow2(rank[a]) <= |Class(parent, rank, a)| && Pow2(rank[b]) <= |Class(parent, rank, b)|;
    forall r | r in parent' && parent'[r] == r ensures Pow2(rank'[r]) <= |Class(parent', rank', r)| {
      if r != b {
        assert r in parent && parent[r] == r;
        assert Pow2(rank[r]) <= |Class(parent, rank, r)|;
      }
    }
  }

  /** Two roots of equal rank together outnumber the rank bound. */
  lemma RoomForRank(parent: Parents, rank: Ranks, a: string, b: string)
    requires Forest(parent, rank) && Weighted(parent, rank)
    requires a in parent && b in parent && a != b && parent[a] == a && parent[b] == b
    requires rank[a] == rank[b]
    ensures rank[a] + 1 <= |parent|
  {
    var ca, cb := Class(parent, rank, a), Class(parent, rank, b);
    assert ca !! cb;
    assert |ca + cb| == |ca| + |cb|;
    SubsetSize(ca + cb, parent.Keys);
    Pow2Exceeds(rank[a] + 1);
    assert Pow2(rank[a] + 1) == 2 * Pow2(rank[a]);
  }

  /** The partition is graph connectivity over the pairs united so far. */
  ghost predicate Tracks(parent: Parents, rank: Ranks, links: set<(string, string)>)
    requires Forest(parent, rank)
  {
    forall x, y {:trigger Connected(links, x, y)} :: x in parent && y in parent ==>
      (Root(parent, rank, x) == Root(parent, rank, y) <==> Connected(links, x, y))
  }

  lemma HungTracks(parent: Parents, rank: Ranks, parent': Parents, rank': Ranks,
                   ra: string, rb: string, a: string, b: string, links: set<(string, string)>)
    requires Forest(parent, rank) && Tracks(parent, rank, links) && a in parent && b in parent
    requires Hung(parent, rank, parent', rank', ra, rb) && Forest(parent', rank')
    requires (ra == Root(parent, rank, a) && rb == Root(parent, rank, b))
             || (ra == Root(parent, rank, b) && rb == Root(parent, rank, a))
    ensures Tracks(parent', rank', links + {(a, b)})
  {
    forall x, y | x in parent' && y in parent'
      ensures Root(parent', rank', x) == Root(parent', rank', y) <==> Connected(links + {(a, b)}, x, y)
    {
      AddEdge(links, a, b, x, y);
      HungRoot(parent, rank, parent', rank', ra, rb, x);
      HungRoot(parent, rank, parent', rank', ra, rb, y);
      assert Connected(links, x, y) <==> Root(parent, rank, x) == Root(parent, rank, y);
      assert Connected(links, x, a) <==> Root(parent, rank, x) == Root(parent, rank, a);
      assert Connected(links, x, b) <==> Root(parent, rank, x) == Root(parent, rank, b);
      assert Connected(links, a, y) <==> Root(parent, rank, a) == Root(parent, rank, y);
      assert Connected(links, b, y) <==> Root(parent, rank, b) == Root(parent, rank, y);
    }
  }

  lemma SameRootTracks(parent: Parents, rank: Ranks, a: string, b: string, links: set<(string, string)>)
    requires Forest(parent, rank) && Tracks(parent, rank, links) && a in parent && b in parent
    requires Root(parent, rank, a) == Root(parent, rank, b)
    ensures Tracks(parent, rank, links + {(a, b)})
  {
    forall x, y | x in parent && y in parent
      ensures Root(parent, rank, x) == Root(parent, rank, y) <==> Connected(links + {(a, b)}, x, y)
    {
      AddEdge(links, a, b, x, y);
      assert Connected(links, x, a) <==> Root(parent, rank, x) == Root(parent, rank, a);
      assert Connected(links, x, b) <==> Root(parent, rank, x) == Root(parent, rank, b);
      assert Connected(links, a, y) <==> Root(parent, rank, a) == Root(parent, rank, y);
      assert Connected(links, b, y) <==> Root(parent, rank, b) == Root(parent, rank, y);
    }
  }

  lemma CompressedTracks(parent: Parents, rank: Ranks, x: string, links: set<(string, string)>)
    requires Forest(parent, rank) && Tracks(parent, rank, links) && x in parent
    ensures Forest(Compressed(parent, rank, x), rank) && Tracks(Compressed(parent, rank, x), rank, links)
  {
    CompressedForest(parent, rank, x);
    var c := Compressed(parent, rank, x);
    assert c.Keys == parent.Keys;
    forall u, v | u in c && v in c
      ensures Root(c, rank, u) == Root(c, rank, v) <==> Connected(links, u, v)
    {
      CompressedKeepsRoot(parent, rank, x, u);
      CompressedKeepsRoot(parent, rank, x, v);
    }
  }

  ghost predicate SameRoots(parent: Parents, parent': Parents, rank: Ranks)
    requires Forest(parent, rank) && Forest(parent', rank)
  {
    && parent'.Keys == parent.Keys
    && forall y {:trigger Root(parent', rank, y)} :: y in parent ==>
         Root(parent', rank, y) == Root(parent, rank, y)
  }

  /** What one `find` does to the forest: everything but the shape is kept. */
  lemma Compression(parent: Parents, rank: Ranks, links: set<(string, string)>, x: string)
    requires Forest(parent, rank) && Weighted(parent, rank) && Tracks(parent, rank, links) && x in parent
    ensures var c := Compressed(parent, rank, x);
            && Forest(c, rank) && Weighted(c, rank) && Tracks(c, rank, links)
            && SameRoots(parent, c, rank)
            && c[x] == Root(parent, rank, x)
  {
    CompressedKeepsWeights(parent, rank, x);
    CompressedTracks(parent, rank, x, links);
    assert Compressed(parent, rank, x).Keys == parent.Keys;
    forall y | y in parent ensures Root(Compressed(parent, rank, x), rank, y) == Root(parent, rank, y) {
      CompressedKeepsRoot(parent, rank, x, y);
    }
  }

  lemma Unmoved(parent: Parents, rank: Ranks)
    requires Forest(parent, rank)
    ensures SameRoots(parent, parent, rank)
  {
  }

  lemma AlreadyCompressed(parent: Parents, rank: Ranks, x: string)
    requires Forest(parent, rank) && x in parent && parent[x] == x
    ensures Compressed(parent, rank, x) == parent && Root(parent, rank, x) == x
  {
  }

  /** The recursion of `find`: compress above x, then re-parent x itself. */
  lemma CompressStep(parent: Parents, rank: Ranks, x: string)
    requires Forest(parent, rank) && x in parent && parent[x] != x
    ensures var p := parent[x];
            && p in parent && x in rank && p in rank && rank[x] < rank[p] <= |parent|
            && Root(parent, rank, p) == Root(parent, rank, x)
            && Compressed(parent, rank, p)[x := Root(parent, rank, x)] == Compressed(parent, rank, x)
  {
    assert GoodLink(parent, rank, x) && GoodLink(parent, rank, parent[x]);
  }

  /** Between two forests that track their links, one more link joins the classes of its
      two ends and no others. */
  lemma UnionMergesExactly(parent: Parents, rank: Ranks, parent': Parents, rank': Ranks,
                           links: set<(string, string)>, a: string, b: string, x: string, y: string)
    requires Forest(parent, rank) && Tracks(parent, rank, links)
    requires Forest(parent', rank') && Tracks(parent', rank', links + {(a, b)})
    requires parent'.Keys == parent.Keys
    requires a in parent && b in parent && x in parent && y in parent
    ensures var ra, rb := Root(parent, rank, a), Root(parent, rank, b);
            var rx, ry := Root(parent, rank, x), Root(parent, rank, y);
            Root(parent', rank', x) == Root(parent', rank', y) <==>
              rx == ry || (rx == ra && ry == rb) || (rx == rb && ry == ra)
  {
    AddEdge(links, a, b, x, y);
    assert Connected(links, x, a) <==> Root(parent, rank, x) == Root(parent, rank, a);
    assert Connected(links, x, b) <==> Root(parent, rank, x) == Root(parent, rank, b);
    assert Connected(links, a, y) <==> Root(parent, rank, a) == Root(parent, rank, y);
    assert Connected(links, b, y) <==> Root(parent, rank, b) == Root(parent, rank, y);
    assert Connected(links, x, y) <==> Root(parent, rank, x) == Root(parent, rank, y);
  }

  /** `union` of an item that was never added fails on its rank lookup. */
  datatype UnionOutcome = Done | KeyError

  class UnionFind {
    var parent: Parents
    var rank: Ranks
    /** Every pair of known items passed to Union so far. */
    ghost var links: set<(string, string)>

    ghost predicate Valid()
      reads this
    {
      && Forest(parent, rank)
      && Weighted(parent, rank)
      && Tracks(parent, rank, links)
    }

    ghost function Rep(x: string): string
      reads this
      requires Valid() && x in parent
    {
      Root(parent, rank, x)
    }

    constructor (items: seq<string>)
      ensures Valid() && links == {}
      ensures parent == map x | x in items :: x
      ensures rank == map x | x in items :: 0
    {
      parent := map x | x in items :: x;
      rank := map x | x in items :: 0;
      links := {};
      new;
      SingletonsTrack();
    }

    lemma SingletonsTrack()
      requires Forest(parent, rank) && links == {}
      requires forall x :: x in parent ==> parent[x] == x && rank[x] == 0
      ensures Weighted(parent, rank) && Tracks(parent, rank, links)
    {
      forall r | r in parent ensures Pow2(rank[r]) <= |Class(parent, rank, r)| {
        assert Class(parent, rank, r) == {r};
      }
      forall x, y | x in parent && y in parent
        ensures Root(parent, rank, x) == Root(parent, rank, y) <==> Connected(links, x, y)
      {
        Reflexive(links, x);
        if Connected(links, x, y) { LabelsAgree(links, parent, x, y); }
      }
    }

    method Find(x: string) returns (r: string)
      requires Valid()
      modifies this`parent
      ensures Valid() && parent.Keys == old(parent).Keys
      ensures x !in old(parent) ==> r == x && parent == old(parent)
      ensures x in old(parent) ==> r == old(Rep(x)) && parent == Compressed(old(parent), rank, x)
      ensures SameRoots(old(parent), parent, rank)
      decreases if x in parent && parent[x] != x then |parent| - rank[x] else 0
    {
      ghost var before := parent;
      hide Forest, Weighted, Tracks, SameRoots, Root, Chain, Compressed, GoodLink;
      Unmoved(before, rank);
      if x in parent {
        Compression(before, rank, links, x);
        if parent[x] == x { AlreadyCompressed(before, rank, x); } else { CompressStep(before, rank, x); }
      }
      var p := if x in parent then parent[x] else x;
      if p != x {
        var q := Find(p);
        parent := parent[x := q];
      }
      r := if x in parent then parent[x] else x;
    }

    /** Adds one link, which merges exactly two classes (UnionMergesExactly). A pair with
        an unknown member fails, unless both are the same unknown item. */
    method Union(a: string, b: string) returns (outcome: UnionOutcome)
      requires Valid()
      modifies this
      ensures Valid()
      ensures outcome == if a == b || (a in old(parent) && b in old(parent)) then Done else KeyError
      ensures parent.Keys == old(parent).Keys
      ensures links == if a in old(parent) && b in old(parent) then old(links) + {(a, b)} else old(links)
    {
      var ra := Find(a);
      ghost var p1 := parent;
      var rb := Find(b);
      if ra == rb {
        if a in parent && b in parent {
          assert Root(parent, rank, a) == Root(p1, rank, a) == ra;
          SameRootTracks(parent, rank, a, b, links);
          links := links + {(a, b)};
        }
        return Done;
      }
      if ra !in rank || rb !in rank {
        return KeyError;
      }
      assert Root(parent, rank, a) == Root(p1, rank, a) == ra;
      Attach(ra, rb, a, b);
      outcome := Done;
    }

    /** The rank comparison at the end of `union`, for two different roots. */
    method Attach(ra: string, rb: string, ghost a: string, ghost b: string)
      requires Valid() && a in parent && b in parent
      requires ra == Rep(a) && rb == Rep(b) && ra != rb
      modifies this
      ensures Valid() && parent.Keys == old(parent).Keys
      ensures links == old(links) + {(a, b)}
    {
      ghost var p, k := parent, rank;
      assert rank.Keys == parent.Keys;
      hide Forest, Weighted, Tracks;
      if rank[ra] < rank[rb] {
        parent := parent[ra := rb];
        Hang(p, k, ra, rb, a, b);
      } else if rank[ra] > rank[rb] {
        parent := parent[rb := ra];
        Hang(p, k, rb, ra, a, b);
      } else {
        RoomForRank(p, k, rb, ra);
        parent := parent[rb := ra];
        rank := rank[ra := rank[ra] + 1];
        Hang(p, k, rb, ra, a, b);
      }
      links := links + {(a, b)};
    }

    /** The merge step shared by the three rank cases. */
    lemma Hang(p: Parents, k: Ranks, child: string, top: string, a: string, b: string)
      requires Forest(p, k) && Weighted(p, k) && Tracks(p, k, links)
      requires a in p && b in p
      requires (child == Root(p, k, a) && top == Root(p, k, b)) || (child == Root(p, k, b) && top == Root(p, k, a))
      requires Hung(p, k, parent, rank, child, top)
      requires rank[top] == k[top] || (k[child] == k[top] && rank[top] == k[top] + 1)
      ensures Forest(parent, rank) && Weighted(parent, rank) && Tracks(parent, rank, links + {(a, b)})
      ensures parent.Keys == p.Keys
      ensures forall y {:trigger Root(parent, rank, y)} :: y in p ==>
                Root(parent, rank, y) == if Root(p, k, y) == child then top else Root(p, k, y)
    {
      HungForest(p, k, parent, rank, child, top);
      HungWeights(p, k, parent, rank, child, top);
      HungTracks(p, k, parent, rank, child, top, a, b, links);
      HungRoots(p, k, parent, rank, child, top);
    }
  }
}
