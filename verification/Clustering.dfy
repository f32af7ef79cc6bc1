/** `build_clusters`: all-pairs linking through the union-find, then component
    extraction. The result is exactly graph connectivity over overlap links. */
module Clustering {
  import opened FiniteSets
  import opened Ordering
  import opened Connectivity
  import opened DisjointSets
  import opened InfraSimilarity

  type Profiles = map<string, IPProfile>

  /** The profile dictionary and its insertion order, as the profile query builds them. */
  ghost predicate WellKeyed(ips: seq<string>, profiles: Profiles) {
    && Distinct(ips)
    && (forall x :: x in ips <==> x in profiles)
    && (forall k :: k in profiles ==> profiles[k].ip == k)
  }

  /** Two different known addresses whose endpoints or whose services overlap enough. */
  ghost predicate OverlapStep(profiles: Profiles, cfg: Config, u: string, v: string) {
    && u in profiles && v in profiles && u != v
    && (|| Jaccard(profiles[u].endpoints, profiles[v].endpoints) >= cfg.minEndpoint
        || Jaccard(profiles[u].services, profiles[v].services) >= cfg.minService)
  }

  /** The graph the clusters are about: an edge per pair with enough overlap. */
  ghost function LinkGraph(profiles: Profiles, cfg: Config): set<(string, string)> {
    set x, y | x in profiles && y in profiles && OverlapStep(profiles, cfg, x, y) :: (x, y)
  }

  // ----- Pairwise linking -----

  /** Evidence of the pairs (i, i+1), ..., (i, j-1), in loop order. */
  function RowEvidence(ips: seq<string>, profiles: Profiles, cfg: Config, i: nat, j: nat): seq<Evidence>
    requires i < j <= |ips| && forall x :: x in ips ==> x in profiles
  {
    if j == i + 1 then []
    else RowEvidence(ips, profiles, cfg, i, j - 1) + PairEvidence(profiles[ips[i]], profiles[ips[j - 1]], cfg)
  }

  function EvidenceOf(ips: seq<string>, profiles: Profiles, cfg: Config, rows: nat): seq<Evidence>
    requires rows <= |ips| && forall x :: x in ips ==> x in profiles
  {
    if rows == 0 then []
    else EvidenceOf(ips, profiles, cfg, rows - 1) + RowEvidence(ips, profiles, cfg, rows - 1, |ips|)
  }

  ghost predicate LinkedAt(ips: seq<string>, profiles: Profiles, cfg: Config, k: nat, l: nat)
    requires forall x :: x in ips ==> x in profiles
  {
    k < l < |ips| && Linked(profiles[ips[k]], profiles[ips[l]], cfg)
  }

  /** The links of all pairs before (i, j) in loop order. */
  ghost function LinksBefore(ips: seq<string>, profiles: Profiles, cfg: Config, i: nat, j: nat): set<(string, string)>
    requires forall x :: x in ips ==> x in profiles
  {
    set k: nat, l: nat | k < |ips| && l < |ips| && (k < i || (k == i && l < j)) && LinkedAt(ips, profiles, cfg, k, l)
      :: (ips[k], ips[l])
  }

  /** One pair: overlap unites the two addresses, a mere prefix match does not. */
  method LinkPair(a: IPProfile, b: IPProfile, cfg: Config, uf: UnionFind) returns (evidence: seq<Evidence>)
    requires uf.Valid() && a.ip in uf.parent && b.ip in uf.parent
    modifies uf
    ensures uf.Valid() && uf.parent.Keys == old(uf.parent).Keys
    ensures var overlap := Jaccard(a.endpoints, b.endpoints) >= cfg.minEndpoint
                           || Jaccard(a.services, b.services) >= cfg.minService;
            uf.links == old(uf.links) + if overlap then {(a.ip, b.ip)} else {}
    ensures evidence == PairEvidence(a, b, cfg)
  {
    hide Jaccard, IpPrefix24;
    evidence := [];
    var epJ := Jaccard(a.endpoints, b.endpoints);
    var svJ := Jaccard(a.services, b.services);
    var linked := epJ >= cfg.minEndpoint || svJ >= cfg.minService;
    if cfg.requireAnyOverlap && !linked {
      if a.providers == {} && b.providers == {} {
        if IpPrefix24(a.ip) == IpPrefix24(b.ip) && (a.endpoints != {} || a.services != {})
           && (b.endpoints != {} || b.services != {}) {
          linked := true;  // infra_similarity.py:154 sets it too; no union follows
          evidence := [Evidence(a.ip, b.ip, PrefixHeuristic, 0.2, Prefix(IpPrefix24(a.ip)))];
        }
      }
    } else if linked {
      var _ := uf.Union(a.ip, b.ip);
      evidence := [OverlapEvidence(a, b)];
    }
  }

  /** The inner loop: address i against every later one. */
  method LinkRow(ips: seq<string>, profiles: Profiles, cfg: Config, uf: UnionFind, i: nat)
    returns (row: seq<Evidence>)
    requires WellKeyed(ips, profiles) && i < |ips|
    requires uf.Valid() && uf.parent.Keys == profiles.Keys
    requires uf.links == LinksBefore(ips, profiles, cfg, i, 0)
    modifies uf
    ensures uf.Valid() && uf.parent.Keys == profiles.Keys
    ensures uf.links == LinksBefore(ips, profiles, cfg, i + 1, 0)
    ensures row == RowEvidence(ips, profiles, cfg, i, |ips|)
  {
    hide Forest, Weighted, Tracks, Jaccard, PairEvidence, LinksBefore;
    row := [];
    var j := i + 1;
    RowStarts(ips, profiles, cfg, i);
    while j < |ips|
      invariant i < j <= |ips|
      invariant uf.Valid() && uf.parent.Keys == profiles.Keys
      invariant uf.links == LinksBefore(ips, profiles, cfg, i, j)
      invariant row == RowEvidence(ips, profiles, cfg, i, j)
    {
      var more := LinkPair(profiles[ips[i]], profiles[ips[j]], cfg, uf);
      row := row + more;
      NextPair(ips, profiles, cfg, i, j);
      j := j + 1;
    }
  }

  method LinkPairs(ips: seq<string>, profiles: Profiles, cfg: Config, uf: UnionFind)
    returns (evidence: seq<Evidence>)
    requires WellKeyed(ips, profiles)
    requires uf.Valid() && uf.links == {} && uf.parent.Keys == profiles.Keys
    modifies uf
    ensures uf.Valid() && uf.parent.Keys == profiles.Keys
    ensures uf.links == LinksBefore(ips, profiles, cfg, |ips|, 0)
    ensures evidence == EvidenceOf(ips, profiles, cfg, |ips|)
  {
    hide Forest, Weighted, Tracks, LinksBefore, RowEvidence, WellKeyed;
    NoLinksYet(ips, profiles, cfg);
    evidence := [];
    for i := 0 to |ips|
      invariant uf.Valid() && uf.parent.Keys == profiles.Keys
      invariant uf.links == LinksBefore(ips, profiles, cfg, i, 0)
      invariant evidence == EvidenceOf(ips, profiles, cfg, i)
    {
      var row := LinkRow(ips, profiles, cfg, uf, i);
      evidence := evidence + row;
    }
  }

  lemma NoLinksYet(ips: seq<string>, profiles: Profiles, cfg: Config)
    requires WellKeyed(ips, profiles)
    ensures forall x :: x in ips ==> x in profiles
    ensures LinksBefore(ips, profiles, cfg, 0, 0) == {}
  {
  }

  lemma RowStarts(ips: seq<string>, profiles: Profiles, cfg: Config, i: nat)
    requires i < |ips| && forall x :: x in ips ==> x in profiles
    ensures LinksBefore(ips, profiles, cfg, i, 0) == LinksBefore(ips, profiles, cfg, i, i + 1)
    ensures LinksBefore(ips, profiles, cfg, i, |ips|) == LinksBefore(ips, profiles, cfg, i + 1, 0)
  {
  }

  lemma NextPair(ips: seq<string>, profiles: Profiles, cfg: Config, i: nat, j: nat)
    requires i < j < |ips| && forall x :: x in ips ==> x in profiles
    ensures var a, b := profiles[ips[i]], profiles[ips[j]];
            var overlap := Jaccard(a.endpoints, b.endpoints) >= cfg.minEndpoint
                           || Jaccard(a.services, b.services) >= cfg.minService;
            LinksBefore(ips, profiles, cfg, i, j + 1) ==
              LinksBefore(ips, profiles, cfg, i, j) + if overlap then {(ips[i], ips[j])} else {}
  {
    var before, after := LinksBefore(ips, profiles, cfg, i, j), LinksBefore(ips, profiles, cfg, i, j + 1);
    if Linked(profiles[ips[i]], profiles[ips[j]], cfg) {
      assert LinkedAt(ips, profiles, cfg, i, j);
    }
  }

  /** Visiting each unordered pair once is enough: linking is symmetric. */
  lemma LinksAreTheGraph(ips: seq<string>, profiles: Profiles, cfg: Config, x: string, y: string)
    requires WellKeyed(ips, profiles)
    ensures Connected(LinksBefore(ips, profiles, cfg, |ips|, 0), x, y) <==> Connected(LinkGraph(profiles, cfg), x, y)
  {
    var half, full := LinksBefore(ips, profiles, cfg, |ips|, 0), LinkGraph(profiles, cfg);
    forall u, v | (u, v) in half ensures Connected(full, u, v) {
      OneEdge(full, u, v);
    }
    forall u, v | (u, v) in full ensures Connected(half, u, v) {
      var k :| 0 <= k < |ips| && ips[k] == u;
      var l :| 0 <= l < |ips| && ips[l] == v;
      LinkedIsSymmetric(profiles[u], profiles[v], cfg);
      if k < l {
        assert LinkedAt(ips, profiles, cfg, k, l);
      } else {
        assert LinkedAt(ips, profiles, cfg, l, k);
      }
      OneEdge(half, u, v);
    }
    if Connected(half, x, y) { Simulates(half, full, x, y); }
    if Connected(full, x, y) { Simulates(full, half, x, y); }
  }

  lemma LinkedIsSymmetric(p: IPProfile, q: IPProfile, cfg: Config)
    ensures Linked(p, q, cfg) == Linked(q, p, cfg)
  {
    JaccardSymmetric(p.endpoints, q.endpoints);
    JaccardSymmetric(p.services, q.services);
  }

  // ----- Component extraction -----

  ghost function Members(rep: map<string, string>, ips: seq<string>, r: string): seq<string> {
    if ips == [] then []
    else
      var x := ips[|ips| - 1];
      Members(rep, ips[..|ips| - 1], r) + if x in rep && rep[x] == r then [x] else []
  }

  lemma {:induction false} MembersExact(rep: map<string, string>, ips: seq<string>, r: string)
    ensures forall x :: x in Members(rep, ips, r) <==> x in ips && x in rep && rep[x] == r
    ensures Distinct(ips) ==> Distinct(Members(rep, ips, r))
  {
    if ips != [] {
      MembersExact(rep, ips[..|ips| - 1], r);
      assert ips == ips[..|ips| - 1] + [ips[|ips| - 1]];
      assert forall x :: x in ips <==> x in ips[..|ips| - 1] || x == ips[|ips| - 1];
    }
  }

  /** Some member of c precedes every member of d in the insertion order. */
  ghost predicate Earlier(ips: seq<string>, c: seq<string>, d: seq<string>) {
    exists i :: 0 <= i < |ips| && ips[i] in c && forall k :: 0 <= k <= i ==> ips[k] !in d
  }

  /** Each group is exactly the class of its representative, in insertion order. */
  ghost predicate GroupsAreClasses(rep: map<string, string>, ips: seq<string>, groups: map<string, seq<string>>) {
    && (forall r :: r in groups ==> groups[r] == Members(rep, ips, r) && groups[r] != [])
    && (forall x :: x in ips ==> x in rep && rep[x] in groups)
  }

  /** The dictionary order of the groups is the order of their first members. */
  ghost predicate GroupOrder(ips: seq<string>, order: seq<string>, groups: map<string, seq<string>>) {
    && (forall r :: r in order <==> r in groups)
    && (forall i, j :: 0 <= i < j < |order| ==>
          order[i] != order[j] && Earlier(ips, groups[order[i]], groups[order[j]]))
  }

  ghost predicate Grouped(rep: map<string, string>, ips: seq<string>, order: seq<string>, groups: map<string, seq<string>>) {
    GroupsAreClasses(rep, ips, groups) && GroupOrder(ips, order, groups)
  }

  ghost function WithMember(groups: map<string, seq<string>>, r: string, x: string): map<string, seq<string>> {
    groups[r := (if r in groups then groups[r] else []) + [x]]
  }

  lemma SomeMember(s: seq<string>)
    ensures s != [] ==> exists y :: y in s
  {
    if s != [] { assert s[0] in s; }
  }

  lemma ClassesStep(rep: map<string, string>, ips: seq<string>, x: string, groups: map<string, seq<string>>)
    requires x in rep && GroupsAreClasses(rep, ips, groups)
    ensures GroupsAreClasses(rep, ips + [x], WithMember(groups, rep[x], x))
  {
    var r, ips' := rep[x], ips + [x];
    assert ips'[..|ips'| - 1] == ips;
    if r !in groups {
      MembersExact(rep, ips, r);
      SomeMember(Members(rep, ips, r));
    }
  }

  lemma EarlierExtends(ips: seq<string>, x: string, c: seq<string>, d: seq<string>, c': seq<string>, d': seq<string>)
    requires Earlier(ips, c, d) && x !in ips
    requires c' == c || c' == c + [x]
    requires d' == d || d' == d + [x]
    ensures Earlier(ips + [x], c', d')
  {
    var k :| 0 <= k < |ips| && ips[k] in c && forall m :: 0 <= m <= k ==> ips[m] !in d;
    var ips' := ips + [x];
    assert ips'[k] in c';
    forall m | 0 <= m <= k ensures ips'[m] !in d' {
      assert ips'[m] == ips[m] && ips[m] != x;
    }
  }

  lemma GroupHasMember(rep: map<string, string>, ips: seq<string>, groups: map<string, seq<string>>, r: string)
    returns (k: nat)
    requires GroupsAreClasses(rep, ips, groups) && r in groups
    ensures k < |ips| && ips[k] in groups[r]
  {
    MembersExact(rep, ips, r);
    assert groups[r] == Members(rep, ips, r);
    var y := groups[r][0];
    assert y in groups[r];
    k :| 0 <= k < |ips| && ips[k] == y;
  }

  lemma EarlierThanNew(ips: seq<string>, x: string, c: seq<string>, k: nat)
    requires x !in ips && k < |ips| && ips[k] in c
    ensures Earlier(ips + [x], c, [x])
  {
    var ips' := ips + [x];
    assert ips'[k] in c;
    forall m | 0 <= m <= k ensures ips'[m] !in [x] {
      assert ips'[m] == ips[m] && ips[m] in ips;
    }
  }

  lemma OrderStep(rep: map<string, string>, ips: seq<string>, x: string,
                  order: seq<string>, groups: map<string, seq<string>>)
    requires x in rep && x !in ips
    requires GroupsAreClasses(rep, ips, groups) && GroupOrder(ips, order, groups)
    ensures GroupOrder(ips + [x], if rep[x] in groups then order else order + [rep[x]], WithMember(groups, rep[x], x))
  {
    hide GroupsAreClasses, Earlier;
    var r, ips', groups' := rep[x], ips + [x], WithMember(groups, rep[x], x);
    var order' := if r in groups then order else order + [r];
    forall q ensures q in order' <==> q in groups' {
      assert q in order' <==> q in order || q == r;
    }
    forall i, j | 0 <= i < j < |order'|
      ensures order'[i] != order'[j] && Earlier(ips', groups'[order'[i]], groups'[order'[j]])
    {
      var p := order'[i];
      assert p == order[i] && p in groups;
      if j < |order| {
        assert order[j] in groups;
        EarlierExtends(ips, x, groups[order[i]], groups[order[j]], groups'[order[i]], groups'[order[j]]);
      } else {
        var k := GroupHasMember(rep, ips, groups, p);
        EarlierThanNew(ips, x, groups[p], k);
        assert order'[j] == r && groups'[r] == [x] && groups'[p] == groups[p];
      }
    }
  }

  ghost function RootsOf(parent: Parents, rank: Ranks): map<string, string>
    requires Forest(parent, rank)
  {
    map x | x in parent :: Root(parent, rank, x)
  }

  ghost function Reps(uf: UnionFind): map<string, string>
    reads uf
    requires uf.Valid()
  {
    RootsOf(uf.parent, uf.rank)
  }

  lemma RepsAt(uf: UnionFind, x: string)
    requires uf.Valid() && x in uf.parent
    ensures x in Reps(uf) && Reps(uf)[x] == uf.Rep(x)
  {
  }

  lemma NothingGrouped(rep: map<string, string>)
    ensures Grouped(rep, [], [], map[])
  {
  }

  lemma SameReps(parent: Parents, parent': Parents, rank: Ranks)
    requires Forest(parent, rank) && Forest(parent', rank) && SameRoots(parent, parent', rank)
    ensures RootsOf(parent, rank) == RootsOf(parent', rank)
  {
  }

  method Group(ips: seq<string>, uf: UnionFind) returns (order: seq<string>, groups: map<string, seq<string>>)
    requires uf.Valid() && Distinct(ips) && forall x :: x in ips ==> x in uf.parent
    modifies uf`parent
    ensures uf.Valid() && Reps(uf) == old(Reps(uf))
    ensures Grouped(Reps(uf), ips, order, groups)
  {
    hide Forest, Weighted, Tracks, SameRoots, GroupsAreClasses, GroupOrder, RootsOf;
    order, groups := [], map[];
    NothingGrouped(Reps(uf));
    var n := 0;
    assert ips[..n] == [];
    while n < |ips|
      invariant n <= |ips|
      invariant uf.Valid() && uf.parent.Keys == old(uf.parent).Keys && Reps(uf) == old(Reps(uf))
      invariant Grouped(Reps(uf), ips[..n], order, groups)
    {
      ghost var p, order0, groups0 := uf.parent, order, groups;
      RepsAt(uf, ips[n]);
      var r := uf.Find(ips[n]);
      assert Reps(uf) == old(Reps(uf)) by { SameReps(p, uf.parent, uf.rank); }
      RepsAt(uf, ips[n]);
      if r !in groups {
        order := order + [r];
        groups := groups[r := []];
      }
      groups := groups[r := groups[r] + [ips[n]]];
      assert ips[..n + 1] == ips[..n] + [ips[n]];
      assert groups == WithMember(groups0, r, ips[n]);
      assert ips[n] !in ips[..n];
      ClassesStep(Reps(uf), ips[..n], ips[n], groups0);
      OrderStep(Reps(uf), ips[..n], ips[n], order0, groups0);
      n := n + 1;
    }
    assert ips[..n] == ips;
  }

  predicate Disjoint(c: seq<string>, d: seq<string>) {
    forall x :: x in c ==> x !in d
  }

  ghost predicate Together(clusters: seq<seq<string>>, x: string, y: string) {
    exists c :: c in clusters && x in c && y in c
  }

  ghost predicate SoundClusters(E: set<(string, string)>, ips: seq<string>, clusters: seq<seq<string>>) {
    && (forall c :: c in clusters ==> |c| >= 2 && StrictlySorted(c) && forall x :: x in c ==> x in ips)
    && (forall x, y :: x in ips && y in ips && x != y ==> (Together(clusters, x, y) <==> Connected(E, x, y)))
  }

  /** Larger clusters first; equal sizes in order of first appearance. */
  ghost predicate Ranked(ips: seq<string>, c: seq<string>, d: seq<string>) {
    Disjoint(c, d) && Disjoint(d, c) && |c| >= |d| && (|c| == |d| ==> Earlier(ips, c, d))
  }

  ghost predicate IsClustering(E: set<(string, string)>, ips: seq<string>, clusters: seq<seq<string>>) {
    SoundClusters(E, ips, clusters) && forall i, j :: 0 <= i < j < |clusters| ==> Ranked(ips, clusters[i], clusters[j])
  }

  predicate LongerFirst(c: seq<string>, d: seq<string>) {
    |c| >= |d|
  }

  ghost predicate Before(ips: seq<string>, c: seq<string>, d: seq<string>) {
    Disjoint(c, d) && Disjoint(d, c) && Earlier(ips, c, d)
  }

  ghost predicate AllBefore(ips: seq<string>, clusters: seq<seq<string>>) {
    forall i, j :: 0 <= i < j < |clusters| ==> Before(ips, clusters[i], clusters[j])
  }

  lemma SortedClusters(E: set<(string, string)>, ips: seq<string>, clusters: seq<seq<string>>)
    requires SoundClusters(E, ips, clusters)
    requires AllBefore(ips, clusters)
    ensures IsClustering(E, ips, Sort(LongerFirst, clusters))
  {
    var R := (c, d) => Before(ips, c, d);
    var Q := (c, d) => Ranked(ips, c, d);
    SortRelates(LongerFirst, R, Q, clusters);
    SortCorrect(LongerFirst, clusters);
    var sorted := Sort(LongerFirst, clusters);
    SameElements(sorted, clusters);
    forall i, j | 0 <= i < j < |sorted| ensures Ranked(ips, sorted[i], sorted[j]) {
      assert Q(sorted[i], sorted[j]);
    }
    forall x, y | x in ips && y in ips && x != y ensures Together(sorted, x, y) <==> Connected(E, x, y) {
      assert Together(sorted, x, y) <==> Together(clusters, x, y);
    }
  }

  lemma SortedStringsStrict(s: seq<string>)
    requires Distinct(s)
    ensures StrictlySorted(Sort(LexLeq, s)) && |Sort(LexLeq, s)| == |s|
    ensures forall x :: x in Sort(LexLeq, s) <==> x in s
  {
    LexIsTotalPreorder();
    SortCorrect(LexLeq, s);
    SameElements(Sort(LexLeq, s), s);
    var apart := (x: string, y: string) => x != y;
    SortRelates(LexLeq, apart, apart, s);
    var r := Sort(LexLeq, s);
    forall i, j | 0 <= i < j < |r| ensures LexLess(r[i], r[j]) {
      assert apart(r[i], r[j]);
    }
  }

  /** The groups of two or more, each sorted, in group order. */
  ghost function BigGroups(order: seq<string>, groups: map<string, seq<string>>): seq<seq<string>>
    requires forall r :: r in order ==> r in groups
  {
    if order == [] then []
    else
      var last := order[|order| - 1];
      BigGroups(order[..|order| - 1], groups)
      + if |groups[last]| >= 2 then [Sort(LexLeq, groups[last])] else []
  }

  ghost predicate IsBigGroup(groups: map<string, seq<string>>, r: string, c: seq<string>) {
    r in groups && |groups[r]| >= 2 && c == Sort(LexLeq, groups[r])
  }

  lemma {:induction false} BigGroupsExact(order: seq<string>, groups: map<string, seq<string>>, c: seq<string>)
    requires forall r :: r in order ==> r in groups
    ensures c in BigGroups(order, groups) <==>
              exists r :: r in order && IsBigGroup(groups, r, c)
  {
    hide Sort;
    if order != [] {
      var init, last := order[..|order| - 1], order[|order| - 1];
      BigGroupsExact(init, groups, c);
      assert order == init + [last];
      assert last in order && forall r :: r in order <==> r in init || r == last;
      assert IsBigGroup(groups, last, c) <==> |groups[last]| >= 2 && c == Sort(LexLeq, groups[last]);
    }
  }

  /** Every sorted group kept so far comes before the next one. */
  lemma NextGroupIsLater(rep: map<string, string>, ips: seq<string>,
                         order: seq<string>, groups: map<string, seq<string>>, n: nat, c: seq<string>)
    requires Distinct(ips) && Grouped(rep, ips, order, groups) && n < |order|
    requires c in BigGroups(order[..n], groups)
    ensures Before(ips, c, Sort(LexLeq, groups[order[n]]))
  {
    hide Before, GroupsAreClasses, Earlier, Sort, BigGroups;
    BigGroupsExact(order[..n], groups, c);
    var r :| r in order[..n] && IsBigGroup(groups, r, c);
    var k :| 0 <= k < n && order[k] == r;
    GroupsBefore(rep, ips, order, groups, k, n);
  }

  lemma BigGroupsStep(order: seq<string>, groups: map<string, seq<string>>, n: nat)
    requires n < |order| && forall r :: r in order ==> r in groups
    ensures order[n] in groups
    ensures BigGroups(order[..n + 1], groups) ==
              BigGroups(order[..n], groups) + if |groups[order[n]]| >= 2 then [Sort(LexLeq, groups[order[n]])] else []
  {
    hide Sort;
    assert order[..n + 1][..n] == order[..n];
  }

  lemma {:induction false} BigGroupsOrdered(rep: map<string, string>, ips: seq<string>,
                                            order: seq<string>, groups: map<string, seq<string>>, n: nat)
    requires Distinct(ips) && Grouped(rep, ips, order, groups) && n <= |order|
    ensures AllBefore(ips, BigGroups(order[..n], groups))
  {
    if n > 0 {
      BigGroupsOrdered(rep, ips, order, groups, n - 1);
      BigGroupsStep(order, groups, n - 1);
      hide Before, GroupsAreClasses, Earlier, Sort, BigGroups;
      var b := BigGroups(order[..n - 1], groups);
      forall c | c in b ensures Before(ips, c, Sort(LexLeq, groups[order[n - 1]])) {
        NextGroupIsLater(rep, ips, order, groups, n - 1, c);
      }
      hide Grouped;
      AppendBefore(ips, b, Sort(LexLeq, groups[order[n - 1]]));
    }
  }

  lemma AppendBefore(ips: seq<string>, clusters: seq<seq<string>>, c: seq<string>)
    requires AllBefore(ips, clusters) && forall b :: b in clusters ==> Before(ips, b, c)
    ensures AllBefore(ips, clusters + [c])
  {
    hide Before;
  }

  lemma GroupsBefore(rep: map<string, string>, ips: seq<string>,
                     order: seq<string>, groups: map<string, seq<string>>, i: nat, j: nat)
    requires Distinct(ips) && Grouped(rep, ips, order, groups) && i < j < |order|
    ensures Before(ips, Sort(LexLeq, groups[order[i]]), Sort(LexLeq, groups[order[j]]))
  {
    MembersExact(rep, ips, order[i]);
    MembersExact(rep, ips, order[j]);
    SortedStringsStrict(groups[order[i]]);
    SortedStringsStrict(groups[order[j]]);
    assert Earlier(ips, groups[order[i]], groups[order[j]]);
    var k :| 0 <= k < |ips| && ips[k] in groups[order[i]] && forall m :: 0 <= m <= k ==> ips[m] !in groups[order[j]];
    assert ips[k] in Sort(LexLeq, groups[order[i]]);
  }

  /** Two addresses share a big group exactly when they share a representative. */
  lemma BigGroupsTogether(rep: map<string, string>, ips: seq<string>,
                          order: seq<string>, groups: map<string, seq<string>>, x: string, y: string)
    requires Distinct(ips) && Grouped(rep, ips, order, groups)
    requires x in ips && y in ips && x != y
    ensures Together(BigGroups(order, groups), x, y) <==> rep[x] == rep[y]
  {
    var b := BigGroups(order, groups);
    if Together(b, x, y) {
      var c :| c in b && x in c && y in c;
      BigGroupsExact(order, groups, c);
      var r :| r in order && IsBigGroup(groups, r, c);
      MembersExact(rep, ips, r);
      SortedStringsStrict(groups[r]);
    }
    if rep[x] == rep[y] {
      var r := rep[x];
      MembersExact(rep, ips, r);
      SortedStringsStrict(groups[r]);
      TwoMembers(groups[r], x, y);
      assert IsBigGroup(groups, r, Sort(LexLeq, groups[r]));
      BigGroupsExact(order, groups, Sort(LexLeq, groups[r]));
    }
  }

  lemma TwoMembers(s: seq<string>, x: string, y: string)
    requires x in s && y in s && x != y
    ensures |s| >= 2
  {
  }

  lemma BigGroupShape(rep: map<string, string>, ips: seq<string>,
                      order: seq<string>, groups: map<string, seq<string>>, c: seq<string>)
    requires Distinct(ips) && Grouped(rep, ips, order, groups)
    requires c in BigGroups(order, groups)
    ensures |c| >= 2 && StrictlySorted(c) && forall x :: x in c ==> x in ips
  {
    BigGroupsExact(order, groups, c);
    var r :| r in order && IsBigGroup(groups, r, c);
    MembersExact(rep, ips, r);
    SortedStringsStrict(groups[r]);
  }

  /** Equal representatives are connected addresses. */
  ghost predicate RepsConnect(E: set<(string, string)>, rep: map<string, string>, ips: seq<string>)
    requires forall x :: x in ips ==> x in rep
  {
    forall x, y :: x in ips && y in ips ==> (rep[x] == rep[y] <==> Connected(E, x, y))
  }

  lemma BigGroupsSound(E: set<(string, string)>, rep: map<string, string>, ips: seq<string>,
                       order: seq<string>, groups: map<string, seq<string>>)
    requires Distinct(ips) && Grouped(rep, ips, order, groups)
    requires forall x :: x in ips ==> x in rep
    requires RepsConnect(E, rep, ips)
    ensures SoundClusters(E, ips, BigGroups(order, groups))
  {
    forall c | c in BigGroups(order, groups)
      ensures |c| >= 2 && StrictlySorted(c) && forall x :: x in c ==> x in ips
    {
      BigGroupShape(rep, ips, order, groups, c);
    }
    forall x, y | x in ips && y in ips && x != y
      ensures Together(BigGroups(order, groups), x, y) <==> Connected(E, x, y)
    {
      BigGroupsTogether(rep, ips, order, groups, x, y);
    }
  }

  lemma RepsAreComponents(ips: seq<string>, profiles: Profiles, cfg: Config, uf: UnionFind, x: string, y: string)
    requires WellKeyed(ips, profiles) && uf.Valid() && uf.parent.Keys == profiles.Keys
    requires uf.links == LinksBefore(ips, profiles, cfg, |ips|, 0)
    requires x in ips && y in ips
    ensures Reps(uf)[x] == Reps(uf)[y] <==> Connected(LinkGraph(profiles, cfg), x, y)
  {
    LinksAreTheGraph(ips, profiles, cfg, x, y);
    assert Connected(uf.links, x, y) <==> uf.Rep(x) == uf.Rep(y);
  }

  lemma RepsKnown(ips: seq<string>, profiles: Profiles, uf: UnionFind)
    requires WellKeyed(ips, profiles) && uf.Valid() && uf.parent.Keys == profiles.Keys
    ensures Distinct(ips) && forall x :: x in ips ==> x in uf.parent && x in Reps(uf)
  {
  }

  lemma AllRepsConnect(ips: seq<string>, profiles: Profiles, cfg: Config, uf: UnionFind)
    requires WellKeyed(ips, profiles) && uf.Valid() && uf.parent.Keys == profiles.Keys
    requires uf.links == LinksBefore(ips, profiles, cfg, |ips|, 0)
    requires forall x :: x in ips ==> x in Reps(uf)
    ensures RepsConnect(LinkGraph(profiles, cfg), Reps(uf), ips)
  {
    forall x, y | x in ips && y in ips
      ensures Reps(uf)[x] == Reps(uf)[y] <==> Connected(LinkGraph(profiles, cfg), x, y)
    {
      RepsAreComponents(ips, profiles, cfg, uf, x, y);
    }
  }

  /** Groups of connected representatives, sorted by size, are the clustering. */
  lemma GroupsAreClustering(E: set<(string, string)>, rep: map<string, string>, ips: seq<string>,
                            order: seq<string>, groups: map<string, seq<string>>)
    requires Distinct(ips) && Grouped(rep, ips, order, groups)
    requires forall x :: x in ips ==> x in rep
    requires RepsConnect(E, rep, ips)
    ensures forall r :: r in order ==> r in groups
    ensures IsClustering(E, ips, Sort(LongerFirst, BigGroups(order, groups)))
  {
    hide GroupsAreClasses, SoundClusters, Before, IsClustering, Sort;
    BigGroupsSound(E, rep, ips, order, groups);
    BigGroupsOrdered(rep, ips, order, groups, |order|);
    assert order[..|order|] == order;
    SortedClusters(E, ips, BigGroups(order, groups));
  }

  /** `[sorted(v) for v in groups.values() if len(v) >= 2]`. */
  method KeepBigGroups(order: seq<string>, groups: map<string, seq<string>>) returns (big: seq<seq<string>>)
    requires forall r :: r in order ==> r in groups
    ensures big == BigGroups(order, groups)
  {
    hide Sort;
    big := [];
    var n := 0;
    while n < |order|
      invariant n <= |order|
      invariant big == BigGroups(order[..n], groups)
    {
      assert order[..n + 1][..n] == order[..n];
      if |groups[order[n]]| >= 2 {
        big := big + [Sort(LexLeq, groups[order[n]])];
      }
      n := n + 1;
    }
    assert order[..n] == order;
  }

  method BuildClusters(ips: seq<string>, profiles: Profiles, cfg: Config)
    returns (clusters: seq<seq<string>>, evidence: seq<Evidence>)
    requires WellKeyed(ips, profiles)
    ensures evidence == EvidenceOf(ips, profiles, cfg, |ips|)
    ensures IsClustering(LinkGraph(profiles, cfg), ips, clusters)
  {
    hide *;
    var uf := new UnionFind(ips);
    NothingLinked(ips, profiles, uf);
    evidence := LinkPairs(ips, profiles, cfg, uf);
    RepsKnown(ips, profiles, uf);
    AllRepsConnect(ips, profiles, cfg, uf);
    var order, groups := Group(ips, uf);
    GroupsAreClustering(LinkGraph(profiles, cfg), Reps(uf), ips, order, groups);
    var big := KeepBigGroups(order, groups);
    clusters := Sort(LongerFirst, big);
  }

  lemma NothingLinked(ips: seq<string>, profiles: Profiles, uf: UnionFind)
    requires WellKeyed(ips, profiles) && uf.parent == map x | x in ips :: x
    ensures uf.parent.Keys == profiles.Keys
  {
  }
}
