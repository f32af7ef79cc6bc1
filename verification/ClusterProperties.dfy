/** What the clusters of `build_clusters` mean, for every profile dictionary. */
module ClusterProperties {
  import opened Arithmetic
  import opened FiniteSets
  import opened Ordering
  import opened Connectivity
  import opened InfraSimilarity
  import opened Clustering

  /** Clusters sharing an address are the same cluster. */
  lemma OneClusterEach(E: set<(string, string)>, ips: seq<string>, clusters: seq<seq<string>>,
                       c: seq<string>, d: seq<string>, x: string)
    requires IsClustering(E, ips, clusters) && c in clusters && d in clusters && x in c && x in d
    ensures c == d
  {
    var i :| 0 <= i < |clusters| && clusters[i] == c;
    var j :| 0 <= j < |clusters| && clusters[j] == d;
    assert !(i < j) && !(j < i);
  }

  /** Consecutive addresses overlap enough in endpoints or in services. */
  ghost predicate OverlapChain(profiles: Profiles, cfg: Config, p: seq<string>, x: string, y: string) {
    && |p| > 0 && p[0] == x && p[|p| - 1] == y
    && forall i :: 0 <= i < |p| - 1 ==> OverlapStep(profiles, cfg, p[i], p[i + 1])
  }

  lemma OverlapStepSymmetric(profiles: Profiles, cfg: Config, u: string, v: string)
    requires OverlapStep(profiles, cfg, u, v)
    ensures OverlapStep(profiles, cfg, v, u)
  {
    hide Jaccard;
    JaccardSymmetric(profiles[u].endpoints, profiles[v].endpoints);
    JaccardSymmetric(profiles[u].services, profiles[v].services);
  }

  /** What a cluster is, in terms of the two similarities and their thresholds alone: two
      addresses share one if and only if a chain joins them on which every step has enough
      endpoint or enough service overlap. */
  lemma TogetherExactly(ips: seq<string>, profiles: Profiles, cfg: Config, clusters: seq<seq<string>>, x: string, y: string)
    requires WellKeyed(ips, profiles) && IsClustering(LinkGraph(profiles, cfg), ips, clusters)
    requires x in ips && y in ips && x != y
    ensures Together(clusters, x, y) <==> exists p :: OverlapChain(profiles, cfg, p, x, y)
  {
    var E := LinkGraph(profiles, cfg);
    hide OverlapStep;
    if Together(clusters, x, y) {
      var p :| IsPath(E, p, x, y);
      forall i | 0 <= i < |p| - 1 ensures OverlapStep(profiles, cfg, p[i], p[i + 1]) {
        assert Adjacent(E, p[i], p[i + 1]);
        if (p[i], p[i + 1]) !in E { OverlapStepSymmetric(profiles, cfg, p[i + 1], p[i]); }
      }
      assert OverlapChain(profiles, cfg, p, x, y);
    }
    if p :| OverlapChain(profiles, cfg, p, x, y) {
      forall i | 0 <= i < |p| - 1 ensures Adjacent(E, p[i], p[i + 1]) {
        StepIsEdge(profiles, cfg, p[i], p[i + 1]);
      }
      assert IsPath(E, p, x, y);
    }
  }

  lemma StepIsEdge(profiles: Profiles, cfg: Config, u: string, v: string)
    requires OverlapStep(profiles, cfg, u, v)
    ensures (u, v) in LinkGraph(profiles, cfg)
  {
    hide Jaccard;
  }

  /** The clusters cover exactly the addresses connected to another one. */
  lemma CoversTheNonIsolated(E: set<(string, string)>, ips: seq<string>, clusters: seq<seq<string>>, x: string)
    requires IsClustering(E, ips, clusters) && x in ips
    ensures (exists c :: c in clusters && x in c) <==> (exists y :: y in ips && y != x && Connected(E, x, y))
  {
    if c :| c in clusters && x in c {
      var y := if c[0] == x then c[1] else c[0];
      assert LexLess(c[0], c[1]);
      assert c[0] in c && c[1] in c && y in c && y != x;
      assert Together(clusters, x, y);
    }
    if y :| y in ips && y != x && Connected(E, x, y) {
      assert Together(clusters, x, y);
    }
  }

  lemma SortedHeadIsLeast(c: seq<string>, d: seq<string>)
    requires StrictlySorted(c) && StrictlySorted(d) && c != [] && d != []
    requires forall x :: x in c <==> x in d
    ensures c[0] == d[0]
  {
    assert c[0] in c && d[0] in d;
    var i :| 0 <= i < |d| && d[i] == c[0];
    var j :| 0 <= j < |c| && c[j] == d[0];
    if i > 0 && j > 0 {
      assert LexLess(d[0], d[i]) && LexLess(c[0], c[j]);
      LexAntisymmetric(c[0], d[0]);
    }
  }

  lemma {:induction false} SortedIsUnique(c: seq<string>, d: seq<string>)
    requires StrictlySorted(c) && StrictlySorted(d)
    requires forall x :: x in c <==> x in d
    ensures c == d
  {
    if c != [] && d != [] {
      SortedHeadIsLeast(c, d);
      forall x ensures x in c[1..] <==> x in d[1..] {
        TailMembers(c, x);
        TailMembers(d, x);
      }
      SortedIsUnique(c[1..], d[1..]);
      assert c == [c[0]] + c[1..] && d == [d[0]] + d[1..];
    } else {
      SomeMember(c);
      SomeMember(d);
    }
  }

  lemma TailMembers(c: seq<string>, x: string)
    requires StrictlySorted(c) && c != []
    ensures x in c[1..] <==> x in c && x != c[0]
  {
    assert c == [c[0]] + c[1..];
    if x in c[1..] {
      var i :| 0 <= i < |c| - 1 && c[1..][i] == x;
      assert LexLess(c[0], c[i + 1]);
    }
  }

  /** Every cluster found in one visiting order is found in any other. */
  lemma SameClusterElsewhere(E: set<(string, string)>, ips: seq<string>, clusters: seq<seq<string>>,
                             ips': seq<string>, clusters': seq<seq<string>>, c: seq<string>)
    requires IsClustering(E, ips, clusters) && IsClustering(E, ips', clusters')
    requires (forall x :: x in ips <==> x in ips') && c in clusters
    ensures c in clusters'
  {
    var x, y := c[0], c[1];
    assert LexLess(c[0], c[1]) && x in c && y in c;
    assert Together(clusters, x, y);
    var d :| d in clusters' && x in d && y in d;
    forall z ensures z in c <==> z in d {
      if z in c && z != x {
        assert Together(clusters, x, z);
        var e :| e in clusters' && x in e && z in e;
        OneClusterEach(E, ips', clusters', d, e, x);
      }
      if z in d && z != x {
        assert Together(clusters', x, z);
        var e :| e in clusters && x in e && z in e;
        OneClusterEach(E, ips, clusters, c, e, x);
      }
    }
    SortedIsUnique(c, d);
  }

  /** The partition does not depend on the order in which addresses are visited. */
  lemma OrderDoesNotMatter(E: set<(string, string)>, ips: seq<string>, clusters: seq<seq<string>>,
                           ips': seq<string>, clusters': seq<seq<string>>)
    requires IsClustering(E, ips, clusters) && IsClustering(E, ips', clusters')
    requires forall x :: x in ips <==> x in ips'
    ensures forall c :: c in clusters <==> c in clusters'
  {
    forall c ensures c in clusters <==> c in clusters' {
      if c in clusters { SameClusterElsewhere(E, ips, clusters, ips', clusters', c); }
      if c in clusters' { SameClusterElsewhere(E, ips', clusters', ips, clusters, c); }
    }
  }

  // ----- Cohesion -----

  lemma DistinctFits(p: seq<string>, c: seq<string>)
    requires Distinct(p) && forall x :: x in p ==> x in c
    ensures |p| <= |c|
  {
    var sp, sc := set x | x in p, set x | x in c;
    DistinctSize(p);
    SizeAtMost(c);
    SubsetSize(sp, sc);
  }

  /** A simple path between two members of a cluster stays inside the cluster. */
  lemma PathStaysInside(E: set<(string, string)>, ips: seq<string>, clusters: seq<seq<string>>, c: seq<string>,
                        p: seq<string>, x: string, y: string, k: nat)
    requires IsClustering(E, ips, clusters) && c in clusters && x in c
    requires IsPath(E, p, x, y) && k < |p|
    requires forall u, v :: (u, v) in E ==> u in ips && v in ips
    ensures p[k] in c
  {
    var q := p[..k + 1];
    forall i | 0 <= i < |q| - 1 ensures Adjacent(E, q[i], q[i + 1]) {
      assert Adjacent(E, p[i], p[i + 1]);
    }
    assert IsPath(E, q, x, p[k]);
    if p[k] != x {
      assert k > 0;
      assert Adjacent(E, p[k - 1], p[k - 1 + 1]);
      assert Together(clusters, x, p[k]);
      var d :| d in clusters && x in d && p[k] in d;
      OneClusterEach(E, ips, clusters, c, d, x);
    }
  }

  lemma LeastSimilarityShrinks(j: nat, k: nat, t: real)
    requires j <= k && t <= 1.0
    ensures LeastSimilarity(j, t) >= LeastSimilarity(k, t)
  {
    ScaleMonotone(1.0 - t, j as real, k as real);
    assert j as real * (1.0 - t) == (1.0 - t) * j as real && k as real * (1.0 - t) == (1.0 - t) * k as real;
  }

  /** An edge per pair of addresses whose endpoint sets are at least t similar. */
  ghost function EndpointLinks(profiles: Profiles, t: real): set<(string, string)> {
    set u, v | u in profiles && v in profiles && u != v
               && Jaccard(profiles[u].endpoints, profiles[v].endpoints) >= t :: (u, v)
  }

  /** A path of k endpoint links keeps its two ends at least 1 - k(1-t) similar, whatever the
      services of the profiles are. */
  lemma EndpointPath(profiles: Profiles, t: real, p: seq<string>, x: string, y: string)
    requires IsPath(EndpointLinks(profiles, t), p, x, y) && x != y
    ensures x in profiles && y in profiles && t <= 1.0
    ensures Jaccard(profiles[x].endpoints, profiles[y].endpoints) >= LeastSimilarity(|p| - 1, t)
  {
    hide Jaccard, LeastSimilarity, Connected;
    forall i | 0 <= i < |p| ensures p[i] in profiles {
      PathVertex(profiles, t, p, i);
    }
    var chain := seq(|p|, i requires 0 <= i < |p| => profiles[p[i]].endpoints);
    forall i: nat | i + 1 < |chain| ensures SimilarStep(chain, t, i) {
      assert Adjacent(EndpointLinks(profiles, t), p[i], p[i + 1]);
      JaccardSymmetric(chain[i], chain[i + 1]);
    }
    ChainSimilarity(chain, t);
    assert SimilarStep(chain, t, 0);
    JaccardRange(chain[0], chain[1]);
  }

  lemma PathVertex(profiles: Profiles, t: real, p: seq<string>, i: nat)
    requires |p| > 1 && i < |p|
    requires forall j :: 0 <= j < |p| - 1 ==> Adjacent(EndpointLinks(profiles, t), p[j], p[j + 1])
    ensures p[i] in profiles
  {
    var j := if i == 0 then 0 else i - 1;
    assert Adjacent(EndpointLinks(profiles, t), p[j], p[j + 1]);
  }

  /** No two different addresses have enough services in common to be linked by them. */
  ghost predicate NoServiceLinks(profiles: Profiles, cfg: Config) {
    forall u, v :: u in profiles && v in profiles && u != v ==>
      Jaccard(profiles[u].services, profiles[v].services) < cfg.minService
  }

  lemma OnlyEndpointsLink(profiles: Profiles, cfg: Config)
    requires NoServiceLinks(profiles, cfg)
    ensures LinkGraph(profiles, cfg) == EndpointLinks(profiles, cfg.minEndpoint)
  {
    hide Jaccard;
  }

  /** Transitive linking cannot drift far: when only endpoint overlap links, any two members
      of a cluster of n addresses are at least 1 - (n-1)(1-t) similar in their endpoints. */
  lemma ClusterCohesion(ips: seq<string>, profiles: Profiles, cfg: Config,
                        clusters: seq<seq<string>>, c: seq<string>, x: string, y: string)
    requires WellKeyed(ips, profiles)
    requires IsClustering(LinkGraph(profiles, cfg), ips, clusters)
    requires NoServiceLinks(profiles, cfg)
    requires c in clusters && x in c && y in c && x != y
    ensures Jaccard(profiles[x].endpoints, profiles[y].endpoints) >= LeastSimilarity(|c| - 1, cfg.minEndpoint)
  {
    hide Jaccard, LeastSimilarity;
    var E, t := LinkGraph(profiles, cfg), cfg.minEndpoint;
    assert Together(clusters, x, y) && Connected(E, x, y);
    var p := SimplePath(E, x, y);
    forall k | 0 <= k < |p| ensures p[k] in c {
      PathStaysInside(E, ips, clusters, c, p, x, y, k);
    }
    DistinctFits(p, c);
    OnlyEndpointsLink(profiles, cfg);
    EndpointPath(profiles, t, p, x, y);
    LeastSimilarityShrinks(|p| - 1, |c| - 1, t);
  }

  // ----- Evidence against clusters -----

  ghost predicate FromPair(ips: seq<string>, profiles: Profiles, cfg: Config, e: Evidence, k: nat, l: nat)
    requires forall x :: x in ips ==> x in profiles
  {
    k < l < |ips| && e in PairEvidence(profiles[ips[k]], profiles[ips[l]], cfg)
  }

  lemma {:induction false} RowEvidenceOrigin(ips: seq<string>, profiles: Profiles, cfg: Config, i: nat, j: nat, e: Evidence)
    requires i < j <= |ips| && forall x :: x in ips ==> x in profiles
    ensures e in RowEvidence(ips, profiles, cfg, i, j) <==>
              exists l: nat :: l < j && FromPair(ips, profiles, cfg, e, i, l)
  {
    hide PairEvidence;
    if j > i + 1 {
      RowEvidenceOrigin(ips, profiles, cfg, i, j - 1, e);
      assert FromPair(ips, profiles, cfg, e, i, j - 1) <==> e in PairEvidence(profiles[ips[i]], profiles[ips[j - 1]], cfg);
    }
  }

  lemma {:induction false} EvidenceOrigin(ips: seq<string>, profiles: Profiles, cfg: Config, rows: nat, e: Evidence)
    requires rows <= |ips| && forall x :: x in ips ==> x in profiles
    ensures e in EvidenceOf(ips, profiles, cfg, rows) <==>
              exists k: nat, l: nat :: k < rows && FromPair(ips, profiles, cfg, e, k, l)
  {
    hide RowEvidence, FromPair;
    if rows > 0 {
      EvidenceOrigin(ips, profiles, cfg, rows - 1, e);
      RowEvidenceOrigin(ips, profiles, cfg, rows - 1, |ips|, e);
      PairInRange(ips, profiles, cfg, e);
    }
  }

  lemma PairInRange(ips: seq<string>, profiles: Profiles, cfg: Config, e: Evidence)
    requires forall x :: x in ips ==> x in profiles
    ensures forall k: nat, l: nat :: FromPair(ips, profiles, cfg, e, k, l) ==> l < |ips|
  {
  }

  /** An overlap edge joins two members of one cluster; every other edge is a prefix edge
      between two profiles without enough overlap. */
  lemma EvidenceReason(ips: seq<string>, profiles: Profiles, cfg: Config, clusters: seq<seq<string>>, e: Evidence)
    requires WellKeyed(ips, profiles)
    requires IsClustering(LinkGraph(profiles, cfg), ips, clusters)
    requires e in EvidenceOf(ips, profiles, cfg, |ips|)
    ensures e.a in ips && e.b in ips && e.a != e.b
    ensures e.reason == PrefixHeuristic <==> !OverlapStep(profiles, cfg, e.a, e.b)
    ensures e.reason != PrefixHeuristic ==> Together(clusters, e.a, e.b)
  {
    hide Jaccard, IpPrefix24, EvidenceOf, Connected, PairEvidence, SoundClusters, LinkGraph;
    EvidenceOrigin(ips, profiles, cfg, |ips|, e);
    var k: nat, l: nat :| k < |ips| && FromPair(ips, profiles, cfg, e, k, l);
    PairReason(ips, profiles, cfg, e, k, l);
    if e.reason != PrefixHeuristic {
      StepIsEdge(profiles, cfg, e.a, e.b);
      OneEdge(LinkGraph(profiles, cfg), e.a, e.b);
      SoundTogether(LinkGraph(profiles, cfg), ips, clusters, e.a, e.b);
    }
  }

  lemma PairReason(ips: seq<string>, profiles: Profiles, cfg: Config, e: Evidence, k: nat, l: nat)
    requires WellKeyed(ips, profiles) && FromPair(ips, profiles, cfg, e, k, l)
    ensures e.a == ips[k] && e.b == ips[l] && e.a != e.b
    ensures e.reason == PrefixHeuristic <==> !OverlapStep(profiles, cfg, e.a, e.b)
  {
    hide Jaccard, IpPrefix24;
  }

  lemma SoundTogether(E: set<(string, string)>, ips: seq<string>, clusters: seq<seq<string>>, x: string, y: string)
    requires IsClustering(E, ips, clusters) && x in ips && y in ips && x != y && Connected(E, x, y)
    ensures Together(clusters, x, y)
  {
    hide Connected, Ranked;
  }

  /** The score of an overlap edge is the larger similarity, named after the larger one, and
      meets one of the thresholds; a prefix edge always scores 0.2. */
  lemma EvidenceScore(ips: seq<string>, profiles: Profiles, cfg: Config, e: Evidence)
    requires WellKeyed(ips, profiles) && e in EvidenceOf(ips, profiles, cfg, |ips|)
    ensures e.a in profiles && e.b in profiles
    ensures var ep := Jaccard(profiles[e.a].endpoints, profiles[e.b].endpoints);
            var sv := Jaccard(profiles[e.a].services, profiles[e.b].services);
            if e.reason == PrefixHeuristic then e.score == 0.2 && ep < cfg.minEndpoint && sv < cfg.minService
            else
              && e.score >= ep && e.score >= sv && (e.score >= cfg.minEndpoint || e.score >= cfg.minService)
              && e.score == (if e.reason == EndpointOverlap then ep else sv)
  {
    EvidenceOrigin(ips, profiles, cfg, |ips|, e);
    hide Jaccard, IpPrefix24;
    var k: nat, l: nat :| k < |ips| && FromPair(ips, profiles, cfg, e, k, l);
  }

  /** Every linked pair leaves an evidence edge. */
  lemma EveryLinkIsEvidenced(ips: seq<string>, profiles: Profiles, cfg: Config, k: nat, l: nat)
    requires WellKeyed(ips, profiles) && k < l < |ips| && OverlapStep(profiles, cfg, ips[k], ips[l])
    ensures exists e :: e in EvidenceOf(ips, profiles, cfg, |ips|) && e.a == ips[k] && e.b == ips[l]
              && e.reason != PrefixHeuristic
  {
    var e := OverlapEvidence(profiles[ips[k]], profiles[ips[l]]);
    assert FromPair(ips, profiles, cfg, e, k, l);
    EvidenceOrigin(ips, profiles, cfg, |ips|, e);
  }

  const LEFT: IPProfile := IPProfile("a", {"/x"}, {}, {})
  const RIGHT: IPProfile := IPProfile("b", {"/y"}, {}, {})
  const DEFAULTS: Config := Config(0.35, 0.35, true)

  /** A prefix edge can join two addresses that no cluster holds together: the evidence is
      recorded, the union never happens. Both addresses here fall in the "unknown" prefix. */
  lemma PrefixEdgeMaySpanClusters(clusters: seq<seq<string>>)
    requires IsClustering(LinkGraph(map["a" := LEFT, "b" := RIGHT], DEFAULTS), ["a", "b"], clusters)
    ensures var profiles := map["a" := LEFT, "b" := RIGHT];
            && WellKeyed(["a", "b"], profiles)
            && Evidence("a", "b", PrefixHeuristic, 0.2, Prefix("unknown")) in
                 EvidenceOf(["a", "b"], profiles, DEFAULTS, 2)
            && !Together(clusters, "a", "b")
  {
    LeftRightEvidence();
    LeftRightApart();
    hide Linked, PairEvidence, EvidenceOf, LinkGraph, LexLess;
    assert ["a", "b"][0] == "a" && ["a", "b"][1] == "b";
  }

  lemma LeftRightEvidence()
    ensures var ips, profiles := ["a", "b"], map["a" := LEFT, "b" := RIGHT];
            && WellKeyed(ips, profiles)
            && Evidence("a", "b", PrefixHeuristic, 0.2, Prefix("unknown")) in EvidenceOf(ips, profiles, DEFAULTS, 2)
  {
    var ips, profiles := ["a", "b"], map["a" := LEFT, "b" := RIGHT];
    var e := Evidence("a", "b", PrefixHeuristic, 0.2, Prefix("unknown"));
    assert "a" in ips && "b" in ips by { assert ips[0] == "a" && ips[1] == "b"; }
    LeftRightPair(e);
    assert FromPair(ips, profiles, DEFAULTS, e, 0, 1);
    hide PairEvidence, Linked, EvidenceOf, FromPair;
    EvidenceOrigin(ips, profiles, DEFAULTS, 2, e);
  }

  lemma LeftRightApart()
    ensures !Connected(LinkGraph(map["a" := LEFT, "b" := RIGHT], DEFAULTS), "a", "b")
  {
    LeftRightPair(Evidence("a", "b", PrefixHeuristic, 0.2, Prefix("unknown")));
    hide PairEvidence, Linked;
    var E := LinkGraph(map["a" := LEFT, "b" := RIGHT], DEFAULTS);
    assert E == {};
    if Connected(E, "a", "b") {
      LabelsAgree(E, map["a" := 0, "b" := 1], "a", "b");
    }
  }

  lemma LeftRightPair(e: Evidence)
    requires e == Evidence("a", "b", PrefixHeuristic, 0.2, Prefix("unknown"))
    ensures !Linked(LEFT, RIGHT, DEFAULTS) && !Linked(RIGHT, LEFT, DEFAULTS)
    ensures PairEvidence(LEFT, RIGHT, DEFAULTS) == [e]
  {
    assert "/x"[1] != "/y"[1];
    assert {"/x"} * {"/y"} == {};
    assert !Linked(LEFT, RIGHT, DEFAULTS);
    LinkedIsSymmetric(LEFT, RIGHT, DEFAULTS);
    assert IpPrefix24("a") == IpPrefix24("b") == "unknown";
  }
}
