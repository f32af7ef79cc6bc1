/** The evidence edges of `build_clusters`, pair by pair, and what the /24 prefix compares. */
module EvidenceProperties {
  import opened FiniteSets
  import opened Ordering
  import opened InfraSimilarity
  import opened Clustering
  import opened ClusterProperties

  // ----- The prefix of an address -----

  /** s consists of exactly four parts separated by dots. */
  ghost predicate FourParts(s: string, a: string, b: string, c: string, d: string) {
    s == a + "." + (b + "." + (c + "." + d)) && '.' !in a && '.' !in b && '.' !in c && '.' !in d
  }

  ghost predicate Dotted(s: string) {
    exists a, b, c, d :: FourParts(s, a, b, c, d)
  }

  /** Both have four parts and agree in the first three, or neither has four. */
  ghost predicate SameNetwork(s: string, t: string) {
    || (exists a, b, c, d, e :: FourParts(s, a, b, c, d) && FourParts(t, a, b, c, e))
    || (!Dotted(s) && !Dotted(t))
  }

  lemma {:induction false} SplitWhole(s: string, sep: char)
    requires sep !in s
    ensures Split(s, sep) == [s]
  {
    if s != [] {
      assert forall x :: x in s[1..] ==> x in s;
      SplitWhole(s[1..], sep);
      assert s == [s[0]] + s[1..];
    }
  }

  lemma {:induction false} SplitHead(a: string, rest: string, sep: char)
    requires sep !in a
    ensures Split(a + ([sep] + rest), sep) == [a] + Split(rest, sep)
  {
    var s := a + ([sep] + rest);
    if a == [] {
      assert s[0] == sep && s[1..] == rest;
    } else {
      assert forall x :: x in a[1..] ==> x in a;
      SplitHead(a[1..], rest, sep);
      assert s[0] == a[0] && s[0] != sep && s[1..] == a[1..] + ([sep] + rest);
      assert a == [a[0]] + a[1..];
    }
  }

  lemma SplitFour(s: string, a: string, b: string, c: string, d: string)
    requires FourParts(s, a, b, c, d)
    ensures Split(s, '.') == [a, b, c, d]
  {
    SplitWhole(d, '.');
    SplitHead(c, d, '.');
    SplitHead(b, c + "." + d, '.');
    SplitHead(a, b + "." + (c + "." + d), '.');
    assert a + (['.'] + (b + "." + (c + "." + d))) == s;
    assert b + (['.'] + (c + "." + d)) == b + "." + (c + "." + d);
    assert c + (['.'] + d) == c + "." + d;
  }

  lemma {:induction false} SplitFirst(s: string, sep: char) returns (rest: string)
    ensures var parts := Split(s, sep);
            && sep !in parts[0]
            && if |parts| == 1 then s == parts[0]
               else s == parts[0] + ([sep] + rest) && Split(rest, sep) == parts[1..]
  {
    rest := [];
    if s != [] {
      var r := SplitFirst(s[1..], sep);
      assert s == [s[0]] + s[1..];
      var inner := Split(s[1..], sep);
      if s[0] == sep {
        rest := s[1..];
        assert s == [] + ([sep] + rest);
      } else {
        rest := r;
        assert Split(s, sep) == [[s[0]] + inner[0]] + inner[1..];
      }
    }
  }

  lemma FourFromSplit(s: string)
    requires |Split(s, '.')| == 4
    ensures var p := Split(s, '.'); FourParts(s, p[0], p[1], p[2], p[3])
  {
    var p := Split(s, '.');
    var r := SplitFirst(s, '.');
    var q := SplitFirst(r, '.');
    var t := SplitFirst(q, '.');
    var u := SplitFirst(t, '.');
    hide Split;
    assert s == p[0] + (['.'] + (p[1] + (['.'] + (p[2] + (['.'] + p[3])))));
  }

  lemma DottedExactly(s: string)
    ensures Dotted(s) <==> |Split(s, '.')| == 4
  {
    if a, b, c, d :| FourParts(s, a, b, c, d) { SplitFour(s, a, b, c, d); }
    if |Split(s, '.')| == 4 { FourFromSplit(s); }
  }

  /** The prefix of a four-part address, which has four parts itself. */
  lemma PrefixParts(s: string, a: string, b: string, c: string, d: string)
    requires FourParts(s, a, b, c, d)
    ensures FourParts(IpPrefix24(s), a, b, c, "0/24")
  {
    SplitFour(s, a, b, c, d);
    assert '.' !in "0/24";
    assert IpPrefix24(s) == a + "." + b + "." + c + ".0/24";
    assert ".0/24" == "." + "0/24";
  }

  /** Equal prefixes are equal networks: the first three of four parts, or no four parts. */
  lemma PrefixComparesNetworks(s: string, t: string)
    ensures IpPrefix24(s) == IpPrefix24(t) <==> SameNetwork(s, t)
  {
    hide FourParts;
    DottedExactly(s);
    DottedExactly(t);
    UnknownIsUndotted();
    if Dotted(s) && Dotted(t) {
      var a, b, c, d :| FourParts(s, a, b, c, d);
      var a', b', c', d' :| FourParts(t, a', b', c', d');
      PrefixParts(s, a, b, c, d);
      PrefixParts(t, a', b', c', d');
      SplitFour(IpPrefix24(s), a, b, c, "0/24");
      SplitFour(IpPrefix24(t), a', b', c', "0/24");
      if SameNetwork(s, t) {
        var e, f, g, h, i :| FourParts(s, e, f, g, h) && FourParts(t, e, f, g, i);
        SplitFour(s, e, f, g, h);
        SplitFour(s, a, b, c, d);
        SplitFour(t, e, f, g, i);
        SplitFour(t, a', b', c', d');
        assert [a, b, c, d][0] == [e, f, g, h][0] && [a, b, c, d][1] == [e, f, g, h][1] && [a, b, c, d][2] == [e, f, g, h][2];
        assert [a', b', c', d'][0] == [e, f, g, i][0] && [a', b', c', d'][1] == [e, f, g, i][1] && [a', b', c', d'][2] == [e, f, g, i][2];
        assert FourPartsOf(a, b, c) == IpPrefix24(s) && FourPartsOf(a', b', c') == IpPrefix24(t) by {
          PrefixText(s, a, b, c);
          PrefixText(t, a', b', c');
        }
      }
      if IpPrefix24(s) == IpPrefix24(t) {
        assert [a, b, c, "0/24"][0] == [a', b', c', "0/24"][0] && [a, b, c, "0/24"][1] == [a', b', c', "0/24"][1]
               && [a, b, c, "0/24"][2] == [a', b', c', "0/24"][2];
        assert FourParts(s, a, b, c, d) && FourParts(t, a, b, c, d');
      }
    } else if Dotted(s) {
      NotUnknown(s);
      NoSharedParts(s, t);
    } else if Dotted(t) {
      NotUnknown(t);
      NoSharedParts(s, t);
    }
  }

  ghost function FourPartsOf(a: string, b: string, c: string): string {
    a + "." + (b + "." + (c + "." + "0/24"))
  }

  lemma PrefixText(s: string, a: string, b: string, c: string)
    requires FourParts(IpPrefix24(s), a, b, c, "0/24")
    ensures IpPrefix24(s) == FourPartsOf(a, b, c)
  {
  }

  lemma UnknownIsUndotted()
    ensures !Dotted("unknown")
  {
    SplitWhole("unknown", '.');
    DottedExactly("unknown");
  }

  lemma NotUnknown(s: string)
    requires Dotted(s)
    ensures IpPrefix24(s) != "unknown"
  {
    var a, b, c, d :| FourParts(s, a, b, c, d);
    PrefixParts(s, a, b, c, d);
    UnknownIsUndotted();
  }

  lemma NoSharedParts(s: string, t: string)
    requires Dotted(s) != Dotted(t)
    ensures !SameNetwork(s, t)
  {
    hide FourParts;
  }

  // ----- Which pairs leave which evidence -----

  lemma PairIsUnique(ips: seq<string>, profiles: Profiles, cfg: Config, e: Evidence, k: nat, l: nat)
    requires WellKeyed(ips, profiles) && FromPair(ips, profiles, cfg, e, k, l)
    ensures e.a == ips[k] && e.b == ips[l]
    ensures forall k': nat, l': nat :: FromPair(ips, profiles, cfg, e, k', l') ==> k' == k && l' == l
  {
    hide Jaccard, IpPrefix24;
  }

  /** The pair (k, l) leaves a prefix edge. */
  ghost predicate PrefixEdge(ips: seq<string>, profiles: Profiles, cfg: Config, k: nat, l: nat)
    requires WellKeyed(ips, profiles) && k < l < |ips|
  {
    exists e :: e in EvidenceOf(ips, profiles, cfg, |ips|) && e.a == ips[k] && e.b == ips[l] && e.reason == PrefixHeuristic
  }

  lemma PrefixEdgeOfPair(ips: seq<string>, profiles: Profiles, cfg: Config, k: nat, l: nat)
    requires WellKeyed(ips, profiles) && k < l < |ips|
    ensures PrefixEdge(ips, profiles, cfg, k, l) <==>
              exists e :: e in PairEvidence(profiles[ips[k]], profiles[ips[l]], cfg) && e.reason == PrefixHeuristic
  {
    var p, q := profiles[ips[k]], profiles[ips[l]];
    hide PairEvidence, EvidenceOf;
    if PrefixEdge(ips, profiles, cfg, k, l) {
      var e :| e in EvidenceOf(ips, profiles, cfg, |ips|) && e.a == ips[k] && e.b == ips[l] && e.reason == PrefixHeuristic;
      EvidenceOrigin(ips, profiles, cfg, |ips|, e);
      var k': nat, l': nat :| k' < |ips| && FromPair(ips, profiles, cfg, e, k', l');
      PairIsUnique(ips, profiles, cfg, e, k', l');
      assert k' == k && l' == l;
    }
    if e :| e in PairEvidence(p, q, cfg) && e.reason == PrefixHeuristic {
      assert FromPair(ips, profiles, cfg, e, k, l);
      EvidenceOrigin(ips, profiles, cfg, |ips|, e);
      PairIsUnique(ips, profiles, cfg, e, k, l);
    }
  }

  /** Exactly which pairs leave a prefix edge: overlap is demanded and missing, neither side has
      a provider, both have some endpoint or service, and the networks agree. */
  lemma PrefixEdgeExactly(ips: seq<string>, profiles: Profiles, cfg: Config, k: nat, l: nat)
    requires WellKeyed(ips, profiles) && k < l < |ips|
    ensures var p, q := profiles[ips[k]], profiles[ips[l]];
            PrefixEdge(ips, profiles, cfg, k, l)
            <==> (&& cfg.requireAnyOverlap && !OverlapStep(profiles, cfg, ips[k], ips[l])
                  && p.providers == {} && q.providers == {}
                  && (p.endpoints != {} || p.services != {}) && (q.endpoints != {} || q.services != {})
                  && SameNetwork(ips[k], ips[l]))
  {
    var p, q := profiles[ips[k]], profiles[ips[l]];
    hide Jaccard, IpPrefix24, SameNetwork, PrefixEdge;
    PrefixEdgeOfPair(ips, profiles, cfg, k, l);
    PrefixComparesNetworks(p.ip, q.ip);
    var edge := Evidence(p.ip, q.ip, PrefixHeuristic, 0.2, Prefix(IpPrefix24(p.ip)));
    assert PairEvidence(p, q, cfg) == [edge] ==> edge in PairEvidence(p, q, cfg);
  }

  /** An overlap edge shows the two similarities and, in order, the first ten shared endpoints
      and services; it is named after the endpoints when they are at least as similar. */
  lemma EvidenceDetails(ips: seq<string>, profiles: Profiles, cfg: Config, e: Evidence)
    requires WellKeyed(ips, profiles) && e in EvidenceOf(ips, profiles, cfg, |ips|) && e.reason != PrefixHeuristic
    ensures e.a in profiles && e.b in profiles && e.details.Overlap?
    ensures var p, q, d := profiles[e.a], profiles[e.b], e.details;
            && d.endpointJaccard == Jaccard(p.endpoints, q.endpoints) && d.serviceJaccard == Jaccard(p.services, q.services)
            && (e.reason == EndpointOverlap <==> d.endpointJaccard >= d.serviceJaccard)
            && FirstInOrder(d.sharedEndpoints, p.endpoints * q.endpoints)
            && FirstInOrder(d.sharedServices, p.services * q.services)
  {
    hide Jaccard, IpPrefix24, EvidenceOf, FirstInOrder, SortedSet, PairEvidence, FirstTen;
    EvidenceOrigin(ips, profiles, cfg, |ips|, e);
    var k: nat, l: nat :| k < |ips| && FromPair(ips, profiles, cfg, e, k, l);
    PairIsUnique(ips, profiles, cfg, e, k, l);
    PairDetails(profiles[ips[k]], profiles[ips[l]], cfg, e);
  }

  lemma PairDetails(p: IPProfile, q: IPProfile, cfg: Config, e: Evidence)
    requires e in PairEvidence(p, q, cfg) && e.reason != PrefixHeuristic
    ensures e.details.Overlap?
    ensures var d := e.details;
            && d.endpointJaccard == Jaccard(p.endpoints, q.endpoints) && d.serviceJaccard == Jaccard(p.services, q.services)
            && (e.reason == EndpointOverlap <==> d.endpointJaccard >= d.serviceJaccard)
            && FirstInOrder(d.sharedEndpoints, p.endpoints * q.endpoints)
            && FirstInOrder(d.sharedServices, p.services * q.services)
  {
    hide Jaccard, IpPrefix24, FirstInOrder, SortedSet, FirstTen;
    FirstTenInOrder(p.endpoints * q.endpoints);
    FirstTenInOrder(p.services * q.services);
  }

  /** r lists, sorted, the ten smallest members of s, or all of them. */
  ghost predicate FirstInOrder(r: seq<string>, s: set<string>) {
    && StrictlySorted(r) && (forall x :: x in r ==> x in s)
    && |r| == (if |s| < 10 then |s| else 10)
    && forall x, y :: x in s && x !in r && y in r ==> LexLess(y, x)
  }

  lemma FirstTenInOrder(s: set<string>)
    ensures FirstInOrder(FirstTen(SortedSet(s)), s)
  {
    var all := SortedSet(s);
    SortedSetIsSorted(s);
    var r := FirstTen(all);
    hide SortedSet, LexLess;
    forall x, y | x in s && x !in r && y in r ensures LexLess(y, x) {
      var i :| 0 <= i < |r| && r[i] == y;
      assert x in all;
      var j :| 0 <= j < |all| && all[j] == x;
      assert j >= |r| by { if j < |r| { assert r[j] == x; } }
      assert all[i] == y;
    }
  }

  // ----- At most one edge per pair -----

  ghost predicate DistinctEdges(evidence: seq<Evidence>) {
    forall i, j :: 0 <= i < j < |evidence| ==> (evidence[i].a, evidence[i].b) != (evidence[j].a, evidence[j].b)
  }

  lemma PairEvidenceAtMostOne(p: IPProfile, q: IPProfile, cfg: Config)
    ensures |PairEvidence(p, q, cfg)| <= 1
  {
  }

  lemma AppendDistinct(es: seq<Evidence>, more: seq<Evidence>)
    requires DistinctEdges(es) && DistinctEdges(more)
    requires forall e, f :: e in es && f in more ==> (e.a, e.b) != (f.a, f.b)
    ensures DistinctEdges(es + more)
  {
    var all := es + more;
    forall i, j | 0 <= i < j < |all| ensures (all[i].a, all[i].b) != (all[j].a, all[j].b) {
      if i < |es| <= j { assert all[i] in es && all[j] in more; }
    }
  }

  lemma {:induction false} RowIsDistinct(ips: seq<string>, profiles: Profiles, cfg: Config, i: nat, j: nat)
    requires WellKeyed(ips, profiles) && i < j <= |ips|
    ensures DistinctEdges(RowEvidence(ips, profiles, cfg, i, j))
    ensures forall e :: e in RowEvidence(ips, profiles, cfg, i, j) ==> e.a == ips[i]
  {
    hide PairEvidence;
    if j > i + 1 {
      var before, more := RowEvidence(ips, profiles, cfg, i, j - 1), PairEvidence(profiles[ips[i]], profiles[ips[j - 1]], cfg);
      RowIsDistinct(ips, profiles, cfg, i, j - 1);
      PairEvidenceAtMostOne(profiles[ips[i]], profiles[ips[j - 1]], cfg);
      forall f | f in more ensures f.a == ips[i] && f.b == ips[j - 1] {
        assert FromPair(ips, profiles, cfg, f, i, j - 1);
        PairIsUnique(ips, profiles, cfg, f, i, j - 1);
      }
      forall e | e in before ensures e.b != ips[j - 1] {
        RowEvidenceOrigin(ips, profiles, cfg, i, j - 1, e);
        var l: nat :| l < j - 1 && FromPair(ips, profiles, cfg, e, i, l);
        PairIsUnique(ips, profiles, cfg, e, i, l);
      }
      AppendDistinct(before, more);
    }
  }

  lemma EarlierRows(ips: seq<string>, profiles: Profiles, cfg: Config, rows: nat, e: Evidence)
    requires WellKeyed(ips, profiles) && rows < |ips| && e in EvidenceOf(ips, profiles, cfg, rows)
    ensures e.a != ips[rows]
  {
    hide EvidenceOf, PairEvidence;
    EvidenceOrigin(ips, profiles, cfg, rows, e);
    var k: nat, l: nat :| k < rows && FromPair(ips, profiles, cfg, e, k, l);
    PairIsUnique(ips, profiles, cfg, e, k, l);
  }

  lemma RowsBefore(ips: seq<string>, profiles: Profiles, cfg: Config, rows: nat)
    requires WellKeyed(ips, profiles) && rows < |ips|
    ensures forall e :: e in EvidenceOf(ips, profiles, cfg, rows) ==> e.a != ips[rows]
  {
    forall e | e in EvidenceOf(ips, profiles, cfg, rows) ensures e.a != ips[rows] {
      EarlierRows(ips, profiles, cfg, rows, e);
    }
  }

  lemma AppendRow(es: seq<Evidence>, row: seq<Evidence>, x: string)
    requires DistinctEdges(es) && DistinctEdges(row)
    requires (forall e :: e in es ==> e.a != x) && forall f :: f in row ==> f.a == x
    ensures DistinctEdges(es + row)
  {
    hide DistinctEdges;
    AppendDistinct(es, row);
  }

  lemma EvidenceStep(ips: seq<string>, profiles: Profiles, cfg: Config, rows: nat)
    requires WellKeyed(ips, profiles) && 0 < rows <= |ips|
    ensures EvidenceOf(ips, profiles, cfg, rows)
              == EvidenceOf(ips, profiles, cfg, rows - 1) + RowEvidence(ips, profiles, cfg, rows - 1, |ips|)
  {
  }

  lemma NoEdges(ips: seq<string>, profiles: Profiles, cfg: Config)
    requires WellKeyed(ips, profiles)
    ensures DistinctEdges(EvidenceOf(ips, profiles, cfg, 0))
  {
  }

  /** No pair leaves two edges. */
  lemma {:induction false} EvidenceIsDistinct(ips: seq<string>, profiles: Profiles, cfg: Config, rows: nat)
    requires WellKeyed(ips, profiles) && rows <= |ips|
    ensures DistinctEdges(EvidenceOf(ips, profiles, cfg, rows))
  {
    hide *;
    AllKnown(ips, profiles);
    NoEdges(ips, profiles, cfg);
    if rows > 0 {
      EvidenceStep(ips, profiles, cfg, rows);
      EvidenceIsDistinct(ips, profiles, cfg, rows - 1);
      RowIsDistinct(ips, profiles, cfg, rows - 1, |ips|);
      RowsBefore(ips, profiles, cfg, rows - 1);
      AppendRow(EvidenceOf(ips, profiles, cfg, rows - 1), RowEvidence(ips, profiles, cfg, rows - 1, |ips|), ips[rows - 1]);
    }
  }

  lemma AllKnown(ips: seq<string>, profiles: Profiles)
    requires WellKeyed(ips, profiles)
    ensures forall x :: x in ips ==> x in profiles
  {
  }
}
