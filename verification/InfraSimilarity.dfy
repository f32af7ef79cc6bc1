/** Similarity of IP profiles: the Jaccard index as coded, the /24 prefix
    heuristic, and the evidence one pair of profiles produces. */
module InfraSimilarity {
  import opened FiniteSets
  import opened Ordering

  datatype IPProfile = IPProfile(
    ip: string, endpoints: set<string>, services: set<string>, providers: set<string>)

  datatype Config = Config(minEndpoint: real, minService: real, requireAnyOverlap: bool)

  /** Two empty sets have similarity 0, not 1. */
  function Jaccard(a: set<string>, b: set<string>): real {
    if a == {} && b == {} then 0.0 else
    if |a * b| == 0 then 0.0 else |a * b| as real / |a + b| as real
  }

  function Split(s: string, sep: char): (parts: seq<string>)
    ensures |parts| > 0
  {
    if s == [] then [""] else
      var rest := Split(s[1..], sep);
      if s[0] == sep then [""] + rest else [[s[0]] + rest[0]] + rest[1..]
  }

  function IpPrefix24(ip: string): string {
    var parts := Split(ip, '.');
    if |parts| == 4 then parts[0] + "." + parts[1] + "." + parts[2] + ".0/24" else "unknown"
  }

  predicate Linked(p: IPProfile, q: IPProfile, cfg: Config) {
    || Jaccard(p.endpoints, q.endpoints) >= cfg.minEndpoint
    || Jaccard(p.services, q.services) >= cfg.minService
  }

  datatype Reason = EndpointOverlap | ServiceOverlap | PrefixHeuristic

  datatype Details =
    | Prefix(prefix: string)
    | Overlap(endpointJaccard: real, serviceJaccard: real,
              sharedEndpoints: seq<string>, sharedServices: seq<string>)

  datatype Evidence = Evidence(a: string, b: string, reason: Reason, score: real, details: Details)

  function FirstTen(s: seq<string>): seq<string> {
    if |s| <= 10 then s else s[..10]
  }

  predicate PrefixApplies(p: IPProfile, q: IPProfile) {
    && p.providers == {} && q.providers == {}
    && IpPrefix24(p.ip) == IpPrefix24(q.ip)
    && (p.endpoints != {} || p.services != {})
    && (q.endpoints != {} || q.services != {})
  }

  function OverlapEvidence(p: IPProfile, q: IPProfile): Evidence {
    var ep, sv := Jaccard(p.endpoints, q.endpoints), Jaccard(p.services, q.services);
    Evidence(p.ip, q.ip,
             if ep >= sv then EndpointOverlap else ServiceOverlap,
             if ep >= sv then ep else sv,
             Overlap(ep, sv, FirstTen(SortedSet(p.endpoints * q.endpoints)),
                     FirstTen(SortedSet(p.services * q.services))))
  }

  /** The evidence the pair contributes; a prefix match counts only when overlap is demanded
      and missing. */
  function PairEvidence(p: IPProfile, q: IPProfile, cfg: Config): seq<Evidence> {
    if Linked(p, q, cfg) then [OverlapEvidence(p, q)]
    else if cfg.requireAnyOverlap && PrefixApplies(p, q) then
      [Evidence(p.ip, q.ip, PrefixHeuristic, 0.2, Prefix(IpPrefix24(p.ip)))]
    else []
  }

  lemma JaccardSymmetric(a: set<string>, b: set<string>)
    ensures Jaccard(a, b) == Jaccard(b, a)
  {
    assert a * b == b * a && a + b == b + a;
  }

  // ----- The Jaccard distance is a pseudo-semimetric with the triangle inequality -----

  lemma SizeOfParts<T>(a: set<T>, b: set<T>)
    ensures |a + b| == |a - b| + |b - a| + |a * b|
  {
    assert a + b == (a - b) + (b - a) + a * b;
  }

  ghost function Difference(a: set<string>, b: set<string>): set<string> {
    (a - b) + (b - a)
  }

  /** The distance is the share of the union that the two sets do not have in common. */
  lemma JaccardDistance(a: set<string>, b: set<string>)
    requires a + b != {}
    ensures |a + b| > 0 && 1.0 - Jaccard(a, b) == |Difference(a, b)| as real / |a + b| as real
  {
    SizeOfParts(a, b);
    Complement(|a * b|, |Difference(a, b)|, |a + b|);
  }

  lemma Complement(i: nat, d: nat, n: nat)
    requires i + d == n && n > 0
    ensures 1.0 - i as real / n as real == d as real / n as real
    ensures 0.0 <= i as real / n as real <= 1.0
  {
    SharesAddUp(i as real, d as real, n as real);
  }

  lemma SharesAddUp(x: real, y: real, z: real)
    requires x + y == z && z > 0.0 && x >= 0.0 && y >= 0.0
    ensures 1.0 - x / z == y / z && 0.0 <= x / z <= 1.0
  {
    QuotientTimes(x, z);
    QuotientTimes(y, z);
    UnitShares(x / z, y / z, x, y, z);
  }

  lemma QuotientTimes(x: real, z: real)
    requires z > 0.0 && x >= 0.0
    ensures x / z * z == x && x / z >= 0.0
  {
  }

  lemma UnitShares(p: real, q: real, x: real, y: real, z: real)
    requires p * z == x && q * z == y && x + y == z && z > 0.0
    ensures p + q == 1.0
  {
    assert (p + q - 1.0) * z == p * z + q * z - z == 0.0;
  }

  lemma JaccardRange(a: set<string>, b: set<string>)
    ensures 0.0 <= Jaccard(a, b) <= 1.0
    ensures a == {} || b == {} ==> Jaccard(a, b) == 0.0
  {
    SizeOfParts(a, b);
    if |a * b| != 0 { Complement(|a * b|, |a - b| + |b - a|, |a + b|); }
  }

  /** Adding k to both terms of a fraction at most 1 does not lower it. */
  lemma FractionGrows(s: real, k: real, m: real, u: real)
    requires 0.0 <= s <= u && 0.0 < m <= u && 0.0 <= k
    ensures (s + k) / (m + k) >= s / u
  {
    assert s * m <= s * u && s * k <= u * k;
    assert (s + k) * u >= s * (m + k);
    CrossMultiply(s + k, m + k, s, u);
  }

  lemma CrossMultiply(a: real, b: real, c: real, d: real)
    requires b > 0.0 && d > 0.0 && a * d >= c * b
    ensures a / b >= c / d
  {
  }

  /** Outside of a and c, b only adds elements that a does not share. */
  lemma Trimmed(a: set<string>, b: set<string>, c: set<string>)
    requires a != {}
    ensures var b', far := b * (a + c), b - (a + c);
            && |Difference(a, b)| == |Difference(a, b')| + |far|
            && |a + b| == |a + b'| + |far|
            && |Difference(a, b')| <= |a + c|
            && 0 < |a + b'| <= |a + c|
  {
    var b', far := b * (a + c), b - (a + c);
    assert Difference(a, b) == Difference(a, b') + far;
    assert a + b == (a + b') + far;
    SubsetSize(a + b', a + c);
    SubsetSize(Difference(a, b'), a + c);
    assert a + b' != {};
  }

  /** Trimming b to what a and c can see only brings it closer to a. */
  lemma TrimmedIsCloser(a: set<string>, b: set<string>, c: set<string>)
    requires a != {}
    ensures |a + c| > 0
    ensures 1.0 - Jaccard(a, b) >= |Difference(a, b * (a + c))| as real / |a + c| as real
  {
    hide Jaccard, Difference;
    var b', far := b * (a + c), b - (a + c);
    Trimmed(a, b, c);
    assert a + b != {};
    JaccardDistance(a, b);
    FractionGrows(|Difference(a, b')| as real, |far| as real, |a + b'| as real, |a + c| as real);
    assert |Difference(a, b)| as real == |Difference(a, b')| as real + |far| as real;
  }

  lemma DifferenceTriangle(a: set<string>, b: set<string>, c: set<string>)
    ensures |Difference(a, c)| <= |Difference(a, b)| + |Difference(c, b)|
  {
    var ab, cb := Difference(a, b), Difference(c, b);
    SubsetSize(Difference(a, c), ab + cb);
    assert ab + cb == ab + (cb - ab);
    assert |ab + (cb - ab)| == |ab| + |cb - ab|;
    SubsetSize(cb - ab, cb);
  }

  lemma AddFractions(x: nat, y: nat, z: nat, u: nat)
    requires x <= y + z && u > 0
    ensures x as real / u as real <= y as real / u as real + z as real / u as real
  {
    CrossMultiply((y + z) as real, u as real, x as real, u as real);
  }

  lemma JaccardTriangle(a: set<string>, b: set<string>, c: set<string>)
    ensures 1.0 - Jaccard(a, c) <= (1.0 - Jaccard(a, b)) + (1.0 - Jaccard(b, c))
  {
    JaccardRange(a, c);
    JaccardRange(a, b);
    JaccardRange(b, c);
    if a != {} && c != {} {
      TriangleOfNonempty(a, b, c);
    }
  }

  lemma TriangleOfNonempty(a: set<string>, b: set<string>, c: set<string>)
    requires a != {} && c != {}
    ensures 1.0 - Jaccard(a, c) <= (1.0 - Jaccard(a, b)) + (1.0 - Jaccard(b, c))
  {
    hide Jaccard, Difference;
    JaccardSymmetric(b, c);
    assert c + a == a + c && a + c != {};
    var b' := b * (a + c);
    var ab, cb, ac := |Difference(a, b')|, |Difference(c, b')|, |Difference(a, c)|;
    TrimmedIsCloser(a, b, c);
    TrimmedIsCloser(c, b, a);
    JaccardDistance(a, c);
    DifferenceTriangle(a, b', c);
    AddFractions(ac, ab, cb, |a + c|);
  }

  predicate SimilarStep(chain: seq<set<string>>, t: real, i: nat)
    requires i + 1 < |chain|
  {
    Jaccard(chain[i], chain[i + 1]) >= t
  }

  /** What k links of similarity at least t guarantee between the two ends. */
  function LeastSimilarity(k: nat, t: real): real {
    1.0 - k as real * (1.0 - t)
  }

  /** k links of similarity at least t leave the two ends at least 1 - k(1 - t) similar. */
  lemma {:induction false} ChainSimilarity(chain: seq<set<string>>, t: real)
    requires |chain| >= 2
    requires forall i: nat :: i + 1 < |chain| ==> SimilarStep(chain, t, i)
    ensures Jaccard(chain[0], chain[|chain| - 1]) >= LeastSimilarity(|chain| - 1, t)
  {
    hide Jaccard, LeastSimilarity;
    var n := |chain|;
    assert SimilarStep(chain, t, n - 2);
    FirstLink(t);
    if n > 2 {
      var init := chain[..n - 1];
      forall i: nat | i + 1 < |init| ensures SimilarStep(init, t, i) {
        assert SimilarStep(chain, t, i);
      }
      ChainSimilarity(init, t);
      assert init[0] == chain[0] && init[|init| - 1] == chain[n - 2];
      JaccardTriangle(chain[0], chain[n - 2], chain[n - 1]);
      OneLinkMore(n - 2, t, Jaccard(chain[0], chain[n - 2]), Jaccard(chain[n - 2], chain[n - 1]),
                  Jaccard(chain[0], chain[n - 1]));
    }
  }

  lemma FirstLink(t: real)
    ensures LeastSimilarity(1, t) == t
  {
    assert 1.0 * (1.0 - t) == 1.0 - t;
  }

  lemma OneLinkMore(k: nat, t: real, near: real, link: real, far: real)
    requires near >= LeastSimilarity(k, t) && link >= t
    requires 1.0 - far <= (1.0 - near) + (1.0 - link)
    ensures far >= LeastSimilarity(k + 1, t)
  {
    assert (k + 1) as real * (1.0 - t) == k as real * (1.0 - t) + (1.0 - t);
  }
}
