/** What a pattern batch says, in terms of the results it was made from. */
module PublisherProperties {
  import opened Arithmetic
  import opened FiniteSets
  import opened Options
  import opened HashIndex
  import opened Publisher
  import opened Sums

  /** Positions of the results at or above the threshold. */
  ghost function HighPositions(rs: seq<GNNResult>, threshold: real): set<int> {
    set i | 0 <= i < |rs| && rs[i].riskScore >= threshold
  }

  /** Positions of the high-risk results of family f. */
  ghost function FamilyPositions(rs: seq<GNNResult>, threshold: real, f: string): set<int> {
    set i | 0 <= i < |rs| && rs[i].riskScore >= threshold && rs[i].fraudFamily == Some(f)
  }

  ghost function HighScore(threshold: real): GNNResult -> real {
    (r: GNNResult) => if r.riskScore >= threshold then r.riskScore else 0.0
  }

  lemma {:induction false} HighRiskCount(rs: seq<GNNResult>, threshold: real)
    ensures |HighRisk(rs, threshold)| == |HighPositions(rs, threshold)|
  {
    if rs != [] {
      var n := |rs| - 1;
      HighRiskCount(rs[..n], threshold);
      assert HighPositions(rs, threshold) == HighPositions(rs[..n], threshold) + if rs[n].riskScore >= threshold then {n} else {};
    }
  }

  /** The i-th high-risk result is found at a later place than those before it. */
  lemma {:induction false} HighRiskAt(rs: seq<GNNResult>, threshold: real, i: nat) returns (p: nat)
    requires i < |HighRisk(rs, threshold)|
    ensures p < |rs| && rs[p] == HighRisk(rs, threshold)[i] && rs[p].riskScore >= threshold
    ensures HighRisk(rs[..p], threshold) == HighRisk(rs, threshold)[..i]
  {
    var n := |rs| - 1;
    if i < |HighRisk(rs[..n], threshold)| {
      p := HighRiskAt(rs[..n], threshold, i);
      assert rs[..n][..p] == rs[..p];
    } else {
      p := n;
    }
  }

  lemma {:induction false} HighRiskTotal(rs: seq<GNNResult>, threshold: real)
    ensures TotalRisk(HighRisk(rs, threshold)) == RealTotal(rs, HighScore(threshold))
  {
    if rs != [] {
      var n := |rs| - 1;
      HighRiskTotal(rs[..n], threshold);
      var before := HighRisk(rs[..n], threshold);
      assert (before + [rs[n]])[..|before|] == before && before + [] == before;
    }
  }

  lemma FamilyPositionsStep(rs: seq<GNNResult>, threshold: real, f: string)
    requires rs != []
    ensures var r := rs[|rs| - 1];
            |FamilyPositions(rs, threshold, f)| == |FamilyPositions(rs[..|rs| - 1], threshold, f)|
              + if r.riskScore >= threshold && r.fraudFamily == Some(f) then 1 else 0
  {
    var n := |rs| - 1;
    assert FamilyPositions(rs, threshold, f) == FamilyPositions(rs[..n], threshold, f)
           + if rs[n].riskScore >= threshold && rs[n].fraudFamily == Some(f) then {n} else {};
  }

  lemma FamilyCountAppend(rs: seq<GNNResult>, r: GNNResult, f: string)
    requires f != ""
    ensures FamilyCount(rs + [r], f) == FamilyCount(rs, f) + if r.fraudFamily == Some(f) then 1 else 0
    ensures rs + [] == rs
  {
    assert (rs + [r])[..|rs|] == rs;
  }

  lemma {:induction false} HighFamilyCount(rs: seq<GNNResult>, threshold: real, f: string)
    requires f != ""
    ensures FamilyCount(HighRisk(rs, threshold), f) == |FamilyPositions(rs, threshold, f)|
  {
    if rs != [] {
      var n := |rs| - 1;
      HighFamilyCount(rs[..n], threshold, f);
      FamilyPositionsStep(rs, threshold, f);
      FamilyCountAppend(HighRisk(rs[..n], threshold), rs[n], f);
      hide FamilyCount, FamilyPositions;
    }
  }

  /** Pattern q carries result r, its key replaced by the hash. */
  ghost predicate Describes(q: Pattern, r: GNNResult, hash: Hash) {
    && q.entityKeyHash == hash(r.entityKey) && q.entityType == r.entityType
    && q.riskScore == r.riskScore && q.uncertainty == r.uncertainty && q.chainScore == r.chainScore
    && q.fraudFamily == r.fraudFamily && q.riskFlags == r.riskFlags
  }

  /** The patterns are the results at or above the threshold, one each and in order: pattern i
      describes a result with exactly i such results before it. */
  lemma PatternMeaning(rs: seq<GNNResult>, windowEnd: int, threshold: real, hash: Hash, i: nat) returns (p: nat)
    requires i < |PayloadOf(rs, windowEnd, threshold, hash).patterns|
    ensures p < |rs| && rs[p].riskScore >= threshold
    ensures Describes(PayloadOf(rs, windowEnd, threshold, hash).patterns[i], rs[p], hash)
    ensures |HighPositions(rs[..p], threshold)| == i
  {
    p := HighRiskAt(rs, threshold, i);
    HighRiskCount(rs[..p], threshold);
  }

  /** The summary: counts, and the mean of the high scores to four places. */
  lemma SummaryMeaning(rs: seq<GNNResult>, windowEnd: int, threshold: real, hash: Hash)
    ensures var p, n := PayloadOf(rs, windowEnd, threshold, hash), |HighPositions(rs, threshold)|;
            && p.windowEnd == windowEnd && |p.patterns| == n
            && p.summary.totalScored == |rs| && p.summary.highRiskCount == n
            && p.summary.meanRisk == (if n == 0 then 0.0 else Round4(RealTotal(rs, HighScore(threshold)) / n as real))
  {
    hide Round4;
    HighRiskCount(rs, threshold);
    HighRiskTotal(rs, threshold);
  }

  // ----- The top family -----

  lemma {:induction false} FamilyOrderAt(rs: seq<GNNResult>, w: nat) returns (p: nat)
    requires w < |FamilyOrder(rs)|
    ensures p < |rs| && Named(rs[p]) && rs[p].fraudFamily.value == FamilyOrder(rs)[w]
    ensures FamilyOrder(rs[..p]) == FamilyOrder(rs)[..w]
  {
    var n := |rs| - 1;
    if w < |FamilyOrder(rs[..n])| {
      p := FamilyOrderAt(rs[..n], w);
      assert rs[..n][..p] == rs[..p];
    } else {
      p := n;
    }
  }

  /** No high-risk result names a family before position p. */
  ghost predicate FirstNamed(high: seq<GNNResult>, f: string, p: nat) {
    && p < |high| && high[p].fraudFamily == Some(f)
    && forall j :: 0 <= j < p ==> high[j].fraudFamily != Some(f)
  }

  lemma {:induction false} CountedMember(rs: seq<GNNResult>, f: string, j: nat)
    requires f != "" && j < |rs| && rs[j].fraudFamily == Some(f)
    ensures FamilyCount(rs, f) > 0
  {
    if j < |rs| - 1 { CountedMember(rs[..|rs| - 1], f, j); }
  }

  lemma {:induction false} UncountedNowhere(rs: seq<GNNResult>, f: string)
    requires f != "" && FamilyCount(rs, f) == 0
    ensures forall j :: 0 <= j < |rs| ==> rs[j].fraudFamily != Some(f)
  {
    forall j | 0 <= j < |rs| ensures rs[j].fraudFamily != Some(f) {
      if rs[j].fraudFamily == Some(f) { CountedMember(rs, f, j); }
    }
  }

  /** f is a most frequent named family of the high-risk results, and every other as frequent
      one appears first at a later place. */
  ghost predicate TopOf(rs: seq<GNNResult>, threshold: real, f: string, p: nat) {
    && f != "" && FirstNamed(HighRisk(rs, threshold), f, p)
    && forall g :: g != "" && g != f ==>
         && |FamilyPositions(rs, threshold, g)| <= |FamilyPositions(rs, threshold, f)|
         && (|FamilyPositions(rs, threshold, g)| == |FamilyPositions(rs, threshold, f)| ==>
               forall j :: 0 <= j <= p ==> HighRisk(rs, threshold)[j].fraudFamily != Some(g))
  }

  lemma NoFamilies(rs: seq<GNNResult>)
    ensures (forall r :: r in rs ==> !Named(r)) <==> FamilyOrder(rs) == []
  {
    if FamilyOrder(rs) != [] {
      var p := FamilyOrderAt(rs, 0);
      assert rs[p] in rs;
    }
    if r :| r in rs && Named(r) { NamedIsSeen(rs, r); }
  }

  /** The reported family: none if no high-risk result names one, else the most frequent, the
      earliest seen of equals. */
  lemma TopFamilyMeaning(rs: seq<GNNResult>, windowEnd: int, threshold: real, hash: Hash)
    ensures var top, high := PayloadOf(rs, windowEnd, threshold, hash).summary.topFamily, HighRisk(rs, threshold);
            if top.None? then forall r :: r in high ==> r.fraudFamily.None? || r.fraudFamily.value == ""
            else exists p: nat :: TopOf(rs, threshold, top.value, p)
  {
    var high := HighRisk(rs, threshold);
    NoFamilies(high);
    if r :| r in high && Named(r) {
      var w := TopFamilyIsMostFrequent(high);
      var order := FamilyOrder(high);
      var f := order[w];
      var p := FamilyOrderAt(high, w);
      assert forall i, j :: 0 <= i < j < |order| ==> order[i] != order[j] by { FamilyOrderDistinct(high); }
      assert f !in FamilyOrder(high[..p]);
      CountedWhenSeen(high[..p], f);
      UncountedNowhere(high[..p], f);
      assert FirstNamed(high, f, p) by {
        forall j | 0 <= j < p ensures high[j].fraudFamily != Some(f) { assert high[..p][j] == high[j]; }
      }
      HighFamilyCount(rs, threshold, f);
      hide HighRisk, FamilyPositions, FirstNamed;
      forall g | g != "" && g != f
        ensures |FamilyPositions(rs, threshold, g)| <= |FamilyPositions(rs, threshold, f)|
        ensures |FamilyPositions(rs, threshold, g)| == |FamilyPositions(rs, threshold, f)| ==>
                  forall j :: 0 <= j <= p ==> high[j].fraudFamily != Some(g)
      {
        HighFamilyCount(rs, threshold, g);
        if FamilyCount(high, g) == FamilyCount(high, f) { LaterFamily(high, w, p, g); }
      }
      assert TopOf(rs, threshold, f, p);
    } else {
      assert high != [] ==> FirstLargest(FamilyOrder(high), high) == None;
    }
  }

  lemma {:induction false} FamilyOrderDistinct(rs: seq<GNNResult>)
    ensures Distinct(FamilyOrder(rs))
  {
    if rs != [] { FamilyOrderDistinct(rs[..|rs| - 1]); }
  }

  lemma LaterFamily(high: seq<GNNResult>, w: nat, p: nat, g: string)
    requires Wins(FamilyOrder(high), high, w) && p < |high| && FamilyOrder(high[..p]) == FamilyOrder(high)[..w]
    requires high[p].fraudFamily == Some(FamilyOrder(high)[w]) && g != "" && g != FamilyOrder(high)[w]
    requires FamilyCount(high, g) == FamilyCount(high, FamilyOrder(high)[w])
    ensures forall j :: 0 <= j <= p ==> high[j].fraudFamily != Some(g)
  {
    var order := FamilyOrder(high);
    forall i | 0 <= i < w ensures order[..w][i] != g { assert order[i] != g; }
    CountedWhenSeen(high[..p], g);
    UncountedNowhere(high[..p], g);
    forall j | 0 <= j <= p ensures high[j].fraudFamily != Some(g) {
      if j < p { assert high[..p][j] == high[j]; }
    }
  }
}
