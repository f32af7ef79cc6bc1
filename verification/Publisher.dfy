/** What leaves the node: the payload of one pattern batch. */
module Publisher {
  import opened Arithmetic
  import opened Options
  import opened HashIndex

  datatype Pattern = Pattern(
    entityKeyHash: string, entityType: string, riskScore: real, uncertainty: real,
    fraudFamily: Option<string>, chainScore: real, riskFlags: seq<string>)

  datatype BatchSummary = BatchSummary(
    totalScored: nat, highRiskCount: nat, meanRisk: real, topFamily: Option<string>)

  datatype Payload = Payload(windowEnd: int, patterns: seq<Pattern>, summary: BatchSummary)

  function HighRisk(results: seq<GNNResult>, threshold: real): seq<GNNResult> {
    if results == [] then []
    else
      var r := results[|results| - 1];
      HighRisk(results[..|results| - 1], threshold) + if r.riskScore >= threshold then [r] else []
  }

  function PatternOf(r: GNNResult, hash: Hash): Pattern {
    Pattern(hash(r.entityKey), r.entityType, r.riskScore, r.uncertainty, r.fraudFamily, r.chainScore, r.riskFlags)
  }

  function PatternsOf(rs: seq<GNNResult>, hash: Hash): seq<Pattern> {
    seq(|rs|, i requires 0 <= i < |rs| => PatternOf(rs[i], hash))
  }

  function TotalRisk(rs: seq<GNNResult>): real {
    if rs == [] then 0.0 else TotalRisk(rs[..|rs| - 1]) + rs[|rs| - 1].riskScore
  }

  // ----- top_family: the most frequent family, the first seen among equals -----

  /** None and "" both count as no family. */
  predicate Named(r: GNNResult) {
    r.fraudFamily.Some? && r.fraudFamily.value != ""
  }

  function FamilyCount(rs: seq<GNNResult>, f: string): nat {
    if rs == [] then 0
    else
      var r := rs[|rs| - 1];
      FamilyCount(rs[..|rs| - 1], f) + if Named(r) && r.fraudFamily.value == f then 1 else 0
  }

  /** Families in order of first appearance. */
  function FamilyOrder(rs: seq<GNNResult>): seq<string> {
    if rs == [] then []
    else
      var before, r := FamilyOrder(rs[..|rs| - 1]), rs[|rs| - 1];
      if Named(r) && r.fraudFamily.value !in before then before + [r.fraudFamily.value] else before
  }

  /** `max(counts, key=counts.get)` over an ordered dictionary. */
  function FirstLargest(order: seq<string>, rs: seq<GNNResult>): Option<string> {
    if order == [] then None
    else
      var best, f := FirstLargest(order[..|order| - 1], rs), order[|order| - 1];
      if best.None? || FamilyCount(rs, f) > FamilyCount(rs, best.value) then Some(f) else best
  }

  function TopFamily(rs: seq<GNNResult>): Option<string> {
    FirstLargest(FamilyOrder(rs), rs)
  }

  lemma {:induction false} CountedWhenSeen(rs: seq<GNNResult>, f: string)
    ensures f in FamilyOrder(rs) <==> FamilyCount(rs, f) > 0
  {
    if rs != [] { CountedWhenSeen(rs[..|rs| - 1], f); }
  }

  /** order[w] is counted most often, and strictly more often than any family before it. */
  ghost predicate Wins(order: seq<string>, rs: seq<GNNResult>, w: nat) {
    && w < |order|
    && (forall j :: 0 <= j < |order| ==> FamilyCount(rs, order[j]) <= FamilyCount(rs, order[w]))
    && (forall j :: 0 <= j < w ==> FamilyCount(rs, order[j]) < FamilyCount(rs, order[w]))
  }

  lemma {:induction false} FirstLargestWins(order: seq<string>, rs: seq<GNNResult>) returns (w: nat)
    requires order != []
    ensures Wins(order, rs, w) && FirstLargest(order, rs) == Some(order[w])
  {
    hide FamilyCount;
    var init, n := order[..|order| - 1], |order| - 1;
    if init == [] {
      w := 0;
      assert FirstLargest(init, rs) == None;
    } else {
      var i := FirstLargestWins(init, rs);
      forall j | 0 <= j < n ensures FamilyCount(rs, order[j]) <= FamilyCount(rs, order[i]) {
        assert init[j] == order[j];
      }
      forall j | 0 <= j < i ensures FamilyCount(rs, order[j]) < FamilyCount(rs, order[i]) {
        assert init[j] == order[j];
      }
      w := if FamilyCount(rs, order[n]) > FamilyCount(rs, order[i]) then n else i;
    }
  }

  /** The reported family is a most frequent one, and the earliest seen of those. */
  lemma TopFamilyIsMostFrequent(rs: seq<GNNResult>) returns (w: nat)
    requires exists r :: r in rs && Named(r)
    ensures Wins(FamilyOrder(rs), rs, w) && TopFamily(rs) == Some(FamilyOrder(rs)[w])
    ensures forall g :: FamilyCount(rs, g) <= FamilyCount(rs, FamilyOrder(rs)[w])
  {
    var order := FamilyOrder(rs);
    var r :| r in rs && Named(r);
    NamedIsSeen(rs, r);
    w := FirstLargestWins(order, rs);
    forall g ensures FamilyCount(rs, g) <= FamilyCount(rs, order[w]) {
      CountedWhenSeen(rs, g);
      if g in order {
        var j :| 0 <= j < |order| && order[j] == g;
      }
    }
  }

  lemma {:induction false} NamedIsSeen(rs: seq<GNNResult>, r: GNNResult)
    requires r in rs && Named(r)
    ensures r.fraudFamily.value in FamilyOrder(rs)
  {
    var init, last := rs[..|rs| - 1], rs[|rs| - 1];
    assert rs == init + [last];
    if r != last { NamedIsSeen(init, r); }
  }

  /** The counting loop, with the dictionary's order of first insertion. */
  method TallyFamilies(rs: seq<GNNResult>) returns (counts: map<string, nat>, order: seq<string>)
    ensures order == FamilyOrder(rs)
    ensures forall f :: f in counts <==> f in order
    ensures forall f :: f in counts ==> counts[f] == FamilyCount(rs, f)
  {
    counts, order := map[], [];
    var n := 0;
    while n < |rs|
      invariant n <= |rs|
      invariant order == FamilyOrder(rs[..n])
      invariant forall f :: f in counts <==> f in order
      invariant forall f :: f in counts ==> counts[f] == FamilyCount(rs[..n], f)
    {
      var r := rs[n];
      assert rs[..n + 1][..n] == rs[..n];
      if Named(r) {
        var f := r.fraudFamily.value;
        CountedWhenSeen(rs[..n], f);
        if f !in counts { order := order + [f]; }
        counts := counts[f := (if f in counts then counts[f] else 0) + 1];
      }
      n := n + 1;
    }
    assert rs[..n] == rs;
  }

  method CountFamilies(rs: seq<GNNResult>) returns (top: Option<string>)
    ensures top == TopFamily(rs)
  {
    hide FamilyOrder, FamilyCount;
    var counts, order := TallyFamilies(rs);
    top := None;
    var k := 0;
    while k < |order|
      invariant k <= |order|
      invariant top == FirstLargest(order[..k], rs)
      invariant top.Some? ==> top.value in counts
    {
      assert order[..k + 1][..k] == order[..k];
      if top.None? || counts[order[k]] > counts[top.value] { top := Some(order[k]); }
      k := k + 1;
    }
    assert order[..k] == order;
  }

  // ----- The payload -----

  function PayloadOf(results: seq<GNNResult>, windowEnd: int, threshold: real, hash: Hash): Payload {
    var high := HighRisk(results, threshold);
    Payload(windowEnd, PatternsOf(high, hash),
            BatchSummary(|results|, |high|,
                         if high == [] then 0.0 else Round4(TotalRisk(high) / |high| as real),
                         if high == [] then None else TopFamily(high)))
  }

  method BuildPayload(results: seq<GNNResult>, windowEnd: int, threshold: real, hash: Hash) returns (p: Payload)
    ensures p == PayloadOf(results, windowEnd, threshold, hash)
  {
    var high: seq<GNNResult> := [];
    var n := 0;
    while n < |results|
      invariant n <= |results|
      invariant high == HighRisk(results[..n], threshold)
    {
      assert results[..n + 1][..n] == results[..n];
      if results[n].riskScore >= threshold { high := high + [results[n]]; }
      n := n + 1;
    }
    assert results[..n] == results;
    hide Round4;
    var mean: real, top: Option<string> := 0.0, None;
    if high != [] {
      mean := Round4(TotalRisk(high) / |high| as real);
      top := CountFamilies(high);
    }
    p := Payload(windowEnd, PatternsOf(high, hash), BatchSummary(|results|, |high|, mean, top));
  }

  /** Equal results, except that raw keys may differ where their hashes agree. */
  ghost predicate SameUpToKeys(rs: seq<GNNResult>, rs': seq<GNNResult>, hash: Hash) {
    && |rs| == |rs'|
    && forall i :: 0 <= i < |rs| ==> SameResult(rs[i], rs'[i], hash)
  }

  ghost predicate SameResult(r: GNNResult, r': GNNResult, hash: Hash) {
    r'.(entityKey := r.entityKey) == r && hash(r.entityKey) == hash(r'.entityKey)
  }

  lemma {:induction false} HighRiskUpToKeys(rs: seq<GNNResult>, rs': seq<GNNResult>, threshold: real, hash: Hash)
    requires SameUpToKeys(rs, rs', hash)
    ensures SameUpToKeys(HighRisk(rs, threshold), HighRisk(rs', threshold), hash)
  {
    if rs != [] {
      HighRiskUpToKeys(rs[..|rs| - 1], rs'[..|rs| - 1], threshold, hash);
      assert SameResult(rs[|rs| - 1], rs'[|rs| - 1], hash);
    }
  }

  lemma {:induction false} SummariesUpToKeys(rs: seq<GNNResult>, rs': seq<GNNResult>, hash: Hash)
    requires SameUpToKeys(rs, rs', hash)
    ensures TotalRisk(rs) == TotalRisk(rs') && FamilyOrder(rs) == FamilyOrder(rs')
    ensures forall f :: FamilyCount(rs, f) == FamilyCount(rs', f)
  {
    if rs != [] {
      SummariesUpToKeys(rs[..|rs| - 1], rs'[..|rs| - 1], hash);
      assert SameResult(rs[|rs| - 1], rs'[|rs| - 1], hash);
    }
  }

  lemma {:induction false} FirstLargestUpToKeys(order: seq<string>, rs: seq<GNNResult>, rs': seq<GNNResult>)
    requires forall f :: FamilyCount(rs, f) == FamilyCount(rs', f)
    ensures FirstLargest(order, rs) == FirstLargest(order, rs')
  {
    if order != [] { FirstLargestUpToKeys(order[..|order| - 1], rs, rs'); }
  }

  /** Nothing that leaves the node depends on a raw key except through its hash. */
  lemma PayloadHidesKeys(rs: seq<GNNResult>, rs': seq<GNNResult>, windowEnd: int, threshold: real, hash: Hash)
    requires SameUpToKeys(rs, rs', hash)
    ensures PayloadOf(rs, windowEnd, threshold, hash) == PayloadOf(rs', windowEnd, threshold, hash)
  {
    var high, high' := HighRisk(rs, threshold), HighRisk(rs', threshold);
    HighRiskUpToKeys(rs, rs', threshold, hash);
    SummariesUpToKeys(high, high', hash);
    FirstLargestUpToKeys(FamilyOrder(high), high, high');
    forall i | 0 <= i < |high| ensures PatternOf(high[i], hash) == PatternOf(high'[i], hash) {
      assert SameResult(high[i], high'[i], hash);
    }
    assert PatternsOf(high, hash) == PatternsOf(high', hash);
  }

  lemma {:induction false} HighRiskExact(rs: seq<GNNResult>, threshold: real, r: GNNResult)
    ensures r in HighRisk(rs, threshold) <==> r in rs && r.riskScore >= threshold
  {
    if rs != [] {
      HighRiskExact(rs[..|rs| - 1], threshold, r);
      assert rs == rs[..|rs| - 1] + [rs[|rs| - 1]];
    }
  }
}
