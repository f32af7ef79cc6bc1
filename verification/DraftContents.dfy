/** The content and order of overlap drafts in terms of the database rows: window, confidence,
    reasons, evidence, and which of several common clusters a pair's draft speaks of. */
module DraftContents {
  import opened Arithmetic
  import opened Options
  import opened Ordering
  import opened OverlapClaims
  import opened OverlapProperties

  // ----- Outcome and window -----

  /** Seconds that a window name stands for. */
  ghost predicate WindowSpan(window: string, seconds: int) {
    || (window == "Wshort" && seconds == 10 * 60)
    || (window == "Wmid" && seconds == 24 * 60 * 60)
    || (window == "Wlong" && seconds == 30 * 24 * 60 * 60)
  }

  /** A zero step divides by zero before the window name is looked at; any other name than the
      three is invalid. */
  lemma OutcomeExactly(db: Database, now: int, window: string, minutes: int, cap: int, maxEvidence: int)
    ensures var r := BuildSpec(db, now, window, minutes, cap, maxEvidence);
            && (r.DivisionByZero? <==> minutes == 0)
            && (r.InvalidWindow? <==> minutes != 0 && window != "Wshort" && window != "Wmid" && window != "Wlong")
  {
    hide ContextOf, Finished, DraftsOf, PairTriples, BucketEnd;
  }

  lemma WindowIsSpan(db: Database, now: int, window: string, minutes: int, cap: int, maxEvidence: int, d: Draft)
    requires BuildSpec(db, now, window, minutes, cap, maxEvidence).Drafts?
    requires d in BuildSpec(db, now, window, minutes, cap, maxEvidence).drafts
    ensures d.window == window && d.windowEnd == BucketEnd(now, minutes)
    ensures WindowSpan(window, d.windowEnd - d.windowStart)
  {
    DraftsAreSound(db, now, window, minutes, cap, maxEvidence);
    hide BuildSpec, BucketEnd, Overlap, DistinctDrafts;
    OutcomeExactly(db, now, window, minutes, cap, maxEvidence);
  }

  // ----- Order -----

  /** a and b agree in their first k characters, and there a ends or is smaller. */
  ghost predicate PrecedesAt(a: string, b: string, k: nat) {
    && k <= |a| && k < |b| && a[..k] == b[..k] && (k < |a| ==> a[k] < b[k])
  }

  lemma PrecedesTail(a: string, b: string, k: nat)
    requires a != [] && b != [] && a[0] == b[0] && k > 0
    ensures PrecedesAt(a, b, k) <==> PrecedesAt(a[1..], b[1..], k - 1)
  {
    if k <= |a| && k < |b| {
      assert a[..k] == [a[0]] + a[1..][..k - 1] && b[..k] == [b[0]] + b[1..][..k - 1];
      assert a[..k][1..] == a[1..][..k - 1] && b[..k][1..] == b[1..][..k - 1];
    }
  }

  lemma PrecedesHead(a: string, b: string)
    requires a == [] || b == [] || a[0] != b[0]
    ensures forall k: nat :: PrecedesAt(a, b, k) ==> k == 0
    ensures LexLess(a, b) <==> PrecedesAt(a, b, 0)
  {
    assert a[..0] == b[..0];
    forall k: nat | PrecedesAt(a, b, k) ensures k == 0 {
      if k > 0 { assert a[..k][0] == b[..k][0]; }
    }
  }

  lemma LexTail(a: string, b: string)
    requires a != [] && b != [] && a[0] == b[0]
    ensures LexLess(a, b) <==> LexLess(a[1..], b[1..])
  {
    assert a == [a[0]] + a[1..] && b == [b[0]] + b[1..];
  }

  /** Code-point order: a proper prefix comes first, else the first difference decides. */
  lemma {:induction false} LexMeaning(a: string, b: string)
    ensures LexLess(a, b) <==> exists k: nat :: PrecedesAt(a, b, k)
  {
    if a == [] || b == [] || a[0] != b[0] {
      PrecedesHead(a, b);
    } else {
      LexMeaning(a[1..], b[1..]);
      LexTail(a, b);
      assert !PrecedesAt(a, b, 0);
      hide PrecedesAt, LexLess;
      if k: nat :| PrecedesAt(a, b, k) { PrecedesTail(a, b, k); }
      if k: nat :| PrecedesAt(a[1..], b[1..], k) { PrecedesTail(a, b, k + 1); }
    }
  }

  /** Below the cap: strictly by descending confidence, then subject, then object. */
  lemma DraftsInOrder(db: Database, now: int, window: string, minutes: int, cap: int, maxEvidence: int, i: nat, j: nat)
    requires BuildSpec(db, now, window, minutes, cap, maxEvidence).Drafts?
    requires i < j < |BuildSpec(db, now, window, minutes, cap, maxEvidence).drafts| < cap
    ensures var ds := BuildSpec(db, now, window, minutes, cap, maxEvidence).drafts;
            || ds[i].confidence > ds[j].confidence
            || (ds[i].confidence == ds[j].confidence && LexLess(ds[i].subject, ds[j].subject))
            || (ds[i].confidence == ds[j].confidence && ds[i].subject == ds[j].subject && LexLess(ds[i].target, ds[j].target))
  {
    DraftsAreComplete(db, now, window, minutes, cap, maxEvidence, "", "");
    hide BuildSpec, HasDraft, Overlap;
    var ds := BuildSpec(db, now, window, minutes, cap, maxEvidence).drafts;
    assert DraftLeq(ds[i], ds[j]);
  }

  // ----- The cluster's own confidence -----

  predicate RecentRow(r: ClusterRow, c: string, start: int, end: int) {
    r.clusterId == c && start <= r.lastSeen <= end
  }

  /** Row k is the last one of cluster c in the window. */
  ghost predicate LastRow(clusters: seq<ClusterRow>, c: string, start: int, end: int, k: nat) {
    && k < |clusters| && RecentRow(clusters[k], c, start, end)
    && forall j :: k < j < |clusters| ==> !RecentRow(clusters[j], c, start, end)
  }

  lemma {:induction false} FindsLastRow(clusters: seq<ClusterRow>, c: string, start: int, end: int) returns (k: nat)
    requires exists r :: r in clusters && RecentRow(r, c, start, end)
    ensures LastRow(clusters, c, start, end, k)
    ensures ClusterById(RecentClusters(clusters, start, end), c) == Some(clusters[k])
  {
    var n := |clusters| - 1;
    var init := clusters[..n];
    assert clusters == init + [clusters[n]];
    if RecentRow(clusters[n], c, start, end) {
      k := n;
    } else {
      k := FindsLastRow(init, c, start, end);
      var before := RecentClusters(init, start, end);
      assert (before + [clusters[n]])[..|before|] == before && before + [] == before;
    }
  }

  /** A draft shows its cluster's kind and confidence, 0.5 standing in for none and for zero. */
  ghost predicate ShowsCluster(d: Draft, r: ClusterRow) {
    && d.clusterKind == r.kind
    && d.clusterConfidence == (match r.confidence case None => 0.5 case Some(x) => if x == 0.0 then 0.5 else x)
  }

  /** Where a returned draft comes from, with its identity and window. */
  lemma BuiltFields(db: Database, now: int, window: string, minutes: int, cap: int, maxEvidence: int, d: Draft)
    returns (t: Triple, start: int, end: int)
    requires BuildSpec(db, now, window, minutes, cap, maxEvidence).Drafts?
    requires d in BuildSpec(db, now, window, minutes, cap, maxEvidence).drafts
    ensures t in PairTriples(ContextOf(db, window, start, end, maxEvidence))
    ensures d == DraftOf(ContextOf(db, window, start, end, maxEvidence), t)
    ensures d.clusterId == t.cluster && d.subject == t.subject && d.target == t.target
    ensures d.windowStart == start && d.windowEnd == end
    ensures DraftSays(db, start, end, d)
  {
    hide DraftSays, PairTriples, DraftOf, ContextOf;
    t := BuiltFrom(db, now, window, minutes, cap, maxEvidence, d);
    end := BucketEnd(now, minutes);
    start := end - WindowLength(window).value;
    DraftMeaning(db, now, window, minutes, cap, maxEvidence, d);
    KindShown(ContextOf(db, window, start, end, maxEvidence), t);
    ContextWindow(db, window, start, end, maxEvidence);
  }

  lemma ContextWindow(db: Database, window: string, start: int, end: int, maxEvidence: int)
    ensures ContextOf(db, window, start, end, maxEvidence).start == start
    ensures ContextOf(db, window, start, end, maxEvidence).end == end
  {
  }

  lemma ClusterShown(db: Database, now: int, window: string, minutes: int, cap: int, maxEvidence: int, d: Draft)
    returns (k: nat)
    requires BuildSpec(db, now, window, minutes, cap, maxEvidence).Drafts?
    requires d in BuildSpec(db, now, window, minutes, cap, maxEvidence).drafts
    ensures LastRow(db.clusters, d.clusterId, d.windowStart, d.windowEnd, k) && ShowsCluster(d, db.clusters[k])
  {
    hide *;
    var t, start, end := BuiltFields(db, now, window, minutes, cap, maxEvidence, d);
    ContextClusters(db, window, start, end, maxEvidence);
    KindShown(ContextOf(db, window, start, end, maxEvidence), t);
    k := SaysShown(db, start, end, d);
    ShownFrom(d, db.clusters[k]);
  }

  lemma SaysShown(db: Database, start: int, end: int, d: Draft) returns (k: nat)
    requires DraftSays(db, start, end, d)
    ensures LastRow(db.clusters, d.clusterId, start, end, k) && k < |db.clusters|
    ensures ClusterById(RecentClusters(db.clusters, start, end), d.clusterId) == Some(db.clusters[k])
    ensures d.clusterConfidence == BaseConfidence(Some(db.clusters[k]))
  {
    hide TyingEntities, ReusingCampaigns, SortedSet, Confidence;
    RecentOther(db, start, end, d.clusterId, d.subject);
    k := FindsLastRow(db.clusters, d.clusterId, start, end);
  }

  lemma ShownFrom(d: Draft, r: ClusterRow)
    requires d.clusterKind == r.kind && d.clusterConfidence == BaseConfidence(Some(r))
    ensures ShowsCluster(d, r)
  {
  }

  lemma KindShown(ctx: Context, t: Triple)
    ensures var row := ClusterById(ctx.clusters, t.cluster); row.Some? ==> DraftOf(ctx, t).clusterKind == row.value.kind
    ensures var d := DraftOf(ctx, t);
            && d.clusterId == t.cluster && d.subject == t.subject && d.target == t.target
            && d.windowStart == ctx.start && d.windowEnd == ctx.end
  {
  }

  // ----- Reasons and evidence -----

  /** Evidence row i of cluster c has fewer than n earlier ones. */
  ghost predicate EarlyEvidence(evidence: seq<EvidenceRow>, c: string, n: nat, i: nat) {
    i < |evidence| && evidence[i].clusterId == c && |EarlierEvidence(evidence, c, i)| < n
  }

  ghost function EarlierEvidence(evidence: seq<EvidenceRow>, c: string, i: nat): set<int>
    requires i <= |evidence|
  {
    set k | 0 <= k < i && evidence[k].clusterId == c
  }

  lemma {:induction false} ReasonRank(evidence: seq<EvidenceRow>, c: string)
    ensures |ReasonsOf(evidence, c)| == |EarlierEvidence(evidence, c, |evidence|)|
  {
    if evidence != [] {
      var n := |evidence| - 1;
      ReasonRank(evidence[..n], c);
      assert EarlierEvidence(evidence, c, |evidence|)
             == EarlierEvidence(evidence[..n], c, n) + if evidence[n].clusterId == c then {n} else {};
    }
  }

  lemma FewAppend(xs: seq<string>, x: string, n: nat)
    ensures FirstFew(xs + [x], n) == if |xs| < n then FirstFew(xs, n) + [x] else FirstFew(xs, n)
    ensures xs + [] == xs
  {
  }

  lemma {:induction false} FirstReasons(evidence: seq<EvidenceRow>, c: string, n: nat, code: string)
    ensures code in FirstFew(ReasonsOf(evidence, c), n) <==>
              exists i: nat :: EarlyEvidence(evidence, c, n, i) && evidence[i].reasonCode == code
  {
    hide EarlyEvidence, FirstFew, EarlierEvidence;
    if evidence != [] {
      var m := |evidence| - 1;
      FirstReasons(evidence[..m], c, n, code);
      ReasonRank(evidence[..m], c);
      EarlyStep(evidence, c, n);
      FewAppend(ReasonsOf(evidence[..m], c), evidence[m].reasonCode, n);
    } else {
      NothingEarly(c, n);
    }
  }

  lemma NothingEarly(c: string, n: nat)
    ensures FirstFew(ReasonsOf([], c), n) == [] && forall i: nat :: !EarlyEvidence([], c, n, i)
  {
  }

  lemma EarlyStep(evidence: seq<EvidenceRow>, c: string, n: nat)
    requires evidence != []
    ensures var m := |evidence| - 1;
            && (forall i: nat :: i < m ==> (EarlyEvidence(evidence, c, n, i) <==> EarlyEvidence(evidence[..m], c, n, i)))
            && (forall i: nat :: EarlyEvidence(evidence[..m], c, n, i) ==> i < m)
            && (forall i: nat :: EarlyEvidence(evidence, c, n, i) ==> i <= m)
            && (EarlyEvidence(evidence, c, n, m) <==> evidence[m].clusterId == c && |EarlierEvidence(evidence[..m], c, m)| < n)
  {
    var m := |evidence| - 1;
    forall i: nat | i <= m ensures EarlierEvidence(evidence, c, i) == EarlierEvidence(evidence[..m], c, i) {
    }
  }

  lemma DedupedFits(xs: seq<string>, n: int)
    requires |xs| <= AtLeastOne(n)
    ensures forall x :: x in Capped(Deduped(xs), n) <==> x in xs
  {
    DedupedExact(xs);
    if xs != [] { DedupedKeepsHead(xs); }
  }

  /** A draft's reasons: the overlap itself, and those of the cluster's first three evidence rows. */
  lemma ReasonsExactly(db: Database, now: int, window: string, minutes: int, cap: int, maxEvidence: int, d: Draft, code: string)
    requires BuildSpec(db, now, window, minutes, cap, maxEvidence).Drafts?
    requires d in BuildSpec(db, now, window, minutes, cap, maxEvidence).drafts
    ensures code in d.reasonCodes <==>
              code == "INFRA_CLUSTER_REUSE"
              || exists i: nat :: EarlyEvidence(db.evidence, d.clusterId, 3, i) && db.evidence[i].reasonCode == code
  {
    hide EarlyEvidence;
    var t := BuiltFrom(db, now, window, minutes, cap, maxEvidence, d);
    var ctx := Ctx(db, now, window, minutes, maxEvidence);
    hide BuildSpec, PairTriples;
    FirstReasons(db.evidence, t.cluster, 3, code);
    var few := FirstFew(ReasonsOf(db.evidence, t.cluster), 3);
    assert |few| <= 3;
    DedupedFits(["INFRA_CLUSTER_REUSE"] + few, 8);
    ReasonList(ctx, t);
    assert ctx.db == db;
    assert code in ["INFRA_CLUSTER_REUSE"] + few <==> code == "INFRA_CLUSTER_REUSE" || code in few;
  }

  lemma ReasonList(ctx: Context, t: Triple)
    ensures DraftOf(ctx, t).reasonCodes
              == Capped(Deduped(["INFRA_CLUSTER_REUSE"] + FirstFew(ReasonsOf(ctx.db.evidence, t.cluster), 3)), 8)
    ensures DraftOf(ctx, t).clusterId == t.cluster
  {
  }

  predicate EventOf(e: EventRow, id: string, start: int, end: int) {
    e.campaignId == id && start <= e.occurredAt <= end
  }

  ghost function EarlierEvents(events: seq<EventRow>, id: string, start: int, end: int, i: nat): set<int>
    requires i <= |events|
  {
    set k | 0 <= k < i && EventOf(events[k], id, start, end)
  }

  /** Event i of the campaign has fewer than n earlier ones in the window. */
  ghost predicate EarlyEvent(events: seq<EventRow>, id: string, start: int, end: int, n: nat, i: nat) {
    i < |events| && EventOf(events[i], id, start, end) && |EarlierEvents(events, id, start, end, i)| < n
  }

  lemma {:induction false} EventRank(events: seq<EventRow>, id: string, start: int, end: int)
    ensures |CampaignHashes(events, id, start, end)| == |EarlierEvents(events, id, start, end, |events|)|
  {
    if events != [] {
      var n := |events| - 1;
      EventRank(events[..n], id, start, end);
      assert EarlierEvents(events, id, start, end, |events|)
             == EarlierEvents(events[..n], id, start, end, n) + if EventOf(events[n], id, start, end) then {n} else {};
    }
  }

  lemma EventStep(events: seq<EventRow>, id: string, start: int, end: int, n: nat)
    requires events != []
    ensures var m := |events| - 1;
            && (forall i: nat :: i < m ==> (EarlyEvent(events, id, start, end, n, i) <==> EarlyEvent(events[..m], id, start, end, n, i)))
            && (forall i: nat :: EarlyEvent(events[..m], id, start, end, n, i) ==> i < m)
            && (forall i: nat :: EarlyEvent(events, id, start, end, n, i) ==> i <= m)
            && (EarlyEvent(events, id, start, end, n, m) <==>
                  EventOf(events[m], id, start, end) && |EarlierEvents(events[..m], id, start, end, m)| < n)
  {
    var m := |events| - 1;
    forall i: nat | i <= m
      ensures EarlierEvents(events, id, start, end, i) == EarlierEvents(events[..m], id, start, end, i)
    {
    }
  }

  lemma {:induction false} FirstEvents(events: seq<EventRow>, id: string, start: int, end: int, n: nat, h: string)
    ensures h in FirstFew(CampaignHashes(events, id, start, end), n) <==>
              exists i: nat :: EarlyEvent(events, id, start, end, n, i) && events[i].eventHash == h
  {
    hide EarlyEvent, FirstFew, EarlierEvents;
    if events != [] {
      var m := |events| - 1;
      FirstEvents(events[..m], id, start, end, n, h);
      EventRank(events[..m], id, start, end);
      EventStep(events, id, start, end, n);
      FewAppend(CampaignHashes(events[..m], id, start, end), events[m].eventHash, n);
    } else {
      NoEvents(id, start, end, n);
    }
  }

  lemma NoEvents(id: string, start: int, end: int, n: nat)
    ensures FirstFew(CampaignHashes([], id, start, end), n) == [] && forall i: nat :: !EarlyEvent([], id, start, end, n, i)
  {
  }

  /** The hashes a draft may show: of the cluster's evidence rows, and of the first 20 events of
      either campaign in the window. */
  ghost predicate Citable(db: Database, d: Draft, h: string) {
    && h != ""
    && (|| (exists e :: e in db.evidence && e.clusterId == d.clusterId && h in e.eventHashes)
        || (exists i: nat :: EarlyEvent(db.events, d.subject, d.windowStart, d.windowEnd, 20, i) && db.events[i].eventHash == h)
        || (exists i: nat :: EarlyEvent(db.events, d.target, d.windowStart, d.windowEnd, 20, i) && db.events[i].eventHash == h))
  }

  lemma CitableAll(ctx: Context, t: Triple, h: string)
    ensures h in DraftHashes(ctx, t.cluster, t.subject, t.target) <==> Citable(ctx.db, DraftOf(ctx, t), h)
  {
    KindShown(ctx, t);
    assert DraftOf(ctx, t).subject == t.subject && DraftOf(ctx, t).target == t.target;
    hide DraftOf, EarlyEvent;
    var own := ClusterHashes(ctx.db.evidence, t.cluster);
    var left := FirstFew(CampaignHashes(ctx.db.events, t.subject, ctx.start, ctx.end), 20);
    var right := FirstFew(CampaignHashes(ctx.db.events, t.target, ctx.start, ctx.end), 20);
    NonEmptyExact(own + left + right);
    ClusterHashesExact(ctx.db.evidence, t.cluster, h);
    FirstEvents(ctx.db.events, t.subject, ctx.start, ctx.end, 20, h);
    FirstEvents(ctx.db.events, t.target, ctx.start, ctx.end, 20, h);
    assert h in own + left + right <==> h in own || h in left || h in right;
  }

  lemma {:induction false} DedupedSize(xs: seq<string>, n: int)
    ensures |Capped(Deduped(xs), n)| < AtLeastOne(n) ==> Capped(Deduped(xs), n) == Deduped(xs)
    ensures forall x :: x in Capped(Deduped(xs), n) ==> x in xs
  {
    DedupedExact(xs);
    forall x | x in Capped(Deduped(xs), n) ensures x in Deduped(xs) { }
  }

  /** A draft only shows citable hashes, and all of them unless its cap is reached. */
  lemma EvidenceExactly(db: Database, now: int, window: string, minutes: int, cap: int, maxEvidence: int, d: Draft, h: string)
    requires BuildSpec(db, now, window, minutes, cap, maxEvidence).Drafts?
    requires d in BuildSpec(db, now, window, minutes, cap, maxEvidence).drafts
    ensures h in d.evidenceHashes ==> Citable(db, d, h)
    ensures |d.evidenceHashes| < AtLeastOne(maxEvidence) ==> (h in d.evidenceHashes <==> Citable(db, d, h))
  {
    hide Citable;
    var t := BuiltFrom(db, now, window, minutes, cap, maxEvidence, d);
    var ctx := Ctx(db, now, window, minutes, maxEvidence);
    hide BuildSpec, PairTriples;
    CitableAll(ctx, t, h);
    var all := DraftHashes(ctx, t.cluster, t.subject, t.target);
    DedupedSize(all, maxEvidence);
    DedupedExact(all);
    HashList(ctx, t);
    assert ctx.db == db && ctx.maxEvidence == maxEvidence;
  }

  lemma HashList(ctx: Context, t: Triple)
    ensures DraftOf(ctx, t).evidenceHashes == Capped(Deduped(DraftHashes(ctx, t.cluster, t.subject, t.target)), ctx.maxEvidence)
  {
  }

  // ----- Which cluster a pair's draft speaks of -----

  lemma FirstOnlySplit(ts: seq<Triple>, us: seq<Triple>, t: Triple)
    requires t in FirstOnly(ts + us)
    ensures t in FirstOnly(ts) || (t in us && !HasPair(ts, t.subject, t.target))
  {
    var all := ts + us;
    FirstClusterWins(all, t);
    FirstClusterWins(ts, t);
    var i :| 0 <= i < |all| && all[i] == t && !HasPair(all[..i], t.subject, t.target);
    if i < |ts| {
      assert ts[i] == t && ts[..i] == all[..i];
    } else {
      assert us[i - |ts|] == t && all[..i] == ts + us[..i - |ts|];
      HasPairAppend(ts, us[..i - |ts|], t.subject, t.target);
    }
  }

  /** A first triple's cluster stands before every other cluster holding both campaigns. */
  lemma {:induction false} FirstInOrder(o: Overlaps, order: seq<string>, t: Triple) returns (k: nat)
    requires t in FirstOnly(AllTriples(o, order))
    ensures k < |order| && order[k] == t.cluster
    ensures forall j :: 0 <= j < k ==> !InBoth(o, order[j], t.subject, t.target)
  {
    var init, c := order[..|order| - 1], order[|order| - 1];
    var ids := CampaignList(o, c);
    var before, own := AllTriples(o, init), ClusterTriples(c, ids, |ids|);
    FirstOnlySplit(before, own, t);
    if t in FirstOnly(before) {
      k := FirstInOrder(o, init, t);
      assert init[k] == order[k];
      forall j | 0 <= j < k ensures !InBoth(o, order[j], t.subject, t.target) { assert order[j] == init[j]; }
    } else {
      k := |order| - 1;
      TriplesCluster(c, ids, |ids|);
      PairIsOrdered(o, c, t);
      AllPairs(o, init, t.subject, t.target);
      forall j | 0 <= j < k ensures !InBoth(o, order[j], t.subject, t.target) { assert order[j] in init; }
    }
  }

  lemma PairIsOrdered(o: Overlaps, c: string, t: Triple)
    requires var ids := CampaignList(o, c); t in ClusterTriples(c, ids, |ids|)
    ensures LexLess(t.subject, t.target)
  {
    var ids := CampaignList(o, c);
    assert HasPair(ClusterTriples(c, ids, |ids|), t.subject, t.target);
    ClusterPairs(c, ids, |ids|, t.subject, t.target);
    ListIsSorted(o, c);
    SortedPairs(ids, t.subject, t.target);
  }

  lemma {:induction false} ClusterOrderAt(members: seq<MemberRow>, byEntity: map<string, set<string>>, k: nat) returns (p: nat)
    requires k < |ClusterOrder(members, byEntity)|
    ensures p < |members| && members[p].clusterId == ClusterOrder(members, byEntity)[k] && members[p].entityKey in byEntity
    ensures ClusterOrder(members[..p], byEntity) == ClusterOrder(members, byEntity)[..k]
  {
    var n := |members| - 1;
    if k < |ClusterOrder(members[..n], byEntity)| {
      p := ClusterOrderAt(members[..n], byEntity, k);
      assert members[..n][..p] == members[..p];
    } else {
      p := n;
    }
  }

  lemma {:induction false} ClusterOrderHas(members: seq<MemberRow>, byEntity: map<string, set<string>>, c: string)
    ensures c in ClusterOrder(members, byEntity) <==> exists m :: m in members && m.clusterId == c && m.entityKey in byEntity
  {
    if members != [] {
      var init, last := members[..|members| - 1], members[|members| - 1];
      ClusterOrderHas(init, byEntity, c);
      assert members == init + [last];
      assert forall m :: m in members <==> m in init || m == last;
    }
  }

  lemma {:induction false} MembersInAt(members: seq<MemberRow>, ids: set<string>, p: nat) returns (q: nat)
    requires p < |MembersIn(members, ids)|
    ensures q < |members| && members[q] == MembersIn(members, ids)[p]
    ensures MembersIn(members[..q], ids) == MembersIn(members, ids)[..p]
  {
    var n := |members| - 1;
    if p < |MembersIn(members[..n], ids)| {
      q := MembersInAt(members[..n], ids, p);
      assert members[..n][..q] == members[..q];
    } else {
      q := n;
    }
  }

  /** Member row m ties its cluster to some campaign seen in the window. */
  ghost predicate TiesSome(db: Database, start: int, end: int, m: MemberRow) {
    exists e, r :: e in db.entities && r in db.campaigns && e.entityKey == m.entityKey && r.id == e.campaignId
                   && start <= r.lastSeen <= end
  }

  lemma KeyIsTied(db: Database, start: int, end: int, m: MemberRow)
    ensures m.entityKey in EntityIndex(db.entities, RecentCampaigns(db.campaigns, start, end)) <==> TiesSome(db, start, end, m)
  {
    var recent := RecentCampaigns(db.campaigns, start, end);
    EntityIndexExact(db.entities, recent);
    var cs := CampaignsOf(db.entities, recent, m.entityKey);
    if cs != {} {
      var id :| id in cs;
      var e :| e in db.entities && e.entityKey == m.entityKey && e.campaignId == id && id in recent;
      var r :| r in db.campaigns && start <= r.lastSeen <= end && r.id == id;
    }
    if e, r :| e in db.entities && r in db.campaigns && e.entityKey == m.entityKey && r.id == e.campaignId
               && start <= r.lastSeen <= end {
      assert e.campaignId in recent && e.campaignId in cs;
    }
  }

  /** Row q is the first by which cluster c is tied to any recent campaign, and cluster other has
      no such row before it. */
  ghost predicate TiedFirst(db: Database, start: int, end: int, c: string, other: string, q: nat) {
    && q < |db.members| && db.members[q].clusterId == c && TiesSome(db, start, end, db.members[q])
    && forall j :: 0 <= j < q && db.members[j].clusterId == other ==> !TiesSome(db, start, end, db.members[j])
  }

  /** In the order of clusters, an earlier one is tied by an earlier member row. */
  lemma OrderIsRowOrder(db: Database, window: string, start: int, end: int, maxEvidence: int, k: nat, other: string)
    returns (q: nat)
    requires var o := ContextOf(db, window, start, end, maxEvidence).overlaps;
             k < |o.order| && other !in o.order[..k] && exists r :: r in db.clusters && RecentRow(r, other, start, end)
    ensures TiedFirst(db, start, end, ContextOf(db, window, start, end, maxEvidence).overlaps.order[k], other, q)
  {
    var recent, clusters := RecentCampaigns(db.campaigns, start, end), RecentClusters(db.clusters, start, end);
    var ids, byEntity := ClusterIds(clusters), EntityIndex(db.entities, recent);
    var members := MembersIn(db.members, ids);
    var o := ContextOf(db, window, start, end, maxEvidence).overlaps;
    OverlapsExact(members, byEntity);
    assert o.order == ClusterOrder(members, byEntity);
    RecentClustersExact(db.clusters, start, end);
    hide ContextOf, EntityIndex, OverlapsOf, RecentClusters, ClusterOrder, RecentCampaigns;
    assert other in ids;
    var p := ClusterOrderAt(members, byEntity, k);
    q := MembersInAt(db.members, ids, p);
    KeyIsTied(db, start, end, db.members[q]);
    ClusterOrderHas(members[..p], byEntity, other);
    MembersInExact(db.members[..q], ids);
    forall j | 0 <= j < q && db.members[j].clusterId == other ensures !TiesSome(db, start, end, db.members[j]) {
      KeyIsTied(db, start, end, db.members[j]);
      assert db.members[j] in db.members[..q];
    }
  }

  /** Of several clusters that both campaigns reuse, a pair's draft speaks of the one whose first
      tying member row comes first. */
  lemma EarliestClusterWins(db: Database, now: int, window: string, minutes: int, cap: int, maxEvidence: int,
                            d: Draft, other: string) returns (q: nat)
    requires BuildSpec(db, now, window, minutes, cap, maxEvidence).Drafts?
    requires d in BuildSpec(db, now, window, minutes, cap, maxEvidence).drafts && other != d.clusterId
    requires InCluster(db, d.windowStart, d.windowEnd, other, d.subject) && InCluster(db, d.windowStart, d.windowEnd, other, d.target)
    ensures TiedFirst(db, d.windowStart, d.windowEnd, d.clusterId, other, q)
  {
    hide *;
    var t, start, end := BuiltFields(db, now, window, minutes, cap, maxEvidence, d);
    RecentOther(db, start, end, other, d.subject);
    var k := NotBeforeFirst(db, window, start, end, maxEvidence, t, other);
    q := OrderIsRowOrder(db, window, start, end, maxEvidence, k, other);
  }

  lemma NotBeforeFirst(db: Database, window: string, start: int, end: int, maxEvidence: int, t: Triple, other: string)
    returns (k: nat)
    requires t in PairTriples(ContextOf(db, window, start, end, maxEvidence)) && other != t.cluster
    requires InCluster(db, start, end, other, t.subject) && InCluster(db, start, end, other, t.target)
    ensures var o := ContextOf(db, window, start, end, maxEvidence).overlaps;
            k < |o.order| && o.order[k] == t.cluster && other !in o.order[..k]
  {
    hide InCluster, FirstOnly, AllTriples, ContextOf;
    var o := ContextOf(db, window, start, end, maxEvidence).overlaps;
    k := FirstInOrder(o, o.order, t);
    CampaignsAreRows(db, window, start, end, maxEvidence, other, t.subject);
    CampaignsAreRows(db, window, start, end, maxEvidence, other, t.target);
    assert InBoth(o, other, t.subject, t.target);
    hide InBoth;
    if other in o.order[..k] {
      var j :| 0 <= j < k && o.order[j] == other;
    }
  }

  lemma RecentOther(db: Database, start: int, end: int, c: string, id: string)
    requires InCluster(db, start, end, c, id)
    ensures exists r :: r in db.clusters && RecentRow(r, c, start, end)
  {
    var r :| r in db.clusters && r.clusterId == c && start <= r.lastSeen <= end;
    assert RecentRow(r, c, start, end);
  }

  // ----- Capping keeps the first of each -----

  /** The i-th kept value stands for the first of its equals, and everything before that place
      yields exactly the values kept before it. */
  lemma {:induction false} DedupedAt(xs: seq<string>, i: nat) returns (p: nat)
    requires i < |Deduped(xs)|
    ensures p < |xs| && xs[p] == Deduped(xs)[i] && xs[p] !in xs[..p] && Deduped(xs[..p]) == Deduped(xs)[..i]
  {
    var n := |xs| - 1;
    if i < |Deduped(xs[..n])| {
      p := DedupedAt(xs[..n], i);
      assert xs[..n][..p] == xs[..p];
    } else {
      p := n;
      DedupedExact(xs[..n]);
    }
  }
}
