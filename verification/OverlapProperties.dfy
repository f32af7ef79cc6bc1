/** What the overlap builder's drafts mean in terms of the database rows. */
module OverlapProperties {
  import opened Arithmetic
  import opened Options
  import opened Ordering
  import opened OverlapClaims

  /** Rows tie campaign id to cluster c: a member entity of c belongs to the campaign, and
      both were seen in the window. */
  ghost predicate InCluster(db: Database, start: int, end: int, c: string, id: string) {
    && (exists r :: r in db.clusters && r.clusterId == c && start <= r.lastSeen <= end)
    && (exists r :: r in db.campaigns && r.id == id && start <= r.lastSeen <= end)
    && (exists m, e :: m in db.members && e in db.entities && m.clusterId == c
                       && m.entityKey == e.entityKey && e.campaignId == id)
  }

  /** The two campaigns reuse a common infrastructure cluster. */
  ghost predicate Overlap(db: Database, start: int, end: int, a: string, b: string) {
    exists c :: InCluster(db, start, end, c, a) && InCluster(db, start, end, c, b)
  }

  // ----- From maps back to rows -----

  lemma {:induction false} RecentClustersExact(clusters: seq<ClusterRow>, start: int, end: int)
    ensures forall r :: r in RecentClusters(clusters, start, end) <==> r in clusters && start <= r.lastSeen <= end
  {
    if clusters != [] {
      RecentClustersExact(clusters[..|clusters| - 1], start, end);
      assert clusters == clusters[..|clusters| - 1] + [clusters[|clusters| - 1]];
    }
  }

  lemma {:induction false} MembersInExact(members: seq<MemberRow>, ids: set<string>)
    ensures forall m :: m in MembersIn(members, ids) <==> m in members && m.clusterId in ids
  {
    if members != [] {
      MembersInExact(members[..|members| - 1], ids);
      assert members == members[..|members| - 1] + [members[|members| - 1]];
    }
  }

  /** The campaign set of a cluster, as the loops compute it, is the relation on rows. */
  lemma CampaignsAreRows(db: Database, window: string, start: int, end: int, maxEvidence: int, c: string, id: string)
    ensures var o := ContextOf(db, window, start, end, maxEvidence).overlaps;
            (c in o.campaigns && id in o.campaigns[c]) <==> InCluster(db, start, end, c, id)
  {
    var recent, clusters := RecentCampaigns(db.campaigns, start, end), RecentClusters(db.clusters, start, end);
    var members, byEntity := MembersIn(db.members, ClusterIds(clusters)), EntityIndex(db.entities, recent);
    RecentClustersExact(db.clusters, start, end);
    MembersInExact(db.members, ClusterIds(clusters));
    EntityIndexExact(db.entities, recent);
    OverlapsExact(members, byEntity);
    assert CampaignsIn(members, byEntity, c) ==
           if c in OverlapsOf(members, byEntity).campaigns then OverlapsOf(members, byEntity).campaigns[c] else {};
    if id in CampaignsIn(members, byEntity, c) {
      var m :| m in members && m.clusterId == c && m.entityKey in byEntity && id in byEntity[m.entityKey];
      assert id in CampaignsOf(db.entities, recent, m.entityKey);
      var e :| e in db.entities && e.entityKey == m.entityKey && e.campaignId == id && id in recent;
      assert InCluster(db, start, end, c, id);
    }
    if InCluster(db, start, end, c, id) {
      var m, e :| m in db.members && e in db.entities && m.clusterId == c
                  && m.entityKey == e.entityKey && e.campaignId == id;
      assert id in CampaignsOf(db.entities, recent, m.entityKey);
      assert m in members && m.entityKey in byEntity;
    }
  }

  // ----- Which pairs the loops visit -----

  lemma {:induction false} RowPairs(c: string, ids: seq<string>, i: nat, j: nat, a: string, b: string)
    requires i < j <= |ids|
    ensures HasPair(RowTriples(c, ids, i, j), a, b) <==> a == ids[i] && b in ids[i + 1..j]
  {
    if j > i + 1 {
      RowPairs(c, ids, i, j - 1, a, b);
      HasPairAppend(RowTriples(c, ids, i, j - 1), [Triple(c, ids[i], ids[j - 1])], a, b);
      assert ids[i + 1..j] == ids[i + 1..j - 1] + [ids[j - 1]];
      assert [Triple(c, ids[i], ids[j - 1])][0].subject == ids[i];
    }
  }

  lemma HasPairAppend(ts: seq<Triple>, us: seq<Triple>, a: string, b: string)
    ensures HasPair(ts + us, a, b) <==> HasPair(ts, a, b) || HasPair(us, a, b)
  {
    var vs := ts + us;
    if HasPair(ts, a, b) {
      var i :| 0 <= i < |ts| && ts[i].subject == a && ts[i].target == b;
      assert vs[i].subject == a;
    }
    if HasPair(us, a, b) {
      var i :| 0 <= i < |us| && us[i].subject == a && us[i].target == b;
      assert vs[|ts| + i].subject == a;
    }
  }

  /** a is element i and b comes later. */
  ghost predicate PairAt(ids: seq<string>, i: nat, a: string, b: string) {
    i < |ids| && a == ids[i] && b in ids[i + 1..]
  }

  lemma RowIsPairAt(c: string, ids: seq<string>, i: nat, a: string, b: string)
    requires i < |ids|
    ensures HasPair(RowTriples(c, ids, i, |ids|), a, b) <==> PairAt(ids, i, a, b)
  {
    hide HasPair;
    RowPairs(c, ids, i, |ids|, a, b);
    assert ids[i + 1..|ids|] == ids[i + 1..];
  }

  lemma {:induction false} ClusterPairs(c: string, ids: seq<string>, rows: nat, a: string, b: string)
    requires rows <= |ids|
    ensures HasPair(ClusterTriples(c, ids, rows), a, b) <==>
              exists i: nat :: i < rows && PairAt(ids, i, a, b)
  {
    if rows > 0 {
      hide RowTriples, HasPair, PairAt;
      ClusterPairs(c, ids, rows - 1, a, b);
      RowIsPairAt(c, ids, rows - 1, a, b);
      HasPairAppend(ClusterTriples(c, ids, rows - 1), RowTriples(c, ids, rows - 1, |ids|), a, b);
    }
  }

  lemma NotBefore(ids: seq<string>, i: nat, j: nat)
    requires StrictlySorted(ids) && i < |ids| && j < |ids| && LexLess(ids[j], ids[i])
    ensures j < i
  {
    hide LexLeq;
    if i < j { LexAntisymmetric(ids[i], ids[j]); }
  }

  lemma PairIsSorted(ids: seq<string>, i: nat, a: string, b: string)
    requires StrictlySorted(ids) && PairAt(ids, i, a, b)
    ensures a in ids && b in ids && LexLess(a, b)
  {
    hide LexLess;
    var later := ids[i + 1..];
    var j :| 0 <= j < |later| && later[j] == b;
    assert ids[i + 1 + j] == b;
  }

  lemma SortedIsPair(ids: seq<string>, a: string, b: string) returns (i: nat)
    requires StrictlySorted(ids) && a in ids && b in ids && LexLess(a, b)
    ensures PairAt(ids, i, a, b)
  {
    i :| 0 <= i < |ids| && ids[i] == a;
    var j :| 0 <= j < |ids| && ids[j] == b;
    NotBefore(ids, j, i);
    hide StrictlySorted, LexLess;
    var later := ids[i + 1..];
    assert later[j - i - 1] == b;
  }

  lemma SortedPairs(ids: seq<string>, a: string, b: string)
    requires StrictlySorted(ids)
    ensures (exists i: nat :: i < |ids| && PairAt(ids, i, a, b)) <==> a in ids && b in ids && LexLess(a, b)
  {
    hide StrictlySorted, LexLess;
    if i: nat :| i < |ids| && PairAt(ids, i, a, b) {
      PairIsSorted(ids, i, a, b);
    }
    if a in ids && b in ids && LexLess(a, b) {
      var i := SortedIsPair(ids, a, b);
    }
  }

  ghost predicate InBoth(o: Overlaps, c: string, a: string, b: string) {
    c in o.campaigns && a in o.campaigns[c] && b in o.campaigns[c]
  }

  lemma {:induction false} AllPairs(o: Overlaps, order: seq<string>, a: string, b: string)
    ensures HasPair(AllTriples(o, order), a, b) <==> LexLess(a, b) && exists c :: c in order && InBoth(o, c, a, b)
  {
    if order != [] {
      var init, c := order[..|order| - 1], order[|order| - 1];
      var ids := CampaignList(o, c);
      AllPairs(o, init, a, b);
      ListIsSorted(o, c);
      ClusterPairs(c, ids, |ids|, a, b);
      SortedPairs(ids, a, b);
      HasPairAppend(AllTriples(o, init), ClusterTriples(c, ids, |ids|), a, b);
      hide HasPair, ClusterTriples;
      assert order == init + [c];
      assert a in ids && b in ids <==> InBoth(o, c, a, b);
    }
  }

  ghost predicate DistinctPairs(ts: seq<Triple>) {
    forall i, j :: 0 <= i < j < |ts| ==> (ts[i].subject, ts[i].target) != (ts[j].subject, ts[j].target)
  }

  lemma {:induction false} FirstOnlyExact(ts: seq<Triple>)
    ensures DistinctPairs(FirstOnly(ts))
    ensures forall a, b :: HasPair(FirstOnly(ts), a, b) <==> HasPair(ts, a, b)
  {
    if ts != [] {
      var init, t := ts[..|ts| - 1], ts[|ts| - 1];
      FirstOnlyExact(init);
      assert ts == init + [t];
      forall a, b ensures HasPair(FirstOnly(ts), a, b) <==> HasPair(ts, a, b) {
        HasPairAppend(init, [t], a, b);
        HasPairAppend(FirstOnly(init), [t], a, b);
        assert HasPair([t], a, b) <==> a == t.subject && b == t.target by { assert [t][0] == t; }
      }
    }
  }

  /** The builder's context for a valid request. */
  ghost function Ctx(db: Database, now: int, window: string, minutes: int, maxEvidence: int): Context
    requires minutes != 0 && WindowLength(window).Some?
  {
    var end := BucketEnd(now, minutes);
    ContextOf(db, window, end - WindowLength(window).value, end, maxEvidence)
  }

  lemma PairTriplesExact(db: Database, window: string, start: int, end: int, maxEvidence: int, a: string, b: string)
    ensures var ts := PairTriples(ContextOf(db, window, start, end, maxEvidence));
            && DistinctPairs(ts)
            && (HasPair(ts, a, b) <==> LexLess(a, b) && Overlap(db, start, end, a, b))
  {
    var o := ContextOf(db, window, start, end, maxEvidence).overlaps;
    FirstOnlyExact(AllTriples(o, o.order));
    AllPairs(o, o.order, a, b);
    forall c ensures c in o.order && InBoth(o, c, a, b) <==>
                       InCluster(db, start, end, c, a) && InCluster(db, start, end, c, b)
    {
      CampaignsAreRows(db, window, start, end, maxEvidence, c, a);
      CampaignsAreRows(db, window, start, end, maxEvidence, c, b);
      OverlapsExact(MembersIn(db.members, ClusterIds(RecentClusters(db.clusters, start, end))),
                    EntityIndex(db.entities, RecentCampaigns(db.campaigns, start, end)));
    }
    hide HasPair, InCluster, AllTriples;
  }

  // ----- The drafts -----

  ghost predicate HasDraft(ds: seq<Draft>, a: string, b: string) {
    exists i :: 0 <= i < |ds| && ds[i].subject == a && ds[i].target == b
  }

  ghost predicate DistinctDrafts(ds: seq<Draft>) {
    forall i, j :: 0 <= i < j < |ds| ==> (ds[i].subject, ds[i].target) != (ds[j].subject, ds[j].target)
  }

  lemma DraftOrderTotal()
    ensures TotalPreorder(DraftLeq)
  {
    forall d, e ensures DraftLeq(d, e) || DraftLeq(e, d) {
      LexTotal(d.subject, e.subject);
      LexTotal(d.target, e.target);
    }
    forall d, e, f | DraftLeq(d, e) && DraftLeq(e, f) ensures DraftLeq(d, f) {
      if d.confidence == e.confidence == f.confidence {
        if LexLess(d.subject, e.subject) && LexLess(e.subject, f.subject) {
          LexTransitive(d.subject, e.subject, f.subject);
          if d.subject == f.subject { LexAntisymmetric(d.subject, e.subject); }
        }
        if d.subject == e.subject == f.subject {
          LexTransitive(d.target, e.target, f.target);
        }
      }
    }
  }

  lemma SortKeepsDrafts(ds: seq<Draft>)
    requires DistinctDrafts(ds)
    ensures SortedBy(DraftLeq, Sort(DraftLeq, ds)) && |Sort(DraftLeq, ds)| == |ds|
    ensures DistinctDrafts(Sort(DraftLeq, ds))
    ensures forall d :: d in Sort(DraftLeq, ds) <==> d in ds
  {
    DraftOrderTotal();
    SortCorrect(DraftLeq, ds);
    SameElements(Sort(DraftLeq, ds), ds);
    var apart := (d: Draft, e: Draft) => (d.subject, d.target) != (e.subject, e.target);
    SortRelates(DraftLeq, apart, apart, ds);
    var r := Sort(DraftLeq, ds);
    forall i, j | 0 <= i < j < |r| ensures (r[i].subject, r[i].target) != (r[j].subject, r[j].target) {
      assert apart(r[i], r[j]);
    }
  }

  ghost predicate SoundDraft(db: Database, window: string, start: int, end: int, d: Draft) {
    && LexLess(d.subject, d.target) && 0.05 <= d.confidence <= 0.95
    && d.window == window && d.windowStart == start && d.windowEnd == end
    && Overlap(db, start, end, d.subject, d.target)
  }

  lemma AllDraftsSound(db: Database, window: string, start: int, end: int, maxEvidence: int)
    ensures var ctx := ContextOf(db, window, start, end, maxEvidence);
            var all := DraftsOf(ctx, PairTriples(ctx));
            DistinctDrafts(all) && forall d :: d in all ==> SoundDraft(db, window, start, end, d)
  {
    hide PairTriples, Overlap;
    var ctx := ContextOf(db, window, start, end, maxEvidence);
    var ts := PairTriples(ctx);
    var all := DraftsOf(ctx, ts);
    PairTriplesExact(db, window, start, end, maxEvidence, "", "");
    forall i, j | 0 <= i < j < |all| ensures (all[i].subject, all[i].target) != (all[j].subject, all[j].target) {
      assert all[i] == DraftOf(ctx, ts[i]) && all[j] == DraftOf(ctx, ts[j]);
    }
    forall d | d in all ensures SoundDraft(db, window, start, end, d) {
      var i :| 0 <= i < |all| && all[i] == d;
      assert HasPair(ts, ts[i].subject, ts[i].target);
      PairTriplesExact(db, window, start, end, maxEvidence, d.subject, d.target);
    }
  }

  /** What sorting or cutting short keeps. */
  lemma FinishedKeeps(all: seq<Draft>, cap: int)
    requires DistinctDrafts(all)
    ensures var ds := Finished(all, cap);
            && |ds| <= AtLeastOne(cap) && DistinctDrafts(ds)
            && (forall d :: d in ds ==> d in all)
            && (|ds| < cap ==> SortedBy(DraftLeq, ds) && forall d :: d in all ==> d in ds)
  {
    SortKeepsDrafts(all);
  }

  /** Every draft the builder returns, whether or not the cap was reached. */
  lemma DraftsAreSound(db: Database, now: int, window: string, minutes: int, cap: int, maxEvidence: int)
    requires BuildSpec(db, now, window, minutes, cap, maxEvidence).Drafts?
    ensures var ds := BuildSpec(db, now, window, minutes, cap, maxEvidence).drafts;
            var end := BucketEnd(now, minutes);
            && |ds| <= AtLeastOne(cap)
            && DistinctDrafts(ds)
            && forall d :: d in ds ==> SoundDraft(db, window, end - WindowLength(window).value, end, d)
  {
    hide PairTriples, DraftsOf, Finished, SoundDraft, ContextOf;
    var ctx := Ctx(db, now, window, minutes, maxEvidence);
    var end := BucketEnd(now, minutes);
    AllDraftsSound(db, window, end - WindowLength(window).value, end, maxEvidence);
    FinishedKeeps(DraftsOf(ctx, PairTriples(ctx)), cap);
  }

  /** When the cap is not reached: every overlapping pair of campaigns has exactly one draft
      and no other pair has one, sorted by descending confidence. */
  lemma DraftsAreComplete(db: Database, now: int, window: string, minutes: int, cap: int, maxEvidence: int,
                          a: string, b: string)
    requires BuildSpec(db, now, window, minutes, cap, maxEvidence).Drafts?
    requires |BuildSpec(db, now, window, minutes, cap, maxEvidence).drafts| < cap
    ensures var ds := BuildSpec(db, now, window, minutes, cap, maxEvidence).drafts;
            var end := BucketEnd(now, minutes);
            && SortedBy(DraftLeq, ds) && DistinctDrafts(ds)
            && (HasDraft(ds, a, b) <==>
                  LexLess(a, b) && Overlap(db, end - WindowLength(window).value, end, a, b))
  {
    hide PairTriples, DraftsOf, Finished, SoundDraft, Overlap, ContextOf, DraftLeq;
    var ctx := Ctx(db, now, window, minutes, maxEvidence);
    var end := BucketEnd(now, minutes);
    var start := end - WindowLength(window).value;
    var ts, ds := PairTriples(ctx), BuildSpec(db, now, window, minutes, cap, maxEvidence).drafts;
    DraftsAreSound(db, now, window, minutes, cap, maxEvidence);
    PairTriplesExact(db, window, start, end, maxEvidence, a, b);
    if ctx.recent == {} || ctx.clusters == [] {
      NoOverlap(db, window, start, end, maxEvidence, a, b);
    } else {
      AllDraftsSound(db, window, start, end, maxEvidence);
      FinishedKeeps(DraftsOf(ctx, ts), cap);
      SamePairs(ctx, ts, ds, a, b);
    }
  }

  lemma SamePairs(ctx: Context, ts: seq<Triple>, ds: seq<Draft>, a: string, b: string)
    requires forall d :: d in ds <==> d in DraftsOf(ctx, ts)
    ensures HasDraft(ds, a, b) <==> HasPair(ts, a, b)
  {
    var all := DraftsOf(ctx, ts);
    if HasDraft(ds, a, b) {
      var i :| 0 <= i < |ds| && ds[i].subject == a && ds[i].target == b;
      assert ds[i] in ds;
      var j :| 0 <= j < |all| && all[j] == ds[i];
      assert ts[j].subject == a;
    }
    if HasPair(ts, a, b) {
      var i :| 0 <= i < |ts| && ts[i].subject == a && ts[i].target == b;
      assert all[i] in all;
      var j :| 0 <= j < |ds| && ds[j] == all[i];
    }
  }

  lemma NoOverlap(db: Database, window: string, start: int, end: int, maxEvidence: int, a: string, b: string)
    requires var ctx := ContextOf(db, window, start, end, maxEvidence); ctx.recent == {} || ctx.clusters == []
    ensures !Overlap(db, start, end, a, b)
  {
    RecentClustersExact(db.clusters, start, end);
    forall c ensures !InCluster(db, start, end, c, a) {
      if r :| r in db.campaigns && r.id == a && start <= r.lastSeen <= end {
        assert a in RecentCampaigns(db.campaigns, start, end);
      }
    }
  }

  // ----- What a draft says -----

  /** A pair's draft comes from the first cluster, in dictionary order, that holds both. */
  lemma {:induction false} FirstClusterWins(ts: seq<Triple>, t: Triple)
    ensures t in FirstOnly(ts) <==>
              exists i :: 0 <= i < |ts| && ts[i] == t && !HasPair(ts[..i], t.subject, t.target)
  {
    if ts != [] {
      var init, last := ts[..|ts| - 1], ts[|ts| - 1];
      FirstClusterWins(init, t);
      FirstOnlyExact(init);
      forall i | 0 <= i < |init| ensures init[i] == ts[i] && init[..i] == ts[..i] {
      }
      if i :| 0 <= i < |ts| && ts[i] == t && !HasPair(ts[..i], t.subject, t.target) {
        if i < |init| { assert init[i] == t && !HasPair(init[..i], t.subject, t.target); }
        else { assert ts[..i] == init; }
      }
      if t in FirstOnly(ts) && t !in FirstOnly(init) {
        assert ts[|init|] == t && ts[..|init|] == init;
      }
    }
  }

  lemma {:induction false} RowCluster(c: string, ids: seq<string>, i: nat, j: nat)
    requires i < j <= |ids|
    ensures forall t :: t in RowTriples(c, ids, i, j) ==> t.cluster == c
  {
    if j > i + 1 { RowCluster(c, ids, i, j - 1); }
  }

  lemma {:induction false} TriplesCluster(c: string, ids: seq<string>, rows: nat)
    requires rows <= |ids|
    ensures forall t :: t in ClusterTriples(c, ids, rows) ==> t.cluster == c
  {
    hide RowTriples;
    if rows > 0 {
      TriplesCluster(c, ids, rows - 1);
      RowCluster(c, ids, rows - 1, |ids|);
    }
  }

  /** A visited triple names a cluster that holds both of its campaigns. */
  lemma {:induction false} TripleInCluster(o: Overlaps, order: seq<string>, t: Triple)
    requires t in AllTriples(o, order)
    ensures InBoth(o, t.cluster, t.subject, t.target)
  {
    var init, c := order[..|order| - 1], order[|order| - 1];
    var ids := CampaignList(o, c);
    var own := ClusterTriples(c, ids, |ids|);
    if t in AllTriples(o, init) {
      TripleInCluster(o, init, t);
    } else {
      assert t in own;
      TriplesCluster(c, ids, |ids|);
      assert HasPair(own, t.subject, t.target);
      ClusterPairs(c, ids, |ids|, t.subject, t.target);
      ListIsSorted(o, c);
      SortedPairs(ids, t.subject, t.target);
    }
  }

  /** Member entity `key` of cluster c ties it to campaign id. */
  ghost predicate Ties(db: Database, start: int, end: int, c: string, id: string, key: string) {
    && (exists r :: r in db.clusters && r.clusterId == c && start <= r.lastSeen <= end)
    && (exists r :: r in db.campaigns && r.id == id && start <= r.lastSeen <= end)
    && MemberRow(c, key) in db.members && EntityRow(id, key) in db.entities
  }

  lemma SharedAreRows(db: Database, window: string, start: int, end: int, maxEvidence: int, c: string, id: string, key: string)
    ensures key in SharedOf(ContextOf(db, window, start, end, maxEvidence).overlaps, c, id) <==>
              Ties(db, start, end, c, id, key)
  {
    var recent, clusters := RecentCampaigns(db.campaigns, start, end), RecentClusters(db.clusters, start, end);
    var members, byEntity := MembersIn(db.members, ClusterIds(clusters)), EntityIndex(db.entities, recent);
    RecentClustersExact(db.clusters, start, end);
    MembersInExact(db.members, ClusterIds(clusters));
    EntityIndexExact(db.entities, recent);
    OverlapsExact(members, byEntity);
    assert SharedEntities(members, byEntity, c, id) == SharedOf(OverlapsOf(members, byEntity), c, id);
    if key in SharedEntities(members, byEntity, c, id) {
      assert id in CampaignsOf(db.entities, recent, key);
    }
    if Ties(db, start, end, c, id, key) {
      assert MemberRow(c, key) in members;
      assert EntityRow(id, key) in db.entities && id in recent;
      assert id in CampaignsOf(db.entities, recent, key);
    }
  }

  /** The entities that tie either campaign to the cluster. */
  ghost function TyingEntities(db: Database, start: int, end: int, c: string, a: string, b: string): set<string> {
    set m | m in db.members && (Ties(db, start, end, c, a, m.entityKey) || Ties(db, start, end, c, b, m.entityKey))
      :: m.entityKey
  }

  /** The campaigns that reuse the cluster. */
  ghost function ReusingCampaigns(db: Database, start: int, end: int, c: string): set<string> {
    set r | r in db.campaigns && InCluster(db, start, end, c, r.id) :: r.id
  }

  /** The content of draft d, in terms of the rows. */
  ghost predicate DraftSays(db: Database, start: int, end: int, d: Draft) {
    var c, ties := d.clusterId, TyingEntities(db, start, end, d.clusterId, d.subject, d.target);
    && InCluster(db, start, end, c, d.subject) && InCluster(db, start, end, c, d.target)
    && d.popularity == |ReusingCampaigns(db, start, end, c)|
    && d.clusterConfidence == BaseConfidence(ClusterById(RecentClusters(db.clusters, start, end), c))
    && d.confidence == Confidence(d.clusterConfidence, |ties|, d.popularity)
    && d.sharedSample <= SortedSet(ties) && |d.sharedSample| == (if |ties| < 25 then |ties| else 25)
  }

  lemma ReusingSet(db: Database, window: string, start: int, end: int, maxEvidence: int, c: string)
    ensures var o := ContextOf(db, window, start, end, maxEvidence).overlaps;
            c in o.campaigns ==> o.campaigns[c] == ReusingCampaigns(db, start, end, c)
  {
    hide InCluster;
    var o := ContextOf(db, window, start, end, maxEvidence).overlaps;
    forall id ensures c in o.campaigns && id in o.campaigns[c] <==> InCluster(db, start, end, c, id) {
      CampaignsAreRows(db, window, start, end, maxEvidence, c, id);
    }
    hide ContextOf;
    forall id | InCluster(db, start, end, c, id) ensures id in ReusingCampaigns(db, start, end, c) {
      ClusterCampaign(db, start, end, c, id);
    }
  }

  lemma ClusterCampaign(db: Database, start: int, end: int, c: string, id: string)
    requires InCluster(db, start, end, c, id)
    ensures exists r :: r in db.campaigns && r.id == id
  {
  }

  lemma TyingSet(db: Database, window: string, start: int, end: int, maxEvidence: int, c: string, a: string, b: string)
    ensures var o := ContextOf(db, window, start, end, maxEvidence).overlaps;
            SharedOf(o, c, a) + SharedOf(o, c, b) == TyingEntities(db, start, end, c, a, b)
  {
    hide Ties, ContextOf, SharedOf;
    var o := ContextOf(db, window, start, end, maxEvidence).overlaps;
    forall key ensures key in SharedOf(o, c, a) + SharedOf(o, c, b) <==>
                         Ties(db, start, end, c, a, key) || Ties(db, start, end, c, b, key)
    {
      SharedAreRows(db, window, start, end, maxEvidence, c, a, key);
      SharedAreRows(db, window, start, end, maxEvidence, c, b, key);
    }
    TyingMembers(db, start, end, c, a, b);
    hide TyingEntities;
  }

  lemma DraftFields(ctx: Context, t: Triple, ties: set<string>)
    requires SharedOf(ctx.overlaps, t.cluster, t.subject) + SharedOf(ctx.overlaps, t.cluster, t.target) == ties
    ensures var d := DraftOf(ctx, t);
            && d.clusterId == t.cluster && d.subject == t.subject && d.target == t.target
            && d.popularity == Popularity(ctx.overlaps, t.cluster)
            && d.clusterConfidence == BaseConfidence(ClusterById(ctx.clusters, t.cluster))
            && d.confidence == Confidence(d.clusterConfidence, |ties|, d.popularity)
            && d.sharedSample <= SortedSet(ties) && |d.sharedSample| == (if |ties| < 25 then |ties| else 25)
  {
    hide DraftReasons, DraftHashes, Capped, Deduped, Confidence, BaseConfidence, ClusterById, Popularity, SharedOf;
  }

  /** The overlaps of a context hold a visited triple's campaigns. */
  lemma TripleCampaigns(db: Database, window: string, start: int, end: int, maxEvidence: int, t: Triple)
    requires t in PairTriples(ContextOf(db, window, start, end, maxEvidence))
    ensures InBoth(ContextOf(db, window, start, end, maxEvidence).overlaps, t.cluster, t.subject, t.target)
  {
    var o := ContextOf(db, window, start, end, maxEvidence).overlaps;
    FirstClusterWins(AllTriples(o, o.order), t);
    hide ContextOf;
    TripleInCluster(o, o.order, t);
  }

  lemma TriplePopularity(db: Database, window: string, start: int, end: int, maxEvidence: int, t: Triple)
    requires InBoth(ContextOf(db, window, start, end, maxEvidence).overlaps, t.cluster, t.subject, t.target)
    ensures Popularity(ContextOf(db, window, start, end, maxEvidence).overlaps, t.cluster)
              == |ReusingCampaigns(db, start, end, t.cluster)|
    ensures InCluster(db, start, end, t.cluster, t.subject) && InCluster(db, start, end, t.cluster, t.target)
  {
    hide ContextOf, ReusingCampaigns, InCluster;
    var o := ContextOf(db, window, start, end, maxEvidence).overlaps;
    CampaignsAreRows(db, window, start, end, maxEvidence, t.cluster, t.subject);
    CampaignsAreRows(db, window, start, end, maxEvidence, t.cluster, t.target);
    ReusingSet(db, window, start, end, maxEvidence, t.cluster);
    SeveralCampaigns(o.campaigns[t.cluster], t.subject);
  }

  lemma ContextClusters(db: Database, window: string, start: int, end: int, maxEvidence: int)
    ensures ContextOf(db, window, start, end, maxEvidence).clusters == RecentClusters(db.clusters, start, end)
  {
  }

  lemma TripleMeaning(db: Database, window: string, start: int, end: int, maxEvidence: int, t: Triple)
    requires t in PairTriples(ContextOf(db, window, start, end, maxEvidence))
    ensures DraftSays(db, start, end, DraftOf(ContextOf(db, window, start, end, maxEvidence), t))
  {
    hide ContextOf, PairTriples, DraftOf, Confidence, BaseConfidence, RecentClusters, ClusterById, SharedOf, InBoth,
         TyingEntities, ReusingCampaigns, InCluster, SortedSet, Popularity;
    var ctx := ContextOf(db, window, start, end, maxEvidence);
    TripleCampaigns(db, window, start, end, maxEvidence, t);
    TriplePopularity(db, window, start, end, maxEvidence, t);
    ContextClusters(db, window, start, end, maxEvidence);
    TyingSet(db, window, start, end, maxEvidence, t.cluster, t.subject, t.target);
    DraftFields(ctx, t, TyingEntities(db, start, end, t.cluster, t.subject, t.target));
  }

  /** Every draft the builder returns is the draft of a first triple of its context. */
  lemma BuiltFrom(db: Database, now: int, window: string, minutes: int, cap: int, maxEvidence: int, d: Draft)
    returns (t: Triple)
    requires BuildSpec(db, now, window, minutes, cap, maxEvidence).Drafts?
    requires d in BuildSpec(db, now, window, minutes, cap, maxEvidence).drafts
    ensures t in PairTriples(Ctx(db, now, window, minutes, maxEvidence))
    ensures d == DraftOf(Ctx(db, now, window, minutes, maxEvidence), t)
  {
    hide PairTriples, Finished, ContextOf, DraftOf, DistinctDrafts, SoundDraft;
    var ctx, end := Ctx(db, now, window, minutes, maxEvidence), BucketEnd(now, minutes);
    AllDraftsSound(db, window, end - WindowLength(window).value, end, maxEvidence);
    var all := DraftsOf(ctx, PairTriples(ctx));
    FinishedKeeps(all, cap);
    assert d in all;
    var i :| 0 <= i < |all| && all[i] == d;
    t := PairTriples(ctx)[i];
  }

  /** What every returned draft says: its cluster is reused by both campaigns, its popularity
      counts all campaigns reusing that cluster, its confidence weighs all entities tying the
      two, and its sample is the first 25 of them in order. */
  lemma DraftMeaning(db: Database, now: int, window: string, minutes: int, cap: int, maxEvidence: int, d: Draft)
    requires BuildSpec(db, now, window, minutes, cap, maxEvidence).Drafts?
    requires d in BuildSpec(db, now, window, minutes, cap, maxEvidence).drafts
    ensures var end := BucketEnd(now, minutes);
            DraftSays(db, end - WindowLength(window).value, end, d)
  {
    hide DraftSays, ContextOf, PairTriples, DraftOf, Finished, DraftsOf;
    var t := BuiltFrom(db, now, window, minutes, cap, maxEvidence, d);
    var end := BucketEnd(now, minutes);
    TripleMeaning(db, window, end - WindowLength(window).value, end, maxEvidence, t);
  }

  lemma TyingMembers(db: Database, start: int, end: int, c: string, a: string, b: string)
    ensures forall key :: key in TyingEntities(db, start, end, c, a, b) <==>
              Ties(db, start, end, c, a, key) || Ties(db, start, end, c, b, key)
  {
    forall key | Ties(db, start, end, c, a, key) || Ties(db, start, end, c, b, key)
      ensures key in TyingEntities(db, start, end, c, a, b)
    {
      assert MemberRow(c, key) in db.members && MemberRow(c, key).entityKey == key;
    }
  }

  lemma SeveralCampaigns(ids: set<string>, a: string)
    requires a in ids
    ensures |ids| >= 1
  {
    assert ids == {a} + (ids - {a});
  }

  /** More shared entities never lower the confidence of a cluster whose own confidence is not
      negative, and a cluster reused by more campaigns never raises it. */
  lemma ConfidenceMonotone(base: real, shared: nat, shared': nat, pop: nat, pop': nat)
    requires shared <= shared' && pop >= pop' && (base >= 0.0 || shared == shared')
    ensures Confidence(base, shared, pop) <= Confidence(base, shared', pop')
  {
    hide RawConfidence;
    RawConfidenceMonotone(base, shared, shared', pop, pop');
  }

  lemma RawConfidenceMonotone(base: real, shared: nat, shared': nat, pop: nat, pop': nat)
    requires shared <= shared' && pop >= pop' && (base >= 0.0 || shared == shared')
    ensures RawConfidence(base, shared, pop) <= RawConfidence(base, shared', pop')
  {
    hide OverlapWeight, ExclusivityPenalty;
    WeightMonotone(shared, shared');
    PenaltyMonotone(pop', pop);
    ScaleMonotone(base, OverlapWeight(shared), OverlapWeight(shared'));
  }

  lemma WeightMonotone(shared: nat, shared': nat)
    requires shared <= shared'
    ensures OverlapWeight(shared) <= OverlapWeight(shared')
  {
    assert shared as real / 10.0 <= shared' as real / 10.0;
  }

  lemma PenaltyMonotone(pop: nat, pop': nat)
    requires pop <= pop'
    ensures ExclusivityPenalty(pop) <= ExclusivityPenalty(pop')
  {
  }

  /** What each further entity and campaign is worth, for every cluster confidence: an entity
      adds 0.045 of it up to the tenth, a campaign beyond the first costs 0.05 up to the eighth,
      and no more after that; ten entities and one campaign give the cluster's own confidence. */
  lemma ConfidenceSteps(base: real, shared: nat, pop: nat)
    requires pop >= 1
    ensures RawConfidence(base, shared + 1, pop) - RawConfidence(base, shared, pop)
              == if shared < 10 then base * 0.045 else 0.0
    ensures RawConfidence(base, shared, pop) - RawConfidence(base, shared, pop + 1)
              == if pop < 8 then 0.05 else 0.0
    ensures RawConfidence(base, 10, 1) == base && RawConfidence(base, 0, 1) == base * 0.55
    ensures Confidence(base, shared, pop) == RawConfidence(base, shared, pop) <==>
              0.05 <= RawConfidence(base, shared, pop) <= 0.95
  {
    hide OverlapWeight, ExclusivityPenalty;
    WeightSteps(shared);
    PenaltySteps(pop);
    WeightSteps(0);
    Differ(base, OverlapWeight(shared + 1), OverlapWeight(shared));
    assert base * OverlapWeight(10) == base * 1.0;
    assert base * OverlapWeight(0) == base * 0.55;
  }

  lemma WeightSteps(shared: nat)
    ensures OverlapWeight(shared + 1) - OverlapWeight(shared) == if shared < 10 then 0.045 else 0.0
    ensures OverlapWeight(0) == 0.55 && OverlapWeight(10) == 1.0
  {
  }

  lemma PenaltySteps(pop: nat)
    requires pop >= 1
    ensures ExclusivityPenalty(pop + 1) - ExclusivityPenalty(pop) == if pop < 8 then 0.05 else 0.0
    ensures ExclusivityPenalty(1) == 0.0
  {
  }

  lemma Differ(base: real, x: real, y: real)
    ensures base * x - base * y == base * (x - y)
  {
  }

  lemma {:induction false} NonEmptyExact(xs: seq<string>)
    ensures forall x :: x in NonEmpty(xs) <==> x in xs && x != ""
  {
    if xs != [] {
      NonEmptyExact(xs[..|xs| - 1]);
      assert xs == xs[..|xs| - 1] + [xs[|xs| - 1]];
    }
  }

  lemma {:induction false} DedupedKeepsHead(xs: seq<string>)
    requires xs != []
    ensures Deduped(xs) != [] && Deduped(xs)[0] == xs[0] && |Deduped(xs)| <= |xs|
  {
    if |xs| > 1 {
      DedupedKeepsHead(xs[..|xs| - 1]);
    } else {
      assert xs[..0] == [];
      assert Deduped(xs) == [xs[0]];
    }
  }

  lemma DraftOfShape(ctx: Context, t: Triple)
    ensures var d := DraftOf(ctx, t);
            && 1 <= |d.reasonCodes| <= 4 && d.reasonCodes[0] == "INFRA_CLUSTER_REUSE"
            && |d.evidenceHashes| <= AtLeastOne(ctx.maxEvidence)
            && (forall h :: h in d.evidenceHashes ==> h != "" && h in DraftHashes(ctx, t.cluster, t.subject, t.target))
            && (forall i, j :: 0 <= i < j < |d.evidenceHashes| ==> d.evidenceHashes[i] != d.evidenceHashes[j])
  {
    DedupedKeepsHead(DraftReasons(ctx, t.cluster));
    var hashes := DraftHashes(ctx, t.cluster, t.subject, t.target);
    DedupedExact(hashes);
    NonEmptyExact(ClusterHashes(ctx.db.evidence, t.cluster)
                  + FirstFew(CampaignHashes(ctx.db.events, t.subject, ctx.start, ctx.end), 20)
                  + FirstFew(CampaignHashes(ctx.db.events, t.target, ctx.start, ctx.end), 20));
    var kept := Capped(Deduped(hashes), ctx.maxEvidence);
    forall h | h in kept ensures h in hashes {
      assert h in Deduped(hashes);
    }
  }

  /** Hash h is evidence of the cluster, or of an event of campaign a or b in the window. */
  ghost predicate Backs(db: Database, start: int, end: int, c: string, a: string, b: string, h: string) {
    || (exists e :: e in db.evidence && e.clusterId == c && h in e.eventHashes)
    || (exists e :: e in db.events && (e.campaignId == a || e.campaignId == b)
                    && start <= e.occurredAt <= end && e.eventHash == h)
  }

  lemma {:induction false} ClusterHashesExact(evidence: seq<EvidenceRow>, c: string, h: string)
    ensures h in ClusterHashes(evidence, c) <==> exists e :: e in evidence && e.clusterId == c && h in e.eventHashes
  {
    if evidence != [] {
      ClusterHashesExact(evidence[..|evidence| - 1], c, h);
      assert evidence == evidence[..|evidence| - 1] + [evidence[|evidence| - 1]];
    }
  }

  lemma {:induction false} CampaignHashesExact(events: seq<EventRow>, id: string, start: int, end: int, h: string)
    ensures h in CampaignHashes(events, id, start, end) <==>
              exists e :: e in events && e.campaignId == id && start <= e.occurredAt <= end && e.eventHash == h
  {
    if events != [] {
      CampaignHashesExact(events[..|events| - 1], id, start, end, h);
      assert events == events[..|events| - 1] + [events[|events| - 1]];
    }
  }

  lemma HashesBack(ctx: Context, c: string, a: string, b: string, h: string)
    requires h in DraftHashes(ctx, c, a, b)
    ensures Backs(ctx.db, ctx.start, ctx.end, c, a, b, h)
  {
    var own, left, right := ClusterHashes(ctx.db.evidence, c), CampaignHashes(ctx.db.events, a, ctx.start, ctx.end),
                            CampaignHashes(ctx.db.events, b, ctx.start, ctx.end);
    NonEmptyExact(own + FirstFew(left, 20) + FirstFew(right, 20));
    ClusterHashesExact(ctx.db.evidence, c, h);
    CampaignHashesExact(ctx.db.events, a, ctx.start, ctx.end, h);
    CampaignHashesExact(ctx.db.events, b, ctx.start, ctx.end, h);
    assert h in own || h in left || h in right;
  }

  /** Reasons lead with the overlap itself; evidence hashes are real, distinct and capped, and
      come from rows about the cluster or the two campaigns. */
  lemma DraftShape(db: Database, now: int, window: string, minutes: int, cap: int, maxEvidence: int, d: Draft)
    requires BuildSpec(db, now, window, minutes, cap, maxEvidence).Drafts?
    requires d in BuildSpec(db, now, window, minutes, cap, maxEvidence).drafts
    ensures 1 <= |d.reasonCodes| <= 4 && d.reasonCodes[0] == "INFRA_CLUSTER_REUSE"
    ensures |d.evidenceHashes| <= AtLeastOne(maxEvidence)
    ensures forall i, j :: 0 <= i < j < |d.evidenceHashes| ==> d.evidenceHashes[i] != d.evidenceHashes[j]
    ensures var end := BucketEnd(now, minutes);
            forall h :: h in d.evidenceHashes ==>
              h != "" && Backs(db, end - WindowLength(window).value, end, d.clusterId, d.subject, d.target, h)
  {
    var t := BuiltFrom(db, now, window, minutes, cap, maxEvidence, d);
    var ctx := Ctx(db, now, window, minutes, maxEvidence);
    DraftOfShape(ctx, t);
    hide BuildSpec, PairTriples, DraftHashes, Backs;
    forall h | h in d.evidenceHashes ensures Backs(ctx.db, ctx.start, ctx.end, t.cluster, t.subject, t.target, h) {
      HashesBack(ctx, t.cluster, t.subject, t.target, h);
    }
  }
}
