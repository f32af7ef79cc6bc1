/** Campaign overlap claims: invert campaign entities and infrastructure-cluster members
    into cluster -> campaigns, then draft one claim per campaign pair. Times are seconds. */
module OverlapClaims {
  import opened Arithmetic
  import opened Options
  import opened Ordering

  datatype CampaignRow = CampaignRow(id: string, lastSeen: int)
  datatype EntityRow = EntityRow(campaignId: string, entityKey: string)
  datatype ClusterRow = ClusterRow(clusterId: string, lastSeen: int, confidence: Option<real>, kind: string)
  datatype MemberRow = MemberRow(clusterId: string, entityKey: string)
  datatype EvidenceRow = EvidenceRow(clusterId: string, reasonCode: string, eventHashes: seq<string>)
  datatype EventRow = EventRow(campaignId: string, occurredAt: int, eventHash: string)

  datatype Database = Database(
    campaigns: seq<CampaignRow>, entities: seq<EntityRow>, clusters: seq<ClusterRow>,
    members: seq<MemberRow>, evidence: seq<EvidenceRow>, events: seq<EventRow>)

  datatype Draft = Draft(
    subject: string, target: string, window: string, windowStart: int, windowEnd: int,
    confidence: real, reasonCodes: seq<string>, evidenceHashes: seq<string>, clusterId: string,
    clusterKind: string, clusterConfidence: real, popularity: nat, sharedSample: seq<string>)

  // ----- Time buckets -----

  /** Python's floor division. */
  function FloorDiv(a: int, b: int): int
    requires b != 0
  {
    if b > 0 then a / b else (-a) / (-b)
  }

  function BucketEnd(now: int, minutes: int): int
    requires minutes != 0
  {
    FloorDiv(now, minutes * 60) * (minutes * 60)
  }

  /** The end of the bucket is the last multiple of the step that is not in the future. */
  lemma BucketEndFloors(now: int, minutes: int)
    requires minutes > 0
    ensures BucketEnd(now, minutes) <= now < BucketEnd(now, minutes) + minutes * 60
    ensures BucketEnd(BucketEnd(now, minutes), minutes) == BucketEnd(now, minutes)
  {
    var step := minutes * 60;
    var q := now / step;
    assert q * step <= now < q * step + step;
    DivModUnique(q * step, step, q, 0);
  }

  function WindowLength(window: string): Option<int> {
    if window == "Wshort" then Some(600)
    else if window == "Wmid" then Some(86400)
    else if window == "Wlong" then Some(2592000)
    else None
  }

  // ----- _cap_list -----

  function Deduped(xs: seq<string>): seq<string> {
    if xs == [] then []
    else
      var before, x := Deduped(xs[..|xs| - 1]), xs[|xs| - 1];
      if x in before then before else before + [x]
  }

  function Capped<T>(xs: seq<T>, n: int): seq<T> {
    if |xs| <= AtLeastOne(n) then xs else xs[..AtLeastOne(n)]
  }

  lemma {:induction false} DedupedPrefix(xs: seq<string>, k: nat)
    requires k <= |xs|
    ensures Deduped(xs[..k]) <= Deduped(xs)
  {
    if k < |xs| {
      var init := xs[..|xs| - 1];
      assert init[..k] == xs[..k];
      DedupedPrefix(init, k);
    } else {
      assert xs[..k] == xs;
    }
  }

  lemma {:induction false} DedupedExact(xs: seq<string>)
    ensures forall x :: x in Deduped(xs) <==> x in xs
    ensures forall i, j :: 0 <= i < j < |Deduped(xs)| ==> Deduped(xs)[i] != Deduped(xs)[j]
  {
    if xs != [] {
      DedupedExact(xs[..|xs| - 1]);
      assert xs == xs[..|xs| - 1] + [xs[|xs| - 1]];
    }
  }

  /** The first n distinct values, and at least one even for n below 1. */
  method CapList(xs: seq<string>, n: int) returns (out: seq<string>)
    ensures out == Capped(Deduped(xs), n)
  {
    out := [];
    var i := 0;
    while i < |xs|
      invariant i <= |xs|
      invariant out == Deduped(xs[..i])
      invariant i > 0 ==> |out| < AtLeastOne(n)
    {
      var x := xs[i];
      assert xs[..i + 1][..i] == xs[..i];
      if x !in out {
        out := out + [x];
        if |out| >= n {
          DedupedPrefix(xs, i + 1);
          return;
        }
      }
      i := i + 1;
    }
    assert xs[..i] == xs;
  }

  // ----- The relations -----

  /** `last_seen >= start AND last_seen <= end`. */
  function RecentCampaigns(campaigns: seq<CampaignRow>, start: int, end: int): set<string> {
    set c | c in campaigns && start <= c.lastSeen <= end :: c.id
  }

  function RecentClusters(clusters: seq<ClusterRow>, start: int, end: int): seq<ClusterRow> {
    if clusters == [] then []
    else
      var c := clusters[|clusters| - 1];
      RecentClusters(clusters[..|clusters| - 1], start, end) + if start <= c.lastSeen <= end then [c] else []
  }

  function ClusterIds(clusters: seq<ClusterRow>): set<string> {
    set c | c in clusters :: c.clusterId
  }

  /** `cluster_id IN (...)`. */
  function MembersIn(members: seq<MemberRow>, ids: set<string>): seq<MemberRow> {
    if members == [] then []
    else
      var m := members[|members| - 1];
      MembersIn(members[..|members| - 1], ids) + if m.clusterId in ids then [m] else []
  }

  /** Recent campaigns an entity belongs to. */
  ghost function CampaignsOf(entities: seq<EntityRow>, recent: set<string>, key: string): set<string> {
    set e | e in entities && e.entityKey == key && e.campaignId in recent :: e.campaignId
  }

  /** The map entity -> campaigns holds every entity with a recent campaign. */
  ghost predicate EntityMap(entities: seq<EntityRow>, recent: set<string>, m: map<string, set<string>>) {
    forall k :: if k in m then m[k] == CampaignsOf(entities, recent, k) && m[k] != {}
                else CampaignsOf(entities, recent, k) == {}
  }

  /** entity_to_campaigns, row by row. */
  function EntityIndex(entities: seq<EntityRow>, recent: set<string>): map<string, set<string>> {
    if entities == [] then map[]
    else WithEntity(EntityIndex(entities[..|entities| - 1], recent), recent, entities[|entities| - 1])
  }

  function WithEntity(m: map<string, set<string>>, recent: set<string>, e: EntityRow): map<string, set<string>> {
    if e.campaignId !in recent then m
    else m[e.entityKey := (if e.entityKey in m then m[e.entityKey] else {}) + {e.campaignId}]
  }

  method IndexEntities(entities: seq<EntityRow>, recent: set<string>) returns (m: map<string, set<string>>)
    ensures m == EntityIndex(entities, recent)
  {
    m := map[];
    var i := 0;
    while i < |entities|
      invariant i <= |entities|
      invariant m == EntityIndex(entities[..i], recent)
    {
      assert entities[..i + 1][..i] == entities[..i];
      m := WithEntity(m, recent, entities[i]);
      i := i + 1;
    }
    assert entities[..i] == entities;
  }

  lemma {:induction false} EntityIndexExact(entities: seq<EntityRow>, recent: set<string>)
    ensures EntityMap(entities, recent, EntityIndex(entities, recent))
  {
    if entities != [] {
      var init, e := entities[..|entities| - 1], entities[|entities| - 1];
      EntityIndexExact(init, recent);
      EntityStep(init, recent, EntityIndex(init, recent), e);
      assert entities == init + [e];
    }
  }

  lemma EntityStep(entities: seq<EntityRow>, recent: set<string>, m: map<string, set<string>>, e: EntityRow)
    requires EntityMap(entities, recent, m)
    ensures EntityMap(entities + [e], recent, WithEntity(m, recent, e))
  {
    forall k ensures CampaignsOf(entities + [e], recent, k) ==
                       CampaignsOf(entities, recent, k)
                       + if k == e.entityKey && e.campaignId in recent then {e.campaignId} else {}
    {
      assert forall x :: x in entities + [e] <==> x in entities || x == e;
    }
  }

  /** Campaigns that cluster c touches through the given member rows. */
  ghost function CampaignsIn(members: seq<MemberRow>, byEntity: map<string, set<string>>, c: string): set<string> {
    set m, id | m in members && m.clusterId == c && m.entityKey in byEntity && id in byEntity[m.entityKey] :: id
  }

  /** The member entities that tie campaign id to cluster c. */
  ghost function SharedEntities(members: seq<MemberRow>, byEntity: map<string, set<string>>, c: string, id: string): set<string> {
    set m | m in members && m.clusterId == c && m.entityKey in byEntity && id in byEntity[m.entityKey] :: m.entityKey
  }

  /** Clusters with some campaign, in order of their first such member row. */
  function ClusterOrder(members: seq<MemberRow>, byEntity: map<string, set<string>>): seq<string> {
    if members == [] then []
    else
      var before, m := ClusterOrder(members[..|members| - 1], byEntity), members[|members| - 1];
      if m.entityKey in byEntity && m.clusterId !in before then before + [m.clusterId] else before
  }

  datatype Overlaps = Overlaps(
    order: seq<string>,
    campaigns: map<string, set<string>>,
    shared: map<(string, string), set<string>>)

  ghost predicate IsOverlaps(members: seq<MemberRow>, byEntity: map<string, set<string>>, o: Overlaps) {
    HasCampaigns(members, byEntity, o) && HasShared(members, byEntity, o)
  }

  ghost predicate HasCampaigns(members: seq<MemberRow>, byEntity: map<string, set<string>>, o: Overlaps) {
    && o.order == ClusterOrder(members, byEntity)
    && (forall c :: c in o.order <==> c in o.campaigns)
    && (forall c :: CampaignsIn(members, byEntity, c) == if c in o.campaigns then o.campaigns[c] else {})
  }

  ghost predicate HasShared(members: seq<MemberRow>, byEntity: map<string, set<string>>, o: Overlaps) {
    forall c, id :: SharedEntities(members, byEntity, c, id) == if (c, id) in o.shared then o.shared[(c, id)] else {}
  }

  /** One member row: `setdefault(...).update(cset)` and `setdefault(...).add(entity)`. */
  function WithMember(o: Overlaps, m: MemberRow, cset: set<string>): Overlaps {
    Overlaps(
      if m.clusterId in o.campaigns then o.order else o.order + [m.clusterId],
      o.campaigns[m.clusterId := (if m.clusterId in o.campaigns then o.campaigns[m.clusterId] else {}) + cset],
      o.shared + map id | id in cset ::
        (m.clusterId, id) := (if (m.clusterId, id) in o.shared then o.shared[(m.clusterId, id)] else {}) + {m.entityKey})
  }

  lemma MemberCampaigns(members: seq<MemberRow>, byEntity: map<string, set<string>>, m: MemberRow, c: string)
    ensures CampaignsIn(members + [m], byEntity, c) ==
              CampaignsIn(members, byEntity, c)
              + if c == m.clusterId && m.entityKey in byEntity then byEntity[m.entityKey] else {}
  {
    assert forall x :: x in members + [m] <==> x in members || x == m;
  }

  lemma MemberShared(members: seq<MemberRow>, byEntity: map<string, set<string>>, m: MemberRow, c: string, id: string)
    ensures SharedEntities(members + [m], byEntity, c, id) ==
              SharedEntities(members, byEntity, c, id)
              + if c == m.clusterId && m.entityKey in byEntity && id in byEntity[m.entityKey] then {m.entityKey} else {}
  {
    assert forall x :: x in members + [m] <==> x in members || x == m;
  }

  lemma CampaignsStep(members: seq<MemberRow>, byEntity: map<string, set<string>>, o: Overlaps, m: MemberRow)
    requires HasCampaigns(members, byEntity, o)
    ensures HasCampaigns(members + [m], byEntity,
                         if m.entityKey in byEntity then WithMember(o, m, byEntity[m.entityKey]) else o)
  {
    var ms, o' := members + [m], if m.entityKey in byEntity then WithMember(o, m, byEntity[m.entityKey]) else o;
    assert ms[..|ms| - 1] == members && ms[|ms| - 1] == m;
    assert o'.order == ClusterOrder(ms, byEntity);
    forall c ensures c in o'.order <==> c in o'.campaigns {
    }
    forall c ensures CampaignsIn(ms, byEntity, c) == if c in o'.campaigns then o'.campaigns[c] else {} {
      MemberCampaigns(members, byEntity, m, c);
      assert CampaignsIn(members, byEntity, c) == if c in o.campaigns then o.campaigns[c] else {};
    }
  }

  lemma SharedStep(members: seq<MemberRow>, byEntity: map<string, set<string>>, o: Overlaps, m: MemberRow)
    requires HasShared(members, byEntity, o)
    ensures HasShared(members + [m], byEntity,
                      if m.entityKey in byEntity then WithMember(o, m, byEntity[m.entityKey]) else o)
  {
    var ms, o' := members + [m], if m.entityKey in byEntity then WithMember(o, m, byEntity[m.entityKey]) else o;
    forall c, id
      ensures SharedEntities(ms, byEntity, c, id) == if (c, id) in o'.shared then o'.shared[(c, id)] else {}
    {
      MemberShared(members, byEntity, m, c, id);
      assert SharedEntities(members, byEntity, c, id) == if (c, id) in o.shared then o.shared[(c, id)] else {};
    }
  }

  lemma MemberStep(members: seq<MemberRow>, byEntity: map<string, set<string>>, o: Overlaps, m: MemberRow)
    requires IsOverlaps(members, byEntity, o)
    ensures IsOverlaps(members + [m], byEntity,
                       if m.entityKey in byEntity then WithMember(o, m, byEntity[m.entityKey]) else o)
  {
    CampaignsStep(members, byEntity, o, m);
    SharedStep(members, byEntity, o, m);
  }

  /** cluster_to_campaigns and cluster_to_shared_entities, row by row. */
  function OverlapsOf(members: seq<MemberRow>, byEntity: map<string, set<string>>): Overlaps {
    if members == [] then Overlaps([], map[], map[])
    else
      var before, m := OverlapsOf(members[..|members| - 1], byEntity), members[|members| - 1];
      if m.entityKey in byEntity then WithMember(before, m, byEntity[m.entityKey]) else before
  }

  lemma {:induction false} OverlapsExact(members: seq<MemberRow>, byEntity: map<string, set<string>>)
    ensures IsOverlaps(members, byEntity, OverlapsOf(members, byEntity))
  {
    if members != [] {
      var init, m := members[..|members| - 1], members[|members| - 1];
      OverlapsExact(init, byEntity);
      MemberStep(init, byEntity, OverlapsOf(init, byEntity), m);
      assert members == init + [m];
    }
  }

  method IndexMembers(members: seq<MemberRow>, byEntity: map<string, set<string>>) returns (o: Overlaps)
    ensures o == OverlapsOf(members, byEntity)
  {
    o := Overlaps([], map[], map[]);
    var i := 0;
    while i < |members|
      invariant i <= |members|
      invariant o == OverlapsOf(members[..i], byEntity)
    {
      assert members[..i + 1][..i] == members[..i];
      var m := members[i];
      if m.entityKey in byEntity {
        o := WithMember(o, m, byEntity[m.entityKey]);
      }
      i := i + 1;
    }
    assert members[..i] == members;
  }

  // ----- One draft -----

  datatype Context = Context(
    db: Database, window: string, start: int, end: int, maxEvidence: int,
    recent: set<string>, clusters: seq<ClusterRow>, overlaps: Overlaps)

  /** cluster_by_id: the last row of an id wins. */
  function ClusterById(clusters: seq<ClusterRow>, id: string): Option<ClusterRow> {
    if clusters == [] then None
    else if clusters[|clusters| - 1].clusterId == id then Some(clusters[|clusters| - 1])
    else ClusterById(clusters[..|clusters| - 1], id)
  }

  function ReasonsOf(evidence: seq<EvidenceRow>, c: string): seq<string> {
    if evidence == [] then []
    else
      var e := evidence[|evidence| - 1];
      ReasonsOf(evidence[..|evidence| - 1], c) + if e.clusterId == c then [e.reasonCode] else []
  }

  function ClusterHashes(evidence: seq<EvidenceRow>, c: string): seq<string> {
    if evidence == [] then []
    else
      var e := evidence[|evidence| - 1];
      ClusterHashes(evidence[..|evidence| - 1], c) + if e.clusterId == c then e.eventHashes else []
  }

  function CampaignHashes(events: seq<EventRow>, id: string, start: int, end: int): seq<string> {
    if events == [] then []
    else
      var e := events[|events| - 1];
      CampaignHashes(events[..|events| - 1], id, start, end)
      + if e.campaignId == id && start <= e.occurredAt <= end then [e.eventHash] else []
  }

  function FirstFew(xs: seq<string>, n: nat): seq<string> {
    if |xs| <= n then xs else xs[..n]
  }

  function NonEmpty(xs: seq<string>): seq<string> {
    if xs == [] then []
    else NonEmpty(xs[..|xs| - 1]) + if xs[|xs| - 1] != "" then [xs[|xs| - 1]] else []
  }

  /** A missing or zero cluster confidence counts as 0.5. */
  function BaseConfidence(c: Option<ClusterRow>): real {
    if c.Some? && c.value.confidence.Some? && c.value.confidence.value != 0.0 then c.value.confidence.value else 0.5
  }

  function SharedOf(o: Overlaps, c: string, id: string): set<string> {
    if (c, id) in o.shared then o.shared[(c, id)] else {}
  }

  /** Saturates at ten shared entities. */
  function OverlapWeight(shared: nat): real {
    0.55 + 0.45 * Min(1.0, shared as real / 10.0)
  }

  function ExclusivityPenalty(popularity: nat): real {
    Min(0.35, 0.05 * (popularity as real - 1.0))
  }

  function RawConfidence(base: real, shared: nat, popularity: nat): real {
    base * OverlapWeight(shared) - ExclusivityPenalty(popularity)
  }

  function Confidence(base: real, shared: nat, popularity: nat): (r: real)
    ensures 0.05 <= r <= 0.95
  {
    Max(0.05, Min(0.95, RawConfidence(base, shared, popularity)))
  }

  function Popularity(o: Overlaps, c: string): nat {
    if c in o.campaigns && |o.campaigns[c]| > 1 then |o.campaigns[c]| else 1
  }

  function DraftReasons(ctx: Context, c: string): seq<string> {
    ["INFRA_CLUSTER_REUSE"] + FirstFew(ReasonsOf(ctx.db.evidence, c), 3)
  }

  function DraftHashes(ctx: Context, c: string, subject: string, target: string): seq<string> {
    NonEmpty(ClusterHashes(ctx.db.evidence, c)
             + FirstFew(CampaignHashes(ctx.db.events, subject, ctx.start, ctx.end), 20)
             + FirstFew(CampaignHashes(ctx.db.events, target, ctx.start, ctx.end), 20))
  }

  datatype Triple = Triple(cluster: string, subject: string, target: string)

  function DraftOf(ctx: Context, t: Triple): Draft {
    var row := ClusterById(ctx.clusters, t.cluster);
    var shared := SortedSet(SharedOf(ctx.overlaps, t.cluster, t.subject) + SharedOf(ctx.overlaps, t.cluster, t.target));
    var base, pop := BaseConfidence(row), Popularity(ctx.overlaps, t.cluster);
    Draft(t.subject, t.target, ctx.window, ctx.start, ctx.end,
          Confidence(base, |shared|, pop),
          Capped(Deduped(DraftReasons(ctx, t.cluster)), 8),
          Capped(Deduped(DraftHashes(ctx, t.cluster, t.subject, t.target)), ctx.maxEvidence),
          t.cluster, if row.Some? then row.value.kind else "", base, pop, FirstFew(shared, 25))
  }

  method MakeDraft(ctx: Context, t: Triple) returns (d: Draft)
    ensures d == DraftOf(ctx, t)
  {
    var row := ClusterById(ctx.clusters, t.cluster);
    var shared := SortedSet(SharedOf(ctx.overlaps, t.cluster, t.subject) + SharedOf(ctx.overlaps, t.cluster, t.target));
    var base, pop := BaseConfidence(row), Popularity(ctx.overlaps, t.cluster);
    var reasons := CapList(DraftReasons(ctx, t.cluster), 8);
    var hashes := CapList(DraftHashes(ctx, t.cluster, t.subject, t.target), ctx.maxEvidence);
    d := Draft(t.subject, t.target, ctx.window, ctx.start, ctx.end, Confidence(base, |shared|, pop), reasons, hashes,
               t.cluster, if row.Some? then row.value.kind else "", base, pop, FirstFew(shared, 25));
  }

  // ----- All pairs -----

  function RowTriples(c: string, ids: seq<string>, i: nat, j: nat): seq<Triple>
    requires i < j <= |ids|
  {
    if j == i + 1 then [] else RowTriples(c, ids, i, j - 1) + [Triple(c, ids[i], ids[j - 1])]
  }

  function ClusterTriples(c: string, ids: seq<string>, rows: nat): seq<Triple>
    requires rows <= |ids|
  {
    if rows == 0 then [] else ClusterTriples(c, ids, rows - 1) + RowTriples(c, ids, rows - 1, |ids|)
  }

  function CampaignList(o: Overlaps, c: string): seq<string> {
    SortedSet(if c in o.campaigns then o.campaigns[c] else {})
  }

  /** Every pair of every cluster, in loop order. */
  function AllTriples(o: Overlaps, order: seq<string>): seq<Triple> {
    if order == [] then []
    else
      var c := order[|order| - 1];
      var ids := CampaignList(o, c);
      AllTriples(o, order[..|order| - 1]) + ClusterTriples(c, ids, |ids|)
  }

  /** The first triple of each campaign pair. */
  function FirstOnly(ts: seq<Triple>): seq<Triple> {
    if ts == [] then []
    else
      var before, t := FirstOnly(ts[..|ts| - 1]), ts[|ts| - 1];
      if HasPair(before, t.subject, t.target) then before else before + [t]
  }

  predicate HasPair(ts: seq<Triple>, a: string, b: string) {
    exists i :: 0 <= i < |ts| && ts[i].subject == a && ts[i].target == b
  }

  function DraftsOf(ctx: Context, ts: seq<Triple>): seq<Draft> {
    seq(|ts|, i requires 0 <= i < |ts| => DraftOf(ctx, ts[i]))
  }

  /** Highest confidence first, then subject and target. */
  predicate DraftLeq(d: Draft, e: Draft) {
    || d.confidence > e.confidence
    || (d.confidence == e.confidence
        && (LexLess(d.subject, e.subject) || (d.subject == e.subject && LexLeq(d.target, e.target))))
  }

  lemma {:induction false} FirstOnlyPrefix(ts: seq<Triple>, us: seq<Triple>)
    ensures FirstOnly(ts) <= FirstOnly(ts + us)
  {
    if us == [] {
      assert ts + us == ts;
    } else {
      assert (ts + us)[..|ts + us| - 1] == ts + us[..|us| - 1];
      FirstOnlyPrefix(ts, us[..|us| - 1]);
    }
  }

  ghost predicate SeenPairs(ts: seq<Triple>, seen: set<(string, string)>) {
    forall a, b :: (a, b) in seen <==> HasPair(ts, a, b)
  }

  /** Drafts and seen pairs after the triples ts. */
  ghost predicate Drafted(ctx: Context, ts: seq<Triple>, drafts: seq<Draft>, seen: set<(string, string)>) {
    drafts == DraftsOf(ctx, FirstOnly(ts)) && SeenPairs(FirstOnly(ts), seen)
  }

  lemma FirstOnlyStep(ts: seq<Triple>, t: Triple)
    ensures FirstOnly(ts + [t]) ==
              if HasPair(FirstOnly(ts), t.subject, t.target) then FirstOnly(ts) else FirstOnly(ts) + [t]
  {
    assert (ts + [t])[..|ts|] == ts;
  }

  lemma PairAppend(ts: seq<Triple>, t: Triple, a: string, b: string)
    ensures HasPair(ts + [t], a, b) <==> HasPair(ts, a, b) || (a == t.subject && b == t.target)
  {
    var us := ts + [t];
    if HasPair(ts, a, b) {
      var i :| 0 <= i < |ts| && ts[i].subject == a && ts[i].target == b;
      assert us[i].subject == a;
    }
    assert us[|ts|] == t;
  }

  lemma SeenStep(ts: seq<Triple>, seen: set<(string, string)>, t: Triple)
    requires SeenPairs(ts, seen)
    ensures SeenPairs(ts + [t], seen + {(t.subject, t.target)})
  {
    hide HasPair;
    forall a, b ensures (a, b) in seen + {(t.subject, t.target)} <==> HasPair(ts + [t], a, b) {
      PairAppend(ts, t, a, b);
    }
  }

  lemma DraftsAppend(ctx: Context, ts: seq<Triple>, t: Triple)
    ensures DraftsOf(ctx, ts + [t]) == DraftsOf(ctx, ts) + [DraftOf(ctx, t)]
  {
    hide DraftOf;
  }

  lemma DraftStep(ctx: Context, ts: seq<Triple>, drafts: seq<Draft>, seen: set<(string, string)>, t: Triple)
    requires Drafted(ctx, ts, drafts, seen)
    ensures if (t.subject, t.target) in seen then Drafted(ctx, ts + [t], drafts, seen)
            else Drafted(ctx, ts + [t], drafts + [DraftOf(ctx, t)], seen + {(t.subject, t.target)})
  {
    hide DraftOf, DraftsOf, FirstOnly, HasPair;
    FirstOnlyStep(ts, t);
    if (t.subject, t.target) !in seen {
      hide SeenPairs;
      SeenStep(FirstOnly(ts), seen, t);
      DraftsAppend(ctx, FirstOnly(ts), t);
      NotSeen(FirstOnly(ts), seen, t);
    }
  }

  lemma NotSeen(ts: seq<Triple>, seen: set<(string, string)>, t: Triple)
    requires SeenPairs(ts, seen)
    ensures (t.subject, t.target) in seen <==> HasPair(ts, t.subject, t.target)
  {
  }

  /** drafts is the first `cap` of what the triples yield: the early return. */
  ghost predicate CutShort(ctx: Context, ts: seq<Triple>, cap: int, drafts: seq<Draft>) {
    drafts <= DraftsOf(ctx, FirstOnly(ts)) && |drafts| == AtLeastOne(cap)
  }

  lemma CutShortGrows(ctx: Context, ts: seq<Triple>, us: seq<Triple>, cap: int, drafts: seq<Draft>)
    requires CutShort(ctx, ts, cap, drafts)
    ensures CutShort(ctx, ts + us, cap, drafts)
  {
    FirstOnlyPrefix(ts, us);
  }

  /** The pairs of one campaign with all later ones; `full` is the early return. */
  method DraftRow(ctx: Context, c: string, ids: seq<string>, i: nat, cap: int,
                  drafts0: seq<Draft>, seen0: set<(string, string)>, ghost ts: seq<Triple>)
    returns (drafts: seq<Draft>, seen: set<(string, string)>, full: bool)
    requires i < |ids| && StrictlySorted(ids) && Drafted(ctx, ts, drafts0, seen0) && (|drafts0| < cap || drafts0 == [])
    ensures !full ==> Drafted(ctx, ts + RowTriples(c, ids, i, |ids|), drafts, seen) && (|drafts| < cap || drafts == [])
    ensures full ==> CutShort(ctx, ts + RowTriples(c, ids, i, |ids|), cap, drafts)
  {
    hide DraftOf, SeenPairs, FirstOnly;
    drafts, seen, full := drafts0, seen0, false;
    var j := i + 1;
    assert ts + RowTriples(c, ids, i, j) == ts;
    while j < |ids|
      invariant i < j <= |ids|
      invariant Drafted(ctx, ts + RowTriples(c, ids, i, j), drafts, seen)
      invariant |drafts| < cap || drafts == []
    {
      var a, b := ids[i], ids[j];
      assert LexLess(a, b) && !(a == b);
      var t := Triple(c, a, b);
      ghost var sofar := ts + RowTriples(c, ids, i, j);
      DraftStep(ctx, sofar, drafts, seen, t);
      assert sofar + [t] == ts + RowTriples(c, ids, i, j + 1);
      j := j + 1;
      if (a, b) !in seen {
        seen := seen + {(a, b)};
        var d := MakeDraft(ctx, t);
        drafts := drafts + [d];
        if |drafts| >= cap {
          full := true;
          assert CutShort(ctx, sofar + [t], cap, drafts);
          ghost var rest := RowRest(ctx, c, ids, i, j, ts);
          CutShortGrows(ctx, sofar + [t], rest, cap, drafts);
          assert sofar + [t] + rest == ts + RowTriples(c, ids, i, |ids|);
          return;
        }
      }
    }
  }

  lemma {:induction false} RowRest(ctx: Context, c: string, ids: seq<string>, i: nat, j: nat, ts: seq<Triple>) returns (rest: seq<Triple>)
    requires i < j <= |ids|
    ensures ts + RowTriples(c, ids, i, j) + rest == ts + RowTriples(c, ids, i, |ids|)
    decreases |ids| - j
  {
    rest := [];
    if j < |ids| {
      var more := RowRest(ctx, c, ids, i, j + 1, ts);
      rest := [Triple(c, ids[i], ids[j])] + more;
      assert ts + RowTriples(c, ids, i, j) + rest == ts + RowTriples(c, ids, i, j + 1) + more;
    }
  }

  /** All pairs of one cluster. */
  method DraftCluster(ctx: Context, c: string, ids: seq<string>, cap: int,
                      drafts0: seq<Draft>, seen0: set<(string, string)>, ghost ts: seq<Triple>)
    returns (drafts: seq<Draft>, seen: set<(string, string)>, full: bool)
    requires StrictlySorted(ids) && Drafted(ctx, ts, drafts0, seen0) && (|drafts0| < cap || drafts0 == [])
    ensures !full ==> Drafted(ctx, ts + ClusterTriples(c, ids, |ids|), drafts, seen) && (|drafts| < cap || drafts == [])
    ensures full ==> CutShort(ctx, ts + ClusterTriples(c, ids, |ids|), cap, drafts)
  {
    hide Drafted, CutShort, StrictlySorted, RowTriples;
    drafts, seen, full := drafts0, seen0, false;
    assert ts + ClusterTriples(c, ids, 0) == ts;
    if |ids| < 2 {
      NoPairs(c, ids);
      return;
    }
    var i := 0;
    while i < |ids|
      invariant i <= |ids|
      invariant Drafted(ctx, ts + ClusterTriples(c, ids, i), drafts, seen)
      invariant |drafts| < cap || drafts == []
    {
      ghost var sofar := ts + ClusterTriples(c, ids, i);
      drafts, seen, full := DraftRow(ctx, c, ids, i, cap, drafts, seen, sofar);
      assert sofar + RowTriples(c, ids, i, |ids|) == ts + ClusterTriples(c, ids, i + 1);
      i := i + 1;
      if full {
        ghost var rest := ClusterRest(c, ids, i);
        CutShortGrows(ctx, ts + ClusterTriples(c, ids, i), rest, cap, drafts);
        assert ts + ClusterTriples(c, ids, i) + rest == ts + ClusterTriples(c, ids, |ids|);
        return;
      }
    }
  }

  lemma NoPairs(c: string, ids: seq<string>)
    requires |ids| < 2
    ensures ClusterTriples(c, ids, |ids|) == []
  {
    if |ids| == 1 {
      assert RowTriples(c, ids, 0, 1) == [];
      assert ClusterTriples(c, ids, 0) == [];
    }
  }

  lemma {:induction false} ClusterRest(c: string, ids: seq<string>, i: nat) returns (rest: seq<Triple>)
    requires i <= |ids|
    ensures ClusterTriples(c, ids, i) + rest == ClusterTriples(c, ids, |ids|)
    decreases |ids| - i
  {
    rest := [];
    if i < |ids| {
      var more := ClusterRest(c, ids, i + 1);
      rest := RowTriples(c, ids, i, |ids|) + more;
      assert ClusterTriples(c, ids, i) + rest == ClusterTriples(c, ids, i + 1) + more;
    }
  }

  method DraftAll(ctx: Context, cap: int) returns (drafts: seq<Draft>, full: bool)
    ensures !full ==> drafts == DraftsOf(ctx, FirstOnly(AllTriples(ctx.overlaps, ctx.overlaps.order)))
                      && (|drafts| < cap || drafts == [])
    ensures full ==> CutShort(ctx, AllTriples(ctx.overlaps, ctx.overlaps.order), cap, drafts)
  {
    hide CutShort, ClusterTriples, CampaignList;
    var o := ctx.overlaps;
    var seen: set<(string, string)> := {};
    drafts, full := [], false;
    var n := 0;
    assert o.order[..n] == [];
    assert Drafted(ctx, [], drafts, seen);
    while n < |o.order|
      invariant n <= |o.order|
      invariant Drafted(ctx, AllTriples(o, o.order[..n]), drafts, seen)
      invariant |drafts| < cap || drafts == []
    {
      var c := o.order[n];
      var ids := CampaignList(o, c);
      ListIsSorted(o, c);
      ghost var sofar := AllTriples(o, o.order[..n]);
      drafts, seen, full := DraftCluster(ctx, c, ids, cap, drafts, seen, sofar);
      assert o.order[..n + 1][..n] == o.order[..n];
      n := n + 1;
      if full {
        ghost var rest := OrderRest(o, n);
        CutShortGrows(ctx, AllTriples(o, o.order[..n]), rest, cap, drafts);
        return;
      }
    }
    assert o.order[..n] == o.order;
  }

  lemma ListIsSorted(o: Overlaps, c: string)
    ensures StrictlySorted(CampaignList(o, c))
  {
    SortedSetIsSorted(if c in o.campaigns then o.campaigns[c] else {});
  }

  lemma {:induction false} OrderRest(o: Overlaps, n: nat) returns (rest: seq<Triple>)
    requires n <= |o.order|
    ensures AllTriples(o, o.order[..n]) + rest == AllTriples(o, o.order)
    decreases |o.order| - n
  {
    rest := [];
    if n < |o.order| {
      var more := OrderRest(o, n + 1);
      assert o.order[..n + 1][..n] == o.order[..n];
      var ids := CampaignList(o, o.order[n]);
      rest := ClusterTriples(o.order[n], ids, |ids|) + more;
    } else {
      assert o.order[..n] == o.order;
    }
  }

  // ----- The builder -----

  datatype BuildResult = Drafts(drafts: seq<Draft>) | InvalidWindow | DivisionByZero

  function ContextOf(db: Database, window: string, start: int, end: int, maxEvidence: int): Context {
    var recent := RecentCampaigns(db.campaigns, start, end);
    var clusters := RecentClusters(db.clusters, start, end);
    Context(db, window, start, end, maxEvidence, recent, clusters,
            OverlapsOf(MembersIn(db.members, ClusterIds(clusters)), EntityIndex(db.entities, recent)))
  }

  /** Unsorted and cut short once the cap is reached, else complete and sorted. */
  function Finished(all: seq<Draft>, cap: int): seq<Draft> {
    if all != [] && |all| >= cap then all[..if AtLeastOne(cap) <= |all| then AtLeastOne(cap) else |all|]
    else Sort(DraftLeq, all)
  }

  function PairTriples(ctx: Context): seq<Triple> {
    FirstOnly(AllTriples(ctx.overlaps, ctx.overlaps.order))
  }

  function BuildSpec(db: Database, now: int, window: string, minutes: int, cap: int, maxEvidence: int): BuildResult {
    if minutes == 0 then DivisionByZero
    else if WindowLength(window).None? then InvalidWindow
    else
      var end := BucketEnd(now, minutes);
      var ctx := ContextOf(db, window, end - WindowLength(window).value, end, maxEvidence);
      if ctx.recent == {} || ctx.clusters == [] then Drafts([])
      else Drafts(Finished(DraftsOf(ctx, PairTriples(ctx)), cap))
  }

  method Build(db: Database, now: int, window: string, minutes: int, cap: int, maxEvidence: int)
    returns (r: BuildResult)
    ensures r == BuildSpec(db, now, window, minutes, cap, maxEvidence)
  {
    hide DraftsOf, FirstOnly, AllTriples, Sort, EntityIndex, OverlapsOf;
    if minutes == 0 { return DivisionByZero; }
    var length := WindowLength(window);
    var end := BucketEnd(now, minutes);
    if length.None? { return InvalidWindow; }
    var start := end - length.value;
    var recent := RecentCampaigns(db.campaigns, start, end);
    if recent == {} { return Drafts([]); }
    var byEntity := IndexEntities(db.entities, recent);
    var clusters := RecentClusters(db.clusters, start, end);
    if clusters == [] { return Drafts([]); }
    var overlaps := IndexMembers(MembersIn(db.members, ClusterIds(clusters)), byEntity);
    var ctx := Context(db, window, start, end, maxEvidence, recent, clusters, overlaps);
    var drafts, full := DraftAll(ctx, cap);
    if !full {
      drafts := Sort(DraftLeq, drafts);
    }
    r := Drafts(drafts);
  }
}
