/** The claim worker: drop duplicate drafts, then upsert each into the claim table by
    (claim type, subject, object, window, window end). */
module ClaimTable {
  import opened Arithmetic
  import opened Options
  import opened Ordering
  import opened OverlapClaims
  import opened OverlapProperties

  // ----- _dedupe_claims -----

  datatype DraftKey = DraftKey(subject: string, target: string, window: string, windowEnd: int)

  function KeyOf(d: Draft): DraftKey {
    DraftKey(d.subject, d.target, d.window, d.windowEnd)
  }

  predicate HasKey(ds: seq<Draft>, k: DraftKey) {
    exists i :: 0 <= i < |ds| && KeyOf(ds[i]) == k
  }

  function Deduplicated(ds: seq<Draft>): seq<Draft> {
    if ds == [] then []
    else
      var before, d := Deduplicated(ds[..|ds| - 1]), ds[|ds| - 1];
      if HasKey(before, KeyOf(d)) then before else before + [d]
  }

  ghost predicate DistinctKeys(ds: seq<Draft>) {
    forall i, j :: 0 <= i < j < |ds| ==> KeyOf(ds[i]) != KeyOf(ds[j])
  }

  method DedupeClaims(ds: seq<Draft>) returns (out: seq<Draft>)
    ensures out == Deduplicated(ds)
  {
    out := [];
    var seen: set<DraftKey> := {};
    var n := 0;
    while n < |ds|
      invariant n <= |ds|
      invariant out == Deduplicated(ds[..n])
      invariant forall k :: k in seen <==> HasKey(out, k)
    {
      var d := ds[n];
      assert ds[..n + 1][..n] == ds[..n];
      if KeyOf(d) !in seen {
        seen := seen + {KeyOf(d)};
        ghost var before := out;
        out := out + [d];
        forall k ensures HasKey(out, k) <==> HasKey(before, k) || k == KeyOf(d) {
          KeyAppend(before, d, k);
        }
      }
      n := n + 1;
    }
    assert ds[..n] == ds;
  }

  lemma KeyAppend(ds: seq<Draft>, d: Draft, k: DraftKey)
    ensures HasKey(ds + [d], k) <==> HasKey(ds, k) || k == KeyOf(d)
  {
    var es := ds + [d];
    if HasKey(ds, k) {
      var i :| 0 <= i < |ds| && KeyOf(ds[i]) == k;
      assert es[i] == ds[i];
    }
    assert es[|ds|] == d;
  }

  lemma {:induction false} DeduplicatedIsDistinct(ds: seq<Draft>)
    ensures DistinctKeys(Deduplicated(ds))
    ensures forall k :: HasKey(Deduplicated(ds), k) <==> HasKey(ds, k)
  {
    if ds != [] {
      var init, d := ds[..|ds| - 1], ds[|ds| - 1];
      DeduplicatedIsDistinct(init);
      assert ds == init + [d];
      forall k ensures HasKey(Deduplicated(ds), k) <==> HasKey(ds, k) {
        KeyAppend(init, d, k);
        KeyAppend(Deduplicated(init), d, k);
      }
    }
  }

  /** Draft i is kept if and only if no earlier one has the same subject, object, window and
      window end; kept drafts stay in order. */
  lemma {:induction false} DedupeKeepsFirst(ds: seq<Draft>, i: nat)
    requires i < |ds|
    ensures var earlier := exists j :: 0 <= j < i && ds[j].subject == ds[i].subject && ds[j].target == ds[i].target
                                       && ds[j].window == ds[i].window && ds[j].windowEnd == ds[i].windowEnd;
            Deduplicated(ds[..i + 1]) == Deduplicated(ds[..i]) + if earlier then [] else [ds[i]]
    ensures Deduplicated(ds[..i + 1]) <= Deduplicated(ds)
  {
    assert ds[..i + 1][..i] == ds[..i];
    DeduplicatedIsDistinct(ds[..i]);
    DedupePrefix(ds, i + 1);
    if HasKey(ds[..i], KeyOf(ds[i])) {
      var j :| 0 <= j < i && KeyOf(ds[..i][j]) == KeyOf(ds[i]);
      assert ds[j] == ds[..i][j];
    }
    if j :| 0 <= j < i && KeyOf(ds[j]) == KeyOf(ds[i]) { assert ds[..i][j] == ds[j]; }
    assert Deduplicated(ds[..i]) + [] == Deduplicated(ds[..i]);
  }

  lemma {:induction false} DedupePrefix(ds: seq<Draft>, n: nat)
    requires n <= |ds|
    ensures Deduplicated(ds[..n]) <= Deduplicated(ds)
  {
    if n < |ds| {
      assert ds[..|ds| - 1][..n] == ds[..n];
      DedupePrefix(ds[..|ds| - 1], n);
    } else {
      assert ds[..n] == ds;
    }
  }

  lemma {:induction false} DistinctIsUnchanged(ds: seq<Draft>)
    requires DistinctKeys(ds)
    ensures Deduplicated(ds) == ds
  {
    if ds != [] {
      var init := ds[..|ds| - 1];
      DistinctIsUnchanged(init);
      assert ds == init + [ds[|ds| - 1]];
    }
  }

  /** On the builder's own output the pass changes nothing. */
  lemma DedupeIsIdentityOnBuilds(db: Database, now: int, window: string, minutes: int, cap: int, maxEvidence: int)
    requires BuildSpec(db, now, window, minutes, cap, maxEvidence).Drafts?
    ensures var ds := BuildSpec(db, now, window, minutes, cap, maxEvidence).drafts; Deduplicated(ds) == ds
  {
    DraftsAreSound(db, now, window, minutes, cap, maxEvidence);
    hide BuildSpec;
    DistinctIsUnchanged(BuildSpec(db, now, window, minutes, cap, maxEvidence).drafts);
  }

  // ----- The table -----

  datatype ClaimRow = ClaimRow(
    claimType: string, subject: string, target: string, window: string, windowStart: int, windowEnd: int,
    confidence: real, reasonCodes: seq<string>, evidenceHashes: seq<string>, clusterId: string,
    clusterKind: string, clusterConfidence: real, popularity: nat, sharedSample: seq<string>,
    createdAt: int, updatedAt: int)

  const CLAIM_TYPE := "CAMPAIGN_INFRA_REUSE_OVERLAP"

  /** The uniqueness constraint's columns. */
  predicate SameIdentity(r: ClaimRow, r': ClaimRow) {
    && r.claimType == r'.claimType && r.subject == r'.subject && r.target == r'.target
    && r.window == r'.window && r.windowEnd == r'.windowEnd
  }

  predicate Matches(r: ClaimRow, d: Draft) {
    && r.claimType == CLAIM_TYPE && r.subject == d.subject && r.target == d.target
    && r.window == d.window && r.windowEnd == d.windowEnd
  }

  /** Assigning the draft's fields to a stored claim; identity, window start and creation
      time stay. */
  function Refreshed(r: ClaimRow, d: Draft, now: int): ClaimRow {
    r.(confidence := d.confidence, reasonCodes := d.reasonCodes, evidenceHashes := d.evidenceHashes,
       clusterId := d.clusterId, clusterKind := d.clusterKind, clusterConfidence := d.clusterConfidence,
       popularity := d.popularity, sharedSample := d.sharedSample, updatedAt := now)
  }

  function NewRow(d: Draft, now: int): ClaimRow {
    ClaimRow(CLAIM_TYPE, d.subject, d.target, d.window, d.windowStart, d.windowEnd, d.confidence, d.reasonCodes,
             d.evidenceHashes, d.clusterId, d.clusterKind, d.clusterConfidence, d.popularity, d.sharedSample, now, now)
  }

  /** Index of the first matching row, |rows| when there is none. */
  function Find(rows: seq<ClaimRow>, d: Draft): (i: nat)
    ensures i <= |rows|
    ensures i < |rows| ==> Matches(rows[i], d)
    ensures forall j :: 0 <= j < i ==> !Matches(rows[j], d)
  {
    if rows == [] then 0
    else if Matches(rows[0], d) then 0
    else 1 + Find(rows[1..], d)
  }

  function Upserted(rows: seq<ClaimRow>, d: Draft, now: int): seq<ClaimRow> {
    var i := Find(rows, d);
    if i < |rows| then rows[i := Refreshed(rows[i], d, now)] else rows + [NewRow(d, now)]
  }

  function UpsertedAll(rows: seq<ClaimRow>, ds: seq<Draft>, now: int): seq<ClaimRow> {
    if ds == [] then rows
    else Upserted(UpsertedAll(rows, ds[..|ds| - 1], now), ds[|ds| - 1], now)
  }

  /** One worker run; a failing build leaves the table alone. */
  function WorkerRun(rows: seq<ClaimRow>, db: Database, now: int, window: string, minutes: int, cap: int): seq<ClaimRow> {
    var r := BuildSpec(db, now, window, minutes, cap, 80);
    if r.Drafts? then UpsertedAll(rows, Deduplicated(r.drafts), now) else rows
  }

  class Claims {
    var rows: seq<ClaimRow>

    constructor ()
      ensures rows == []
    {
      rows := [];
    }

    method Upsert(d: Draft, now: int)
      modifies this
      ensures rows == Upserted(old(rows), d, now)
    {
      var i := 0;
      while i < |rows| && !Matches(rows[i], d)
        invariant i <= |rows| && rows == old(rows)
        invariant forall j :: 0 <= j < i ==> !Matches(rows[j], d)
      {
        i := i + 1;
      }
      assert i == Find(rows, d);
      if i < |rows| {
        rows := rows[i := Refreshed(rows[i], d, now)];
      } else {
        rows := rows + [NewRow(d, now)];
      }
    }

    /** upsert_claims_and_log_deltas. */
    method Work(db: Database, now: int, window: string, minutes: int, cap: int) returns (processed: nat)
      modifies this
      ensures rows == WorkerRun(old(rows), db, now, window, minutes, cap)
      ensures var built := BuildSpec(db, now, window, minutes, cap, 80);
              processed == if built.Drafts? then |Deduplicated(built.drafts)| else 0
    {
      hide BuildSpec, Upserted, Deduplicated;
      processed := 0;
      var r := Build(db, now, window, minutes, cap, 80);
      if !r.Drafts? { return; }
      var drafts := DedupeClaims(r.drafts);
      while processed < |drafts|
        invariant processed <= |drafts|
        invariant rows == UpsertedAll(old(rows), drafts[..processed], now)
      {
        assert drafts[..processed + 1][..processed] == drafts[..processed];
        Upsert(drafts[processed], now);
        processed := processed + 1;
      }
      assert drafts[..processed] == drafts;
    }
  }

  // ----- One row per identity, over every run -----

  ghost predicate OneRowEach(rows: seq<ClaimRow>) {
    forall i, j :: 0 <= i < j < |rows| ==> !SameIdentity(rows[i], rows[j])
  }

  lemma UpsertKeepsOneRow(rows: seq<ClaimRow>, d: Draft, now: int)
    requires OneRowEach(rows)
    ensures OneRowEach(Upserted(rows, d, now))
  {
    var i, rows' := Find(rows, d), Upserted(rows, d, now);
    forall j, k | 0 <= j < k < |rows'| ensures !SameIdentity(rows'[j], rows'[k]) {
      if k < |rows| {
        assert !SameIdentity(rows[j], rows[k]);
      } else {
        assert !Matches(rows[j], d);
      }
    }
  }

  lemma {:induction false} UpsertAllKeepsOneRow(rows: seq<ClaimRow>, ds: seq<Draft>, now: int)
    requires OneRowEach(rows)
    ensures OneRowEach(UpsertedAll(rows, ds, now))
  {
    if ds != [] {
      UpsertAllKeepsOneRow(rows, ds[..|ds| - 1], now);
      UpsertKeepsOneRow(UpsertedAll(rows, ds[..|ds| - 1], now), ds[|ds| - 1], now);
    }
  }

  datatype Job = Job(db: Database, now: int, window: string, minutes: int, cap: int)

  function TableAfter(jobs: seq<Job>): seq<ClaimRow> {
    if jobs == [] then []
    else
      var j := jobs[|jobs| - 1];
      WorkerRun(TableAfter(jobs[..|jobs| - 1]), j.db, j.now, j.window, j.minutes, j.cap)
  }

  /** Over any sequence of runs the table never holds two rows of one identity. */
  lemma {:induction false} AlwaysOneRow(jobs: seq<Job>)
    ensures OneRowEach(TableAfter(jobs))
  {
    hide BuildSpec;
    if jobs != [] {
      var j := jobs[|jobs| - 1];
      AlwaysOneRow(jobs[..|jobs| - 1]);
      var r := BuildSpec(j.db, j.now, j.window, j.minutes, j.cap, 80);
      if r.Drafts? {
        UpsertAllKeepsOneRow(TableAfter(jobs[..|jobs| - 1]), Deduplicated(r.drafts), j.now);
      }
    }
  }

  /** Claims of other identities keep every field through a run. */
  lemma {:induction false} OthersAreUntouched(rows: seq<ClaimRow>, ds: seq<Draft>, now: int, i: nat)
    requires i < |rows| && forall d :: d in ds ==> !Matches(rows[i], d)
    ensures i < |UpsertedAll(rows, ds, now)| && UpsertedAll(rows, ds, now)[i] == rows[i]
  {
    if ds != [] {
      var init, last := ds[..|ds| - 1], ds[|ds| - 1];
      assert ds == init + [last] && last in ds;
      OthersAreUntouched(rows, init, now, i);
    }
  }

  // ----- What a run stores, field by field -----

  /** r is the claim that draft d is about. */
  ghost predicate About(r: ClaimRow, d: Draft) {
    && r.claimType == "CAMPAIGN_INFRA_REUSE_OVERLAP" && r.subject == d.subject && r.target == d.target
    && r.window == d.window && r.windowEnd == d.windowEnd
  }

  /** r carries the content of draft d, as of now. */
  ghost predicate Carries(r: ClaimRow, d: Draft, now: int) {
    && About(r, d) && r.updatedAt == now
    && r.confidence == d.confidence && r.reasonCodes == d.reasonCodes && r.evidenceHashes == d.evidenceHashes
    && r.clusterId == d.clusterId && r.clusterKind == d.clusterKind && r.clusterConfidence == d.clusterConfidence
    && r.popularity == d.popularity && r.sharedSample == d.sharedSample
  }

  /** Row i of the new table is the claim of d: refreshed where the old table had one, keeping
      its creation time and window start, else new. */
  ghost predicate StoredAt(stored: seq<ClaimRow>, rows: seq<ClaimRow>, d: Draft, now: int, i: nat) {
    && i < |rows| && Carries(rows[i], d, now)
    && (forall j :: 0 <= j < |stored| && j < i ==> !About(stored[j], d))
    && if i < |stored| then About(stored[i], d) && rows[i].createdAt == stored[i].createdAt && rows[i].windowStart == stored[i].windowStart
       else rows[i].createdAt == now && rows[i].windowStart == d.windowStart
  }

  ghost predicate StoredSomewhere(stored: seq<ClaimRow>, rows: seq<ClaimRow>, d: Draft, now: int) {
    exists i: nat :: StoredAt(stored, rows, d, now, i)
  }

  /** Old rows keep their place, identity, creation time and window start. */
  ghost predicate Grown(stored: seq<ClaimRow>, rows: seq<ClaimRow>) {
    && |stored| <= |rows|
    && forall i :: 0 <= i < |stored| ==>
         SameIdentity(stored[i], rows[i]) && rows[i].createdAt == stored[i].createdAt && rows[i].windowStart == stored[i].windowStart
  }

  lemma UpsertGrows(stored: seq<ClaimRow>, rows: seq<ClaimRow>, d: Draft, now: int)
    requires Grown(stored, rows)
    ensures Grown(stored, Upserted(rows, d, now))
  {
  }

  lemma UpsertStores(stored: seq<ClaimRow>, rows: seq<ClaimRow>, d: Draft, now: int)
    requires Grown(stored, rows)
    requires forall i :: |stored| <= i < |rows| ==> !About(rows[i], d)
    ensures StoredAt(stored, Upserted(rows, d, now), d, now, Find(rows, d))
  {
    var i := Find(rows, d);
    forall j | 0 <= j < |stored| && j < i ensures !About(stored[j], d) {
      assert !Matches(rows[j], d) && SameIdentity(stored[j], rows[j]);
    }
    if i < |rows| { assert Matches(rows[i], d); }
  }

  lemma UpsertKeepsStored(stored: seq<ClaimRow>, rows: seq<ClaimRow>, d: Draft, e: Draft, now: int, i: nat)
    requires StoredAt(stored, rows, e, now, i) && KeyOf(d) != KeyOf(e)
    ensures StoredAt(stored, Upserted(rows, d, now), e, now, i)
  {
    assert Find(rows, d) != i;
  }

  ghost predicate AboutSome(r: ClaimRow, ds: seq<Draft>) {
    exists d :: d in ds && About(r, d)
  }

  /** Rows beyond the old table are claims of the drafts. */
  ghost predicate NewAreDrafts(stored: seq<ClaimRow>, rows: seq<ClaimRow>, ds: seq<Draft>) {
    forall i :: |stored| <= i < |rows| ==> AboutSome(rows[i], ds)
  }

  lemma UpsertKeepsNew(stored: seq<ClaimRow>, rows: seq<ClaimRow>, ds: seq<Draft>, d: Draft, now: int)
    requires NewAreDrafts(stored, rows, ds) && |stored| <= |rows|
    ensures NewAreDrafts(stored, Upserted(rows, d, now), ds + [d])
  {
    var rows' := Upserted(rows, d, now);
    forall i | |stored| <= i < |rows'| ensures AboutSome(rows'[i], ds + [d]) {
      if i < |rows| && i != Find(rows, d) {
        assert AboutSome(rows[i], ds);
        var e :| e in ds && About(rows[i], e);
        assert e in ds + [d] && About(rows'[i], e);
      } else {
        assert d in ds + [d] && About(rows'[i], d);
      }
    }
  }

  lemma {:induction false} UpsertAllStores(rows: seq<ClaimRow>, ds: seq<Draft>, now: int)
    requires DistinctKeys(ds)
    ensures var after := UpsertedAll(rows, ds, now);
            && Grown(rows, after) && NewAreDrafts(rows, after, ds)
            && forall k :: 0 <= k < |ds| ==> StoredSomewhere(rows, after, ds[k], now)
  {
    if ds != [] {
      var init, d := ds[..|ds| - 1], ds[|ds| - 1];
      var before, after := UpsertedAll(rows, init, now), UpsertedAll(rows, ds, now);
      UpsertAllStores(rows, init, now);
      hide StoredAt, Grown, NewAreDrafts, UpsertedAll;
      assert after == Upserted(before, d, now) by { AllStep(rows, ds, now); }
      assert ds == init + [d];
      NotYetNew(rows, before, ds);
      UpsertGrows(rows, before, d, now);
      UpsertKeepsNew(rows, before, init, d, now);
      UpsertStores(rows, before, d, now);
      forall k | 0 <= k < |ds| ensures StoredSomewhere(rows, after, ds[k], now) {
        if k < |init| {
          assert StoredSomewhere(rows, before, init[k], now);
          var i: nat :| StoredAt(rows, before, init[k], now, i);
          assert KeyOf(ds[k]) != KeyOf(ds[|ds| - 1]);
          UpsertKeepsStored(rows, before, d, init[k], now, i);
        } else {
          assert ds[k] == d && StoredAt(rows, after, d, now, Find(before, d));
        }
      }
    }
  }

  lemma AllStep(rows: seq<ClaimRow>, ds: seq<Draft>, now: int)
    requires ds != []
    ensures UpsertedAll(rows, ds, now) == Upserted(UpsertedAll(rows, ds[..|ds| - 1], now), ds[|ds| - 1], now)
  {
  }

  lemma NotYetNew(stored: seq<ClaimRow>, rows: seq<ClaimRow>, ds: seq<Draft>)
    requires ds != [] && DistinctKeys(ds) && NewAreDrafts(stored, rows, ds[..|ds| - 1])
    ensures forall i :: |stored| <= i < |rows| ==> !About(rows[i], ds[|ds| - 1])
  {
    var init := ds[..|ds| - 1];
    forall i | |stored| <= i < |rows| ensures !About(rows[i], ds[|ds| - 1]) {
      assert AboutSome(rows[i], init);
      var e :| e in init && About(rows[i], e);
      var k :| 0 <= k < |init| && init[k] == e;
      assert KeyOf(ds[k]) != KeyOf(ds[|ds| - 1]);
    }
  }

  lemma RunUpserts(rows: seq<ClaimRow>, db: Database, now: int, window: string, minutes: int, cap: int)
    ensures var r, after := BuildSpec(db, now, window, minutes, cap, 80), WorkerRun(rows, db, now, window, minutes, cap);
            if r.Drafts? then after == UpsertedAll(rows, r.drafts, now) && DistinctKeys(r.drafts) else after == rows
  {
    var r := BuildSpec(db, now, window, minutes, cap, 80);
    if r.Drafts? {
      DedupeIsIdentityOnBuilds(db, now, window, minutes, cap, 80);
      DeduplicatedIsDistinct(r.drafts);
    }
    hide BuildSpec, Deduplicated, UpsertedAll;
  }

  /** After a run every returned draft is stored with all its fields; a claim the table already
      had keeps its creation time and window start. */
  lemma DraftsAreStored(rows: seq<ClaimRow>, db: Database, now: int, window: string, minutes: int, cap: int, d: Draft)
    requires BuildSpec(db, now, window, minutes, cap, 80).Drafts?
    requires d in BuildSpec(db, now, window, minutes, cap, 80).drafts
    ensures StoredSomewhere(rows, WorkerRun(rows, db, now, window, minutes, cap), d, now)
  {
    hide *;
    var ds := BuildSpec(db, now, window, minutes, cap, 80).drafts;
    RunUpserts(rows, db, now, window, minutes, cap);
    UpsertAllStores(rows, ds, now);
    var k :| 0 <= k < |ds| && ds[k] == d;
  }

  /** And a run does nothing else: a claim no draft is about stays as it was, and every new row
      is the claim of some draft. A failing build changes nothing. */
  lemma NothingElseIsStored(rows: seq<ClaimRow>, db: Database, now: int, window: string, minutes: int, cap: int, i: nat)
    ensures var r, after := BuildSpec(db, now, window, minutes, cap, 80), WorkerRun(rows, db, now, window, minutes, cap);
            && |rows| <= |after|
            && (!r.Drafts? ==> after == rows)
            && (i < |rows| && (r.Drafts? ==> !AboutSome(rows[i], r.drafts)) ==> after[i] == rows[i])
            && (|rows| <= i < |after| ==> r.Drafts? && AboutSome(after[i], r.drafts))
  {
    hide BuildSpec, WorkerRun, UpsertedAll, DistinctKeys;
    var r := BuildSpec(db, now, window, minutes, cap, 80);
    RunUpserts(rows, db, now, window, minutes, cap);
    if r.Drafts? {
      UpsertAllStores(rows, r.drafts, now);
      if i < |rows| && !AboutSome(rows[i], r.drafts) {
        forall d | d in r.drafts ensures !Matches(rows[i], d) { assert !About(rows[i], d); }
        OthersAreUntouched(rows, r.drafts, now, i);
      }
    }
  }

  // ----- Replay -----

  /** Equal in everything but updated_at. */
  ghost predicate SameButTouched(rows: seq<ClaimRow>, rows': seq<ClaimRow>) {
    && |rows| == |rows'|
    && forall i :: 0 <= i < |rows| ==> rows'[i].(updatedAt := rows[i].updatedAt) == rows[i]
  }

  /** The table already holds d's content in the row an upsert would pick. */
  ghost predicate Holds(rows: seq<ClaimRow>, d: Draft) {
    var i := Find(rows, d);
    i < |rows| && Refreshed(rows[i], d, rows[i].updatedAt) == rows[i]
  }

  lemma FindDepends(rows: seq<ClaimRow>, rows': seq<ClaimRow>, d: Draft)
    requires |rows| <= |rows'|
    requires forall i :: 0 <= i < |rows| ==> SameIdentity(rows[i], rows'[i])
    ensures Find(rows, d) < |rows| ==> Find(rows', d) == Find(rows, d)
    ensures |rows| == |rows'| ==> Find(rows', d) == Find(rows, d)
  {
    var i, j := Find(rows, d), Find(rows', d);
    assert i < |rows| ==> Matches(rows'[i], d);
    assert j < |rows| ==> Matches(rows[j], d);
  }

  lemma UpsertIdentities(rows: seq<ClaimRow>, d: Draft, now: int)
    ensures var rows' := Upserted(rows, d, now);
            |rows| <= |rows'| && forall i :: 0 <= i < |rows| ==> SameIdentity(rows[i], rows'[i])
  {
  }

  lemma UpsertHolds(rows: seq<ClaimRow>, d: Draft, now: int)
    ensures Holds(Upserted(rows, d, now), d)
  {
    var i, rows' := Find(rows, d), Upserted(rows, d, now);
    UpsertIdentities(rows, d, now);
    FindDepends(rows, rows', d);
    if i == |rows| {
      assert Matches(rows'[i], d);
      assert forall j :: 0 <= j < |rows| ==> rows'[j] == rows[j];
      assert Find(rows', d) == i;
    }
  }

  lemma UpsertKeepsHeld(rows: seq<ClaimRow>, d: Draft, e: Draft, now: int)
    requires Holds(rows, e) && KeyOf(d) != KeyOf(e)
    ensures Holds(Upserted(rows, d, now), e)
  {
    UpsertIdentities(rows, d, now);
    FindDepends(rows, Upserted(rows, d, now), e);
    assert Find(rows, d) != Find(rows, e);
  }

  lemma {:induction false} UpsertAllHolds(rows: seq<ClaimRow>, ds: seq<Draft>, now: int, k: nat)
    requires DistinctKeys(ds) && k < |ds|
    ensures Holds(UpsertedAll(rows, ds, now), ds[k])
  {
    var init, last := ds[..|ds| - 1], ds[|ds| - 1];
    var before := UpsertedAll(rows, init, now);
    if k == |ds| - 1 {
      UpsertHolds(before, last, now);
    } else {
      UpsertAllHolds(rows, init, now, k);
      UpsertKeepsHeld(before, last, ds[k], now);
    }
  }

  /** Upserting what is already held only touches updated_at, and leaves it held. */
  lemma TouchOnly(rows: seq<ClaimRow>, rows': seq<ClaimRow>, d: Draft, now: int)
    requires SameButTouched(rows, rows') && Holds(rows, d)
    ensures SameButTouched(rows, Upserted(rows', d, now))
  {
    FindDepends(rows, rows', d);
  }

  lemma {:induction false} ReplayAll(rows: seq<ClaimRow>, ds: seq<Draft>, now: int)
    requires forall k :: 0 <= k < |ds| ==> Holds(rows, ds[k])
    ensures SameButTouched(rows, UpsertedAll(rows, ds, now))
  {
    if ds != [] {
      var init := ds[..|ds| - 1];
      ReplayAll(rows, init, now);
      TouchOnly(rows, UpsertedAll(rows, init, now), ds[|ds| - 1], now);
    }
  }

  /** The builder depends on the clock only through the bucket. */
  lemma SameBucketSameBuild(db: Database, now: int, again: int, window: string, minutes: int, cap: int)
    requires minutes != 0 ==> BucketEnd(now, minutes) == BucketEnd(again, minutes)
    ensures BuildSpec(db, now, window, minutes, cap, 80) == BuildSpec(db, again, window, minutes, cap, 80)
  {
    hide BucketEnd, Finished, DraftsOf, PairTriples, ContextOf;
  }

  /** Running the worker again on the same rows inside one time bucket changes nothing in the
      table but updated_at. */
  lemma ReplayIsIdempotent(rows: seq<ClaimRow>, db: Database, now: int, again: int, window: string, minutes: int, cap: int)
    requires minutes != 0 ==> BucketEnd(now, minutes) == BucketEnd(again, minutes)
    ensures var once := WorkerRun(rows, db, now, window, minutes, cap);
            SameButTouched(once, WorkerRun(once, db, again, window, minutes, cap))
  {
    hide BuildSpec;
    SameBucketSameBuild(db, now, again, window, minutes, cap);
    var r := BuildSpec(db, now, window, minutes, cap, 80);
    if r.Drafts? {
      var ds := Deduplicated(r.drafts);
      DeduplicatedIsDistinct(r.drafts);
      var once := UpsertedAll(rows, ds, now);
      forall k | 0 <= k < |ds| ensures Holds(once, ds[k]) { UpsertAllHolds(rows, ds, now, k); }
      ReplayAll(once, ds, again);
    }
  }

  /** Times in the same step share a bucket. */
  lemma SameStepSameBucket(now: int, again: int, minutes: int)
    requires minutes > 0 && BucketEnd(now, minutes) <= again < BucketEnd(now, minutes) + minutes * 60
    ensures BucketEnd(again, minutes) == BucketEnd(now, minutes)
  {
    var step := minutes * 60;
    var q := now / step;
    DivModUnique(again, step, q, again - q * step);
  }
}
