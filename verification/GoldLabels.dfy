/** The gold label seeder: greedy, capped selection of confirmable predictions over a set of
    already labelled keys that both passes share. */
module GoldLabels {
  import opened FiniteSets

  datatype Prediction = Prediction(id: string, entityKey: string, reasonCodes: set<string>, riskFlags: set<string>)

  /** labelValue: 1 is positive, 0 negative, 2 uncertain. */
  datatype Label = Label(predictionId: string, entityKey: string, labelValue: int)

  const CONFIRMED_CODES: set<string> :=
    {"CAMPAIGN_LINKED", "SIM_SWAP_SIGNAL", "DDOS_ALERT_ACTIVE", "VPN_INFRA_REUSE",
     "DDOS_INFRA_REUSE", "GNN_RISK_CRITICAL", "GNN_RISK_HIGH", "PHISHING_SIGNAL"}

  predicate ConfirmablePositive(p: Prediction) {
    p.reasonCodes * CONFIRMED_CODES != {}
  }

  predicate ConfirmableNegative(p: Prediction) {
    p.riskFlags == {} && p.reasonCodes * CONFIRMED_CODES == {}
  }

  predicate Confirmable(p: Prediction, labelValue: int) {
    if labelValue == 1 then ConfirmablePositive(p) else ConfirmableNegative(p)
  }

  /** Keys with a definite label; an uncertain one does not count. */
  function ExistingKeys(table: seq<Label>): set<string> {
    set r | r in table && (r.labelValue == 0 || r.labelValue == 1) :: r.entityKey
  }

  // ----- One pass -----

  datatype Pass = Pass(rows: seq<Label>, keys: set<string>, skipped: nat)

  function Step(s: Pass, p: Prediction, cap: int, labelValue: int): Pass {
    if |s.rows| >= cap then s
    else if p.entityKey in s.keys then s.(skipped := s.skipped + 1)
    else if !Confirmable(p, labelValue) then s
    else Pass(s.rows + [Label(p.id, p.entityKey, labelValue)], s.keys + {p.entityKey}, s.skipped)
  }

  function Selected(candidates: seq<Prediction>, keys: set<string>, cap: int, labelValue: int): Pass {
    if candidates == [] then Pass([], keys, 0)
    else Step(Selected(candidates[..|candidates| - 1], keys, cap, labelValue), candidates[|candidates| - 1], cap, labelValue)
  }

  /** _build_positive_rows (label 1) and _build_negative_rows (label 0), which differ only in
      the test and the label they write. */
  method BuildRows(candidates: seq<Prediction>, keys0: set<string>, cap: int, labelValue: int)
    returns (rows: seq<Label>, keys: set<string>, skipped: nat)
    ensures Pass(rows, keys, skipped) == Selected(candidates, keys0, cap, labelValue)
  {
    rows, keys, skipped := [], keys0, 0;
    var n := 0;
    while n < |candidates|
      invariant n <= |candidates|
      invariant Pass(rows, keys, skipped) == Selected(candidates[..n], keys0, cap, labelValue)
    {
      var p := candidates[n];
      assert candidates[..n + 1][..n] == candidates[..n];
      if |rows| >= cap {
        FullStaysFull(candidates, n, keys0, cap, labelValue);
        return;
      }
      if p.entityKey in keys {
        skipped := skipped + 1;
      } else if Confirmable(p, labelValue) {
        rows := rows + [Label(p.id, p.entityKey, labelValue)];
        keys := keys + {p.entityKey};
      }
      n := n + 1;
    }
    assert candidates[..n] == candidates;
  }

  lemma {:induction false} FullStaysFull(candidates: seq<Prediction>, n: nat, keys: set<string>, cap: int, labelValue: int)
    requires n <= |candidates| && |Selected(candidates[..n], keys, cap, labelValue).rows| >= cap
    ensures Selected(candidates, keys, cap, labelValue) == Selected(candidates[..n], keys, cap, labelValue)
  {
    if n < |candidates| {
      var init := candidates[..|candidates| - 1];
      assert init[..n] == candidates[..n];
      FullStaysFull(init, n, keys, cap, labelValue);
    } else {
      assert candidates[..n] == candidates;
    }
  }

  // ----- What a pass selects -----

  /** Distinct keys that could be labelled: not yet labelled, with a confirmable candidate. */
  ghost function Eligible(candidates: seq<Prediction>, keys: set<string>, labelValue: int): set<string> {
    set p | p in candidates && p.entityKey !in keys && Confirmable(p, labelValue) :: p.entityKey
  }

  function KeysOf(rows: seq<Label>): set<string> {
    set r | r in rows :: r.entityKey
  }

  ghost predicate DistinctKeys(rows: seq<Label>) {
    forall i, j :: 0 <= i < j < |rows| ==> rows[i].entityKey != rows[j].entityKey
  }

  /** Keys after a pass: the labelled ones plus distinct eligible ones, all of them unless
      the cap was reached. */
  ghost predicate KeyInvariant(eligible: set<string>, keys: set<string>, cap: int, s: Pass) {
    && s.keys == keys + KeysOf(s.rows)
    && KeysOf(s.rows) <= eligible
    && DistinctKeys(s.rows) && |KeysOf(s.rows)| == |s.rows|
    && |s.rows| <= (if cap < 0 then 0 else cap)
    && (|s.rows| < cap ==> KeysOf(s.rows) == eligible)
  }

  ghost predicate RowInvariant(candidates: seq<Prediction>, labelValue: int, s: Pass) {
    forall r :: r in s.rows ==> r.labelValue == labelValue && FromCandidate(candidates, r, labelValue)
  }

  ghost predicate PassInvariant(candidates: seq<Prediction>, keys: set<string>, cap: int, labelValue: int, s: Pass) {
    KeyInvariant(Eligible(candidates, keys, labelValue), keys, cap, s) && RowInvariant(candidates, labelValue, s)
  }

  ghost predicate FromCandidate(candidates: seq<Prediction>, r: Label, labelValue: int) {
    exists p :: p in candidates && p.id == r.predictionId && p.entityKey == r.entityKey && Confirmable(p, labelValue)
  }

  lemma KeysOfAppend(rows: seq<Label>, r: Label)
    ensures KeysOf(rows + [r]) == KeysOf(rows) + {r.entityKey}
  {
    assert forall x :: x in rows + [r] <==> x in rows || x == r;
  }

  lemma EligibleAppend(candidates: seq<Prediction>, p: Prediction, keys: set<string>, labelValue: int)
    ensures Eligible(candidates + [p], keys, labelValue) ==
              Eligible(candidates, keys, labelValue)
              + if p.entityKey !in keys && Confirmable(p, labelValue) then {p.entityKey} else {}
  {
    assert forall x :: x in candidates + [p] <==> x in candidates || x == p;
  }

  lemma CandidateAppend(candidates: seq<Prediction>, p: Prediction, r: Label, labelValue: int)
    ensures FromCandidate(candidates, r, labelValue) ==> FromCandidate(candidates + [p], r, labelValue)
    ensures p.id == r.predictionId && p.entityKey == r.entityKey && Confirmable(p, labelValue) ==>
              FromCandidate(candidates + [p], r, labelValue)
  {
    assert p in candidates + [p];
  }

  lemma TakeStep(eligible: set<string>, keys: set<string>, cap: int, s: Pass, r: Label)
    requires KeyInvariant(eligible, keys, cap, s)
    requires |s.rows| < cap && r.entityKey !in s.keys
    ensures KeyInvariant(eligible + {r.entityKey}, keys, cap, Pass(s.rows + [r], s.keys + {r.entityKey}, s.skipped))
  {
    hide KeysOf, DistinctKeys;
    KeysOfAppend(s.rows, r);
    NewKeyIsDistinct(s.rows, r);
  }

  lemma NewKeyIsDistinct(rows: seq<Label>, r: Label)
    requires DistinctKeys(rows) && r.entityKey !in KeysOf(rows)
    ensures DistinctKeys(rows + [r])
  {
    forall i | 0 <= i < |rows| ensures rows[i].entityKey != r.entityKey {
      assert rows[i].entityKey in KeysOf(rows);
    }
  }

  lemma KeyStep(eligible: set<string>, keys: set<string>, cap: int, labelValue: int, s: Pass, p: Prediction)
    requires KeyInvariant(eligible, keys, cap, s) && eligible !! keys
    ensures KeyInvariant(eligible + if p.entityKey !in keys && Confirmable(p, labelValue) then {p.entityKey} else {},
                         keys, cap, Step(s, p, cap, labelValue))
  {
    hide Confirmable, KeysOf, DistinctKeys;
    var more := if p.entityKey !in keys && Confirmable(p, labelValue) then {p.entityKey} else {};
    if |s.rows| < cap {
      if p.entityKey in s.keys || !Confirmable(p, labelValue) {
        assert eligible + more == eligible;
      } else {
        TakeStep(eligible, keys, cap, s, Label(p.id, p.entityKey, labelValue));
      }
    } else {
      assert KeysOf(s.rows) <= eligible + more;
    }
  }

  lemma RowStep(candidates: seq<Prediction>, cap: int, labelValue: int, s: Pass, p: Prediction)
    requires RowInvariant(candidates, labelValue, s)
    ensures RowInvariant(candidates + [p], labelValue, Step(s, p, cap, labelValue))
  {
    hide Confirmable, FromCandidate;
    var r := Label(p.id, p.entityKey, labelValue);
    CandidateAppend(candidates, p, r, labelValue);
    forall x | x in s.rows ensures FromCandidate(candidates + [p], x, labelValue) {
      CandidateAppend(candidates, p, x, labelValue);
    }
  }

  lemma {:induction false} PassKeepsInvariant(candidates: seq<Prediction>, keys: set<string>, cap: int, labelValue: int)
    ensures PassInvariant(candidates, keys, cap, labelValue, Selected(candidates, keys, cap, labelValue))
  {
    if candidates == [] {
      assert KeysOf([]) == {} && Eligible(candidates, keys, labelValue) == {};
    } else {
      var init, p := candidates[..|candidates| - 1], candidates[|candidates| - 1];
      PassKeepsInvariant(init, keys, cap, labelValue);
      var s := Selected(init, keys, cap, labelValue);
      EligibleAppend(init, p, keys, labelValue);
      KeyStep(Eligible(init, keys, labelValue), keys, cap, labelValue, s, p);
      RowStep(init, cap, labelValue, s, p);
      hide KeyInvariant, RowInvariant, Step, Eligible;
      assert candidates == init + [p];
    }
  }

  function Quota(cap: int, available: nat): nat {
    if cap <= 0 then 0 else if cap < available then cap else available
  }

  /** A pass writes exactly min(cap, eligible keys) rows, none for a cap below 0, one per key,
      each confirmable and none for a key that was labelled before. */
  lemma SelectionIsExact(candidates: seq<Prediction>, keys: set<string>, cap: int, labelValue: int)
    ensures var s := Selected(candidates, keys, cap, labelValue);
            && |s.rows| == Quota(cap, |Eligible(candidates, keys, labelValue)|)
            && DistinctKeys(s.rows)
            && KeysOf(s.rows) <= Eligible(candidates, keys, labelValue) && KeysOf(s.rows) !! keys
            && forall r :: r in s.rows ==> r.labelValue == labelValue && FromCandidate(candidates, r, labelValue)
  {
    var s, e := Selected(candidates, keys, cap, labelValue), Eligible(candidates, keys, labelValue);
    assert e !! keys;
    PassKeepsInvariant(candidates, keys, cap, labelValue);
    hide Selected, Eligible, KeysOf, DistinctKeys, FromCandidate;
    SubsetSize(KeysOf(s.rows), e);
  }

  /** Which candidate a row was made from: the first with an unlabelled key, not taken before,
      that can be confirmed. Every such key before it is among the rows before this one. */
  lemma {:induction false} SelectedAt(candidates: seq<Prediction>, keys: set<string>, cap: int, labelValue: int, i: nat)
    returns (p: nat)
    requires i < |Selected(candidates, keys, cap, labelValue).rows|
    ensures var rows := Selected(candidates, keys, cap, labelValue).rows;
            && p < |candidates| && rows[i] == Label(candidates[p].id, candidates[p].entityKey, labelValue)
            && Confirmable(candidates[p], labelValue) && candidates[p].entityKey !in keys
            && Selected(candidates[..p], keys, cap, labelValue).rows == rows[..i]
            && KeysOf(rows[..i]) == Eligible(candidates[..p], keys, labelValue)
            && candidates[p].entityKey !in KeysOf(rows[..i])
  {
    var n := |candidates| - 1;
    var before := Selected(candidates[..n], keys, cap, labelValue);
    if i < |before.rows| {
      p := SelectedAt(candidates[..n], keys, cap, labelValue, i);
      assert candidates[..n][..p] == candidates[..p];
      assert Selected(candidates, keys, cap, labelValue).rows[..i] == before.rows[..i];
    } else {
      p := n;
      PassKeepsInvariant(candidates[..n], keys, cap, labelValue);
      hide Eligible, KeysOf, Confirmable, DistinctKeys;
    }
  }

  /** A prediction confirms fraud if it has one of eight reason codes, and confirms a benign
      entity if it has none of them and no risk flag. */
  lemma ConfirmableExactly(p: Prediction)
    ensures Confirmable(p, 1) <==>
              || "CAMPAIGN_LINKED" in p.reasonCodes || "SIM_SWAP_SIGNAL" in p.reasonCodes
              || "DDOS_ALERT_ACTIVE" in p.reasonCodes || "VPN_INFRA_REUSE" in p.reasonCodes
              || "DDOS_INFRA_REUSE" in p.reasonCodes || "GNN_RISK_CRITICAL" in p.reasonCodes
              || "GNN_RISK_HIGH" in p.reasonCodes || "PHISHING_SIGNAL" in p.reasonCodes
    ensures Confirmable(p, 0) <==> !Confirmable(p, 1) && p.riskFlags == {}
  {
    var hits := p.reasonCodes * CONFIRMED_CODES;
    if c :| c in hits { }
    assert "CAMPAIGN_LINKED" in p.reasonCodes ==> "CAMPAIGN_LINKED" in hits;
    assert "SIM_SWAP_SIGNAL" in p.reasonCodes ==> "SIM_SWAP_SIGNAL" in hits;
    assert "DDOS_ALERT_ACTIVE" in p.reasonCodes ==> "DDOS_ALERT_ACTIVE" in hits;
    assert "VPN_INFRA_REUSE" in p.reasonCodes ==> "VPN_INFRA_REUSE" in hits;
    assert "DDOS_INFRA_REUSE" in p.reasonCodes ==> "DDOS_INFRA_REUSE" in hits;
    assert "GNN_RISK_CRITICAL" in p.reasonCodes ==> "GNN_RISK_CRITICAL" in hits;
    assert "GNN_RISK_HIGH" in p.reasonCodes ==> "GNN_RISK_HIGH" in hits;
    assert "PHISHING_SIGNAL" in p.reasonCodes ==> "PHISHING_SIGNAL" in hits;
  }

  // ----- Runs -----

  datatype Run = Run(positives: seq<Prediction>, negatives: seq<Prediction>, maxPositives: int, maxNegatives: int, dryRun: bool)

  /** The rows one run of seed_gold_labels would insert. */
  function Seeds(table: seq<Label>, run: Run): seq<Label> {
    var pos := Selected(run.positives, ExistingKeys(table), run.maxPositives, 1);
    pos.rows + Selected(run.negatives, pos.keys, run.maxNegatives, 0).rows
  }

  /** Candidates both passes met before their cap whose key already had a label. */
  function Skips(table: seq<Label>, run: Run): nat {
    var pos := Selected(run.positives, ExistingKeys(table), run.maxPositives, 1);
    pos.skipped + Selected(run.negatives, pos.keys, run.maxNegatives, 0).skipped
  }

  function Seeded(table: seq<Label>, run: Run): seq<Label> {
    if run.dryRun then table else table + Seeds(table, run)
  }

  method SeedGoldLabels(table: seq<Label>, run: Run) returns (table': seq<Label>, written: nat, skipped: nat)
    ensures table' == Seeded(table, run) && written == |Seeds(table, run)| && skipped == Skips(table, run)
  {
    var rows, keys, skippedPos := BuildRows(run.positives, ExistingKeys(table), run.maxPositives, 1);
    var more, _, skippedNeg := BuildRows(run.negatives, keys, run.maxNegatives, 0);
    table' := if run.dryRun then table else table + (rows + more);
    written, skipped := |rows| + |more|, skippedPos + skippedNeg;
  }

  function TableAfter(table: seq<Label>, runs: seq<Run>): seq<Label> {
    if runs == [] then table else Seeded(TableAfter(table, runs[..|runs| - 1]), runs[|runs| - 1])
  }

  /** The rows the seeder added are one per key and never for a key labelled from the start. */
  ghost predicate AddedOncePerKey(table: seq<Label>, after: seq<Label>) {
    && table <= after
    && DistinctKeys(after[|table|..])
    && (forall r, x :: r in table && (r.labelValue == 0 || r.labelValue == 1) && x in after[|table|..] ==>
          x.entityKey != r.entityKey)
    && forall r :: r in after[|table|..] ==> r.labelValue == 0 || r.labelValue == 1
  }

  /** Positives and negatives of one run never share a key, nor touch a labelled one. */
  lemma SeedsAreExclusive(table: seq<Label>, run: Run)
    ensures DistinctKeys(Seeds(table, run)) && KeysOf(Seeds(table, run)) !! ExistingKeys(table)
    ensures forall r :: r in Seeds(table, run) ==> r.labelValue == 0 || r.labelValue == 1
  {
    hide Selected;
    var keys := ExistingKeys(table);
    var pos := Selected(run.positives, keys, run.maxPositives, 1);
    var neg := Selected(run.negatives, pos.keys, run.maxNegatives, 0);
    PassKeepsInvariant(run.positives, keys, run.maxPositives, 1);
    PassKeepsInvariant(run.negatives, pos.keys, run.maxNegatives, 0);
    JoinDistinct(pos.rows, neg.rows);
  }

  /** How many rows a run adds: the positive cap bounds the positives, the negative cap the
      negatives, and a key made positive is no longer eligible as negative. */
  lemma SeedCounts(table: seq<Label>, run: Run)
    ensures var rows := Seeds(table, run);
            var pos := Quota(run.maxPositives, |Eligible(run.positives, ExistingKeys(table), 1)|);
            && pos <= |rows|
            && (forall i :: 0 <= i < pos ==> rows[i].labelValue == 1)
            && (forall i :: pos <= i < |rows| ==> rows[i].labelValue == 0)
            && |rows| - pos ==
                 Quota(run.maxNegatives, |Eligible(run.negatives, ExistingKeys(table) + KeysOf(rows[..pos]), 0)|)
  {
    var keys := ExistingKeys(table);
    var first := Selected(run.positives, keys, run.maxPositives, 1);
    var second := Selected(run.negatives, first.keys, run.maxNegatives, 0);
    SelectionIsExact(run.positives, keys, run.maxPositives, 1);
    SelectionIsExact(run.negatives, first.keys, run.maxNegatives, 0);
    PassKeepsInvariant(run.positives, keys, run.maxPositives, 1);
    hide Selected, Eligible, KeysOf, ExistingKeys, Quota, DistinctKeys, FromCandidate;
    var rows := first.rows + second.rows;
    assert rows[..|first.rows|] == first.rows;
    forall i | 0 <= i < |first.rows| ensures rows[i].labelValue == 1 { assert first.rows[i] in first.rows; }
    forall i | |first.rows| <= i < |rows| ensures rows[i].labelValue == 0 { assert second.rows[i - |first.rows|] in second.rows; }
  }

  lemma JoinDistinct(a: seq<Label>, b: seq<Label>)
    requires DistinctKeys(a) && DistinctKeys(b) && KeysOf(a) !! KeysOf(b)
    ensures DistinctKeys(a + b) && KeysOf(a + b) == KeysOf(a) + KeysOf(b)
  {
    forall r ensures r in a + b <==> r in a || r in b { }
    forall i, j | 0 <= i < |a| && 0 <= j < |b| ensures a[i].entityKey != b[j].entityKey {
      assert a[i].entityKey in KeysOf(a) && b[j].entityKey in KeysOf(b);
    }
  }

  lemma ExistingGrows(table: seq<Label>, more: seq<Label>)
    requires forall r :: r in more ==> r.labelValue == 0 || r.labelValue == 1
    ensures ExistingKeys(table + more) == ExistingKeys(table) + KeysOf(more)
  {
    forall r ensures r in table + more <==> r in table || r in more { }
  }

  ghost predicate AddedApart(table: seq<Label>, after: seq<Label>) {
    && table <= after
    && DistinctKeys(after[|table|..]) && KeysOf(after[|table|..]) !! ExistingKeys(table)
    && forall r :: r in after[|table|..] ==> r.labelValue == 0 || r.labelValue == 1
  }

  /** Over any number of re-runs the seeder adds at most one label per entity key, and never
      one for a key already labelled 0 or 1. */
  lemma OneLabelPerKey(table: seq<Label>, runs: seq<Run>)
    ensures AddedOncePerKey(table, TableAfter(table, runs))
  {
    AlwaysApart(table, runs);
    hide TableAfter;
    forall r, x | r in table && (r.labelValue == 0 || r.labelValue == 1) && x in TableAfter(table, runs)[|table|..]
      ensures x.entityKey != r.entityKey
    {
      assert r.entityKey in ExistingKeys(table) && x.entityKey in KeysOf(TableAfter(table, runs)[|table|..]);
    }
  }

  lemma {:induction false} AlwaysApart(table: seq<Label>, runs: seq<Run>)
    ensures AddedApart(table, TableAfter(table, runs))
  {
    if runs == [] {
      assert table[|table|..] == [];
    } else {
      AlwaysApart(table, runs[..|runs| - 1]);
      var before, run := TableAfter(table, runs[..|runs| - 1]), runs[|runs| - 1];
      var added, more := before[|table|..], Seeds(before, run);
      if !run.dryRun {
        SeedsAreExclusive(before, run);
        assert before == table + added;
        ExistingGrows(table, added);
        JoinDistinct(added, more);
        hide Seeds, KeysOf, ExistingKeys, DistinctKeys;
        assert (before + more)[|table|..] == added + more;
        forall r ensures r in added + more <==> r in added || r in more { }
      }
    }
  }
}
