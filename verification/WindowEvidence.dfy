/** Multi-window scientific evidence: the newest training run of each window, then the
    reported windows with distinct signatures and the status drawn from their counts. */
module WindowEvidence {
  import opened Arithmetic
  import opened Options

  /** score is the scientific score rounded to three decimals. */
  datatype TrainingRun = TrainingRun(
    windowKey: string, windowEnd: int, createdAt: int,
    nodeCount: int, edgeCount: int, positiveCount: int,
    holdoutPositive: Option<int>, holdoutNegative: Option<int>, score: real,
    benchmarkable: bool, fairnessBlocked: bool, realDataGatePassed: bool,
    auc: Option<real>, operatingF1: Option<real>)

  datatype WindowId = WindowId(windowKey: string, windowEnd: int)

  function WindowOf(r: TrainingRun): WindowId {
    WindowId(r.windowKey, r.windowEnd)
  }

  // ----- _recent_distinct_window_runs -----

  predicate HasWindow(rs: seq<TrainingRun>, w: WindowId) {
    exists x :: x in rs && WindowOf(x) == w
  }

  function FirstPerWindow(rows: seq<TrainingRun>): seq<TrainingRun> {
    if rows == [] then []
    else
      var before, r := FirstPerWindow(rows[..|rows| - 1]), rows[|rows| - 1];
      if HasWindow(before, WindowOf(r)) then before else before + [r]
  }

  function Cut(rows: seq<TrainingRun>, limit: int): seq<TrainingRun> {
    if |rows| <= AtLeastOne(limit) then rows else rows[..AtLeastOne(limit)]
  }

  ghost predicate Recorded(seen: set<WindowId>, rs: seq<TrainingRun>) {
    forall w :: w in seen <==> HasWindow(rs, w)
  }

  lemma RecordedAt(seen: set<WindowId>, rs: seq<TrainingRun>, r: TrainingRun)
    requires Recorded(seen, rs)
    ensures WindowOf(r) in seen <==> HasWindow(rs, WindowOf(r))
    ensures Recorded(seen + {WindowOf(r)}, rs + [r])
  {
    WindowAppend(rs, r);
  }

  method RecentDistinctWindowRuns(rows: seq<TrainingRun>, limit: int) returns (distinct: seq<TrainingRun>)
    ensures distinct == Cut(FirstPerWindow(rows), limit)
  {
    distinct := [];
    var seen: set<WindowId> := {};
    assert Recorded(seen, distinct);
    hide HasWindow, WindowOf, Recorded, Cut, FirstPerWindow;
    var n := 0;
    FirstOfNone(rows);
    while n < |rows|
      invariant n <= |rows|
      invariant distinct == FirstPerWindow(rows[..n])
      invariant Recorded(seen, distinct)
      invariant |distinct| < limit || distinct == []
    {
      var r := rows[n];
      RecordedAt(seen, distinct, r);
      FirstStep(rows, n);
      n := n + 1;
      if WindowOf(r) !in seen {
        seen := seen + {WindowOf(r)};
        distinct := distinct + [r];
        if |distinct| >= limit {
          PrefixOfFirst(rows, n);
          CutAt(distinct, FirstPerWindow(rows), limit);
          return;
        }
      }
    }
    assert rows[..n] == rows;
    CutAt(distinct, distinct, limit);
  }

  lemma FirstOfNone(rows: seq<TrainingRun>)
    ensures FirstPerWindow(rows[..0]) == []
  {
  }

  lemma FirstStep(rows: seq<TrainingRun>, n: nat)
    requires n < |rows|
    ensures FirstPerWindow(rows[..n + 1]) ==
              if HasWindow(FirstPerWindow(rows[..n]), WindowOf(rows[n])) then FirstPerWindow(rows[..n])
              else FirstPerWindow(rows[..n]) + [rows[n]]
  {
    assert rows[..n + 1][..n] == rows[..n];
  }

  /** A prefix that either is everything within the limit or just reached it. */
  lemma CutAt(kept: seq<TrainingRun>, all: seq<TrainingRun>, limit: int)
    requires kept <= all
    requires if |kept| < limit || kept == [] then kept == all else |kept| == AtLeastOne(limit)
    ensures kept == Cut(all, limit)
  {
  }

  lemma {:induction false} PrefixOfFirst(rows: seq<TrainingRun>, n: nat)
    requires n <= |rows|
    ensures FirstPerWindow(rows[..n]) <= FirstPerWindow(rows)
  {
    if n < |rows| {
      assert rows[..|rows| - 1][..n] == rows[..n];
      PrefixOfFirst(rows[..|rows| - 1], n);
    } else {
      assert rows[..n] == rows;
    }
  }

  ghost predicate DistinctWindows(rs: seq<TrainingRun>) {
    forall i, j :: 0 <= i < j < |rs| ==> WindowOf(rs[i]) != WindowOf(rs[j])
  }

  ghost predicate NewestFirst(rs: seq<TrainingRun>) {
    forall i, j :: 0 <= i < j < |rs| ==> rs[i].createdAt >= rs[j].createdAt
  }

  /** r is a scanned run and no scanned run of its window is newer. */
  ghost predicate NewestOfItsWindow(rows: seq<TrainingRun>, r: TrainingRun) {
    r in rows && forall x :: x in rows && WindowOf(x) == WindowOf(r) ==> x.createdAt <= r.createdAt
  }

  lemma WindowAppend(rs: seq<TrainingRun>, r: TrainingRun)
    ensures forall w :: HasWindow(rs + [r], w) <==> HasWindow(rs, w) || w == WindowOf(r)
  {
    forall w ensures HasWindow(rs + [r], w) <==> HasWindow(rs, w) || w == WindowOf(r) {
      assert forall x :: x in rs + [r] <==> x in rs || x == r;
    }
  }

  lemma {:induction false} FirstIsDistinct(rows: seq<TrainingRun>)
    ensures DistinctWindows(FirstPerWindow(rows))
    ensures forall w :: HasWindow(FirstPerWindow(rows), w) <==> HasWindow(rows, w)
    ensures forall r :: r in FirstPerWindow(rows) ==> r in rows
  {
    if rows != [] {
      var init, last := rows[..|rows| - 1], rows[|rows| - 1];
      FirstIsDistinct(init);
      assert rows == init + [last];
      WindowAppend(init, last);
      WindowAppend(FirstPerWindow(init), last);
      var before := FirstPerWindow(init);
      if !HasWindow(before, WindowOf(last)) {
        forall i | 0 <= i < |before| ensures WindowOf(before[i]) != WindowOf(last) {
          assert before[i] in before;
        }
      }
      hide HasWindow;
    }
  }

  lemma {:induction false} FirstIsNewest(rows: seq<TrainingRun>, r: TrainingRun)
    requires NewestFirst(rows) && r in FirstPerWindow(rows)
    ensures NewestOfItsWindow(rows, r)
  {
    var init, last := rows[..|rows| - 1], rows[|rows| - 1];
    assert rows == init + [last];
    FirstIsDistinct(init);
    if r in FirstPerWindow(init) {
      FirstIsNewest(init, r);
      var i :| 0 <= i < |init| && init[i] == r;
      assert rows[i].createdAt >= rows[|rows| - 1].createdAt;
    } else {
      assert r == last && !HasWindow(init, WindowOf(r));
    }
  }

  lemma {:induction false} FirstStaysSorted(rows: seq<TrainingRun>)
    requires NewestFirst(rows)
    ensures NewestFirst(FirstPerWindow(rows))
  {
    if rows != [] {
      var init, last := rows[..|rows| - 1], rows[|rows| - 1];
      FirstStaysSorted(init);
      FirstIsDistinct(init);
      var before := FirstPerWindow(init);
      hide FirstPerWindow, HasWindow;
      forall j | 0 <= j < |before| ensures before[j].createdAt >= last.createdAt {
        assert before[j] in init;
        var i :| 0 <= i < |init| && init[i] == before[j];
        assert rows[i].createdAt >= rows[|rows| - 1].createdAt;
      }
      FirstUnfolds(rows);
    }
  }

  lemma FirstUnfolds(rows: seq<TrainingRun>)
    requires rows != []
    ensures var before := FirstPerWindow(rows[..|rows| - 1]);
            FirstPerWindow(rows) == before || FirstPerWindow(rows) == before + [rows[|rows| - 1]]
  {
  }

  /** With rows scanned newest first: one run per window, each the newest scanned for its
      window, newest first, at most `limit`; below the limit no window is missing. */
  lemma SelectedRuns(rows: seq<TrainingRun>, limit: int)
    requires NewestFirst(rows)
    ensures var rs := Cut(FirstPerWindow(rows), limit);
            && DistinctWindows(rs) && NewestFirst(rs) && |rs| <= AtLeastOne(limit)
            && (forall r :: r in rs ==> NewestOfItsWindow(rows, r))
            && (|rs| < limit ==> forall w :: HasWindow(rows, w) ==> HasWindow(rs, w))
  {
    hide FirstPerWindow, NewestOfItsWindow, HasWindow;
    FirstIsDistinct(rows);
    FirstStaysSorted(rows);
    forall r | r in FirstPerWindow(rows) ensures NewestOfItsWindow(rows, r) {
      FirstIsNewest(rows, r);
    }
  }

  // ----- _build_scientific_evidence -----

  datatype Signature = Signature(nodes: int, edges: int, positives: int, holdoutPositive: int, holdoutNegative: int, score: real)

  function OrZero(x: Option<int>): int {
    if x.Some? then x.value else 0
  }

  function SignatureOf(r: TrainingRun): Signature {
    Signature(r.nodeCount, r.edgeCount, r.positiveCount, OrZero(r.holdoutPositive), OrZero(r.holdoutNegative), r.score)
  }

  predicate DualClass(r: TrainingRun) {
    OrZero(r.holdoutPositive) > 0 && OrZero(r.holdoutNegative) > 0
  }

  predicate ClassThin(r: TrainingRun) {
    OrZero(r.holdoutPositive) < 3 || OrZero(r.holdoutNegative) < 3
  }

  predicate Eligible(r: TrainingRun) {
    r.benchmarkable && !r.fairnessBlocked && r.realDataGatePassed
  }

  datatype Status = Missing | Strong | Moderate | Weak | Limited

  datatype Evidence = Evidence(
    windows: seq<TrainingRun>, eligible: nat, benchmarkable: nat, dualClass: nat, classThin: nat,
    aucs: seq<real>, f1s: seq<real>)

  function Add(e: Evidence, r: TrainingRun): Evidence {
    Evidence(e.windows + [r],
             e.eligible + (if Eligible(r) then 1 else 0),
             e.benchmarkable + (if r.benchmarkable then 1 else 0),
             e.dualClass + (if DualClass(r) then 1 else 0),
             e.classThin + (if ClassThin(r) then 1 else 0),
             if DualClass(r) && r.auc.Some? then e.aucs + [r.auc.value] else e.aucs,
             if r.operatingF1.Some? then e.f1s + [r.operatingF1.value] else e.f1s)
  }

  const NOTHING: Evidence := Evidence([], 0, 0, 0, 0, [], [])

  predicate HasSignature(rs: seq<TrainingRun>, g: Signature) {
    exists x :: x in rs && SignatureOf(x) == g
  }

  /** Runs repeating an earlier signature are passed over. */
  function Collected(rs: seq<TrainingRun>): Evidence {
    if rs == [] then NOTHING
    else
      var e, r := Collected(rs[..|rs| - 1]), rs[|rs| - 1];
      if HasSignature(e.windows, SignatureOf(r)) then e else Add(e, r)
  }

  function Sum(xs: seq<real>): real {
    if xs == [] then 0.0 else Sum(xs[..|xs| - 1]) + xs[|xs| - 1]
  }

  function Mean(xs: seq<real>): Option<real> {
    if xs == [] then None else Some(Sum(xs) / |xs| as real)
  }

  function StatusOf(e: Evidence): Status {
    var auc, f1 := Mean(e.aucs), Mean(e.f1s);
    if e.eligible >= 3 && e.dualClass >= 3 && auc.Some? && auc.value >= 0.75 then Strong
    else if e.eligible >= 2 && e.dualClass >= 2 && f1.Some? && f1.value >= 0.8 then Moderate
    else if e.dualClass == 0 || e.classThin == |e.windows| then Weak
    else Limited
  }

  /** The evidence drawn from the scanned rows. */
  function EvidenceFrom(rows: seq<TrainingRun>, limit: int): Evidence {
    Collected(Cut(FirstPerWindow(rows), AtLeastOne(limit)))
  }

  function ReportedStatus(rows: seq<TrainingRun>, limit: int): Status {
    if rows == [] then Missing else StatusOf(EvidenceFrom(rows, limit))
  }

  method BuildScientificEvidence(rows: seq<TrainingRun>, limit: int) returns (e: Evidence, status: Status)
    ensures e == EvidenceFrom(rows, limit) && status == ReportedStatus(rows, limit)
  {
    var rs := RecentDistinctWindowRuns(rows, AtLeastOne(limit));
    SomeRun(rows);
    e := NOTHING;
    if rs == [] { return NOTHING, Missing; }
    var seen: set<Signature> := {};
    var n := 0;
    while n < |rs|
      invariant n <= |rs|
      invariant e == Collected(rs[..n])
      invariant forall g :: g in seen <==> HasSignature(e.windows, g)
    {
      var r := rs[n];
      assert rs[..n + 1][..n] == rs[..n];
      if SignatureOf(r) !in seen {
        SignatureAppend(e.windows, r);
        seen := seen + {SignatureOf(r)};
        e := Add(e, r);
      }
      n := n + 1;
    }
    assert rs[..n] == rs;
    status := StatusOf(e);
  }

  lemma {:induction false} SomeRun(rows: seq<TrainingRun>)
    ensures rows != [] <==> FirstPerWindow(rows) != []
  {
    if |rows| > 1 { SomeRun(rows[..|rows| - 1]); }
    else if |rows| == 1 { assert rows[..0] == []; }
  }

  function Count(rs: seq<TrainingRun>, p: TrainingRun -> bool): nat {
    if rs == [] then 0 else Count(rs[..|rs| - 1], p) + if p(rs[|rs| - 1]) then 1 else 0
  }

  ghost predicate DistinctSignatures(rs: seq<TrainingRun>) {
    forall i, j :: 0 <= i < j < |rs| ==> SignatureOf(rs[i]) != SignatureOf(rs[j])
  }

  lemma SignatureAppend(rs: seq<TrainingRun>, r: TrainingRun)
    ensures forall g :: HasSignature(rs + [r], g) <==> HasSignature(rs, g) || g == SignatureOf(r)
  {
    forall g ensures HasSignature(rs + [r], g) <==> HasSignature(rs, g) || g == SignatureOf(r) {
      assert forall x :: x in rs + [r] <==> x in rs || x == r;
    }
  }

  predicate Benchmarkable(r: TrainingRun) {
    r.benchmarkable
  }

  /** The reported windows have distinct signatures and leave no signature out. */
  lemma {:induction false} WindowsAreDistinct(rs: seq<TrainingRun>)
    ensures var e := Collected(rs);
            && DistinctSignatures(e.windows)
            && (forall r :: r in e.windows ==> r in rs)
            && (forall g :: HasSignature(e.windows, g) <==> HasSignature(rs, g))
  {
    if rs != [] {
      var init, last := rs[..|rs| - 1], rs[|rs| - 1];
      WindowsAreDistinct(init);
      assert rs == init + [last];
      var ws := Collected(init).windows;
      SignatureAppend(init, last);
      SignatureAppend(ws, last);
      if !HasSignature(ws, SignatureOf(last)) {
        forall i | 0 <= i < |ws| ensures SignatureOf(ws[i]) != SignatureOf(last) {
          assert ws[i] in ws;
        }
      }
      hide HasSignature, SignatureOf;
    }
  }

  /** The counters count the reported windows. */
  lemma {:induction false} CountersAreExact(rs: seq<TrainingRun>)
    ensures var e := Collected(rs);
            && e.eligible == Count(e.windows, Eligible) && e.dualClass == Count(e.windows, DualClass)
            && e.classThin == Count(e.windows, ClassThin) && e.benchmarkable == Count(e.windows, Benchmarkable)
  {
    hide HasSignature;
    if rs != [] {
      CountersAreExact(rs[..|rs| - 1]);
      var ws, last := Collected(rs[..|rs| - 1]).windows, rs[|rs| - 1];
      assert (ws + [last])[..|ws|] == ws;
    }
  }

  /** eligible <= benchmarkable <= reported, and every window is dual-class or class-thin. */
  lemma {:induction false} CountersAreOrdered(rs: seq<TrainingRun>)
    ensures var e := Collected(rs);
            && e.eligible <= e.benchmarkable <= |e.windows| <= |rs|
            && e.dualClass <= |e.windows| && e.classThin <= |e.windows| <= e.dualClass + e.classThin
            && |e.aucs| <= e.dualClass
  {
    if rs != [] { CountersAreOrdered(rs[..|rs| - 1]); }
  }

  lemma {:induction false} SomeWindow(rs: seq<TrainingRun>)
    requires rs != []
    ensures Collected(rs).windows != []
  {
    if |rs| > 1 {
      SomeWindow(rs[..|rs| - 1]);
    } else {
      assert rs[..0] == [];
    }
  }

  /** Without a dual-class window, and with any run scanned at all, some window is reported, all
      reported windows are class-thin, and the evidence is called weak. */
  lemma NoDualClassIsWeak(rows: seq<TrainingRun>, limit: int)
    requires rows != [] && EvidenceFrom(rows, limit).dualClass == 0
    ensures var e := EvidenceFrom(rows, limit);
            ReportedStatus(rows, limit) == Weak && e.windows != [] && e.classThin == |e.windows|
  {
    var rs := Cut(FirstPerWindow(rows), AtLeastOne(limit));
    SomeRun(rows);
    hide FirstPerWindow, Collected;
    SomeWindow(rs);
    CountersAreOrdered(rs);
  }

  /** No run at all is the only way to a missing status. */
  lemma MissingExactly(rows: seq<TrainingRun>, limit: int)
    ensures ReportedStatus(rows, limit) == Missing <==> EvidenceFrom(rows, limit).windows == []
  {
    var rs := Cut(FirstPerWindow(rows), AtLeastOne(limit));
    SomeRun(rows);
    if rows == [] {
      assert FirstPerWindow(rows) == [] && Collected([]).windows == [];
    } else {
      hide FirstPerWindow, Collected;
      SomeWindow(rs);
    }
  }

  /** Strong evidence rests on at least three eligible and three dual-class windows with
      pairwise distinct windows and signatures. */
  lemma StrongNeedsThree(rows: seq<TrainingRun>, limit: int)
    requires NewestFirst(rows) && ReportedStatus(rows, limit) == Strong
    ensures var e := EvidenceFrom(rows, limit);
            && Count(e.windows, Eligible) >= 3 && Count(e.windows, DualClass) >= 3
            && DistinctSignatures(e.windows) && |e.windows| <= AtLeastOne(limit) && limit >= 3
            && forall r :: r in e.windows ==> NewestOfItsWindow(rows, r)
  {
    hide Collected, FirstPerWindow, Count, NewestOfItsWindow, HasWindow, HasSignature, StatusOf, DistinctSignatures;
    var rs := Cut(FirstPerWindow(rows), AtLeastOne(limit));
    SelectedRuns(rows, AtLeastOne(limit));
    StrongCounts(Collected(rs));
    WindowsAreDistinct(rs);
    CountersAreExact(rs);
    CountersAreOrdered(rs);
  }

  lemma StrongCounts(e: Evidence)
    requires StatusOf(e) == Strong
    ensures e.eligible >= 3 && e.dualClass >= 3
  {
  }
}
