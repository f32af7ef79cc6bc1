/** The scientific evidence in terms of the figures of the scanned runs. */
module EvidenceMeaning {
  import opened Arithmetic
  import opened Options
  import opened Sums
  import opened WindowEvidence

  // ----- Selection -----

  predicate SameWindow(r: TrainingRun, x: TrainingRun) {
    r.windowKey == x.windowKey && r.windowEnd == x.windowEnd
  }

  /** The i-th selected run is the first scanned of its window, and comes after exactly the runs
      selected before it. */
  lemma {:induction false} SelectedAt(rows: seq<TrainingRun>, i: nat) returns (p: nat)
    requires i < |FirstPerWindow(rows)|
    ensures p < |rows| && rows[p] == FirstPerWindow(rows)[i]
    ensures forall j :: 0 <= j < p ==> !SameWindow(rows[j], rows[p])
    ensures FirstPerWindow(rows[..p]) == FirstPerWindow(rows)[..i]
  {
    var n := |rows| - 1;
    if i < |FirstPerWindow(rows[..n])| {
      p := SelectedAt(rows[..n], i);
      assert rows[..n][..p] == rows[..p];
    } else {
      p := n;
      FirstIsDistinct(rows[..n]);
      forall j | 0 <= j < n ensures !SameWindow(rows[j], rows[n]) {
        assert rows[..n][j] in rows[..n];
        assert WindowOf(rows[j]) != WindowOf(rows[n]);
      }
    }
  }

  lemma SelectedCount(rows: seq<TrainingRun>, limit: int)
    ensures var all, rs := FirstPerWindow(rows), Cut(FirstPerWindow(rows), limit);
            rs <= all && |rs| == (if limit >= 1 && limit < |all| then limit else if limit < 1 && |all| > 1 then 1 else |all|)
  {
    hide FirstPerWindow;
  }

  // ----- Reported windows -----

  /** x holds a count above zero. */
  predicate Positive(x: Option<int>) {
    x.Some? && x.value > 0
  }

  predicate BelowThree(x: Option<int>) {
    x.None? || x.value < 3
  }

  /** Equal holdout counts, an absent one counting as zero. */
  predicate SameCount(x: Option<int>, y: Option<int>) {
    || (x.Some? && y.Some? && x.value == y.value) || (x.None? && y.None?)
    || (x.None? && y == Some(0)) || (y.None? && x == Some(0))
  }

  /** The six figures by which runs are told apart. */
  predicate SameFigures(r: TrainingRun, x: TrainingRun) {
    && r.nodeCount == x.nodeCount && r.edgeCount == x.edgeCount && r.positiveCount == x.positiveCount
    && SameCount(r.holdoutPositive, x.holdoutPositive) && SameCount(r.holdoutNegative, x.holdoutNegative)
    && r.score == x.score
  }

  lemma FiguresAreSignature(r: TrainingRun, x: TrainingRun)
    ensures SameFigures(r, x) <==> SignatureOf(r) == SignatureOf(x)
  {
  }

  /** A run with a new signature has figures no earlier run has. */
  lemma NewFigures(rs: seq<TrainingRun>, r: TrainingRun)
    requires !HasSignature(Collected(rs).windows, SignatureOf(r))
    ensures forall x :: x in rs ==> !SameFigures(x, r)
  {
    hide Collected, SignatureOf, SameFigures;
    WindowsAreDistinct(rs);
    forall x | x in rs ensures !SameFigures(x, r) {
      FiguresAreSignature(x, r);
      assert !HasSignature(rs, SignatureOf(r));
    }
  }

  /** Window i is the first selected run with its figures, after exactly the windows before it. */
  lemma {:induction false} ReportedAt(rs: seq<TrainingRun>, i: nat) returns (p: nat)
    requires i < |Collected(rs).windows|
    ensures p < |rs| && rs[p] == Collected(rs).windows[i]
    ensures forall j :: 0 <= j < p ==> !SameFigures(rs[j], rs[p])
    ensures Collected(rs[..p]).windows == Collected(rs).windows[..i]
  {
    hide SignatureOf, SameFigures, HasSignature;
    var n := |rs| - 1;
    if i < |Collected(rs[..n]).windows| {
      p := ReportedAt(rs[..n], i);
      assert rs[..n][..p] == rs[..p];
    } else {
      p := n;
      NewFigures(rs[..n], rs[n]);
      forall j | 0 <= j < n ensures !SameFigures(rs[j], rs[n]) {
        assert rs[j] == rs[..n][j] && rs[..n][j] in rs[..n];
      }
    }
  }

  /** No two reported windows agree in all six figures, and every selected run agrees with one. */
  lemma FiguresAreDistinct(rs: seq<TrainingRun>)
    ensures var ws := Collected(rs).windows;
            && (forall i, j :: 0 <= i < j < |ws| ==> !SameFigures(ws[i], ws[j]))
            && forall r :: r in rs ==> exists w :: w in ws && SameFigures(r, w)
  {
    WindowsAreDistinct(rs);
    var ws := Collected(rs).windows;
    hide Collected, SignatureOf, SameFigures;
    forall i, j | 0 <= i < j < |ws| ensures !SameFigures(ws[i], ws[j]) { FiguresAreSignature(ws[i], ws[j]); }
    forall r | r in rs ensures exists w :: w in ws && SameFigures(r, w) {
      assert HasSignature(rs, SignatureOf(r));
      assert HasSignature(ws, SignatureOf(r));
      var w :| w in ws && SignatureOf(w) == SignatureOf(r);
      FiguresAreSignature(r, w);
    }
  }

  // ----- Counters -----

  ghost function Places(ws: seq<TrainingRun>, p: TrainingRun -> bool): set<int> {
    set i | 0 <= i < |ws| && p(ws[i])
  }

  lemma {:induction false} CountIsPlaces(ws: seq<TrainingRun>, p: TrainingRun -> bool)
    ensures Count(ws, p) == |Places(ws, p)|
  {
    if ws != [] {
      var n := |ws| - 1;
      CountIsPlaces(ws[..n], p);
      PlacesStep(ws, p);
      hide Places;
    }
  }

  lemma PlacesStep(ws: seq<TrainingRun>, p: TrainingRun -> bool)
    requires ws != []
    ensures |Places(ws, p)| == |Places(ws[..|ws| - 1], p)| + if p(ws[|ws| - 1]) then 1 else 0
  {
    var n := |ws| - 1;
    assert Places(ws, p) == Places(ws[..n], p) + if p(ws[n]) then {n} else {};
  }

  ghost function Reported(ws: seq<TrainingRun>): (set<int>, set<int>, set<int>, set<int>) {
    (set i | 0 <= i < |ws| && ws[i].benchmarkable && !ws[i].fairnessBlocked && ws[i].realDataGatePassed,
     set i | 0 <= i < |ws| && ws[i].benchmarkable,
     set i | 0 <= i < |ws| && Positive(ws[i].holdoutPositive) && Positive(ws[i].holdoutNegative),
     set i | 0 <= i < |ws| && (BelowThree(ws[i].holdoutPositive) || BelowThree(ws[i].holdoutNegative)))
  }

  /** Each counter counts the reported windows with its property: eligible ones are benchmarkable,
      not blocked, and past the data gate; dual-class ones have both holdout counts above zero;
      class-thin ones have one below three. */
  lemma CounterMeaning(rs: seq<TrainingRun>)
    ensures var e := Collected(rs);
            var (eligible, benchmarkable, dual, thin) := Reported(e.windows);
            e.eligible == |eligible| && e.benchmarkable == |benchmarkable| && e.dualClass == |dual| && e.classThin == |thin|
  {
    CountersAreExact(rs);
    var ws := Collected(rs).windows;
    CountIsPlaces(ws, Eligible);
    CountIsPlaces(ws, Benchmarkable);
    CountIsPlaces(ws, DualClass);
    CountIsPlaces(ws, ClassThin);
    hide Collected, Count;
    var (eligible, benchmarkable, dual, thin) := Reported(ws);
    assert Places(ws, Eligible) == eligible;
    assert Places(ws, Benchmarkable) == benchmarkable;
    assert Places(ws, DualClass) == dual;
    assert Places(ws, ClassThin) == thin;
  }

  // ----- Status -----

  /** The windows whose AUC counts: dual-class ones that have one. */
  predicate HasAuc(r: TrainingRun) {
    Positive(r.holdoutPositive) && Positive(r.holdoutNegative) && r.auc.Some?
  }

  predicate HasF1(r: TrainingRun) {
    r.operatingF1.Some?
  }

  ghost function AucOf(): TrainingRun -> real {
    (r: TrainingRun) => if HasAuc(r) then r.auc.value else 0.0
  }

  ghost function F1Of(): TrainingRun -> real {
    (r: TrainingRun) => if HasF1(r) then r.operatingF1.value else 0.0
  }

  lemma SumAppend(xs: seq<real>, x: real)
    ensures Sum(xs + [x]) == Sum(xs) + x
  {
    assert (xs + [x])[..|xs|] == xs;
  }

  lemma CountAppend(ws: seq<TrainingRun>, r: TrainingRun, p: TrainingRun -> bool)
    ensures Count(ws + [r], p) == Count(ws, p) + if p(r) then 1 else 0
  {
    assert (ws + [r])[..|ws|] == ws;
  }

  ghost predicate ListsMatch(e: Evidence) {
    && Sum(e.aucs) == RealTotal(e.windows, AucOf()) && |e.aucs| == Count(e.windows, HasAuc)
    && Sum(e.f1s) == RealTotal(e.windows, F1Of()) && |e.f1s| == Count(e.windows, HasF1)
  }

  lemma ListsStep(e: Evidence, r: TrainingRun)
    requires ListsMatch(e)
    ensures ListsMatch(Add(e, r))
  {
    RealTotalAppend(e.windows, r, AucOf());
    RealTotalAppend(e.windows, r, F1Of());
    CountAppend(e.windows, r, HasAuc);
    CountAppend(e.windows, r, HasF1);
    if HasAuc(r) { SumAppend(e.aucs, r.auc.value); }
    if HasF1(r) { SumAppend(e.f1s, r.operatingF1.value); }
    hide RealTotal, Count, Sum;
  }

  lemma {:induction false} ListsAlwaysMatch(rs: seq<TrainingRun>)
    ensures ListsMatch(Collected(rs))
  {
    if rs != [] {
      ListsAlwaysMatch(rs[..|rs| - 1]);
      ListsStep(Collected(rs[..|rs| - 1]), rs[|rs| - 1]);
      hide Add, ListsMatch;
    }
  }

  /** Some window has the figure and the figures reach the bar on average. */
  ghost predicate Averages(total: real, n: nat, bar: real) {
    n > 0 && total >= bar * n as real
  }

  lemma MeanReaches(xs: seq<real>, bar: real)
    ensures Mean(xs).Some? && Mean(xs).value >= bar <==> Averages(Sum(xs), |xs|, bar)
  {
    hide Sum;
    if xs != [] { QuotientReaches(Sum(xs), |xs| as real, bar); }
  }

  lemma QuotientReaches(total: real, n: real, bar: real)
    requires n > 0.0
    ensures total / n >= bar <==> total >= bar * n
  {
    QuotientTimes(total, n);
    FactorReaches(total, n, bar, total / n);
  }

  lemma FactorReaches(total: real, n: real, bar: real, q: real)
    requires n > 0.0 && n * q == total
    ensures q >= bar <==> total >= bar * n
  {
    if q >= bar { ScaleMonotone(n, bar, q); } else { StrictScale(n, q, bar); }
  }

  lemma QuotientTimes(total: real, n: real)
    requires n > 0.0
    ensures n * (total / n) == total
  {
  }

  lemma StrictScale(n: real, x: real, y: real)
    requires n > 0.0 && x < y
    ensures n * x < n * y
  {
    assert n * (y - x) > 0.0;
  }

  /** The status ladder, from the reported windows: strong on three eligible and three dual-class
      ones whose AUCs average 0.75; else moderate on two and two whose F1 scores average 0.8; else
      weak when none is dual-class or all are class-thin; else limited. */
  lemma StatusExactly(rows: seq<TrainingRun>, limit: int)
    requires rows != []
    ensures var ws, status := EvidenceFrom(rows, limit).windows, ReportedStatus(rows, limit);
            var (eligible, _, dual, thin) := Reported(ws);
            var strong := |eligible| >= 3 && |dual| >= 3 && Averages(RealTotal(ws, AucOf()), Count(ws, HasAuc), 0.75);
            var moderate := |eligible| >= 2 && |dual| >= 2 && Averages(RealTotal(ws, F1Of()), Count(ws, HasF1), 0.8);
            && (status == Strong <==> strong)
            && (status == Moderate <==> !strong && moderate)
            && (status == Weak <==> !strong && !moderate && (dual == {} || |thin| == |ws|))
            && (status == Limited <==> !strong && !moderate && dual != {} && |thin| != |ws|)
  {
    hide Collected, Reported, Averages, RealTotal, Count, Mean;
    var e := EvidenceFrom(rows, limit);
    var rs := Cut(FirstPerWindow(rows), AtLeastOne(limit));
    CounterMeaning(rs);
    ListsAlwaysMatch(rs);
    MeanReaches(e.aucs, 0.75);
    MeanReaches(e.f1s, 0.8);
    var (eligible, benchmarkable, dual, thin) := Reported(e.windows);
    assert dual == {} <==> |dual| == 0;
  }
}
