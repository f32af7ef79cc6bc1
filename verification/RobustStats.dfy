/** Median/MAD scoring of DDoS signals, staging, and risk, over real numbers. */
module RobustStats {
  import opened Arithmetic
  import opened Ordering

  predicate RealLeq(x: real, y: real) {
    x <= y
  }

  /** `statistics.median`. */
  function Median(xs: seq<real>): real
    requires xs != []
  {
    var s, n := Sort(RealLeq, xs), |xs|;
    SortCorrect(RealLeq, xs);
    if n % 2 == 1 then s[n / 2] else (s[n / 2 - 1] + s[n / 2]) / 2.0
  }

  function Abs(x: real): real {
    if x < 0.0 then -x else x
  }

  function Deviations(xs: seq<real>, m: real): (d: seq<real>)
    ensures |d| == |xs|
  {
    seq(|xs|, i requires 0 <= i < |xs| => Abs(xs[i] - m))
  }

  function Mad(values: seq<real>): real {
    if values == [] then 0.0 else Median(Deviations(values, Median(values)))
  }

  function RobustZ(now: real, baseline: seq<real>): real {
    if baseline == [] then 0.0 else (now - Median(baseline)) / Max(1.0, Mad(baseline))
  }

  datatype Stage = Active | Emerging | Rehearsal | Normal

  function ClassifyStage(spikeZ: real, growthZ: real, convergence: real, errorsUp: bool, latencyUp: bool): Stage {
    if spikeZ >= 6.0 || growthZ >= 6.0 then
      if errorsUp || latencyUp || convergence >= 0.65 then Active else Emerging
    else if spikeZ >= 3.0 && growthZ >= 3.0 then Emerging
    else if spikeZ >= 3.0 && growthZ < 3.0 then Rehearsal
    else Normal
  }

  /** The three capped contributions. */
  function RiskBase(spikeZ: real, growthZ: real, convergence: real): real {
    Min(40.0, Max(0.0, spikeZ) * 6.0) + Min(40.0, Max(0.0, growthZ) * 6.0)
    + Min(20.0, Max(0.0, convergence) * 20.0)
  }

  function WithAlarm(base: real, up: bool): real {
    if up then Min(100.0, base + 10.0) else base
  }

  function RiskScore(spikeZ: real, growthZ: real, convergence: real, errorsUp: bool, latencyUp: bool): real {
    var base := RiskBase(spikeZ, growthZ, convergence);
    Max(0.0, Min(100.0, WithAlarm(WithAlarm(base, errorsUp), latencyUp)))
  }

  // ----- Counting inside an interval -----

  /** How many values lie in [lo, hi]. */
  function Within(xs: seq<real>, lo: real, hi: real): (n: nat)
    ensures n <= |xs|
  {
    if xs == [] then 0 else (if lo <= xs[0] <= hi then 1 else 0) + Within(xs[1..], lo, hi)
  }

  lemma {:induction false} WithinInsert(x: real, s: seq<real>, lo: real, hi: real)
    ensures Within(Insert(RealLeq, x, s), lo, hi) == (if lo <= x <= hi then 1 else 0) + Within(s, lo, hi)
  {
    if s == [] || x <= s[0] {
      assert ([x] + s)[1..] == s;
    } else {
      WithinInsert(x, s[1..], lo, hi);
    }
  }

  lemma {:induction false} WithinSort(s: seq<real>, lo: real, hi: real)
    ensures Within(Sort(RealLeq, s), lo, hi) == Within(s, lo, hi)
  {
    if s != [] {
      WithinSort(s[1..], lo, hi);
      WithinInsert(s[0], Sort(RealLeq, s[1..]), lo, hi);
    }
  }

  lemma {:induction false} WithinConcat(s: seq<real>, t: seq<real>, lo: real, hi: real)
    ensures Within(s + t, lo, hi) == Within(s, lo, hi) + Within(t, lo, hi)
  {
    if s == [] {
      assert s + t == t;
    } else {
      assert (s + t)[1..] == s[1..] + t;
      WithinConcat(s[1..], t, lo, hi);
    }
  }

  lemma {:induction false} NoneWithin(s: seq<real>, lo: real, hi: real)
    requires forall i :: 0 <= i < |s| ==> !(lo <= s[i] <= hi)
    ensures Within(s, lo, hi) == 0
  {
    if s != [] { NoneWithin(s[1..], lo, hi); }
  }

  /** In sorted order, an element with fewer than Within(s, lo, hi) elements after it is not
      below the interval; one with fewer before it is not above. */
  lemma NotBelow(s: seq<real>, lo: real, hi: real, k: nat)
    requires SortedBy(RealLeq, s) && k < |s| && |s| - Within(s, lo, hi) <= k
    ensures lo <= s[k]
  {
    if s[k] < lo {
      var low, rest := s[..k + 1], s[k + 1..];
      assert s == low + rest;
      forall i | 0 <= i < |low| ensures !(lo <= low[i] <= hi) {
        assert i < k ==> RealLeq(s[i], s[k]);
      }
      NoneWithin(low, lo, hi);
      WithinConcat(low, rest, lo, hi);
    }
  }

  lemma NotAbove(s: seq<real>, lo: real, hi: real, k: nat)
    requires SortedBy(RealLeq, s) && k < |s| && k < Within(s, lo, hi)
    ensures s[k] <= hi
  {
    if s[k] > hi {
      var rest, high := s[..k], s[k..];
      assert s == rest + high;
      forall i | 0 <= i < |high| ensures !(lo <= high[i] <= hi) {
        assert i > 0 ==> RealLeq(s[k], s[k + i]);
      }
      NoneWithin(high, lo, hi);
      WithinConcat(rest, high, lo, hi);
    }
  }

  /** In sorted order, the elements around the middle are inside any majority interval. */
  lemma MiddleInside(s: seq<real>, lo: real, hi: real, k: nat)
    requires SortedBy(RealLeq, s) && k < |s|
    requires |s| - Within(s, lo, hi) <= k && k < Within(s, lo, hi)
    ensures lo <= s[k] <= hi
  {
    NotBelow(s, lo, hi, k);
    NotAbove(s, lo, hi, k);
  }

  // ----- The breakdown point -----

  /** A strict majority in [lo, hi] pins the median, whatever the rest of the values are. */
  lemma MedianResists(xs: seq<real>, lo: real, hi: real)
    requires xs != [] && 2 * Within(xs, lo, hi) > |xs|
    ensures lo <= Median(xs) <= hi
  {
    var s, n := Sort(RealLeq, xs), |xs|;
    SortCorrect(RealLeq, xs);
    WithinSort(xs, lo, hi);
    MiddleInside(s, lo, hi, n / 2);
    if n % 2 == 0 { MiddleInside(s, lo, hi, n / 2 - 1); }
  }

  lemma {:induction false} DeviationsWithin(xs: seq<real>, m: real, lo: real, hi: real)
    requires lo <= m <= hi
    ensures Within(Deviations(xs, m), 0.0, hi - lo) >= Within(xs, lo, hi)
  {
    if xs != [] {
      DeviationsWithin(xs[1..], m, lo, hi);
      assert Deviations(xs, m)[1..] == Deviations(xs[1..], m);
    }
  }

  lemma MadResists(xs: seq<real>, lo: real, hi: real)
    requires xs != [] && 2 * Within(xs, lo, hi) > |xs|
    ensures 0.0 <= Mad(xs) <= hi - lo
  {
    hide Median, Within;
    var m := Median(xs);
    MedianResists(xs, lo, hi);
    DeviationsWithin(xs, m, lo, hi);
    MedianResists(Deviations(xs, m), 0.0, hi - lo);
  }

  lemma QuotientAtLeast(a: real, b: real, c: real)
    requires b > 0.0 && a >= c * b
    ensures a / b >= c
  {
  }

  lemma QuotientAtMost(a: real, b: real, c: real)
    requires b >= 1.0 && a <= c && c >= 0.0
    ensures a / b <= c
  {
    assert c * b >= c;
    QuotientAtLeast(-a, b, -c);
    assert a / b == -((-a) / b);
  }

  /** No minority of poisoned baseline values can hide a spike six spans above the rest. */
  lemma SpikeIsSeen(now: real, baseline: seq<real>, lo: real, hi: real)
    requires baseline != [] && 2 * Within(baseline, lo, hi) > |baseline|
    requires now >= hi + 6.0 * Max(1.0, hi - lo)
    ensures RobustZ(now, baseline) >= 6.0
  {
    hide Median, Mad, Within;
    MedianResists(baseline, lo, hi);
    MadResists(baseline, lo, hi);
    QuotientAtLeast(now - Median(baseline), Max(1.0, Mad(baseline)), 6.0);
  }

  /** Nor can it invent one: an ordinary value scores at most the width of the interval. */
  lemma OrdinaryValueScoresLow(now: real, baseline: seq<real>, lo: real, hi: real)
    requires baseline != [] && 2 * Within(baseline, lo, hi) > |baseline|
    requires now <= hi
    ensures RobustZ(now, baseline) <= hi - lo
  {
    hide Median, Mad, Within;
    MedianResists(baseline, lo, hi);
    MadResists(baseline, lo, hi);
    QuotientAtMost(now - Median(baseline), Max(1.0, Mad(baseline)), hi - lo);
  }

  /** End to end: the spike reaches the stage and the risk score whatever else is reported. */
  lemma SpikeReachesTheStage(now: real, baseline: seq<real>, lo: real, hi: real,
                             growthZ: real, convergence: real, errorsUp: bool, latencyUp: bool)
    requires baseline != [] && 2 * Within(baseline, lo, hi) > |baseline|
    requires now >= hi + 6.0 * Max(1.0, hi - lo)
    ensures var z := RobustZ(now, baseline);
            && ClassifyStage(z, growthZ, convergence, errorsUp, latencyUp)
                 == (if errorsUp || latencyUp || convergence >= 0.65 then Active else Emerging)
            && RiskScore(z, growthZ, convergence, errorsUp, latencyUp)
                 >= (if errorsUp || latencyUp || convergence >= 0.65 then 46.0 else 36.0)
  {
    SpikeIsSeen(now, baseline, lo, hi);
  }

  /** End to end: ordinary traffic on both signals is staged as normal when the majority of
      each baseline spans less than 3. */
  lemma OrdinaryTrafficIsNormal(spikeNow: real, spikes: seq<real>, lo: real, hi: real,
                                growthNow: real, growths: seq<real>, lo': real, hi': real,
                                convergence: real, errorsUp: bool, latencyUp: bool)
    requires spikes != [] && 2 * Within(spikes, lo, hi) > |spikes| && spikeNow <= hi && hi - lo < 3.0
    requires growths != [] && 2 * Within(growths, lo', hi') > |growths| && growthNow <= hi' && hi' - lo' < 3.0
    ensures ClassifyStage(RobustZ(spikeNow, spikes), RobustZ(growthNow, growths), convergence, errorsUp, latencyUp)
              == Normal
  {
    OrdinaryValueScoresLow(spikeNow, spikes, lo, hi);
    OrdinaryValueScoresLow(growthNow, growths, lo', hi');
  }

  /** k copies of one value. */
  function Copies(k: nat, v: real): (c: seq<real>)
    ensures |c| == k
  {
    seq(k, _ => v)
  }

  lemma {:induction false} AllWithin(s: seq<real>, lo: real, hi: real)
    requires forall i :: 0 <= i < |s| ==> lo <= s[i] <= hi
    ensures Within(s, lo, hi) == |s|
  {
    if s != [] { AllWithin(s[1..], lo, hi); }
  }

  /** A median of values that are at least m, half of them equal to the top value, is at least
      halfway up. */
  lemma PoisonLiftsMedian(honest: seq<real>, k: nat, m: real, top: real)
    requires honest + Copies(k, top) != [] && k >= |honest| && m <= top
    requires forall i :: 0 <= i < |honest| ==> m <= honest[i] <= top
    ensures Median(honest + Copies(k, top)) >= (m + top) / 2.0
  {
    var poison := Copies(k, top);
    var xs := honest + poison;
    var s, n := Sort(RealLeq, xs), |xs|;
    SortCorrect(RealLeq, xs);
    AllWithin(poison, top, top);
    WithinConcat(honest, poison, top, top);
    WithinSort(xs, top, top);
    NotBelow(s, top, top, n / 2);
    if n % 2 == 0 {
      AllWithin(xs, m, top);
      WithinSort(xs, m, top);
      NotBelow(s, m, top, n / 2 - 1);
    }
  }

  /** The majority must be strict: as many poisoned values as honest ones, all set high enough,
      hide any spike from any honest baseline. */
  lemma HalfIsNotEnough(now: real, honest: seq<real>, k: nat, m: real, top: real)
    requires k >= |honest| && top >= 2.0 * now - m && m <= top
    requires forall i :: 0 <= i < |honest| ==> m <= honest[i] <= top
    ensures RobustZ(now, honest + Copies(k, top)) <= 0.0
  {
    var baseline := honest + Copies(k, top);
    if baseline != [] {
      PoisonLiftsMedian(honest, k, m, top);
      hide Median, Mad;
      QuotientAtMost(now - Median(baseline), Max(1.0, Mad(baseline)), 0.0);
    }
  }

  /** A spike six spans above the honest values is scored as one next to this poison. */
  ghost predicate SpikeScores(honest: seq<real>, poison: seq<real>, lo: real, hi: real, now: real) {
    (forall i :: 0 <= i < |honest| ==> lo <= honest[i] <= hi) && now >= hi + 6.0 * Max(1.0, hi - lo) ==>
      RobustZ(now, honest + poison) >= 6.0
  }

  /** h honest values withstand p poisoned ones, whatever all of them are. */
  ghost predicate Withstands(h: nat, p: nat) {
    forall honest: seq<real>, poison: seq<real>, lo: real, hi: real, now: real ::
      |honest| == h && |poison| == p ==> SpikeScores(honest, poison, lo, hi, now)
  }

  /** The breakdown point, exactly: honest values protect every spike if and only if they
      outnumber the poisoned ones. */
  lemma BreakdownPoint(h: nat, p: nat)
    ensures Withstands(h, p) <==> h > p
  {
    if h > p {
      forall honest: seq<real>, poison: seq<real>, lo: real, hi: real, now: real | |honest| == h && |poison| == p
        ensures SpikeScores(honest, poison, lo, hi, now)
      {
        HonestMajority(honest, poison, lo, hi, now);
      }
    } else {
      var honest, poison := Copies(h, 0.0), Copies(p, 12.0);
      HalfIsNotEnough(6.0, honest, p, 0.0, 12.0);
      assert !SpikeScores(honest, poison, 0.0, 0.0, 6.0);
    }
  }

  lemma HonestMajority(honest: seq<real>, poison: seq<real>, lo: real, hi: real, now: real)
    requires |honest| > |poison|
    ensures SpikeScores(honest, poison, lo, hi, now)
  {
    if (forall i :: 0 <= i < |honest| ==> lo <= honest[i] <= hi) && now >= hi + 6.0 * Max(1.0, hi - lo) {
      AllWithin(honest, lo, hi);
      WithinConcat(honest, poison, lo, hi);
      SpikeIsSeen(now, honest + poison, lo, hi);
    }
  }

  // ----- Stage and risk -----

  /** What the stage alone guarantees of the risk. */
  function RiskFloor(s: Stage): real {
    match s
    case Normal => 0.0
    case Rehearsal => 18.0
    case Emerging => 36.0
    case Active => 46.0
  }

  /** The stage puts a floor under the risk score. */
  lemma StageFloorsRisk(spikeZ: real, growthZ: real, convergence: real, errorsUp: bool, latencyUp: bool)
    ensures var stage, risk := ClassifyStage(spikeZ, growthZ, convergence, errorsUp, latencyUp),
                               RiskScore(spikeZ, growthZ, convergence, errorsUp, latencyUp);
            RiskFloor(stage) <= risk <= 100.0
  {
  }

  /** One set of readings. */
  datatype Reading = Reading(spikeZ: real, growthZ: real, convergence: real, errorsUp: bool, latencyUp: bool)

  function StageOf(x: Reading): Stage {
    ClassifyStage(x.spikeZ, x.growthZ, x.convergence, x.errorsUp, x.latencyUp)
  }

  function RiskOf(x: Reading): real {
    RiskScore(x.spikeZ, x.growthZ, x.convergence, x.errorsUp, x.latencyUp)
  }

  /** A reading of each stage at its floor. */
  function Mildest(s: Stage): Reading {
    match s
    case Normal => Reading(0.0, 0.0, 0.0, false, false)
    case Rehearsal => Reading(3.0, 0.0, 0.0, false, false)
    case Emerging => Reading(6.0, 0.0, 0.0, false, false)
    case Active => Reading(6.0, 0.0, 0.0, true, false)
  }

  lemma FloorsAreTight(s: Stage)
    ensures StageOf(Mildest(s)) == s && RiskOf(Mildest(s)) == RiskFloor(s)
  {
  }

  function Severity(s: Stage): nat {
    match s
    case Normal => 0
    case Rehearsal => 1
    case Emerging => 2
    case Active => 3
  }

  /** Worse readings never lower the stage. */
  lemma StageIsMonotone(z: real, z': real, g: real, g': real, c: real, c': real,
                        errorsUp: bool, errorsUp': bool, latencyUp: bool, latencyUp': bool)
    requires z <= z' && g <= g' && c <= c' && (errorsUp ==> errorsUp') && (latencyUp ==> latencyUp')
    ensures Severity(ClassifyStage(z, g, c, errorsUp, latencyUp)) <= Severity(ClassifyStage(z', g', c', errorsUp', latencyUp'))
  {
  }

  lemma BaseIsMonotone(z: real, z': real, g: real, g': real, c: real, c': real)
    requires z <= z' && g <= g' && c <= c'
    ensures RiskBase(z, g, c) <= RiskBase(z', g', c') <= 100.0
  {
  }

  lemma AlarmIsMonotone(b: real, b': real, up: bool, up': bool)
    requires b <= b' <= 100.0 && (up ==> up')
    ensures WithAlarm(b, up) <= WithAlarm(b', up') <= 100.0
  {
  }

  /** Nor the risk score. */
  lemma RiskIsMonotone(z: real, z': real, g: real, g': real, c: real, c': real,
                       errorsUp: bool, errorsUp': bool, latencyUp: bool, latencyUp': bool)
    requires z <= z' && g <= g' && c <= c' && (errorsUp ==> errorsUp') && (latencyUp ==> latencyUp')
    ensures RiskScore(z, g, c, errorsUp, latencyUp) <= RiskScore(z', g', c', errorsUp', latencyUp')
  {
    hide RiskBase, WithAlarm;
    BaseIsMonotone(z, z', g, g', c, c');
    AlarmIsMonotone(RiskBase(z, g, c), RiskBase(z', g', c'), errorsUp, errorsUp');
    AlarmIsMonotone(WithAlarm(RiskBase(z, g, c), errorsUp), WithAlarm(RiskBase(z', g', c'), errorsUp'), latencyUp, latencyUp');
  }

  /** No reading of a more severe stage scores below x. */
  ghost predicate RankedByRisk(x: Reading) {
    forall y :: Severity(StageOf(y)) > Severity(StageOf(x)) ==> RiskOf(x) <= RiskOf(y)
  }

  /** The floor of the next stage up; the most severe stage has none above it. */
  function NextFloor(s: Stage): real {
    match s
    case Normal => RiskFloor(Rehearsal)
    case Rehearsal => RiskFloor(Emerging)
    case Emerging => RiskFloor(Active)
    case Active => 100.0
  }

  function NextStage(s: Stage): Stage {
    match s
    case Normal => Rehearsal
    case Rehearsal => Emerging
    case _ => Active
  }

  /** Exactly when the risk score respects the stages: a reading is never ranked above a more
      severe one if and only if its risk is at most the floor of the next stage. */
  lemma RiskOrdersStagesExactly(x: Reading)
    ensures RankedByRisk(x) <==> RiskOf(x) <= NextFloor(StageOf(x))
  {
    hide RiskOf, StageOf, RiskScore;
    RiskWithinFloors(x);
    forall y | Severity(StageOf(y)) > Severity(StageOf(x)) ensures RiskOf(y) >= NextFloor(StageOf(x)) {
      RiskWithinFloors(y);
    }
    var next := NextStage(StageOf(x));
    FloorsAreTight(next);
    if RankedByRisk(x) && StageOf(x) != Active {
      assert Severity(StageOf(Mildest(next))) > Severity(StageOf(x));
    }
  }

  lemma RiskWithinFloors(x: Reading)
    ensures RiskFloor(StageOf(x)) <= RiskOf(x) <= 100.0
  {
    StageFloorsRisk(x.spikeZ, x.growthZ, x.convergence, x.errorsUp, x.latencyUp);
  }

  /** How far up a stage reaches: normal and rehearsal readings stay below 94. */
  function RiskCeiling(s: Stage): real {
    if s.Normal? || s.Rehearsal? then 94.0 else 100.0
  }

  lemma StageCapsRisk(x: Reading)
    ensures RiskOf(x) <= RiskCeiling(StageOf(x))
    ensures StageOf(x).Normal? || StageOf(x).Rehearsal? ==> RiskOf(x) < 94.0
  {
  }

  /** And no closer bound holds: every risk below 94 is exceeded by a normal reading. */
  lemma NormalApproachesCeiling(r: real)
    requires r < 94.0
    ensures exists x :: StageOf(x) == Normal && RiskOf(x) > r
  {
    var gap := if r < 82.0 then 1.0 else (94.0 - r) / 12.0;
    assert 0.0 < gap <= 1.0 && 94.0 - 6.0 * gap > r;
    var x := Reading(3.0 - gap / 2.0, 6.0 - gap / 2.0, 1.0, true, true);
    assert StageOf(x) == Normal && RiskOf(x) == 94.0 - 6.0 * gap;
  }
}
