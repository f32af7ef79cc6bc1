/** What the robust score measures: how it moves with its input, its baseline and the spread. */
module ScoreLaws {
  import opened Arithmetic
  import opened Ordering
  import opened RobustStats
  import opened Sums

  // ----- The median of a shifted, scaled or mirrored baseline -----

  function Moved(c: real, t: real, x: real): real {
    c * x + t
  }

  function Affine(xs: seq<real>, c: real, t: real): (ys: seq<real>)
    ensures |ys| == |xs|
  {
    seq(|xs|, i requires 0 <= i < |xs| => Moved(c, t, xs[i]))
  }

  lemma MovedUp(c: real, t: real, x: real, y: real)
    requires x <= y && c >= 0.0
    ensures Moved(c, t, x) <= Moved(c, t, y)
  {
    ScaleMonotone(c, x, y);
  }

  lemma MovedDown(c: real, t: real, x: real, y: real)
    requires x <= y && c < 0.0
    ensures Moved(c, t, y) <= Moved(c, t, x)
  {
    ScaleMonotone(-c, x, y);
    assert (-c) * x == -(c * x) && (-c) * y == -(c * y);
  }

  lemma MovedGap(c: real, t: real, x: real, y: real)
    ensures Moved(c, t, x) - Moved(c, t, y) == c * (x - y)
  {
    assert c * (x - y) == c * x - c * y;
  }

  lemma MovedMiddle(c: real, t: real, x: real, y: real)
    ensures (Moved(c, t, x) + Moved(c, t, y)) / 2.0 == Moved(c, t, (x + y) / 2.0)
  {
    assert c * ((x + y) / 2.0) == (c * x + c * y) / 2.0;
  }

  lemma MovedDistance(c: real, t: real, m: real, x: real)
    ensures Abs(Moved(c, t, x) - Moved(c, t, m)) == Moved(Abs(c), 0.0, Abs(x - m))
  {
    assert c * x + t - (c * m + t) == c * (x - m);
    AbsProduct(c, x - m);
  }

  lemma AbsProduct(c: real, x: real)
    ensures Abs(c * x) == Abs(c) * Abs(x)
  {
    var a, b := Abs(c), Abs(x);
    ScaleMonotone(a, 0.0, b);
    assert a * 0.0 == 0.0;
    assert c * x == a * b || c * x == -(a * b) by {
      assert (-c) * x == -(c * x) && c * (-x) == -(c * x) && (-c) * (-x) == c * x;
    }
  }

  function Reversed(xs: seq<real>): (ys: seq<real>)
    ensures |ys| == |xs|
  {
    seq(|xs|, i requires 0 <= i < |xs| => xs[|xs| - 1 - i])
  }

  lemma {:induction false} ReversedSame(xs: seq<real>)
    ensures multiset(Reversed(xs)) == multiset(xs)
  {
    if xs != [] {
      var init, last := xs[..|xs| - 1], xs[|xs| - 1];
      ReversedSame(init);
      assert Reversed(xs) == [last] + Reversed(init);
      assert xs == init + [last];
    }
  }

  ghost function Hits(c: real, t: real, v: real): real -> int {
    (x: real) => if Moved(c, t, x) == v then 1 else 0
  }

  lemma {:induction false} AffineCount(xs: seq<real>, c: real, t: real, v: real)
    ensures multiset(Affine(xs, c, t))[v] == Total(xs, Hits(c, t, v))
  {
    hide Moved;
    if xs != [] {
      var init, last := xs[..|xs| - 1], xs[|xs| - 1];
      AffineCount(init, c, t, v);
      assert Affine(xs, c, t) == Affine(init, c, t) + [Moved(c, t, last)];
    }
  }

  lemma AffineSame(xs: seq<real>, ys: seq<real>, c: real, t: real)
    requires multiset(xs) == multiset(ys)
    ensures multiset(Affine(xs, c, t)) == multiset(Affine(ys, c, t))
  {
    forall v ensures multiset(Affine(xs, c, t))[v] == multiset(Affine(ys, c, t))[v] {
      AffineCount(xs, c, t, v);
      AffineCount(ys, c, t, v);
      TotalPermutes(xs, ys, Hits(c, t, v));
    }
  }

  lemma SortedHead(s: seq<real>, t: seq<real>)
    requires SortedBy(RealLeq, s) && SortedBy(RealLeq, t) && multiset(s) == multiset(t) && s != [] && t != []
    ensures s[0] == t[0]
  {
    assert s[0] in multiset(t) && t[0] in multiset(s);
    var i :| 0 <= i < |t| && t[i] == s[0];
    var j :| 0 <= j < |s| && s[j] == t[0];
    assert i > 0 ==> RealLeq(t[0], t[i]);
    assert j > 0 ==> RealLeq(s[0], s[j]);
  }

  lemma {:induction false} SortedIsUnique(s: seq<real>, t: seq<real>)
    requires SortedBy(RealLeq, s) && SortedBy(RealLeq, t) && multiset(s) == multiset(t)
    ensures s == t
    decreases |s|
  {
    assert |s| == |multiset(s)| == |multiset(t)| == |t|;
    if s != [] {
      SortedHead(s, t);
      assert s == [s[0]] + s[1..] && t == [t[0]] + t[1..];
      assert multiset(s[1..]) == multiset(s) - multiset{s[0]};
      assert multiset(t[1..]) == multiset(t) - multiset{t[0]};
      SortedIsUnique(s[1..], t[1..]);
    }
  }

  lemma AffineKeepsOrder(s: seq<real>, c: real, t: real)
    requires SortedBy(RealLeq, s)
    ensures SortedBy(RealLeq, if c >= 0.0 then Affine(s, c, t) else Reversed(Affine(s, c, t)))
  {
    hide Moved;
    var a := Affine(s, c, t);
    forall i, j | 0 <= i < j < |s| ensures if c >= 0.0 then a[i] <= a[j] else a[j] <= a[i] {
      assert RealLeq(s[i], s[j]);
      if c >= 0.0 { MovedUp(c, t, s[i], s[j]); } else { MovedDown(c, t, s[i], s[j]); }
    }
    if c < 0.0 {
      var r := Reversed(a);
      forall i, j | 0 <= i < j < |r| ensures RealLeq(r[i], r[j]) {
        assert r[i] == a[|s| - 1 - i] && r[j] == a[|s| - 1 - j];
      }
    }
  }

  lemma SortedAffine(xs: seq<real>, c: real, t: real)
    ensures var a := Affine(Sort(RealLeq, xs), c, t);
            Sort(RealLeq, Affine(xs, c, t)) == if c >= 0.0 then a else Reversed(a)
  {
    var s, a := Sort(RealLeq, xs), Affine(Sort(RealLeq, xs), c, t);
    SortCorrect(RealLeq, xs);
    SortCorrect(RealLeq, Affine(xs, c, t));
    AffineKeepsOrder(s, c, t);
    AffineSame(s, xs, c, t);
    ReversedSame(a);
    SortedIsUnique(Sort(RealLeq, Affine(xs, c, t)), if c >= 0.0 then a else Reversed(a));
  }

  /** The median follows every shift, scaling and mirroring of its values. */
  lemma MedianIsAffine(xs: seq<real>, c: real, t: real)
    requires xs != []
    ensures Affine(xs, c, t) != [] && Median(Affine(xs, c, t)) == Moved(c, t, Median(xs))
  {
    hide Sort, Moved;
    var s, n := Sort(RealLeq, xs), |xs|;
    SortCorrect(RealLeq, xs);
    SortedAffine(xs, c, t);
    if n % 2 == 0 { MovedMiddle(c, t, s[n / 2 - 1], s[n / 2]); MovedMiddle(c, t, s[n / 2], s[n / 2 - 1]); }
  }

  // ----- The MAD and the score -----

  lemma DeviationsScale(xs: seq<real>, m: real, c: real, t: real)
    ensures Deviations(Affine(xs, c, t), Moved(c, t, m)) == Affine(Deviations(xs, m), Abs(c), 0.0)
  {
    hide Moved, Abs;
    forall i | 0 <= i < |xs| ensures Abs(Moved(c, t, xs[i]) - Moved(c, t, m)) == Moved(Abs(c), 0.0, Abs(xs[i] - m)) {
      MovedDistance(c, t, m, xs[i]);
    }
    assert Deviations(Affine(xs, c, t), Moved(c, t, m)) == Affine(Deviations(xs, m), Abs(c), 0.0);
  }

  /** The MAD ignores shifts and scales with the values. */
  lemma MadIsScale(xs: seq<real>, c: real, t: real)
    requires xs != []
    ensures Mad(Affine(xs, c, t)) == Abs(c) * Mad(xs)
  {
    hide Median, Affine, Deviations, Abs;
    var m := Median(xs);
    MedianIsAffine(xs, c, t);
    DeviationsScale(xs, m, c, t);
    MedianIsAffine(Deviations(xs, m), Abs(c), 0.0);
  }

  lemma CancelScale(c: real, x: real, y: real)
    requires c > 0.0 && y > 0.0
    ensures (c * x) / (c * y) == x / y && c * y > 0.0
  {
    ScaleUp(c, y);
    var q := x / y;
    assert q * y == x;
    assert q * (c * y) == c * x;
    Quotient(c * x, c * y, q);
  }

  lemma ScaleUp(c: real, y: real)
    requires c > 0.0 && y > 0.0
    ensures c * y > 0.0
  {
  }

  lemma Quotient(a: real, b: real, q: real)
    requires b > 0.0 && q * b == a
    ensures a / b == q
  {
  }

  lemma ScaledQuotient(c: real, gap: real, d: real)
    requires c != 0.0 && d >= 1.0
    ensures Abs(c) * d > 0.0 && (c * gap) / (Abs(c) * d) == if c > 0.0 then gap / d else -(gap / d)
  {
    var k := Abs(c);
    CancelScale(k, gap, d);
    if c < 0.0 {
      assert c * gap == -(k * gap);
      NegatedQuotient(k * gap, k * d);
    }
  }

  /** While the MAD stays at 1 or more the score has no unit: measured on any scale, from any
      origin, a value scores the same, and mirrored it scores the opposite. */
  lemma ScoreHasNoUnit(now: real, baseline: seq<real>, c: real, t: real)
    requires baseline != [] && Mad(baseline) >= 1.0 && c != 0.0 && Mad(Affine(baseline, c, t)) >= 1.0
    ensures RobustZ(Moved(c, t, now), Affine(baseline, c, t)) ==
              if c > 0.0 then RobustZ(now, baseline) else -RobustZ(now, baseline)
  {
    hide Median, Mad, Affine, Abs, Moved;
    var m, d := Median(baseline), Mad(baseline);
    MedianIsAffine(baseline, c, t);
    MadIsScale(baseline, c, t);
    MovedGap(c, t, now, m);
    ScaledQuotient(c, now - m, d);
    assert Max(1.0, d) == d && Max(1.0, Abs(c) * d) == Abs(c) * d;
    assert RobustZ(Moved(c, t, now), Affine(baseline, c, t)) == (c * (now - m)) / (Abs(c) * d);
  }

  lemma NegatedQuotient(a: real, b: real)
    requires b > 0.0
    ensures (-a) / b == -(a / b)
  {
  }

  /** A MAD up to 1 leaves distances from the median as they are. */
  lemma SmallSpreadKeepsDistance(now: real, d: real, baseline: seq<real>)
    requires baseline != [] && Mad(baseline) <= 1.0
    ensures RobustZ(now + d, baseline) == RobustZ(now, baseline) + d
    ensures RobustZ(Median(baseline), baseline) == 0.0
  {
    hide Median, Mad;
  }

  // ----- How the baseline itself scores -----

  ghost function Indicator(p: real -> bool): real -> int {
    (x: real) => if p(x) then 1 else 0
  }

  lemma {:induction false} RangeCounts(s: seq<real>, p: real -> bool, a: nat, b: nat)
    requires a <= b <= |s| && forall i :: a <= i < b ==> p(s[i])
    ensures Total(s, Indicator(p)) >= b - a
  {
    if s != [] {
      var n := |s| - 1;
      RangeCounts(s[..n], p, if a < n then a else n, if b < n then b else n);
    }
  }

  ghost function Positions(xs: seq<real>, p: real -> bool): set<int> {
    set i | 0 <= i < |xs| && p(xs[i])
  }

  lemma PositionsStep(xs: seq<real>, p: real -> bool)
    requires xs != []
    ensures var n := |xs| - 1; |Positions(xs, p)| == |Positions(xs[..n], p)| + if p(xs[n]) then 1 else 0
  {
    var n := |xs| - 1;
    assert Positions(xs, p) == Positions(xs[..n], p) + if p(xs[n]) then {n} else {};
  }

  lemma {:induction false} PositionsCount(xs: seq<real>, p: real -> bool)
    ensures |Positions(xs, p)| == Total(xs, Indicator(p))
  {
    if xs != [] {
      PositionsCount(xs[..|xs| - 1], p);
      PositionsStep(xs, p);
      hide Positions;
    }
  }

  /** At least half of the values are at most the median, and at least half at least it. */
  lemma MedianSplits(xs: seq<real>)
    requires xs != []
    ensures 2 * |set i | 0 <= i < |xs| && xs[i] <= Median(xs)| >= |xs|
    ensures 2 * |set i | 0 <= i < |xs| && xs[i] >= Median(xs)| >= |xs|
  {
    var m := Median(xs);
    var low, high := (x: real) => x <= m, (x: real) => x >= m;
    assert (set i | 0 <= i < |xs| && xs[i] <= m) == Positions(xs, low);
    assert (set i | 0 <= i < |xs| && xs[i] >= m) == Positions(xs, high);
    HalfCounts(xs, low, high);
  }

  lemma HalfCounts(xs: seq<real>, low: real -> bool, high: real -> bool)
    requires xs != [] && forall x :: (low(x) <==> x <= Median(xs)) && (high(x) <==> x >= Median(xs))
    ensures 2 * |Positions(xs, low)| >= |xs| && 2 * |Positions(xs, high)| >= |xs|
  {
    hide Median, Sort, Total, Positions, Indicator;
    var s, n := Sort(RealLeq, xs), |xs|;
    SortCorrect(RealLeq, xs);
    MiddleOfSorted(xs);
    TotalPermutes(s, xs, Indicator(low));
    TotalPermutes(s, xs, Indicator(high));
    RangeCounts(s, low, 0, (n + 1) / 2);
    RangeCounts(s, high, n / 2, n);
    PositionsCount(xs, low);
    PositionsCount(xs, high);
  }

  lemma MiddleOfSorted(xs: seq<real>)
    requires xs != []
    ensures var s := Sort(RealLeq, xs);
            && |s| == |xs|
            && (forall i :: 0 <= i < (|s| + 1) / 2 ==> s[i] <= Median(xs))
            && (forall i :: |s| / 2 <= i < |s| ==> s[i] >= Median(xs))
  {
    hide Sort;
    var s, n := Sort(RealLeq, xs), |xs|;
    SortCorrect(RealLeq, xs);
    var k := n / 2;
    var below := if n % 2 == 1 then k else k - 1;
    assert s[below] <= Median(xs) <= s[k] by { assert below < k ==> RealLeq(s[below], s[k]); }
    forall i | 0 <= i < (n + 1) / 2 ensures s[i] <= Median(xs) {
      assert i < below ==> RealLeq(s[i], s[below]);
    }
    forall i | k <= i < n ensures s[i] >= Median(xs) {
      assert k < i ==> RealLeq(s[k], s[i]);
    }
  }

  /** The unit of the score is the spread: when the MAD is at least 1, at least half of the
      baseline's own values score within [-1, 1], and at least half at or beyond its ends. */
  lemma BaselineScores(baseline: seq<real>)
    requires baseline != [] && Mad(baseline) >= 1.0
    ensures 2 * |set i | 0 <= i < |baseline| && -1.0 <= RobustZ(baseline[i], baseline) <= 1.0| >= |baseline|
    ensures 2 * |set i | 0 <= i < |baseline| && !(-1.0 < RobustZ(baseline[i], baseline) < 1.0)| >= |baseline|
  {
    var m, d := Median(baseline), Mad(baseline);
    var devs := Deviations(baseline, m);
    MedianSplits(devs);
    hide Median, Mad;
    forall i | 0 <= i < |baseline|
      ensures devs[i] <= d <==> -1.0 <= RobustZ(baseline[i], baseline) <= 1.0
      ensures devs[i] >= d <==> !(-1.0 < RobustZ(baseline[i], baseline) < 1.0)
    {
      UnitScore(baseline[i] - m, d);
    }
    assert (set i | 0 <= i < |devs| && devs[i] <= d) == set i | 0 <= i < |baseline| && -1.0 <= RobustZ(baseline[i], baseline) <= 1.0;
    assert (set i | 0 <= i < |devs| && devs[i] >= d) == set i | 0 <= i < |baseline| && !(-1.0 < RobustZ(baseline[i], baseline) < 1.0);
  }

  lemma UnitScore(x: real, d: real)
    requires d >= 1.0
    ensures Abs(x) <= d <==> -1.0 <= x / d <= 1.0
    ensures Abs(x) >= d <==> !(-1.0 < x / d < 1.0)
  {
    var q := x / d;
    assert q * d == x;
    if q < -1.0 { assert (q + 1.0) * d < 0.0; }
    if q > 1.0 { assert (q - 1.0) * d > 0.0; }
    if -1.0 < q < 1.0 { assert (q + 1.0) * d > 0.0 && (q - 1.0) * d < 0.0; }
  }

  // ----- What each reading is worth -----

  /** Six points of risk per point of either score up to 40, twenty per unit of convergence up to
      20, ten per alarm, and nothing for a negative reading; the sum is cut at 100. */
  lemma RiskSteps(z: real, g: real, c: real, d: real)
    requires d >= 0.0
    ensures 0.0 <= z && 6.0 * (z + d) <= 40.0 ==> RiskBase(z + d, g, c) == RiskBase(z, g, c) + 6.0 * d
    ensures 0.0 <= g && 6.0 * (g + d) <= 40.0 ==> RiskBase(z, g + d, c) == RiskBase(z, g, c) + 6.0 * d
    ensures 0.0 <= c && c + d <= 1.0 ==> RiskBase(z, g, c + d) == RiskBase(z, g, c) + 20.0 * d
    ensures 6.0 * z >= 40.0 ==> RiskBase(z + d, g, c) == RiskBase(z, g, c)
    ensures 6.0 * g >= 40.0 ==> RiskBase(z, g + d, c) == RiskBase(z, g, c)
    ensures c >= 1.0 ==> RiskBase(z, g, c + d) == RiskBase(z, g, c)
    ensures z <= 0.0 && g <= 0.0 && c <= 0.0 ==> RiskBase(z, g, c) == 0.0
  {
  }

  lemma AlarmsAdd(z: real, g: real, c: real, errorsUp: bool, latencyUp: bool)
    ensures RiskScore(z, g, c, errorsUp, latencyUp)
              == Min(100.0, RiskBase(z, g, c) + (if errorsUp then 10.0 else 0.0) + (if latencyUp then 10.0 else 0.0))
  {
  }
}
