/**
 * Weekly activity and momentum trend of one repository
 * (miner/miner.js:383-390 and 431-432).
 */
module Activity {
  import opened Types

  /** `x?.totalCount || 0`: a missing count reads as 0. */
  function CountOrZero(c: Option<nat>): nat
  {
    if c.Some? then c.value else 0
  }

  /** The four weekly commit counts, w1 the most recent week. */
  datatype WeeklyCounts = WeeklyCounts(w1: nat, w2: nat, w3: nat, w4: nat)

  /** `repo.defaultBranchRef?.target?.wN?.totalCount || 0` for N = 1..4. */
  function WeeklyCountsOf(windows: Option<Windows>): (c: WeeklyCounts)
    ensures windows.None? ==> c == WeeklyCounts(0, 0, 0, 0)
    ensures windows.Some? ==>
      c == WeeklyCounts(CountOrZero(windows.value.w1), CountOrZero(windows.value.w2),
                        CountOrZero(windows.value.w3), CountOrZero(windows.value.w4))
  {
    match windows
    case None => WeeklyCounts(0, 0, 0, 0)
    case Some(w) => WeeklyCounts(CountOrZero(w.w1), CountOrZero(w.w2), CountOrZero(w.w3), CountOrZero(w.w4))
  }

  /** The commit count of week `k`, counting back from the most recent week 1. */
  function Week(c: WeeklyCounts, k: nat): nat
    requires 1 <= k <= 4
  {
    if k == 1 then c.w1 else if k == 2 then c.w2 else if k == 3 then c.w3 else c.w4
  }

  /** `activity = [w4, w3, w2, w1]`: oldest week first, so entry `i` is week `4 - i`. */
  function ActivityOf(c: WeeklyCounts): (a: seq<int>)
    ensures |a| == 4
    ensures forall i :: 0 <= i < 4 ==> a[i] == Week(c, 4 - i) >= 0
  {
    [c.w4, c.w3, c.w2, c.w1]
  }

  /** The sum of the three weeks before the most recent one. */
  function TrailingSum(c: WeeklyCounts): nat
  {
    c.w2 + c.w3 + c.w4
  }

  /**
   * `momentumTrend`: the most recent week over the average of the three
   * weeks before it; when that average is 0, 1 if there was activity this
   * week and 0 if not.
   */
  function MomentumTrend(c: WeeklyCounts): (r: real)
    ensures r >= 0.0
    ensures r == 0.0 <==> c.w1 == 0
    ensures TrailingSum(c) > 0 ==> r * TrailingSum(c) as real == 3.0 * c.w1 as real
    ensures TrailingSum(c) == 0 ==> r == if c.w1 > 0 then 1.0 else 0.0
  {
    var avgActivity := (c.w2 + c.w3 + c.w4) as real / 3.0;
    if avgActivity == 0.0 then (if c.w1 > 0 then 1.0 else 0.0) else c.w1 as real / avgActivity
  }

  lemma ScaleByPositive(r: real, s: real, w: real)
    requires s > 0.0 && r * s == w
    ensures r > 1.0 <==> w > s
    ensures r == 1.0 <==> w == s
  {
    if r > 1.0 {
      assert r * s - s == (r - 1.0) * s;
    } else if r < 1.0 {
      assert s - r * s == (1.0 - r) * s;
    }
  }

  /**
   * With an active trailing window the trend exceeds 1 exactly when the
   * latest week beats the trailing weekly average, and equals 1 exactly
   * when it matches it.
   */
  lemma TrendComparesWithAverage(c: WeeklyCounts)
    requires TrailingSum(c) > 0
    ensures MomentumTrend(c) > 1.0 <==> 3 * c.w1 > TrailingSum(c)
    ensures MomentumTrend(c) == 1.0 <==> 3 * c.w1 == TrailingSum(c)
  {
    ScaleByPositive(MomentumTrend(c), TrailingSum(c) as real, 3.0 * c.w1 as real);
  }

  /**
   * The chart and the trend tell the same story: the trend exceeds 1
   * exactly when the last bar of `activity` is above the average of the
   * three bars before it.
   */
  lemma ChartAgreesWithTrend(c: WeeklyCounts)
    requires TrailingSum(c) > 0
    ensures var a := ActivityOf(c);
      MomentumTrend(c) > 1.0 <==> 3 * a[3] > a[0] + a[1] + a[2]
  {
    var a := ActivityOf(c);
    assert a[0] + a[1] + a[2] == TrailingSum(c) && a[3] == c.w1;
    TrendComparesWithAverage(c);
  }

  /** A whole number of cents: a hundredfold is an integer. */
  predicate WholeCents(r: real)
  {
    (r * 100.0).Floor as real == r * 100.0
  }

  /** `Math.round(x * 100) / 100`, taken on exact reals (`Math.round` rounds halves up). */
  function RoundCents(x: real): (r: real)
    ensures WholeCents(r)
    ensures x - 0.005 < r <= x + 0.005
    ensures x >= 0.0 ==> r >= 0.0
    ensures x == 0.0 ==> r == 0.0
  {
    var k := (x * 100.0 + 0.5).Floor;
    assert (k as real / 100.0) * 100.0 == k as real;
    k as real / 100.0
  }

  /**
   * Rounding is the nearest whole number of cents, halves up: any whole
   * number of cents within half a cent below or at half a cent above `x`
   * is `RoundCents(x)`.
   */
  lemma RoundCentsUnique(x: real, s: real)
    requires WholeCents(s) && x - 0.005 < s <= x + 0.005
    ensures s == RoundCents(x)
  {
    var r := RoundCents(x);
    var m := (s * 100.0).Floor;
    var n := (r * 100.0).Floor;
    assert x * 100.0 - 0.5 < m as real <= x * 100.0 + 0.5;
    assert x * 100.0 - 0.5 < n as real <= x * 100.0 + 0.5;
    assert -1 < m - n < 1;
    assert m == n;
  }

  /** The rounded trend of an active repository can still read 0: one commit after a busy month. */
  lemma RoundedTrendCanHideActivity()
    ensures MomentumTrend(WeeklyCounts(1, 400, 300, 300)) > 0.0
    ensures RoundCents(MomentumTrend(WeeklyCounts(1, 400, 300, 300))) == 0.0
  {
    var t := MomentumTrend(WeeklyCounts(1, 400, 300, 300));
    assert t * 1000.0 == 3.0;
    assert t == 0.003;
    assert (t * 100.0 + 0.5).Floor == 0;
  }
}
