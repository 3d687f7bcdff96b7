/**
 * The statistics kernels shared by the three backends: sums, the winning and
 * losing parts of a P&L list, `max`/`min` with a default, and the account and
 * win/loss metrics computed from the P&L of the closed trades.
 */
module Statistics {
  import opened Rounding

  /** `sum(xs)`, accumulated from the left. */
  function Sum(xs: seq<real>): real {
    if |xs| == 0 then 0.0 else Sum(xs[..|xs| - 1]) + xs[|xs| - 1]
  }

  lemma {:induction false} SumAppend(xs: seq<real>, ys: seq<real>)
    ensures Sum(xs + ys) == Sum(xs) + Sum(ys)
    decreases |ys|
  {
    if |ys| == 0 {
      assert xs + ys == xs;
    } else {
      var ys' := ys[..|ys| - 1];
      assert (xs + ys)[..|xs + ys| - 1] == xs + ys';
      SumAppend(xs, ys');
    }
  }

  /** Every element in [lo, hi] puts the sum in [n*lo, n*hi]. */
  lemma {:induction false} SumBounds(xs: seq<real>, lo: real, hi: real)
    requires forall i :: 0 <= i < |xs| ==> lo <= xs[i] <= hi
    ensures |xs| as real * lo <= Sum(xs) <= |xs| as real * hi
    decreases |xs|
  {
    if |xs| > 0 {
      var n := (|xs| - 1) as real;
      SumBounds(xs[..|xs| - 1], lo, hi);
      assert |xs| as real * lo == n * lo + lo;
      assert |xs| as real * hi == n * hi + hi;
    }
  }

  /** Dividing bounds on a total by a positive count. */
  lemma QuotientBounds(s: real, n: real, lo: real, hi: real)
    requires n > 0.0 && n * lo <= s <= n * hi
    ensures lo <= s / n <= hi
  {
    assert s == n * (s / n);
  }

  /** `[x for x in xs if x > 0]`. */
  function Positives(xs: seq<real>): (r: seq<real>)
    ensures |r| <= |xs|
    ensures forall x :: x in r <==> x in xs && x > 0.0
  {
    if |xs| == 0 then []
    else
      var p := Positives(xs[..|xs| - 1]);
      assert xs == xs[..|xs| - 1] + [xs[|xs| - 1]];
      if xs[|xs| - 1] > 0.0 then p + [xs[|xs| - 1]] else p
  }

  /** `[x for x in xs if x < 0]`. */
  function Negatives(xs: seq<real>): (r: seq<real>)
    ensures |r| <= |xs|
    ensures forall x :: x in r <==> x in xs && x < 0.0
  {
    if |xs| == 0 then []
    else
      var p := Negatives(xs[..|xs| - 1]);
      assert xs == xs[..|xs| - 1] + [xs[|xs| - 1]];
      if xs[|xs| - 1] < 0.0 then p + [xs[|xs| - 1]] else p
  }

  /** The elements equal to zero, which count as neither winning nor losing. */
  function Zeros(xs: seq<real>): (r: seq<real>)
    ensures forall x :: x in r <==> x in xs && x == 0.0
  {
    if |xs| == 0 then []
    else
      var p := Zeros(xs[..|xs| - 1]);
      assert xs == xs[..|xs| - 1] + [xs[|xs| - 1]];
      if xs[|xs| - 1] == 0.0 then p + [xs[|xs| - 1]] else p
  }

  /** Winning, losing and break-even elements split the list. */
  lemma {:induction false} SignPartition(xs: seq<real>)
    ensures |Positives(xs)| + |Negatives(xs)| + |Zeros(xs)| == |xs|
    decreases |xs|
  {
    if |xs| > 0 {
      SignPartition(xs[..|xs| - 1]);
    }
  }

  lemma {:induction false} SumPositivesNonNeg(xs: seq<real>)
    ensures Sum(Positives(xs)) >= 0.0
    decreases |xs|
  {
    if |xs| > 0 {
      var p := Positives(xs[..|xs| - 1]);
      SumPositivesNonNeg(xs[..|xs| - 1]);
      if xs[|xs| - 1] > 0.0 {
        assert (p + [xs[|xs| - 1]])[..|p|] == p;
      }
    }
  }

  lemma {:induction false} SumNegativesNonPos(xs: seq<real>)
    ensures Sum(Negatives(xs)) <= 0.0
    decreases |xs|
  {
    if |xs| > 0 {
      var p := Negatives(xs[..|xs| - 1]);
      SumNegativesNonPos(xs[..|xs| - 1]);
      if xs[|xs| - 1] < 0.0 {
        assert (p + [xs[|xs| - 1]])[..|p|] == p;
      }
    }
  }

  /** With at least one loss the summed losses are strictly negative, so `gross_loss > 0`. */
  lemma {:induction false} SumNegativesNeg(xs: seq<real>)
    ensures |Negatives(xs)| > 0 ==> Sum(Negatives(xs)) < 0.0
    decreases |xs|
  {
    if |xs| > 0 {
      var pre := xs[..|xs| - 1];
      var p := Negatives(pre);
      if xs[|xs| - 1] < 0.0 {
        SumNegativesNonPos(pre);
        assert (p + [xs[|xs| - 1]])[..|p|] == p;
      } else {
        SumNegativesNeg(pre);
      }
    }
  }

  /** `max(xs, default=d)`. */
  function MaxOr(xs: seq<real>, d: real): (r: real)
    ensures |xs| == 0 ==> r == d
    ensures |xs| > 0 ==> r in xs && forall i :: 0 <= i < |xs| ==> xs[i] <= r
  {
    if |xs| == 0 then d
    else if |xs| == 1 then xs[0]
    else
      var m := MaxOr(xs[..|xs| - 1], d);
      assert xs == xs[..|xs| - 1] + [xs[|xs| - 1]];
      if xs[|xs| - 1] > m then xs[|xs| - 1] else m
  }

  /** `min(xs, default=d)`. */
  function MinOr(xs: seq<real>, d: real): (r: real)
    ensures |xs| == 0 ==> r == d
    ensures |xs| > 0 ==> r in xs && forall i :: 0 <= i < |xs| ==> r <= xs[i]
  {
    if |xs| == 0 then d
    else if |xs| == 1 then xs[0]
    else
      var m := MinOr(xs[..|xs| - 1], d);
      assert xs == xs[..|xs| - 1] + [xs[|xs| - 1]];
      if xs[|xs| - 1] < m then xs[|xs| - 1] else m
  }

  /** The mean of a non-empty list lies between its minimum and its maximum. */
  function Mean(xs: seq<real>): (r: real)
    requires |xs| > 0
    ensures MinOr(xs, 0.0) <= r <= MaxOr(xs, 0.0)
  {
    MeanWithin(xs, MinOr(xs, 0.0), MaxOr(xs, 0.0));
    Sum(xs) / |xs| as real
  }

  /** The mean of values within bounds is within them. */
  lemma MeanWithin(xs: seq<real>, lo: real, hi: real)
    requires |xs| > 0
    requires forall i :: 0 <= i < |xs| ==> lo <= xs[i] <= hi
    ensures lo <= Sum(xs) / |xs| as real <= hi
  {
    SumBounds(xs, lo, hi);
    QuotientBounds(Sum(xs), |xs| as real, lo, hi);
  }

  /** The starting balance every account view starts from. */
  const StartingBalance: real := 100000.0

  datatype AccountStats = AccountStats(
    startingBalance: real,
    currentBalance: real,
    totalPnl: real,
    pnlPercentage: real,
    totalTrades: nat,
    openTrades: nat,
    winningTrades: nat,
    losingTrades: int)

  /**
   * The account view from the P&L of the closed trades and the number of open
   * ones: the balance moves by the total P&L, losing trades are the closed ones
   * that did not win (break-even included), and the percentage is 0 for a
   * starting balance that is not positive.
   */
  function AccountStatsOver(closedPnls: seq<real>, openCount: nat, starting: real): (r: AccountStats)
    ensures r.startingBalance == starting
    ensures r.totalPnl == Sum(closedPnls)
    ensures r.currentBalance == starting + r.totalPnl
    ensures r.totalTrades == |closedPnls| && r.openTrades == openCount
    ensures r.winningTrades == |Positives(closedPnls)| <= r.totalTrades
    ensures r.losingTrades == r.totalTrades - r.winningTrades >= 0
    ensures starting <= 0.0 ==> r.pnlPercentage == 0.0
    ensures starting > 0.0 ==> r.pnlPercentage * starting == r.totalPnl * 100.0
  {
    var total := Sum(closedPnls);
    var wins := |Positives(closedPnls)|;
    AccountStats(
      starting, starting + total, total,
      if starting > 0.0 then total / starting * 100.0 else 0.0,
      |closedPnls|, openCount, wins, |closedPnls| - wins)
  }

  /** The losing count is the closed trades that lost plus those that broke even. */
  lemma LosingIncludesBreakEven(closedPnls: seq<real>, openCount: nat, starting: real)
    ensures AccountStatsOver(closedPnls, openCount, starting).losingTrades
            == |Negatives(closedPnls)| + |Zeros(closedPnls)|
  {
    SignPartition(closedPnls);
  }

  datatype Metrics = Metrics(
    profitFactor: real,
    winRate: real,
    averageWin: real,
    averageLoss: real,
    largestWin: real,
    largestLoss: real,
    averageConfluence: real)

  const ZeroMetrics := Metrics(0.0, 0.0, 0.0, 0.0, 0.0, 0.0, 0.0)

  lemma RoundedQuotientSign(a: real, b: real)
    requires b > 0.0
    ensures a >= 0.0 ==> Round2(a / b) >= 0.0
  {
    if a >= 0.0 {
      QuotientBounds(a, b, 0.0, a / b);
      RoundZero();
      RoundMonotone(0.0, a / b, 100.0);
    }
  }

  /** A share of a positive whole, in percent to one decimal, is never negative, and at most 100 for a part no larger than the whole. */
  lemma PercentBounds(k: real, n: real)
    requires n > 0.0 && k >= 0.0
    ensures 0.0 <= Round1(k / n * 100.0)
    ensures k <= n ==> Round1(k / n * 100.0) <= 100.0
  {
    QuotientBounds(k, n, 0.0, k / n);
    RoundZero();
    RoundMonotone(0.0, k / n * 100.0, 10.0);
    if k <= n {
      QuotientBounds(k, n, 0.0, 1.0);
      RoundOfInt(100);
      RoundMonotone(k / n * 100.0, 100.0, 10.0);
    }
  }

  /** `len(winning) / len(closed) * 100` to one decimal: a percentage. */
  function WinRate(pnls: seq<real>): (r: real)
    requires |pnls| > 0
    ensures 0.0 <= r <= 100.0
  {
    var n, k := |pnls| as real, |Positives(pnls)| as real;
    PercentBounds(k, n);
    Round1(k / n * 100.0)
  }

  /** `round(gross_profit / gross_loss, 2) if gross_loss > 0 else 0`. */
  function ProfitFactor(grossProfit: real, grossLoss: real): (r: real)
    ensures grossLoss <= 0.0 ==> r == 0.0
    ensures grossProfit >= 0.0 ==> r >= 0.0
  {
    if grossLoss > 0.0 then
      RoundedQuotientSign(grossProfit, grossLoss);
      Round2(grossProfit / grossLoss)
    else 0.0
  }

  /** `round(total / count, 2) if count else 0`. */
  function AverageOrZero(total: real, count: nat): (r: real)
    ensures count == 0 ==> r == 0.0
    ensures total >= 0.0 ==> r >= 0.0
  {
    if count > 0 then
      RoundedQuotientSign(total, count as real);
      Round2(total / count as real)
    else 0.0
  }

  /**
   * The value of each metric over a non-empty list of closed P&L: the win rate
   * is the share of winning trades in percent to one decimal; the average win
   * is the gross profit over the number of wins, the average loss the gross
   * loss over the number of losses (0 for an empty side); the largest win and
   * loss are the maximum win and the minimum loss (0 when there is none); the
   * profit factor is the gross profit over the gross loss (0 without a loss);
   * the average confluence is the mean score to one decimal.
   */
  predicate MetricsValues(pnls: seq<real>, confs: seq<real>, r: Metrics) {
    var win, loss := Positives(pnls), Negatives(pnls);
    && |pnls| > 0
    && r.winRate == Round1(|win| as real / |pnls| as real * 100.0)
    && (|win| > 0 ==> r.averageWin == Round2(Sum(win) / |win| as real))
    && (|loss| > 0 ==> r.averageLoss == Round2(-Sum(loss) / |loss| as real))
    && r.largestWin == Round2(MaxOr(win, 0.0))
    && r.largestLoss == Round2(MinOr(loss, 0.0))
    && (|loss| > 0 ==> Sum(loss) < 0.0 && r.profitFactor == Round2(Sum(win) / -Sum(loss)))
    && r.averageConfluence == Round1(Sum(confs) / |pnls| as real)
  }

  /**
   * The win/loss metrics from the P&L and the confluence of the closed trades:
   * all seven are 0 with no closed trade, the profit factor is 0 without a loss,
   * each average and extreme is 0 when its side is empty, and the win rate is a
   * percentage.
   */
  function MetricsOver(pnls: seq<real>, confs: seq<real>): (r: Metrics)
    requires |confs| == |pnls|
    ensures |pnls| == 0 ==> r == ZeroMetrics
    ensures 0.0 <= r.winRate <= 100.0
    ensures r.profitFactor >= 0.0
    ensures |Negatives(pnls)| == 0 ==> r.profitFactor == 0.0 && r.averageLoss == 0.0 && r.largestLoss == 0.0
    ensures |Positives(pnls)| == 0 ==> r.averageWin == 0.0 && r.largestWin == 0.0
    ensures r.averageWin >= 0.0 && r.largestWin >= 0.0
    ensures r.averageLoss >= 0.0 && r.largestLoss <= 0.0
    ensures r.averageWin <= r.largestWin && r.averageLoss <= -r.largestLoss
  {
    if |pnls| == 0 then ZeroMetrics
    else
      var winning, losing := Positives(pnls), Negatives(pnls);
      var grossProfit, grossLoss := Sum(winning), -Sum(losing);
      SumPositivesNonNeg(pnls);
      SumNegativesNonPos(pnls);
      var maxWin, minLoss := MaxOr(winning, 0.0), MinOr(losing, 0.0);
      assert maxWin >= 0.0 by { if |winning| > 0 { assert winning[0] in pnls; } }
      assert minLoss <= 0.0 by { if |losing| > 0 { assert losing[0] in pnls; } }
      RoundZero();
      RoundMonotone(0.0, maxWin, 100.0);
      RoundMonotone(minLoss, 0.0, 100.0);
      AverageAtMostMax(winning);
      AverageLossAtMostMin(losing);
      Metrics(
        ProfitFactor(grossProfit, grossLoss),
        WinRate(pnls),
        AverageOrZero(grossProfit, |winning|),
        AverageOrZero(grossLoss, |losing|),
        Round2(maxWin),
        Round2(minLoss),
        Round1(Sum(confs) / |pnls| as real))
  }

  /** Once there is a closed trade, every metric has the value `MetricsValues` gives it. */
  lemma MetricsOverValues(pnls: seq<real>, confs: seq<real>)
    requires |confs| == |pnls| > 0
    ensures MetricsValues(pnls, confs, MetricsOver(pnls, confs))
  {
    SumNegativesNeg(pnls);
  }

  lemma AverageAtMostMax(xs: seq<real>)
    ensures AverageOrZero(Sum(xs), |xs|) <= Round2(MaxOr(xs, 0.0))
  {
    if |xs| > 0 {
      var mean := Mean(xs);
      RoundMonotone(mean, MaxOr(xs, 0.0), 100.0);
    } else {
      RoundZero();
    }
  }

  lemma NegatedQuotient(a: real, b: real)
    requires b > 0.0
    ensures -a / b == -(a / b)
  {
  }

  /** Averaging a negated total negates the rounded average. */
  lemma NegatedAverage(total: real, count: nat)
    requires count > 0
    ensures AverageOrZero(-total, count) == -Round2(total / count as real)
  {
    var q := total / count as real;
    NegatedQuotient(total, count as real);
    assert AverageOrZero(-total, count) == Round2(-q);
    RoundNeg(q, 100.0);
  }

  lemma NegatedBound(a: real, b: real, c: real)
    requires a == -b && c <= b
    ensures a <= -c
  {
  }

  /** A loss total whose mean is at least `lo` averages to at most `-Round2(lo)`. */
  lemma LossAverageBound(total: real, count: nat, lo: real)
    requires count > 0 && lo <= total / count as real
    ensures AverageOrZero(-total, count) <= -Round2(lo)
  {
    var q := total / count as real;
    NegatedAverage(total, count);
    RoundMonotone(lo, q, 100.0);
    NegatedBound(AverageOrZero(-total, count), Round2(q), Round2(lo));
  }

  lemma AverageLossAtMostMin(xs: seq<real>)
    ensures AverageOrZero(-Sum(xs), |xs|) <= -Round2(MinOr(xs, 0.0))
  {
    if |xs| > 0 {
      MeanWithin(xs, MinOr(xs, 0.0), MaxOr(xs, 0.0));
      LossAverageBound(Sum(xs), |xs|, MinOr(xs, 0.0));
    } else {
      RoundZero();
    }
  }

  /** With every closed trade's confluence in [lo, hi], so is the average confluence. */
  lemma AverageConfluenceBetween(pnls: seq<real>, confs: seq<real>, lo: int, hi: int)
    requires |confs| == |pnls| > 0
    requires forall i :: 0 <= i < |confs| ==> lo as real <= confs[i] <= hi as real
    ensures lo as real <= MetricsOver(pnls, confs).averageConfluence <= hi as real
  {
    SumBounds(confs, lo as real, hi as real);
    var mean := Sum(confs) / |pnls| as real;
    QuotientBounds(Sum(confs), |pnls| as real, lo as real, hi as real);
    RoundMonotone(lo as real, mean, 10.0);
    RoundMonotone(mean, hi as real, 10.0);
    RoundOfInt(lo);
    RoundOfInt(hi);
  }
}
