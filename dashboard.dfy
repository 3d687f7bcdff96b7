/**
 * The computations of the dashboard page: the confluence summary over the
 * open trades and the bar colours of the daily P&L chart. The DOM writes
 * around them, the number formatting and the chart library are not modelled.
 */
module Dashboard {
  import opened Wrappers
  import opened Dates
  import opened TradeRecord
  import opened Statistics
  import opened TradesTable
  import opened DailyLedger
  import SqlBackend

  /** `trades.filter(trade => trade.status === 'OPEN')`. */
  function OpenTrades(ts: seq<Trade>): (r: seq<Trade>)
    ensures |r| <= |ts|
    ensures forall t :: t in r <==> t in ts && t.status == Open
  {
    if |ts| == 0 then []
    else
      var pre := OpenTrades(ts[..|ts| - 1]);
      var last := ts[|ts| - 1];
      assert ts == ts[..|ts| - 1] + [last];
      pre + (if last.status == Open then [last] else [])
  }

  /** The filter keeps exactly as many trades as the account summary counts as open. */
  lemma {:induction false} OpenTradesCount(ts: seq<Trade>)
    ensures |OpenTrades(ts)| == SqlBackend.OpenCount(ts)
    decreases |ts|
  {
    if |ts| > 0 {
      OpenTradesCount(ts[..|ts| - 1]);
    }
  }

  /** The `total_confluence` of each trade, in order. */
  function Confluences(ts: seq<Trade>): (cs: seq<real>)
    ensures |cs| == |ts|
    ensures forall i :: 0 <= i < |ts| ==> cs[i] == ts[i].totalConfluence
  {
    seq(|ts|, i requires 0 <= i < |ts| => ts[i].totalConfluence)
  }

  /** The level chain of `updateConfluence`, written out as the page does. */
  function DashboardLevel(avg: real): Level {
    if avg >= 70.0 then High
    else if avg >= 40.0 then Medium
    else Low
  }

  /** The dashboard and the trades table put every score into the same band. */
  lemma DashboardLevelIsTableClass(avg: real)
    ensures DashboardLevel(avg) == ConfluenceClass(avg)
  {
  }

  /** What `updateConfluence` shows: nothing open, or the average and its band. */
  datatype ConfluenceSummary = NoOpenTrades | Average(avg: real, level: Level)

  /**
   * `updateConfluence(trades)`: with no OPEN trade the empty summary; otherwise
   * the mean `total_confluence` of the OPEN trades, which lies between their
   * smallest and largest score, and the band of that mean.
   */
  function UpdateConfluence(ts: seq<Trade>): (s: ConfluenceSummary)
    ensures s.NoOpenTrades? <==> forall t :: t in ts ==> t.status != Open
    ensures s.Average? ==> s.level == ConfluenceClass(s.avg)
    ensures s.Average? ==>
      MinOr(Confluences(OpenTrades(ts)), 0.0) <= s.avg <= MaxOr(Confluences(OpenTrades(ts)), 0.0)
  {
    var open := OpenTrades(ts);
    if |open| == 0 then NoOpenTrades
    else
      var avg := Mean(Confluences(open));
      Average(avg, DashboardLevel(avg))
  }

  /** The average is the plain sum of the open scores divided by their number. */
  lemma AverageIsSumOverCount(ts: seq<Trade>)
    requires exists t :: t in ts && t.status == Open
    ensures |OpenTrades(ts)| > 0
    ensures UpdateConfluence(ts).avg == Sum(Confluences(OpenTrades(ts))) / |OpenTrades(ts)| as real
  {
    var t :| t in ts && t.status == Open;
    assert t in OpenTrades(ts);
  }

  /** Adding a trade that is not OPEN leaves the summary as it was. */
  lemma NotOpenIgnored(ts: seq<Trade>, t: Trade)
    requires t.status != Open
    ensures UpdateConfluence(ts + [t]) == UpdateConfluence(ts)
  {
    assert (ts + [t])[..|ts|] == ts;
    assert OpenTrades(ts + [t]) == OpenTrades(ts);
  }

  /** When every open score lies in a range, so does the average. */
  lemma AverageWithin(ts: seq<Trade>, lo: real, hi: real)
    requires UpdateConfluence(ts).Average?
    requires forall t :: t in ts && t.status == Open ==> lo <= t.totalConfluence <= hi
    ensures lo <= UpdateConfluence(ts).avg <= hi
  {
    var cs := Confluences(OpenTrades(ts));
    forall i | 0 <= i < |cs| ensures lo <= cs[i] <= hi {
      assert OpenTrades(ts)[i] in OpenTrades(ts);
    }
    MeanWithin(cs, lo, hi);
  }

  /**
   * The percentage text: "0%" with nothing open. With open trades it is the
   * average written by `toFixed(1)`, whose number formatting is not modelled.
   */
  function OverallText(s: ConfluenceSummary): (t: Option<string>)
    ensures t.Some? <==> s.NoOpenTrades?
  {
    if s.NoOpenTrades? then Some("0%") else None
  }

  /** The text of the level element. */
  function LevelText(s: ConfluenceSummary): string {
    match s
    case NoOpenTrades => "No Open Trades"
    case Average(_, High) => "High Confluence"
    case Average(_, Medium) => "Medium" + " Confluence"
    case Average(_, Low) => "Low Confluence"
  }

  /** With nothing open the page shows "0%", "No Open Trades" and the bare level class. */
  lemma NothingOpenTexts(ts: seq<Trade>)
    requires forall t :: t in ts ==> t.status != Open
    ensures OverallText(UpdateConfluence(ts)) == Some("0%")
    ensures LevelText(UpdateConfluence(ts)) == "No Open Trades"
    ensures LevelClass(UpdateConfluence(ts)) == LevelBase
  {
  }

  const LevelBase: string := "confluence" + "-level"

  /** The class attribute of the level element. */
  function LevelClass(s: ConfluenceSummary): string {
    match s
    case NoOpenTrades => LevelBase
    case Average(_, High) => LevelBase + " high"
    case Average(_, Medium) => LevelBase + " medium"
    case Average(_, Low) => LevelBase + " low"
  }

  /** With a band, the level class is the base class followed by the table's class name. */
  lemma LevelClassUsesTableName(s: ConfluenceSummary)
    requires s.Average?
    ensures LevelClass(s) == LevelBase + " " + ClassName(s.level)
  {
  }

  /** A colour as `rgba(red, green, blue, alpha)`. */
  datatype Rgba = Rgba(red: nat, green: nat, blue: nat, alpha: real)

  const ProfitFill := Rgba(72, 187, 120, 0.8)
  const ProfitBorder := Rgba(72, 187, 120, 1.0)
  const LossFill := Rgba(245, 101, 101, 0.8)
  const LossBorder := Rgba(245, 101, 101, 1.0)

  /** One bar of the daily chart. */
  datatype Bar = Bar(date: Date, value: real, fill: Rgba, border: Rgba)

  function BarOf(day: SqlBackend.DayPnl): Bar {
    if day.pnl >= 0.0 then Bar(day.date, day.pnl, ProfitFill, ProfitBorder)
    else Bar(day.date, day.pnl, LossFill, LossBorder)
  }

  /**
   * `updateChart(dailyStats)`: one bar per daily row, in the same order, whose
   * value is the row's P&L; green when the P&L is not negative, red otherwise,
   * the border the same colour fully opaque.
   */
  function ChartBars(daily: seq<SqlBackend.DayPnl>): (bars: seq<Bar>)
    ensures |bars| == |daily|
    ensures forall i :: 0 <= i < |daily| ==> bars[i].date == daily[i].date && bars[i].value == daily[i].pnl
    ensures forall i :: 0 <= i < |daily| ==> (bars[i].fill == ProfitFill <==> daily[i].pnl >= 0.0)
    ensures forall i :: 0 <= i < |daily| ==> (bars[i].fill == LossFill <==> daily[i].pnl < 0.0)
    ensures forall i :: 0 <= i < |daily| ==> bars[i].border == bars[i].fill.(alpha := 1.0)
  {
    seq(|daily|, i requires 0 <= i < |daily| => BarOf(daily[i]))
  }

  /** The dates of the bars. */
  function BarDates(bars: seq<Bar>): (ds: seq<Date>)
    ensures |ds| == |bars|
    ensures forall i :: 0 <= i < |bars| ==> ds[i] == bars[i].date
  {
    seq(|bars|, i requires 0 <= i < |bars| => bars[i].date)
  }

  /** Over the rows of the daily statistics, which ascend by date, the bars run left to right in date order. */
  lemma BarsInDateOrder(daily: seq<SqlBackend.DayPnl>)
    requires Ascending(SqlBackend.DatesOf(daily))
    ensures Ascending(BarDates(ChartBars(daily)))
  {
    assert BarDates(ChartBars(daily)) == SqlBackend.DatesOf(daily);
  }
}
