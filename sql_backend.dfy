/**
 * The relational backend: the trade transitions of `update_trade` and
 * `close_trade`, and the account, metrics, daily and monthly views over the
 * stored trades (in table order).
 */
module SqlBackend {
  import opened Wrappers
  import opened Rounding
  import opened Dates
  import opened TradeRecord
  import opened Statistics
  import opened DailyLedger

  /**
   * `update_trade`: the present listed fields are copied, the confluence is
   * recomputed, and the status follows the exit price. A truthy exit closes
   * the trade, recomputes its P&L and keeps a close time it already had. Any
   * other exit reopens it with P&L 0 and no close time.
   */
  function SqlUpdated(t: Trade, req: TradeRequest, now: Timestamp): (r: Trade)
    ensures Consistent(r)
    ensures forall f :: SameField(r, Merged(t, req), f)
    ensures r.id == t.id && r.createdAt == t.createdAt
    ensures r.status == Closed ==> r.closedAt == (if t.closedAt.Some? then t.closedAt else Some(now))
  {
    var m := Merged(t, req);
    var m := m.(totalConfluence := ConfluenceOf(m));
    if Truthy(m.exitPrice) then
      m.(status := Closed, pnl := PnlOf(m), closedAt := if t.closedAt.None? then Some(now) else t.closedAt)
    else
      m.(status := Open, pnl := 0.0, closedAt := None)
  }

  /** The handler body: the field loop, then the assignments to the derived fields. */
  method UpdateTrade(t: Trade, req: TradeRequest, now: Timestamp) returns (r: Trade)
    ensures r == SqlUpdated(t, req, now)
  {
    r := CopyPresentFields(t, req);
    r := r.(totalConfluence := Confluence(r.weeklyTf, r.dailyTf, r.h4Tf, r.h1Tf, r.lowerTf));
    if Truthy(r.exitPrice) {
      r := r.(status := Closed);
      r := r.(pnl := CalculatePnl(r.direction, r.entryPrice, r.exitPrice, r.lotSize));
      if r.closedAt.None? {
        r := r.(closedAt := Some(now));
      }
    } else {
      r := r.(status := Open, pnl := 0.0, closedAt := None);
    }
  }

  /** Sending an update again changes nothing more, whatever the clock says the second time. */
  lemma UpdateIdempotent(t: Trade, req: TradeRequest, now: Timestamp, later: Timestamp)
    ensures SqlUpdated(SqlUpdated(t, req, now), req, later) == SqlUpdated(t, req, now)
  {
  }

  /** An empty request leaves a consistent trade as it was. */
  lemma EmptyUpdateKeepsConsistent(t: Trade, now: Timestamp)
    requires Consistent(t)
    ensures SqlUpdated(t, TradeRequest(None, None, None, None, None, None, None, None, None, None, None, None), now) == t
  {
  }

  /** Clearing the exit price reopens a closed trade. */
  lemma ClearingExitReopens(t: Trade, req: TradeRequest, now: Timestamp)
    requires req.exitPrice == Some(None) || req.exitPrice == Some(Some(0.0))
    ensures SqlUpdated(t, req, now).status == Open
    ensures SqlUpdated(t, req, now).pnl == 0.0 && SqlUpdated(t, req, now).closedAt == None
  {
  }

  /**
   * `close_trade`: the `exit_price` key is required (a KeyError otherwise); the
   * trade is CLOSED whatever the exit, its P&L recomputed, and its close time
   * set to now even if it had one. The confluence is not touched.
   */
  function SqlClosed(t: Trade, exitKey: Option<Option<real>>, now: Timestamp): (r: Result<Trade, CreateError>)
    ensures r.Ok? <==> exitKey.Some?
    ensures r.Err? ==> r.error == MissingField(ExitPrice)
    ensures r.Ok? ==> r.value.status == Closed && r.value.closedAt == Some(now)
    ensures r.Ok? ==> r.value.exitPrice == exitKey.value && r.value.pnl == PnlOf(r.value)
    ensures r.Ok? ==> r.value.(exitPrice := t.exitPrice, status := t.status, pnl := t.pnl, closedAt := t.closedAt) == t
  {
    if exitKey.None? then Err(MissingField(ExitPrice))
    else
      var c := t.(exitPrice := exitKey.value, status := Closed);
      Ok(c.(pnl := PnlOf(c), closedAt := Some(now)))
  }

  /** Closing a consistent trade at a truthy exit keeps it consistent. */
  lemma CloseKeepsConsistent(t: Trade, exit: real, now: Timestamp)
    requires Consistent(t) && exit != 0.0
    ensures SqlClosed(t, Some(Some(exit)), now).Ok?
    ensures Consistent(SqlClosed(t, Some(Some(exit)), now).value)
  {
  }

  /** Closing at a null or zero exit gives a CLOSED trade whose exit is falsy, with P&L 0. */
  lemma CloseAtFalsyExit(t: Trade, exit: Option<real>, now: Timestamp)
    requires !Truthy(exit)
    ensures SqlClosed(t, Some(exit), now).Ok?
    ensures SqlClosed(t, Some(exit), now).value.status == Closed
    ensures SqlClosed(t, Some(exit), now).value.pnl == 0.0
    ensures !Consistent(SqlClosed(t, Some(exit), now).value)
  {
  }

  /** A later update of a closed trade keeps the close time `close_trade` set; a second close moves it. */
  lemma UpdateKeepsCloseTime(t: Trade, exit: real, req: TradeRequest, closeTime: Timestamp, later: Timestamp)
    requires exit != 0.0 && (req.exitPrice.None? || Truthy(req.exitPrice.value))
    ensures SqlUpdated(SqlClosed(t, Some(Some(exit)), closeTime).value, req, later).closedAt == Some(closeTime)
    ensures SqlClosed(SqlClosed(t, Some(Some(exit)), closeTime).value, Some(Some(exit)), later).value.closedAt == Some(later)
  {
  }

  /** The P&L of the CLOSED trades, in table order. */
  function ClosedPnls(ts: seq<Trade>): (r: seq<real>)
    ensures |r| <= |ts|
  {
    if |ts| == 0 then []
    else ClosedPnls(ts[..|ts| - 1]) + (if ts[|ts| - 1].status == Closed then [ts[|ts| - 1].pnl] else [])
  }

  /** The confluence of the CLOSED trades, in the same order. */
  function ClosedConfluences(ts: seq<Trade>): (r: seq<real>)
    ensures |r| == |ClosedPnls(ts)|
  {
    if |ts| == 0 then []
    else ClosedConfluences(ts[..|ts| - 1]) + (if ts[|ts| - 1].status == Closed then [ts[|ts| - 1].totalConfluence] else [])
  }

  function OpenCount(ts: seq<Trade>): nat {
    if |ts| == 0 then 0
    else OpenCount(ts[..|ts| - 1]) + (if ts[|ts| - 1].status == Open then 1 else 0)
  }

  /** `get_account_stats` over the stored trades. */
  function AccountStatsOf(ts: seq<Trade>): (r: AccountStats)
    ensures r.startingBalance == StartingBalance
    ensures r.totalPnl == Sum(ClosedPnls(ts))
    ensures r.currentBalance == StartingBalance + r.totalPnl
    ensures r.totalTrades == |ClosedPnls(ts)| && r.openTrades == OpenCount(ts)
    ensures r.totalTrades + r.openTrades <= |ts|
    ensures r.winningTrades == |Positives(ClosedPnls(ts))|
    ensures r.pnlPercentage * StartingBalance == r.totalPnl * 100.0
    ensures r.losingTrades == r.totalTrades - r.winningTrades
    ensures 0 <= r.losingTrades <= r.totalTrades
  {
    CountsFit(ts);
    AccountStatsOver(ClosedPnls(ts), OpenCount(ts), StartingBalance)
  }

  lemma {:induction false} CountsFit(ts: seq<Trade>)
    ensures |ClosedPnls(ts)| + OpenCount(ts) <= |ts|
    decreases |ts|
  {
    if |ts| > 0 {
      CountsFit(ts[..|ts| - 1]);
    }
  }

  /** `get_metrics` over the stored trades. */
  function MetricsOf(ts: seq<Trade>): (r: Metrics)
    ensures |ClosedPnls(ts)| == 0 ==> r == ZeroMetrics
    ensures |ClosedPnls(ts)| > 0 ==> MetricsValues(ClosedPnls(ts), ClosedConfluences(ts), r)
    ensures 0.0 <= r.winRate <= 100.0
    ensures r.profitFactor >= 0.0
  {
    if |ClosedPnls(ts)| > 0 then
      MetricsOverValues(ClosedPnls(ts), ClosedConfluences(ts));
      MetricsOver(ClosedPnls(ts), ClosedConfluences(ts))
    else MetricsOver(ClosedPnls(ts), ClosedConfluences(ts))
  }

  /** Storing one more trade that is not CLOSED changes neither the metrics nor the totals. */
  lemma NotClosedTradeIgnored(ts: seq<Trade>, t: Trade)
    requires t.status != Closed
    ensures MetricsOf(ts + [t]) == MetricsOf(ts)
    ensures AccountStatsOf(ts + [t]).totalPnl == AccountStatsOf(ts).totalPnl
    ensures AccountStatsOf(ts + [t]).totalTrades == AccountStatsOf(ts).totalTrades
  {
    var ts' := ts + [t];
    assert ts'[..|ts'| - 1] == ts;
    assert ClosedPnls(ts') == ClosedPnls(ts);
    assert ClosedConfluences(ts') == ClosedConfluences(ts);
  }

  /** Storing one more CLOSED trade adds its P&L to the balance and one to the closed count. */
  lemma ClosedTradeCounted(ts: seq<Trade>, t: Trade)
    requires t.status == Closed
    ensures AccountStatsOf(ts + [t]).currentBalance == AccountStatsOf(ts).currentBalance + t.pnl
    ensures AccountStatsOf(ts + [t]).totalTrades == AccountStatsOf(ts).totalTrades + 1
  {
    var ts' := ts + [t];
    assert ts'[..|ts'| - 1] == ts;
    var p := ClosedPnls(ts) + [t.pnl];
    assert p[..|p| - 1] == ClosedPnls(ts);
  }

  /** The entries `get_daily_stats` groups: CLOSED trades that have a close time. */
  function ClosedEntries(ts: seq<Trade>): (r: seq<DayEntry>)
    ensures forall d :: HasDate(r, d) <==> ClosedOn(ts, d)
  {
    if |ts| == 0 then []
    else
      var pre := ts[..|ts| - 1];
      var t := ts[|ts| - 1];
      var r := ClosedEntries(pre) + (if t.status == Closed && t.closedAt.Some? then [DayEntry(t.closedAt.value.date, t.pnl)] else []);
      EntriesExtend(ClosedEntries(pre), r, pre, ts);
      r
  }

  /** Some CLOSED trade has a close time on `d`. */
  predicate ClosedOn(ts: seq<Trade>, d: Date) {
    exists i :: 0 <= i < |ts| && ts[i].status == Closed && ts[i].closedAt.Some? && ts[i].closedAt.value.date == d
  }

  lemma EntriesExtend(es: seq<DayEntry>, r: seq<DayEntry>, pre: seq<Trade>, ts: seq<Trade>)
    requires |ts| > 0 && pre == ts[..|ts| - 1]
    requires forall d :: HasDate(es, d) <==> ClosedOn(pre, d)
    requires var t := ts[|ts| - 1];
      r == es + (if t.status == Closed && t.closedAt.Some? then [DayEntry(t.closedAt.value.date, t.pnl)] else [])
    ensures forall d :: HasDate(r, d) <==> ClosedOn(ts, d)
  {
    var t := ts[|ts| - 1];
    forall d ensures HasDate(r, d) <==> ClosedOn(ts, d) {
      if HasDate(r, d) {
        var k :| 0 <= k < |r| && r[k].date == d;
        if k < |es| {
          assert r[k] == es[k];
          assert HasDate(es, d);
          var i :| 0 <= i < |pre| && pre[i].status == Closed && pre[i].closedAt.Some? && pre[i].closedAt.value.date == d;
          assert ts[i] == pre[i];
        } else {
          assert ts[|ts| - 1] == t;
        }
      }
      if ClosedOn(ts, d) {
        var i :| 0 <= i < |ts| && ts[i].status == Closed && ts[i].closedAt.Some? && ts[i].closedAt.value.date == d;
        if i < |pre| {
          assert pre[i] == ts[i];
          assert ClosedOn(pre, d);
          var k :| 0 <= k < |es| && es[k].date == d;
          assert r[k] == es[k];
        } else {
          assert r[|es|].date == d;
        }
      }
    }
  }

  datatype DayPnl = DayPnl(date: Date, pnl: real)

  function DatesOf(rows: seq<DayPnl>): seq<Date> {
    seq(|rows|, i requires 0 <= i < |rows| => rows[i].date)
  }

  /** The keys of a dict in insertion order and sorted have the same members and the same number. */
  lemma SortedKeys(order: seq<Date>, sorted: seq<Date>)
    requires multiset(sorted) == multiset(order)
    ensures forall d :: d in sorted <==> d in order
    ensures |sorted| == |order|
  {
    forall d ensures d in sorted <==> d in order {
      assert d in sorted <==> d in multiset(sorted);
      assert d in order <==> d in multiset(order);
    }
    assert |multiset(sorted)| == |multiset(order)|;
  }

  /** `[{'date': d, 'pnl': round(p, 2)} for d, p in sorted(daily_pnl.items())]`. */
  function DailyRows(es: seq<DayEntry>, sorted: seq<Date>, pnl: map<Date, real>): (rows: seq<DayPnl>)
    requires forall d :: d in sorted ==> d in pnl && pnl[d] == DaySum(es, d)
    ensures DatesOf(rows) == sorted
    ensures forall i :: 0 <= i < |rows| ==> rows[i].pnl == Round2(DaySum(es, rows[i].date))
  {
    var rows := seq(|sorted|, i requires 0 <= i < |sorted| => DayPnl(sorted[i], Round2(pnl[sorted[i]])));
    assert DatesOf(rows) == sorted;
    rows
  }

  /**
   * `get_daily_stats`: one row per date on which some CLOSED trade closed, in
   * ascending date order, holding that day's total P&L to the cent.
   */
  method DailyStats(ts: seq<Trade>) returns (rows: seq<DayPnl>)
    ensures Ascending(DatesOf(rows))
    ensures forall d :: d in DatesOf(rows) <==> ClosedOn(ts, d)
    ensures forall i :: 0 <= i < |rows| ==> rows[i].pnl == Round2(DaySum(ClosedEntries(ts), rows[i].date))
  {
    var es := ClosedEntries(ts);
    var order, pnl, _ := TallyByDay(es);
    var sorted := SortDates(order);
    SortedKeys(order, sorted);
    rows := DailyRows(es, sorted, pnl);
  }

  /** The date and P&L of the best or worst day; no date when the month has no trading day. */
  datatype DayResult = DayResult(date: Option<Date>, pnl: real)

  datatype DayRow = DayRow(date: Date, pnl: real, trades: nat)

  datatype MonthlyReport = MonthlyReport(
    year: int,
    month: int,
    totalPnl: real,
    totalTrades: nat,
    tradingDays: nat,
    winningDays: nat,
    losingDays: nat,
    winRate: real,
    bestDay: DayResult,
    worstDay: DayResult,
    averageDailyPnl: real,
    dailyData: seq<DayRow>)

  /** The entries the monthly view groups: CLOSED trades whose close date lies in the window. */
  function MonthEntries(ts: seq<Trade>, start: Date, end: Date): (r: seq<DayEntry>)
    ensures |r| <= |ts|
    ensures forall k :: 0 <= k < |r| ==> InWindow(r[k].date, start, end)
    ensures forall d :: HasDate(r, d) <==> ClosedOn(ts, d) && InWindow(d, start, end)
  {
    if |ts| == 0 then []
    else
      var pre := ts[..|ts| - 1];
      var t := ts[|ts| - 1];
      var r := MonthEntries(pre, start, end)
        + (if t.status == Closed && t.closedAt.Some? && InWindow(t.closedAt.value.date, start, end)
           then [DayEntry(t.closedAt.value.date, t.pnl)] else []);
      MonthExtend(MonthEntries(pre, start, end), r, pre, ts, start, end);
      r
  }

  lemma MonthExtend(es: seq<DayEntry>, r: seq<DayEntry>, pre: seq<Trade>, ts: seq<Trade>, start: Date, end: Date)
    requires |ts| > 0 && pre == ts[..|ts| - 1]
    requires forall d :: HasDate(es, d) <==> ClosedOn(pre, d) && InWindow(d, start, end)
    requires var t := ts[|ts| - 1];
      r == es + (if t.status == Closed && t.closedAt.Some? && InWindow(t.closedAt.value.date, start, end)
                 then [DayEntry(t.closedAt.value.date, t.pnl)] else [])
    ensures forall d :: HasDate(r, d) <==> ClosedOn(ts, d) && InWindow(d, start, end)
  {
    var t := ts[|ts| - 1];
    forall d ensures HasDate(r, d) <==> ClosedOn(ts, d) && InWindow(d, start, end) {
      if HasDate(r, d) {
        var k :| 0 <= k < |r| && r[k].date == d;
        if k < |es| {
          assert r[k] == es[k];
          assert HasDate(es, d);
          var i :| 0 <= i < |pre| && pre[i].status == Closed && pre[i].closedAt.Some? && pre[i].closedAt.value.date == d;
          assert ts[i] == pre[i];
        } else {
          assert ts[|ts| - 1] == t;
        }
      }
      if ClosedOn(ts, d) && InWindow(d, start, end) {
        var i :| 0 <= i < |ts| && ts[i].status == Closed && ts[i].closedAt.Some? && ts[i].closedAt.value.date == d;
        if i < |pre| {
          assert pre[i] == ts[i];
          assert ClosedOn(pre, d);
          var k :| 0 <= k < |es| && es[k].date == d;
          assert r[k] == es[k];
        } else {
          assert r[|es|].date == d;
        }
      }
    }
  }

  /** `es` restricted, in order, to the entries dated inside the window. */
  function InWindowEntries(es: seq<DayEntry>, start: Date, end: Date): (r: seq<DayEntry>)
    ensures forall k :: 0 <= k < |r| ==> InWindow(r[k].date, start, end)
  {
    if |es| == 0 then []
    else
      var e := es[|es| - 1];
      InWindowEntries(es[..|es| - 1], start, end) + (if InWindow(e.date, start, end) then [e] else [])
  }

  /**
   * Filtering in the query gives the same entries, in the same order, as
   * grouping every CLOSED trade and keeping the days inside the window.
   */
  lemma {:induction false} MonthEntriesOfClosed(ts: seq<Trade>, start: Date, end: Date)
    ensures MonthEntries(ts, start, end) == InWindowEntries(ClosedEntries(ts), start, end)
    decreases |ts|
  {
    if |ts| > 0 {
      var pre, t := ts[..|ts| - 1], ts[|ts| - 1];
      MonthEntriesOfClosed(pre, start, end);
      if t.status == Closed && t.closedAt.Some? {
        var e := DayEntry(t.closedAt.value.date, t.pnl);
        var es := ClosedEntries(pre) + [e];
        assert ClosedEntries(ts) == es;
        assert es[..|es| - 1] == ClosedEntries(pre);
        assert InWindowEntries(es, start, end)
          == InWindowEntries(ClosedEntries(pre), start, end) + (if InWindow(e.date, start, end) then [e] else []);
      } else {
        assert ClosedEntries(ts) == ClosedEntries(pre);
      }
    }
  }

  /** The monthly entries for a month the calendar accepts. */
  function MonthOf(ts: seq<Trade>, year: int, month: int): seq<DayEntry>
    requires MonthWindow(year, month).Ok?
  {
    MonthEntries(ts, MonthWindow(year, month).value.0, MonthWindow(year, month).value.1)
  }

  /** `d` is the first key, in dict order, whose day total is largest. */
  predicate IsFirstBest(es: seq<DayEntry>, keys: seq<Date>, d: Date) {
    exists i :: 0 <= i < |keys| && keys[i] == d
      && (forall j :: 0 <= j < |keys| ==> DaySum(es, keys[j]) <= DaySum(es, d))
      && (forall j :: 0 <= j < i ==> DaySum(es, keys[j]) < DaySum(es, d))
  }

  /** `d` is the first key, in dict order, whose day total is smallest. */
  predicate IsFirstWorst(es: seq<DayEntry>, keys: seq<Date>, d: Date) {
    exists i :: 0 <= i < |keys| && keys[i] == d
      && (forall j :: 0 <= j < |keys| ==> DaySum(es, d) <= DaySum(es, keys[j]))
      && (forall j :: 0 <= j < i ==> DaySum(es, d) < DaySum(es, keys[j]))
  }

  /** There is only one first best day. */
  lemma FirstBestUnique(es: seq<DayEntry>, keys: seq<Date>, d: Date, e: Date)
    requires IsFirstBest(es, keys, d) && IsFirstBest(es, keys, e)
    ensures d == e
  {
    var i :| 0 <= i < |keys| && keys[i] == d
      && (forall j :: 0 <= j < |keys| ==> DaySum(es, keys[j]) <= DaySum(es, d))
      && (forall j :: 0 <= j < i ==> DaySum(es, keys[j]) < DaySum(es, d));
    var k :| 0 <= k < |keys| && keys[k] == e
      && (forall j :: 0 <= j < |keys| ==> DaySum(es, keys[j]) <= DaySum(es, e))
      && (forall j :: 0 <= j < k ==> DaySum(es, keys[j]) < DaySum(es, e));
  }

  /** The `trades` column summed. */
  function RowTrades(rows: seq<DayRow>): int {
    if |rows| == 0 then 0 else RowTrades(rows[..|rows| - 1]) + rows[|rows| - 1].trades
  }

  lemma {:induction false} RowTradesOver(es: seq<DayEntry>, keys: seq<Date>, rows: seq<DayRow>)
    requires |rows| == |keys|
    requires forall i :: 0 <= i < |rows| ==> rows[i].trades == DayCount(es, keys[i])
    ensures RowTrades(rows) == CountOver(es, keys)
    decreases |rows|
  {
    if |rows| > 0 {
      RowTradesOver(es, keys[..|keys| - 1], rows[..|rows| - 1]);
    }
  }

  lemma {:induction false} SumOfDayValues(es: seq<DayEntry>, keys: seq<Date>, vals: seq<real>)
    requires |vals| == |keys|
    requires forall i :: 0 <= i < |vals| ==> vals[i] == DaySum(es, keys[i])
    ensures Sum(vals) == SumOver(es, keys)
    decreases |vals|
  {
    if |vals| > 0 {
      SumOfDayValues(es, keys[..|keys| - 1], vals[..|vals| - 1]);
    }
  }

  /** Removing the key at `j` takes exactly that day out of the totals. */
  lemma {:induction false} OverRemove(es: seq<DayEntry>, keys: seq<Date>, j: int)
    requires 0 <= j < |keys|
    ensures SumOver(es, keys) == SumOver(es, keys[..j] + keys[j + 1..]) + DaySum(es, keys[j])
    ensures CountOver(es, keys) == CountOver(es, keys[..j] + keys[j + 1..]) + DayCount(es, keys[j])
    decreases |keys|
  {
    var rest := keys[..j] + keys[j + 1..];
    if j == |keys| - 1 {
      assert rest == keys[..|keys| - 1];
    } else {
      var pre := keys[..|keys| - 1];
      OverRemove(es, pre, j);
      var rest' := pre[..j] + pre[j + 1..];
      assert rest == rest' + [keys[|keys| - 1]];
      assert rest[..|rest| - 1] == rest';
    }
  }

  /** The last element of `a` sits somewhere in its permutation `b`; without them both, the rests are permutations too. */
  lemma MatchLast(a: seq<Date>, b: seq<Date>) returns (j: int)
    requires |a| > 0 && multiset(a) == multiset(b)
    ensures 0 <= j < |b| && b[j] == a[|a| - 1]
    ensures multiset(a[..|a| - 1]) == multiset(b[..j] + b[j + 1..])
  {
    var x := a[|a| - 1];
    var pre := a[..|a| - 1];
    assert a == pre + [x];
    assert x in multiset(b);
    j :| 0 <= j < |b| && b[j] == x;
    var rest := b[..j] + b[j + 1..];
    assert b == b[..j] + [x] + b[j + 1..];
    assert multiset(b) == multiset(rest) + multiset{x};
    assert multiset(a) == multiset(pre) + multiset{x};
    assert multiset(pre) == multiset(a) - multiset{x};
    assert multiset(rest) == multiset(b) - multiset{x};
  }

  /** The totals over the keys do not depend on their order. */
  lemma {:induction false} OverPermutation(es: seq<DayEntry>, a: seq<Date>, b: seq<Date>)
    requires multiset(a) == multiset(b)
    ensures SumOver(es, a) == SumOver(es, b) && CountOver(es, a) == CountOver(es, b)
    decreases |a|
  {
    if |a| > 0 {
      var j := MatchLast(a, b);
      OverRemove(es, b, j);
      OverPermutation(es, a[..|a| - 1], b[..j] + b[j + 1..]);
    } else {
      assert |b| == 0;
    }
  }

  /** `daily_pnl.values()` in dict order. */
  function DayValues(es: seq<DayEntry>, order: seq<Date>, pnl: map<Date, real>): (vals: seq<real>)
    requires forall d :: d in order ==> d in pnl && pnl[d] == DaySum(es, d)
    ensures |vals| == |order|
    ensures forall i :: 0 <= i < |vals| ==> vals[i] == DaySum(es, order[i])
    ensures Sum(vals) == SumOver(es, order)
  {
    var vals := seq(|order|, i requires 0 <= i < |order| => pnl[order[i]]);
    SumOfDayValues(es, order, vals);
    vals
  }

  /** `max(daily_pnl.items(), key=lambda x: x[1]) if daily_pnl else (None, 0)`, with its P&L to the cent. */
  function BestDay(es: seq<DayEntry>, order: seq<Date>, vals: seq<real>): (r: DayResult)
    requires |vals| == |order|
    requires forall i :: 0 <= i < |vals| ==> vals[i] == DaySum(es, order[i])
    ensures |order| == 0 ==> r == DayResult(None, 0.0)
    ensures |order| > 0 ==> r.date.Some? && IsFirstBest(es, order, r.date.value)
                            && r.pnl == Round2(DaySum(es, r.date.value))
  {
    if |vals| == 0 then DayResult(None, 0.0)
    else
      var b := FirstMax(vals);
      assert IsFirstBest(es, order, order[b]);
      DayResult(Some(order[b]), Round2(vals[b]))
  }

  /** `min(daily_pnl.items(), key=lambda x: x[1]) if daily_pnl else (None, 0)`, with its P&L to the cent. */
  function WorstDay(es: seq<DayEntry>, order: seq<Date>, vals: seq<real>): (r: DayResult)
    requires |vals| == |order|
    requires forall i :: 0 <= i < |vals| ==> vals[i] == DaySum(es, order[i])
    ensures |order| == 0 ==> r == DayResult(None, 0.0)
    ensures |order| > 0 ==> r.date.Some? && IsFirstWorst(es, order, r.date.value)
                            && r.pnl == Round2(DaySum(es, r.date.value))
  {
    if |vals| == 0 then DayResult(None, 0.0)
    else
      var w := FirstMin(vals);
      assert IsFirstWorst(es, order, order[w]);
      DayResult(Some(order[w]), Round2(vals[w]))
  }

  /** The `daily_data` rows: sorted dates with the day's P&L to the cent and its trade count. */
  function MonthRows(es: seq<DayEntry>, sorted: seq<Date>, pnl: map<Date, real>, trades: map<Date, nat>): (rows: seq<DayRow>)
    requires forall d :: d in sorted ==> d in pnl && pnl[d] == DaySum(es, d)
    requires forall d :: d in sorted ==> d in trades && trades[d] == DayCount(es, d)
    ensures |rows| == |sorted|
    ensures forall i :: 0 <= i < |rows| ==> rows[i].date == sorted[i]
    ensures forall i :: 0 <= i < |rows| ==>
      rows[i].pnl == Round2(DaySum(es, rows[i].date)) && rows[i].trades == DayCount(es, rows[i].date)
    ensures RowTrades(rows) == CountOver(es, sorted)
  {
    var rows := seq(|sorted|, i requires 0 <= i < |sorted| =>
      DayRow(sorted[i], Round2(pnl[sorted[i]]), if sorted[i] in trades then trades[sorted[i]] else 0));
    RowTradesOver(es, sorted, rows);
    rows
  }

  /** `round(part / whole * 100 if whole > 0 else 0, 1)`: a percentage, 0 without a day. */
  function DayRate(winning: nat, days: nat): (r: real)
    ensures days == 0 ==> r == 0.0
    ensures winning <= days ==> 0.0 <= r <= 100.0
  {
    RoundZero();
    if days > 0 then
      PercentBounds(winning as real, days as real);
      Round1(winning as real / days as real * 100.0)
    else Round1(0.0)
  }

  /** The number of keys whose day total is positive. */
  function DaysAbove(es: seq<DayEntry>, keys: seq<Date>): nat {
    if |keys| == 0 then 0
    else DaysAbove(es, keys[..|keys| - 1]) + (if DaySum(es, keys[|keys| - 1]) > 0.0 then 1 else 0)
  }

  /** The number of keys whose day total is negative. */
  function DaysBelow(es: seq<DayEntry>, keys: seq<Date>): nat {
    if |keys| == 0 then 0
    else DaysBelow(es, keys[..|keys| - 1]) + (if DaySum(es, keys[|keys| - 1]) < 0.0 then 1 else 0)
  }

  /** Counting the positive and negative dict values counts the winning and losing days. */
  lemma {:induction false} SignsOfDayValues(es: seq<DayEntry>, keys: seq<Date>, vals: seq<real>)
    requires |vals| == |keys|
    requires forall i :: 0 <= i < |vals| ==> vals[i] == DaySum(es, keys[i])
    ensures |Positives(vals)| == DaysAbove(es, keys)
    ensures |Negatives(vals)| == DaysBelow(es, keys)
    decreases |keys|
  {
    if |keys| > 0 {
      var n := |keys|;
      SignsOfDayValues(es, keys[..n - 1], vals[..n - 1]);
    }
  }

  /** Tally postconditions: the dict keys, in order, with each day's P&L and trade count. */
  predicate Tallied(es: seq<DayEntry>, order: seq<Date>, pnl: map<Date, real>, trades: map<Date, nat>) {
    && order == DayKeys(es)
    && (forall d :: d in order ==> d in pnl && pnl[d] == DaySum(es, d))
    && (forall d :: d in order ==> d in trades && trades[d] == DayCount(es, d))
  }

  /** `daily_data`: one row per day in ascending date order, whose trade counts add up to all entries. */
  function SortedMonthRows(es: seq<DayEntry>, order: seq<Date>, pnl: map<Date, real>, trades: map<Date, nat>): (rows: seq<DayRow>)
    requires Tallied(es, order, pnl, trades)
    ensures |rows| == |DayKeys(es)|
    ensures RowTrades(rows) == |es|
    ensures forall i, j :: 0 <= i < j < |rows| ==> Before(rows[i].date, rows[j].date)
    ensures forall i :: 0 <= i < |rows| ==> rows[i].date in DayKeys(es)
    ensures forall i :: 0 <= i < |rows| ==>
      rows[i].pnl == Round2(DaySum(es, rows[i].date)) && rows[i].trades == DayCount(es, rows[i].date)
  {
    DaysPartitionEntries(es);
    var sorted := SortDates(order);
    SortedKeys(order, sorted);
    OverPermutation(es, sorted, order);
    MonthRows(es, sorted, pnl, trades)
  }

  /** The monthly report assembled from the tallied dicts. */
  function MonthReport(year: int, month: int, es: seq<DayEntry>, order: seq<Date>,
                       pnl: map<Date, real>, trades: map<Date, nat>): (rep: MonthlyReport)
    requires Tallied(es, order, pnl, trades)
    ensures rep.year == year && rep.month == month
    ensures rep.totalTrades == |es|
    ensures rep.totalPnl == Round2(TotalPnl(es))
    ensures rep.tradingDays == |DayKeys(es)|
    ensures rep.winningDays + rep.losingDays <= rep.tradingDays
    ensures RowTrades(rep.dailyData) == rep.totalTrades
    ensures |rep.dailyData| == rep.tradingDays
    ensures forall i, j :: 0 <= i < j < |rep.dailyData| ==> Before(rep.dailyData[i].date, rep.dailyData[j].date)
    ensures forall i :: 0 <= i < |rep.dailyData| ==> rep.dailyData[i].date in DayKeys(es)
    ensures forall i :: 0 <= i < |rep.dailyData| ==>
      rep.dailyData[i].pnl == Round2(DaySum(es, rep.dailyData[i].date))
      && rep.dailyData[i].trades == DayCount(es, rep.dailyData[i].date)
    ensures rep.tradingDays == 0 ==>
      rep.bestDay == DayResult(None, 0.0) && rep.worstDay == DayResult(None, 0.0)
      && rep.winRate == 0.0 && rep.averageDailyPnl == 0.0
    ensures rep.tradingDays > 0 ==>
      && rep.bestDay.date.Some? && IsFirstBest(es, DayKeys(es), rep.bestDay.date.value)
      && rep.bestDay.pnl == Round2(DaySum(es, rep.bestDay.date.value))
      && rep.worstDay.date.Some? && IsFirstWorst(es, DayKeys(es), rep.worstDay.date.value)
      && rep.worstDay.pnl == Round2(DaySum(es, rep.worstDay.date.value))
  {
    DaysPartitionEntries(es);
    var vals := DayValues(es, order, pnl);
    var totalPnl := Sum(vals);
    var winningDays, losingDays := |Positives(vals)|, |Negatives(vals)|;
    SignPartition(vals);
    var totalDays := |order|;
    RoundZero();
    var rows := SortedMonthRows(es, order, pnl, trades);
    MonthlyReport(
      year, month, Round2(totalPnl), |es|, totalDays, winningDays, losingDays,
      DayRate(winningDays, totalDays), BestDay(es, order, vals), WorstDay(es, order, vals),
      if totalDays > 0 then Round2(totalPnl / totalDays as real) else 0.0,
      rows)
  }

  /**
   * The day counts and rates of a monthly report over `es`: the winning and
   * losing days are the days whose total is positive and negative, the win
   * rate is the winning days' share of the trading days in percent to one
   * decimal, and the average daily P&L
   * is the month's total over the number of trading days.
   */
  predicate DayFigures(es: seq<DayEntry>, rep: MonthlyReport) {
    && rep.winningDays == DaysAbove(es, DayKeys(es))
    && rep.losingDays == DaysBelow(es, DayKeys(es))
    && rep.winRate == DayRate(rep.winningDays, rep.tradingDays)
    && 0.0 <= rep.winRate <= 100.0
    && (rep.tradingDays > 0 ==> rep.averageDailyPnl == Round2(TotalPnl(es) / rep.tradingDays as real))
  }

  lemma MonthReportFigures(year: int, month: int, es: seq<DayEntry>, order: seq<Date>,
                           pnl: map<Date, real>, trades: map<Date, nat>)
    requires Tallied(es, order, pnl, trades)
    ensures DayFigures(es, MonthReport(year, month, es, order, pnl, trades))
  {
    var rep := MonthReport(year, month, es, order, pnl, trades);
    var vals := DayValues(es, order, pnl);
    DaysPartitionEntries(es);
    SignPartition(vals);
    SignsOfDayValues(es, order, vals);
    assert rep.winningDays == |Positives(vals)| && rep.losingDays == |Negatives(vals)|;
    assert rep.tradingDays == |order|;
    assert rep.winRate == DayRate(rep.winningDays, rep.tradingDays);
    assert Sum(vals) == TotalPnl(es);
    assert rep.averageDailyPnl == if |order| > 0 then Round2(Sum(vals) / |order| as real) else 0.0;
  }

  /**
   * `get_monthly_stats`: the trades CLOSED inside the month window, grouped by
   * close date. A month or year the calendar rejects is an error; with no trading
   * day the best and worst day are (None, 0) and the rates are 0.
   */
  method MonthlyStats(ts: seq<Trade>, year: int, month: int) returns (r: Result<MonthlyReport, DateError>)
    ensures r.Err? <==> MonthWindow(year, month).Err?
    ensures r.Err? ==> r.error == MonthWindow(year, month).error
    ensures r.Ok? ==> r.value.year == year && r.value.month == month
    ensures r.Ok? ==> r.value.totalTrades == |MonthOf(ts, year, month)|
    ensures r.Ok? ==> r.value.totalPnl == Round2(TotalPnl(MonthOf(ts, year, month)))
    ensures r.Ok? ==> r.value.tradingDays == |DayKeys(MonthOf(ts, year, month))|
    ensures r.Ok? ==> r.value.winningDays + r.value.losingDays <= r.value.tradingDays
    ensures r.Ok? ==> DayFigures(MonthOf(ts, year, month), r.value)
    ensures r.Ok? ==> RowTrades(r.value.dailyData) == r.value.totalTrades
    ensures r.Ok? ==> |r.value.dailyData| == r.value.tradingDays
    ensures r.Ok? ==> forall i, j :: 0 <= i < j < |r.value.dailyData| ==>
      Before(r.value.dailyData[i].date, r.value.dailyData[j].date)
    ensures r.Ok? ==> forall i :: 0 <= i < |r.value.dailyData| ==>
      var es, row := MonthOf(ts, year, month), r.value.dailyData[i];
      row.date in DayKeys(es) && row.pnl == Round2(DaySum(es, row.date)) && row.trades == DayCount(es, row.date)
    ensures r.Ok? && r.value.tradingDays == 0 ==>
      r.value.bestDay == DayResult(None, 0.0) && r.value.worstDay == DayResult(None, 0.0)
      && r.value.winRate == 0.0 && r.value.averageDailyPnl == 0.0
    ensures r.Ok? && r.value.tradingDays > 0 ==>
      var es := MonthOf(ts, year, month);
      && r.value.bestDay.date.Some? && IsFirstBest(es, DayKeys(es), r.value.bestDay.date.value)
      && r.value.bestDay.pnl == Round2(DaySum(es, r.value.bestDay.date.value))
      && r.value.worstDay.date.Some? && IsFirstWorst(es, DayKeys(es), r.value.worstDay.date.value)
      && r.value.worstDay.pnl == Round2(DaySum(es, r.value.worstDay.date.value))
  {
    var window := MonthWindow(year, month);
    if window.Err? {
      return Err(window.error);
    }
    var es := MonthOf(ts, year, month);
    var order, pnl, trades := TallyByDay(es);
    MonthReportFigures(year, month, es, order, pnl, trades);
    r := Ok(MonthReport(year, month, es, order, pnl, trades));
  }
}
