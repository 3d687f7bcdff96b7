/**
 * Grouping closed trades by the date they closed: the `daily_pnl` and
 * `daily_trades` dictionaries that the daily and monthly views build, the
 * date-sorted listing of them, and the first best and worst day.
 *
 * A Python dict is modelled as the sequence of its keys in insertion order
 * together with a map holding the values.
 */
module DailyLedger {
  import opened Dates
  import opened Statistics
  import Text

  /** The close date and the P&L of one trade that is counted. */
  datatype DayEntry = DayEntry(date: Date, pnl: real)

  predicate Distinct(ds: seq<Date>) {
    forall i, j :: 0 <= i < j < |ds| ==> ds[i] != ds[j]
  }

  predicate HasDate(es: seq<DayEntry>, d: Date) {
    exists k :: 0 <= k < |es| && es[k].date == d
  }

  /** The distinct dates of `es` in the order they first occur, the key order of the dict. */
  function DayKeys(es: seq<DayEntry>): (r: seq<Date>)
    ensures Distinct(r)
    ensures forall d :: d in r <==> HasDate(es, d)
    ensures |r| <= |es|
  {
    if |es| == 0 then []
    else
      var pre := es[..|es| - 1];
      var keys := DayKeys(pre);
      var d := es[|es| - 1].date;
      assert forall e :: HasDate(pre, e) ==> HasDate(es, e) by {
        forall e | HasDate(pre, e) ensures HasDate(es, e) {
          var k :| 0 <= k < |pre| && pre[k].date == e;
          assert es[k].date == e;
        }
      }
      assert forall e :: HasDate(es, e) ==> HasDate(pre, e) || e == d by {
        forall e | HasDate(es, e) ensures HasDate(pre, e) || e == d {
          var k :| 0 <= k < |es| && es[k].date == e;
          if k < |pre| { assert pre[k].date == e; }
        }
      }
      assert HasDate(es, d) by { assert es[|es| - 1].date == d; }
      if d in keys then keys else keys + [d]
  }

  /** The total P&L of the entries dated `d`. */
  function DaySum(es: seq<DayEntry>, d: Date): real {
    if |es| == 0 then 0.0
    else DaySum(es[..|es| - 1], d) + (if es[|es| - 1].date == d then es[|es| - 1].pnl else 0.0)
  }

  /** The number of entries dated `d`. */
  function DayCount(es: seq<DayEntry>, d: Date): nat {
    if |es| == 0 then 0
    else DayCount(es[..|es| - 1], d) + (if es[|es| - 1].date == d then 1 else 0)
  }

  /** The total P&L of all entries. */
  function TotalPnl(es: seq<DayEntry>): real {
    if |es| == 0 then 0.0 else TotalPnl(es[..|es| - 1]) + es[|es| - 1].pnl
  }

  /** The dicts after the loop has run over `es`: keys in insertion order, each day's total and count. */
  ghost predicate Tally(es: seq<DayEntry>, order: seq<Date>, pnl: map<Date, real>, trades: map<Date, nat>) {
    && order == DayKeys(es)
    && (forall d :: d in pnl <==> d in order)
    && (forall d :: d in trades <==> d in order)
    && (forall d :: d in order ==> pnl[d] == DaySum(es, d) && trades[d] == DayCount(es, d))
  }

  /** One more entry adds its date at the end of the key order, unless the date is already there. */
  lemma DayKeysSnoc(es: seq<DayEntry>, e: DayEntry)
    ensures DayKeys(es + [e]) == if e.date in DayKeys(es) then DayKeys(es) else DayKeys(es) + [e.date]
  {
    assert (es + [e])[..|es|] == es;
  }

  /** One more entry adds to its own day only. */
  lemma DaySumSnoc(es: seq<DayEntry>, e: DayEntry, d: Date)
    ensures DaySum(es + [e], d) == DaySum(es, d) + (if e.date == d then e.pnl else 0.0)
    ensures DayCount(es + [e], d) == DayCount(es, d) + (if e.date == d then 1 else 0)
  {
    assert (es + [e])[..|es|] == es;
  }

  /** One more iteration of the loop keeps each day's total and count in step with the entries. */
  lemma TallyValuesStep(es: seq<DayEntry>, e: DayEntry, order: seq<Date>, pnl: map<Date, real>, trades: map<Date, nat>)
    requires Tally(es, order, pnl, trades)
    ensures var pnl' := pnl[e.date := (if e.date in pnl then pnl[e.date] else 0.0) + e.pnl];
            var trades' := trades[e.date := (if e.date in trades then trades[e.date] else 0) + 1];
            forall d :: d in pnl' ==> pnl'[d] == DaySum(es + [e], d) && d in trades' && trades'[d] == DayCount(es + [e], d)
  {
    var pnl' := pnl[e.date := (if e.date in pnl then pnl[e.date] else 0.0) + e.pnl];
    var trades' := trades[e.date := (if e.date in trades then trades[e.date] else 0) + 1];
    forall d | d in pnl' ensures pnl'[d] == DaySum(es + [e], d) && d in trades' && trades'[d] == DayCount(es + [e], d) {
      DaySumSnoc(es, e, d);
      if d == e.date && e.date !in pnl {
        AbsentDay(es, d);
      }
    }
  }

  /** One more iteration of the loop keeps the dicts in step with the entries. */
  lemma TallyStep(es: seq<DayEntry>, e: DayEntry, order: seq<Date>, pnl: map<Date, real>, trades: map<Date, nat>)
    requires Tally(es, order, pnl, trades)
    ensures Tally(es + [e],
                  if e.date in pnl then order else order + [e.date],
                  pnl[e.date := (if e.date in pnl then pnl[e.date] else 0.0) + e.pnl],
                  trades[e.date := (if e.date in trades then trades[e.date] else 0) + 1])
  {
    DayKeysSnoc(es, e);
    TallyValuesStep(es, e, order, pnl, trades);
  }

  /**
   * The loop `for trade in trades: daily_pnl[d] = daily_pnl.get(d, 0) + trade.pnl;
   * daily_trades[d] = daily_trades.get(d, 0) + 1`: the dicts hold, for every date
   * that occurs and for no other, the day's total P&L and its number of trades.
   */
  method TallyByDay(es: seq<DayEntry>) returns (order: seq<Date>, pnl: map<Date, real>, trades: map<Date, nat>)
    ensures order == DayKeys(es)
    ensures forall d :: d in pnl <==> d in order
    ensures forall d :: d in trades <==> d in order
    ensures forall d :: d in order ==> pnl[d] == DaySum(es, d) && trades[d] == DayCount(es, d)
  {
    order, pnl, trades := [], map[], map[];
    for i := 0 to |es|
      invariant Tally(es[..i], order, pnl, trades)
    {
      var e := es[i];
      TallyStep(es[..i], e, order, pnl, trades);
      Text.PrefixSnoc(es, i);
      if e.date !in pnl {
        order := order + [e.date];
      }
      pnl := pnl[e.date := (if e.date in pnl then pnl[e.date] else 0.0) + e.pnl];
      trades := trades[e.date := (if e.date in trades then trades[e.date] else 0) + 1];
    }
    assert es[..|es|] == es;
  }

  /** A date that does not occur has no P&L and no trades. */
  lemma {:induction false} AbsentDay(es: seq<DayEntry>, d: Date)
    requires d !in DayKeys(es)
    ensures DaySum(es, d) == 0.0 && DayCount(es, d) == 0
    decreases |es|
  {
    if |es| > 0 {
      var pre := es[..|es| - 1];
      assert es[|es| - 1].date != d by { assert !HasDate(es, d); }
      AbsentDay(pre, d);
    }
  }

  /** `sum(daily_pnl.values())` over the keys `keys`. */
  function SumOver(es: seq<DayEntry>, keys: seq<Date>): real {
    if |keys| == 0 then 0.0 else SumOver(es, keys[..|keys| - 1]) + DaySum(es, keys[|keys| - 1])
  }

  /** `sum(daily_trades.values())` over the keys `keys`. */
  function CountOver(es: seq<DayEntry>, keys: seq<Date>): int {
    if |keys| == 0 then 0 else CountOver(es, keys[..|keys| - 1]) + DayCount(es, keys[|keys| - 1])
  }

  /** Appending one entry changes the totals over distinct keys only at its own date. */
  lemma {:induction false} OverAppend(es: seq<DayEntry>, e: DayEntry, keys: seq<Date>)
    requires Distinct(keys)
    ensures e.date in keys ==> SumOver(es + [e], keys) == SumOver(es, keys) + e.pnl
    ensures e.date in keys ==> CountOver(es + [e], keys) == CountOver(es, keys) + 1
    ensures e.date !in keys ==> SumOver(es + [e], keys) == SumOver(es, keys)
    ensures e.date !in keys ==> CountOver(es + [e], keys) == CountOver(es, keys)
    decreases |keys|
  {
    var es' := es + [e];
    assert es'[..|es'| - 1] == es;
    if |keys| > 0 {
      var pre, last := keys[..|keys| - 1], keys[|keys| - 1];
      assert Distinct(pre);
      OverAppend(es, e, pre);
      if e.date == last {
        assert e.date !in pre;
      }
    }
  }

  /**
   * The day totals add up to the whole: summing the per-day P&L over the dict's
   * keys gives the total P&L, and the per-day counts add up to the number of
   * entries.
   */
  lemma {:induction false} DaysPartitionEntries(es: seq<DayEntry>)
    ensures SumOver(es, DayKeys(es)) == TotalPnl(es)
    ensures CountOver(es, DayKeys(es)) == |es|
    decreases |es|
  {
    if |es| > 0 {
      var pre, e := es[..|es| - 1], es[|es| - 1];
      assert es == pre + [e];
      DaysPartitionEntries(pre);
      var keys := DayKeys(pre);
      OverAppend(pre, e, keys);
      if e.date !in keys {
        AbsentDay(pre, e.date);
        var keys' := keys + [e.date];
        assert keys'[..|keys'| - 1] == keys;
      }
    }
  }

  /** Dates in strictly ascending order, as `sorted(d.items())` lists distinct keys. */
  predicate Ascending(ds: seq<Date>) {
    forall i, j :: 0 <= i < j < |ds| ==> Before(ds[i], ds[j])
  }

  function Insert(d: Date, ds: seq<Date>): (r: seq<Date>)
    requires Ascending(ds) && d !in ds
    ensures Ascending(r)
    ensures multiset(r) == multiset(ds) + multiset{d}
  {
    if |ds| == 0 then [d]
    else if Before(d, ds[0]) then
      InsertFront(d, ds);
      [d] + ds
    else
      var rest := Insert(d, ds[1..]);
      InsertBehind(d, ds, rest);
      [ds[0]] + rest
  }

  lemma InsertFront(d: Date, ds: seq<Date>)
    requires Ascending(ds) && |ds| > 0 && Before(d, ds[0])
    ensures Ascending([d] + ds)
  {
    forall i, j | 0 <= i < j < |[d] + ds| ensures Before(([d] + ds)[i], ([d] + ds)[j]) {
      if i == 0 {
        if j > 1 {
          BeforeIsStrictTotalOrder(d, ds[0], ds[j - 1]);
        }
      } else {
        assert ([d] + ds)[i] == ds[i - 1] && ([d] + ds)[j] == ds[j - 1];
      }
    }
  }

  lemma InsertBehind(d: Date, ds: seq<Date>, rest: seq<Date>)
    requires Ascending(ds) && |ds| > 0 && !Before(d, ds[0]) && d !in ds
    requires Ascending(rest) && multiset(rest) == multiset(ds[1..]) + multiset{d}
    ensures Ascending([ds[0]] + rest)
    ensures multiset([ds[0]] + rest) == multiset(ds) + multiset{d}
  {
    assert ds == [ds[0]] + ds[1..];
    BeforeIsStrictTotalOrder(d, ds[0], ds[0]);
    assert Before(ds[0], d);
    forall k | 0 <= k < |rest| ensures Before(ds[0], rest[k]) {
      assert rest[k] in multiset(rest);
      if rest[k] != d {
        assert rest[k] in multiset(ds[1..]);
        var m :| 0 <= m < |ds[1..]| && ds[1..][m] == rest[k];
        assert ds[m + 1] == rest[k];
      }
    }
    var r := [ds[0]] + rest;
    forall i, j | 0 <= i < j < |r| ensures Before(r[i], r[j]) {
      if i == 0 {
        assert r[j] == rest[j - 1];
      } else {
        assert r[i] == rest[i - 1] && r[j] == rest[j - 1];
      }
    }
  }

  /** `sorted` on distinct dates: ascending, and the same dates. */
  function SortDates(ds: seq<Date>): (r: seq<Date>)
    requires Distinct(ds)
    ensures Ascending(r)
    ensures multiset(r) == multiset(ds)
  {
    if |ds| == 0 then []
    else
      var pre := ds[..|ds| - 1];
      var last := ds[|ds| - 1];
      assert ds == pre + [last];
      assert Distinct(pre);
      var s := SortDates(pre);
      assert last !in multiset(s);
      Insert(last, s)
  }

  /**
   * `max(items, key=value)`: Python keeps the first item whose value is largest,
   * so the index is that of a maximal value with every earlier value strictly smaller.
   */
  function FirstMax(vals: seq<real>): (i: nat)
    requires |vals| > 0
    ensures i < |vals|
    ensures forall j :: 0 <= j < |vals| ==> vals[j] <= vals[i]
    ensures forall j :: 0 <= j < i ==> vals[j] < vals[i]
  {
    if |vals| == 1 then 0
    else
      var k := FirstMax(vals[..|vals| - 1]);
      if vals[|vals| - 1] > vals[k] then |vals| - 1 else k
  }

  /** `min(items, key=value)`: the first item whose value is smallest. */
  function FirstMin(vals: seq<real>): (i: nat)
    requires |vals| > 0
    ensures i < |vals|
    ensures forall j :: 0 <= j < |vals| ==> vals[i] <= vals[j]
    ensures forall j :: 0 <= j < i ==> vals[i] < vals[j]
  {
    if |vals| == 1 then 0
    else
      var k := FirstMin(vals[..|vals| - 1]);
      if vals[|vals| - 1] < vals[k] then |vals| - 1 else k
  }
}
