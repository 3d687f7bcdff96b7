/**
 * The account and metrics views of the two document stores (the JSON file
 * and the document database), which read each stored record with
 * `t.get('status')`, `t.get('pnl', 0)` and `t.get('total_confluence', 0)`.
 */
module DocumentStats {
  import opened Wrappers
  import opened TradeRecord
  import opened Statistics
  import SqlBackend

  /** The three keys the views read; `None` is a key the stored record lacks. */
  datatype Doc = Doc(status: Option<Status>, pnl: Option<real>, totalConfluence: Option<real>)

  /** The keys of a record written by `create_trade`, which always has all three. */
  function DocOf(t: Trade): Doc {
    Doc(Some(t.status), Some(t.pnl), Some(t.totalConfluence))
  }

  function DocsOf(ts: seq<Trade>): (ds: seq<Doc>)
    ensures |ds| == |ts|
  {
    if |ts| == 0 then [] else DocsOf(ts[..|ts| - 1]) + [DocOf(ts[|ts| - 1])]
  }

  predicate IsClosed(d: Doc) {
    d.status == Some(Closed)
  }

  /** `t.get('pnl', 0)` of the CLOSED records, in stored order. */
  function DocClosedPnls(ds: seq<Doc>): (r: seq<real>)
    ensures |r| <= |ds|
  {
    if |ds| == 0 then []
    else DocClosedPnls(ds[..|ds| - 1]) + (if IsClosed(ds[|ds| - 1]) then [ds[|ds| - 1].pnl.GetOr(0.0)] else [])
  }

  /** `t.get('total_confluence', 0)` of the CLOSED records. */
  function DocClosedConfluences(ds: seq<Doc>): (r: seq<real>)
    ensures |r| == |DocClosedPnls(ds)|
  {
    if |ds| == 0 then []
    else
      var last := ds[|ds| - 1];
      DocClosedConfluences(ds[..|ds| - 1]) + (if IsClosed(last) then [last.totalConfluence.GetOr(0.0)] else [])
  }

  function DocOpenCount(ds: seq<Doc>): nat {
    if |ds| == 0 then 0
    else DocOpenCount(ds[..|ds| - 1]) + (if ds[|ds| - 1].status == Some(Open) then 1 else 0)
  }

  lemma {:induction false} DocCountsFit(ds: seq<Doc>)
    ensures |DocClosedPnls(ds)| + DocOpenCount(ds) <= |ds|
    decreases |ds|
  {
    if |ds| > 0 {
      DocCountsFit(ds[..|ds| - 1]);
    }
  }

  /** `get_account_stats` of a document store. */
  function AccountStatsOfDocs(ds: seq<Doc>): (r: AccountStats)
    ensures r.startingBalance == StartingBalance
    ensures r.totalPnl == Sum(DocClosedPnls(ds))
    ensures r.currentBalance == StartingBalance + r.totalPnl
    ensures r.totalTrades == |DocClosedPnls(ds)| && r.openTrades == DocOpenCount(ds)
    ensures r.totalTrades + r.openTrades <= |ds|
    ensures r.winningTrades == |Positives(DocClosedPnls(ds))|
    ensures r.pnlPercentage * StartingBalance == r.totalPnl * 100.0
    ensures 0 <= r.winningTrades <= r.totalTrades
    ensures r.losingTrades == r.totalTrades - r.winningTrades
  {
    DocCountsFit(ds);
    AccountStatsOver(DocClosedPnls(ds), DocOpenCount(ds), StartingBalance)
  }

  /** `get_metrics` of a document store. */
  function MetricsOfDocs(ds: seq<Doc>): (r: Metrics)
    ensures |DocClosedPnls(ds)| == 0 ==> r == ZeroMetrics
    ensures |DocClosedPnls(ds)| > 0 ==> MetricsValues(DocClosedPnls(ds), DocClosedConfluences(ds), r)
    ensures 0.0 <= r.winRate <= 100.0
    ensures r.profitFactor >= 0.0
  {
    if |DocClosedPnls(ds)| > 0 then
      MetricsOverValues(DocClosedPnls(ds), DocClosedConfluences(ds));
      MetricsOver(DocClosedPnls(ds), DocClosedConfluences(ds))
    else MetricsOver(DocClosedPnls(ds), DocClosedConfluences(ds))
  }

  /**
   * A CLOSED record without a `pnl` key counts as a closed trade with P&L 0:
   * the total is unchanged, and it is counted among the losing trades.
   */
  lemma MissingPnlCountsAsZero(ds: seq<Doc>, conf: Option<real>)
    ensures AccountStatsOfDocs(ds + [Doc(Some(Closed), None, conf)]).totalPnl == AccountStatsOfDocs(ds).totalPnl
    ensures AccountStatsOfDocs(ds + [Doc(Some(Closed), None, conf)]).totalTrades == AccountStatsOfDocs(ds).totalTrades + 1
    ensures AccountStatsOfDocs(ds + [Doc(Some(Closed), None, conf)]).losingTrades == AccountStatsOfDocs(ds).losingTrades + 1
  {
    var ds' := ds + [Doc(Some(Closed), None, conf)];
    assert ds'[..|ds'| - 1] == ds;
    var p := DocClosedPnls(ds) + [0.0];
    assert DocClosedPnls(ds') == p;
    assert p[..|p| - 1] == DocClosedPnls(ds);
  }

  /** A record without a `status` key is neither closed nor open, so no view sees it. */
  lemma MissingStatusIgnored(ds: seq<Doc>, pnl: Option<real>, conf: Option<real>)
    ensures AccountStatsOfDocs(ds + [Doc(None, pnl, conf)]) == AccountStatsOfDocs(ds)
    ensures MetricsOfDocs(ds + [Doc(None, pnl, conf)]) == MetricsOfDocs(ds)
  {
    var ds' := ds + [Doc(None, pnl, conf)];
    assert ds'[..|ds'| - 1] == ds;
    assert DocClosedPnls(ds') == DocClosedPnls(ds);
    assert DocClosedConfluences(ds') == DocClosedConfluences(ds);
  }

  lemma {:induction false} DocProjections(ts: seq<Trade>)
    ensures DocClosedPnls(DocsOf(ts)) == SqlBackend.ClosedPnls(ts)
    ensures DocClosedConfluences(DocsOf(ts)) == SqlBackend.ClosedConfluences(ts)
    ensures DocOpenCount(DocsOf(ts)) == SqlBackend.OpenCount(ts)
    decreases |ts|
  {
    if |ts| > 0 {
      var pre := ts[..|ts| - 1];
      DocProjections(pre);
      assert DocsOf(ts)[..|ts| - 1] == DocsOf(pre);
    }
  }

  /** On records that carry all three keys, the document views agree with the relational ones. */
  lemma DocumentViewsAgree(ts: seq<Trade>)
    ensures AccountStatsOfDocs(DocsOf(ts)) == SqlBackend.AccountStatsOf(ts)
    ensures MetricsOfDocs(DocsOf(ts)) == SqlBackend.MetricsOf(ts)
  {
    DocProjections(ts);
  }
}
