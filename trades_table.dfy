/**
 * The trades table of the web front end: the confluence band of a score and
 * the per-row rule that offers a Close action only on open trades. The HTML
 * text itself is not modelled; a row is the information the template puts
 * into it.
 */
module TradesTable {
  import opened Wrappers
  import opened TradeRecord
  import SqlBackend

  /** The three confluence bands, ordered from weakest to strongest. */
  datatype Level = Low | Medium | High

  function Rank(l: Level): nat {
    match l
    case Low => 0
    case Medium => 1
    case High => 2
  }

  /** The CSS class name the table writes for a band. */
  function ClassName(l: Level): string {
    match l
    case High => "high"
    case Medium => "medium"
    case Low => "low"
  }

  /** Different bands get different class names. */
  lemma ClassNamesDistinct(a: Level, b: Level)
    requires a != b
    ensures ClassName(a) != ClassName(b)
  {
    assert |ClassName(Low)| == 3 && |ClassName(High)| == 4 && |ClassName(Medium)| == 6;
  }

  /** `getConfluenceClass`: at least 70 is high, at least 40 is medium, anything lower is low. */
  function ConfluenceClass(confluence: real): (l: Level)
    ensures l == High <==> confluence >= 70.0
    ensures l == Medium <==> 40.0 <= confluence < 70.0
    ensures l == Low <==> confluence < 40.0
  {
    if confluence >= 70.0 then High
    else if confluence >= 40.0 then Medium
    else Low
  }

  /** A higher score never falls into a lower band. */
  lemma ConfluenceClassMonotone(a: real, b: real)
    requires a <= b
    ensures Rank(ConfluenceClass(a)) <= Rank(ConfluenceClass(b))
  {
  }

  /** The buttons of a row, each bound to the trade's id. */
  datatype Action = CloseTrade(id: int) | EditTrade(id: int) | DeleteTrade(id: int)

  /**
   * What one row shows: the trade's id, the exit price when it is truthy
   * (`-` otherwise), whether the P&L cell has the profit class, the
   * confluence band, and the action buttons in order.
   */
  datatype Row = Row(id: int, exitShown: Option<real>, profit: bool, band: Level, actions: seq<Action>)

  /** The row the template writes for one trade. */
  function RowOf(t: Trade): (r: Row)
    ensures CloseTrade(t.id) in r.actions <==> t.status == Open
    ensures |r.actions| >= 2 && r.actions[|r.actions| - 2..] == [EditTrade(t.id), DeleteTrade(t.id)]
    ensures forall a :: a in r.actions ==> a.id == t.id
    ensures r.exitShown.Some? <==> Truthy(t.exitPrice)
    ensures r.profit <==> t.pnl >= 0.0
    ensures r.band == ConfluenceClass(t.totalConfluence)
  {
    var close := if t.status == Open then [CloseTrade(t.id)] else [];
    var actions := close + [EditTrade(t.id), DeleteTrade(t.id)];
    assert actions[|actions| - 2..] == [EditTrade(t.id), DeleteTrade(t.id)];
    Row(t.id, if Truthy(t.exitPrice) then t.exitPrice else None, t.pnl >= 0.0, ConfluenceClass(t.totalConfluence), actions)
  }

  /** The rows of a non-empty table, one per trade. */
  function RowsOf(ts: seq<Trade>): (rows: seq<Row>)
    ensures |rows| == |ts|
    ensures forall i :: 0 <= i < |ts| ==> rows[i] == RowOf(ts[i])
  {
    if |ts| == 0 then []
    else RowsOf(ts[..|ts| - 1]) + [RowOf(ts[|ts| - 1])]
  }

  /** The table: the empty-state message, or one row per trade. */
  datatype Table = EmptyState | Rows(rows: seq<Row>)

  /** `renderTradesTable`: a missing or empty list shows the empty state. */
  function RenderTradesTable(trades: Option<seq<Trade>>): (tb: Table)
    ensures tb.EmptyState? <==> trades.None? || |trades.value| == 0
    ensures tb.Rows? ==> |tb.rows| == |trades.value|
    ensures tb.Rows? ==> forall i :: 0 <= i < |tb.rows| ==> tb.rows[i] == RowOf(trades.value[i])
  {
    match trades
    case None => EmptyState
    case Some(ts) =>
      if |ts| == 0 then EmptyState
      else Rows(RowsOf(ts))
  }

  /** Whether a row offers the Close button. */
  predicate Closable(r: Row) {
    exists a :: a in r.actions && a.CloseTrade?
  }

  lemma ClosableRowOf(t: Trade)
    ensures Closable(RowOf(t)) <==> t.status == Open
  {
    var r := RowOf(t);
    if t.status == Open {
      assert CloseTrade(t.id) in r.actions;
    } else {
      assert r.actions == [EditTrade(t.id), DeleteTrade(t.id)];
    }
  }

  /** The number of rows that offer Close. */
  function ClosableCount(rows: seq<Row>): nat {
    if |rows| == 0 then 0
    else ClosableCount(rows[..|rows| - 1]) + (if Closable(rows[|rows| - 1]) then 1 else 0)
  }

  /** One row per trade: the closable rows are as many as the OPEN trades. */
  lemma {:induction false} RowsOfCount(ts: seq<Trade>)
    ensures ClosableCount(RowsOf(ts)) == SqlBackend.OpenCount(ts)
    decreases |ts|
  {
    if |ts| > 0 {
      var pre := ts[..|ts| - 1];
      RowsOfCount(pre);
      ClosableRowOf(ts[|ts| - 1]);
      assert RowsOf(ts) == RowsOf(pre) + [RowOf(ts[|ts| - 1])];
      assert (RowsOf(pre) + [RowOf(ts[|ts| - 1])])[..|ts| - 1] == RowsOf(pre);
    }
  }

  /**
   * The table offers exactly as many Close buttons as there are OPEN trades,
   * which is the open-trade count the account summary reports.
   */
  lemma CloseButtonsMatchOpenCount(ts: seq<Trade>)
    requires |ts| > 0
    ensures ClosableCount(RenderTradesTable(Some(ts)).rows) == SqlBackend.OpenCount(ts)
  {
    RowsOfCount(ts);
  }
}
