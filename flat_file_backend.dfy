/**
 * The JSON-file backend: the trades are one list that `create_trade` appends
 * to, `update_trade` changes in place and `delete_trade` filters. Loading and
 * saving the file around each handler is not modelled; the list is the
 * store's state.
 */
module FlatFileBackend {
  import opened Wrappers
  import opened Dates
  import opened TradeRecord

  /** `max([t['id'] for t in trades], default=0) + 1`. */
  function NextId(ts: seq<Trade>): (r: int)
    ensures forall i :: 0 <= i < |ts| ==> ts[i].id < r
    ensures |ts| == 0 ==> r == 1
    ensures |ts| > 0 ==> exists i :: 0 <= i < |ts| && ts[i].id == r - 1
  {
    if |ts| == 0 then 1
    else
      var m := NextId(ts[..|ts| - 1]);
      var last := ts[|ts| - 1].id;
      assert forall i :: 0 <= i < |ts| - 1 ==> ts[..|ts| - 1][i] == ts[i];
      if |ts| == 1 then last + 1
      else if last + 1 > m then last + 1 else m
  }

  /** `next((t for t in trades if t['id'] == id), None)`, as the index of the first match. */
  function FirstIndex(ts: seq<Trade>, id: int): (r: Option<nat>)
    ensures r.None? <==> forall i :: 0 <= i < |ts| ==> ts[i].id != id
    ensures r.Some? ==> r.value < |ts| && ts[r.value].id == id
    ensures r.Some? ==> forall i :: 0 <= i < r.value ==> ts[i].id != id
  {
    if |ts| == 0 then None
    else if ts[0].id == id then Some(0)
    else
      var r := FirstIndex(ts[1..], id);
      assert forall i :: 1 <= i < |ts| ==> ts[1..][i - 1] == ts[i];
      if r.None? then None else Some(r.value + 1)
  }

  /** `[t for t in trades if t['id'] != id]`. */
  function WithoutId(ts: seq<Trade>, id: int): (r: seq<Trade>)
    ensures forall t :: t in r <==> t in ts && t.id != id
    ensures |r| <= |ts|
  {
    if |ts| == 0 then []
    else
      assert ts == [ts[0]] + ts[1..];
      (if ts[0].id != id then [ts[0]] else []) + WithoutId(ts[1..], id)
  }

  /** Deleting an id no record has leaves the list as it was. */
  lemma {:induction false} DeleteUnknownIsNoop(ts: seq<Trade>, id: int)
    requires forall i :: 0 <= i < |ts| ==> ts[i].id != id
    ensures WithoutId(ts, id) == ts
    decreases |ts|
  {
    if |ts| > 0 {
      assert ts[0].id != id;
      DeleteUnknownIsNoop(ts[1..], id);
      assert ts == [ts[0]] + ts[1..];
    }
  }

  /** The filter keeps the other records in their order: it distributes over concatenation. */
  lemma {:induction false} DeleteDistributes(a: seq<Trade>, b: seq<Trade>, id: int)
    ensures WithoutId(a + b, id) == WithoutId(a, id) + WithoutId(b, id)
    decreases |a|
  {
    if |a| == 0 {
      assert a + b == b;
    } else {
      assert (a + b)[0] == a[0];
      assert (a + b)[1..] == a[1..] + b;
      DeleteDistributes(a[1..], b, id);
    }
  }

  /**
   * The in-place update: the present listed fields are copied and the
   * confluence recomputed. A truthy exit closes the trade, recomputes its P&L
   * and overwrites the close time. Any other exit leaves status, P&L and close
   * time as they were.
   */
  function FlatFileUpdated(t: Trade, req: TradeRequest, now: Timestamp): (r: Trade)
    ensures forall f :: SameField(r, Merged(t, req), f)
    ensures r.id == t.id && r.createdAt == t.createdAt
    ensures r.totalConfluence == ConfluenceOf(r)
    ensures Truthy(r.exitPrice) ==> r.status == Closed && r.pnl == PnlOf(r) && r.closedAt == Some(now)
    ensures !Truthy(r.exitPrice) ==> r.status == t.status && r.pnl == t.pnl && r.closedAt == t.closedAt
  {
    var m := Merged(t, req);
    var m := m.(totalConfluence := ConfluenceOf(m));
    if Truthy(m.exitPrice) then m.(pnl := PnlOf(m), status := Closed, closedAt := Some(now))
    else m
  }

  /** A CLOSED record stays CLOSED whatever the update. */
  lemma NeverReopens(t: Trade, req: TradeRequest, now: Timestamp)
    requires t.status == Closed
    ensures FlatFileUpdated(t, req, now).status == Closed
  {
  }

  /** Clearing the exit price of a consistent closed record leaves a CLOSED record with no exit price. */
  lemma ClearingExitKeepsClosed(t: Trade, now: Timestamp)
    requires Consistent(t) && t.status == Closed
    ensures var r := FlatFileUpdated(t, TradeRequest(None, None, None, Some(None), None, None, None, None, None, None, None, None), now);
      r.status == Closed && r.exitPrice == None && r.pnl == t.pnl && !Consistent(r)
  {
  }

  /** An update with a truthy exit price, or of an open record, keeps a consistent record consistent. */
  lemma UpdateKeepsConsistent(t: Trade, req: TradeRequest, now: Timestamp)
    requires Consistent(t)
    requires t.status == Open || Truthy(Merged(t, req).exitPrice)
    ensures Consistent(FlatFileUpdated(t, req, now))
  {
  }

  /** No two records share an id. */
  predicate UniqueIds(ts: seq<Trade>) {
    forall i, j :: 0 <= i < j < |ts| ==> ts[i].id != ts[j].id
  }

  class TradeStore {
    var trades: seq<Trade>

    predicate Valid()
      reads this
    {
      UniqueIds(trades)
    }

    constructor ()
      ensures trades == [] && Valid()
    {
      trades := [];
    }

    /** `get_trade`: the first record with the id, or not-found. */
    method Get(id: int) returns (r: Option<Trade>)
      ensures r.None? <==> forall i :: 0 <= i < |trades| ==> trades[i].id != id
      ensures r.Some? ==> r.value in trades && r.value.id == id
      ensures r.Some? ==> FirstIndex(trades, id).Some? && r.value == trades[FirstIndex(trades, id).value]
    {
      var k := FirstIndex(trades, id);
      r := if k.None? then None else Some(trades[k.value]);
    }

    /**
     * `create_trade`: the new record gets the next id and is appended; the
     * records already stored are unchanged. A missing required key stores nothing.
     */
    method Create(req: TradeRequest, now: Timestamp) returns (r: Result<Trade, CreateError>)
      requires Valid()
      modifies this
      ensures Valid()
      ensures r == NewTrade(req, NextId(old(trades)), now)
      ensures r.Ok? ==> trades == old(trades) + [r.value]
      ensures r.Err? ==> trades == old(trades)
    {
      r := NewTrade(req, NextId(trades), now);
      if r.Ok? {
        trades := trades + [r.value];
      }
    }

    /**
     * `update_trade`: the first record with the id is updated in place and
     * returned; every other record is unchanged. An unknown id changes nothing.
     */
    method Update(id: int, req: TradeRequest, now: Timestamp) returns (r: Option<Trade>)
      requires Valid()
      modifies this
      ensures Valid()
      ensures r.None? <==> FirstIndex(old(trades), id).None?
      ensures r.None? ==> trades == old(trades)
      ensures r.Some? ==> var k := FirstIndex(old(trades), id).value;
        r.value == FlatFileUpdated(old(trades)[k], req, now) && trades == old(trades)[k := r.value]
    {
      var k := FirstIndex(trades, id);
      if k.None? {
        return None;
      }
      var i := k.value;
      var t := CopyPresentFields(trades[i], req);
      t := t.(totalConfluence := Confluence(t.weeklyTf, t.dailyTf, t.h4Tf, t.h1Tf, t.lowerTf));
      if Truthy(t.exitPrice) {
        t := t.(pnl := CalculatePnl(t.direction, t.entryPrice, t.exitPrice, t.lotSize));
        t := t.(status := Closed, closedAt := Some(now));
      }
      trades := trades[i := t];
      r := Some(t);
    }

    /** `delete_trade`: every record with another id is kept, in order; an unknown id is a no-op. */
    method Delete(id: int)
      requires Valid()
      modifies this
      ensures Valid()
      ensures trades == WithoutId(old(trades), id)
    {
      KeepsUnique(trades, id);
      trades := WithoutId(trades, id);
    }
  }

  lemma {:induction false} KeepsUnique(ts: seq<Trade>, id: int)
    requires UniqueIds(ts)
    ensures UniqueIds(WithoutId(ts, id))
    decreases |ts|
  {
    if |ts| > 0 {
      assert UniqueIds(ts[1..]);
      KeepsUnique(ts[1..], id);
      var rest := WithoutId(ts[1..], id);
      assert forall t :: t in rest ==> t.id != ts[0].id;
    }
  }
}
