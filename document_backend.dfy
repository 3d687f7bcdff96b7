/**
 * The document-database backend's `update_trade`: it builds an `update_data`
 * document field by field and applies it with `$set`. The stored document is
 * read only when the confluence or the P&L has to be recomputed.
 */
module DocumentBackend {
  import opened Wrappers
  import opened Dates
  import opened Rounding
  import opened TradeRecord
  import FlatFileBackend

  /**
   * The `$set` document: the listed fields copied from the request (absent
   * ones are `None`), and the derived fields the handler adds.
   */
  datatype UpdateData = UpdateData(
    fields: TradeRequest,
    totalConfluence: Option<real>,
    pnl: Option<real>,
    status: Option<Status>,
    closedAt: Option<Timestamp>)

  /** The stored document was needed but there is none. */
  datatype UpdateError = NotFound

  const NoFields := TradeRequest(None, None, None, None, None, None, None, None, None, None, None, None)

  /** `any(f in data for f in ['weekly_tf', ...])`. */
  predicate TimeframeSent(req: TradeRequest) {
    req.weeklyTf.Some? || req.dailyTf.Some? || req.h4Tf.Some? || req.h1Tf.Some? || req.lowerTf.Some?
  }

  /** `'exit_price' in data and data['exit_price']`. */
  predicate ClosingExitSent(req: TradeRequest) {
    req.exitPrice.Some? && Truthy(req.exitPrice.value)
  }

  /**
   * The whole `update_data`. The confluence is recomputed only when a timeframe
   * score is sent, from the sent scores and the stored ones. P&L, CLOSED and the
   * close time are written only for a truthy exit price that is sent, from the
   * sent entry, lot and direction or the stored ones. A needed stored document
   * that is missing is an error.
   */
  function MongoUpdateData(req: TradeRequest, stored: Option<Trade>, now: Timestamp): (r: Result<UpdateData, UpdateError>)
    ensures r.Err? <==> stored.None? && (TimeframeSent(req) || ClosingExitSent(req))
    ensures r.Ok? ==> r.value.fields == req
    ensures r.Ok? ==> (r.value.totalConfluence.Some? <==> TimeframeSent(req))
    ensures r.Ok? && TimeframeSent(req) ==> r.value.totalConfluence == Some(ConfluenceOf(Merged(stored.value, req)))
    ensures r.Ok? ==> (r.value.pnl.Some? <==> ClosingExitSent(req))
    ensures r.Ok? && ClosingExitSent(req) ==> r.value.pnl == Some(PnlOf(Merged(stored.value, req)))
    ensures r.Ok? ==> (r.value.status.Some? <==> ClosingExitSent(req))
    ensures r.Ok? && ClosingExitSent(req) ==> r.value.status == Some(Closed) && r.value.closedAt == Some(now)
    ensures r.Ok? && !ClosingExitSent(req) ==> r.value.closedAt == None
  {
    if stored.None? && (TimeframeSent(req) || ClosingExitSent(req)) then Err(NotFound)
    else
      var conf :=
        if TimeframeSent(req) then
          var s := stored.value;
          Some(Confluence(req.weeklyTf.GetOr(s.weeklyTf), req.dailyTf.GetOr(s.dailyTf), req.h4Tf.GetOr(s.h4Tf),
                          req.h1Tf.GetOr(s.h1Tf), req.lowerTf.GetOr(s.lowerTf)))
        else None;
      if ClosingExitSent(req) then
        var s := stored.value;
        var pnl := CalculatePnl(req.direction.GetOr(s.direction), req.entryPrice.GetOr(s.entryPrice),
                                req.exitPrice.value, req.lotSize.GetOr(s.lotSize));
        Ok(UpdateData(req, conf, Some(pnl), Some(Closed), Some(now)))
      else
        Ok(UpdateData(req, conf, None, None, None))
  }

  /** `update_data[field] = data[field]` for one present field. */
  function CopyField(acc: TradeRequest, req: TradeRequest, f: Field): TradeRequest {
    match f
    case Symbol => acc.(symbol := req.symbol)
    case Direction => acc.(direction := req.direction)
    case EntryPrice => acc.(entryPrice := req.entryPrice)
    case ExitPrice => acc.(exitPrice := req.exitPrice)
    case LotSize => acc.(lotSize := req.lotSize)
    case WeeklyTf => acc.(weeklyTf := req.weeklyTf)
    case DailyTf => acc.(dailyTf := req.dailyTf)
    case H4Tf => acc.(h4Tf := req.h4Tf)
    case H1Tf => acc.(h1Tf := req.h1Tf)
    case LowerTf => acc.(lowerTf := req.lowerTf)
    case RiskReward => acc.(riskReward := req.riskReward)
    case Notes => acc.(notes := req.notes)
  }

  /** Key `f` of `a` holds what key `f` of `b` holds, present or absent. */
  predicate SameKey(a: TradeRequest, b: TradeRequest, f: Field) {
    match f
    case Symbol => a.symbol == b.symbol
    case Direction => a.direction == b.direction
    case EntryPrice => a.entryPrice == b.entryPrice
    case ExitPrice => a.exitPrice == b.exitPrice
    case LotSize => a.lotSize == b.lotSize
    case WeeklyTf => a.weeklyTf == b.weeklyTf
    case DailyTf => a.dailyTf == b.dailyTf
    case H4Tf => a.h4Tf == b.h4Tf
    case H1Tf => a.h1Tf == b.h1Tf
    case LowerTf => a.lowerTf == b.lowerTf
    case RiskReward => a.riskReward == b.riskReward
    case Notes => a.notes == b.notes
  }

  /**
   * `for field in [...]: if field in data: update_data[field] = data[field]`:
   * the update document holds exactly the listed keys the request holds.
   */
  method CopyPresentKeys(req: TradeRequest) returns (fields: TradeRequest)
    ensures fields == req
  {
    fields := NoFields;
    var i := 0;
    while i < |UpdatableFields|
      invariant 0 <= i <= |UpdatableFields|
      invariant forall k :: 0 <= k < i ==> SameKey(fields, req, UpdatableFields[k])
      invariant forall k :: i <= k < |UpdatableFields| ==> SameKey(fields, NoFields, UpdatableFields[k])
    {
      var f := UpdatableFields[i];
      if Present(req, f) {
        fields := CopyField(fields, req, f);
      }
      i := i + 1;
    }
    assert SameKey(fields, req, UpdatableFields[0]) && SameKey(fields, req, UpdatableFields[1]);
    assert SameKey(fields, req, UpdatableFields[2]) && SameKey(fields, req, UpdatableFields[3]);
    assert SameKey(fields, req, UpdatableFields[4]) && SameKey(fields, req, UpdatableFields[5]);
    assert SameKey(fields, req, UpdatableFields[6]) && SameKey(fields, req, UpdatableFields[7]);
    assert SameKey(fields, req, UpdatableFields[8]) && SameKey(fields, req, UpdatableFields[9]);
    assert SameKey(fields, req, UpdatableFields[10]) && SameKey(fields, req, UpdatableFields[11]);
  }

  /** The handler body: the key loop, then the two conditional blocks. */
  method BuildUpdateData(req: TradeRequest, stored: Option<Trade>, now: Timestamp) returns (r: Result<UpdateData, UpdateError>)
    ensures r == MongoUpdateData(req, stored, now)
  {
    var fields := CopyPresentKeys(req);
    var conf: Option<real> := None;
    if TimeframeSent(req) {
      if stored.None? {
        return Err(NotFound);
      }
      var s := stored.value;
      conf := Some(Confluence(fields.weeklyTf.GetOr(s.weeklyTf), fields.dailyTf.GetOr(s.dailyTf),
                              fields.h4Tf.GetOr(s.h4Tf), fields.h1Tf.GetOr(s.h1Tf), fields.lowerTf.GetOr(s.lowerTf)));
    }
    if req.exitPrice.Some? && Truthy(req.exitPrice.value) {
      if stored.None? {
        return Err(NotFound);
      }
      var s := stored.value;
      var entry := fields.entryPrice.GetOr(s.entryPrice);
      var lot := fields.lotSize.GetOr(s.lotSize);
      var direction := fields.direction.GetOr(s.direction);
      var pnl := CalculatePnl(direction, entry, req.exitPrice.value, lot);
      return Ok(UpdateData(fields, conf, Some(pnl), Some(Closed), Some(now)));
    }
    return Ok(UpdateData(fields, conf, None, None, None));
  }

  /**
   * `create_trade` of the document backend: the same dict as the relational
   * handler, with the P&L formula written out inline and the id the driver
   * assigns on insert.
   */
  function MongoNewTrade(req: TradeRequest, id: int, now: Timestamp): (r: Result<Trade, CreateError>)
    ensures r == NewTrade(req, id, now)
  {
    if req.symbol.None? then Err(MissingField(Symbol))
    else if req.direction.None? then Err(MissingField(Direction))
    else if req.entryPrice.None? then Err(MissingField(EntryPrice))
    else if req.lotSize.None? then Err(MissingField(LotSize))
    else
      var weekly, daily, h4, h1, lower :=
        req.weeklyTf.GetOr(0), req.dailyTf.GetOr(0), req.h4Tf.GetOr(0), req.h1Tf.GetOr(0), req.lowerTf.GetOr(0);
      var t := Trade(
        id, req.symbol.value, req.direction.value, req.entryPrice.value, ExitOf(req), req.lotSize.value,
        weekly, daily, h4, h1, lower, Round1((weekly + daily + h4 + h1 + lower) as real / 5.0),
        ExitOfNullable(req.riskReward), ExitOfNullable(req.notes),
        if Truthy(ExitOf(req)) then Closed else Open, 0.0, now, None);
      assert t.totalConfluence == Confluence(weekly, daily, h4, h1, lower);
      if Truthy(t.exitPrice) then
        var entry, exit, lot := t.entryPrice, t.exitPrice.value, t.lotSize;
        var pnl := if t.direction == "LONG" then (exit - entry) * lot * 100000.0 else (entry - exit) * lot * 100000.0;
        assert pnl == PriceMove(t.direction, entry, exit, lot);
        Ok(t.(pnl := Round2(pnl), closedAt := Some(now)))
      else Ok(t)
  }

  /** `$set`: every key of the update document overwrites the stored one. */
  function ApplySet(t: Trade, u: UpdateData): (r: Trade)
    ensures forall f :: SameField(r, Merged(t, u.fields), f)
    ensures r.id == t.id && r.createdAt == t.createdAt
    ensures r.totalConfluence == u.totalConfluence.GetOr(t.totalConfluence)
    ensures r.pnl == u.pnl.GetOr(t.pnl) && r.status == u.status.GetOr(t.status)
    ensures r.closedAt == (if u.closedAt.Some? then u.closedAt else t.closedAt)
  {
    Merged(t, u.fields).(
      totalConfluence := u.totalConfluence.GetOr(t.totalConfluence),
      pnl := u.pnl.GetOr(t.pnl),
      status := u.status.GetOr(t.status),
      closedAt := if u.closedAt.Some? then u.closedAt else t.closedAt)
  }

  /**
   * The document the handler returns after the update. A missing document is an
   * error when the handler has to read it (a score or a truthy exit is sent);
   * otherwise `update_one` matches nothing and `serialize_trade(None)` answers
   * with a null body, `None` here.
   */
  function MongoUpdated(stored: Option<Trade>, req: TradeRequest, now: Timestamp): (r: Result<Option<Trade>, UpdateError>)
    ensures r.Err? <==> stored.None? && (TimeframeSent(req) || ClosingExitSent(req))
    ensures r.Ok? ==> (r.value.Some? <==> stored.Some?)
    ensures r.Ok? && stored.Some? ==> r.value == Some(ApplySet(stored.value, MongoUpdateData(req, stored, now).value))
    ensures r.Ok? && r.value.Some? ==> r.value.value.id == stored.value.id && r.value.value.createdAt == stored.value.createdAt
  {
    var u := MongoUpdateData(req, stored, now);
    if u.Err? then Err(u.error)
    else if stored.None? then Ok(None)
    else Ok(Some(ApplySet(stored.value, u.value)))
  }

  /** A falsy exit price is stored, but status, P&L and close time are left as they were. */
  lemma FalsyExitStoredOnly(t: Trade, req: TradeRequest, now: Timestamp)
    requires req.exitPrice.Some? && !Truthy(req.exitPrice.value)
    ensures var r := MongoUpdated(Some(t), req, now).value.value;
      r.exitPrice == req.exitPrice.value && r.status == t.status && r.pnl == t.pnl && r.closedAt == t.closedAt
  {
  }

  /** Without a timeframe score in the request the stored confluence is kept, even if stale. */
  lemma ConfluenceKeptUnlessSent(t: Trade, req: TradeRequest, now: Timestamp)
    requires !TimeframeSent(req)
    ensures MongoUpdated(Some(t), req, now).value.value.totalConfluence == t.totalConfluence
  {
  }

  /**
   * The document update agrees with the file store's in-place update when the
   * stored confluence is current and the stored exit price is falsy or a new
   * exit price is sent.
   */
  lemma AgreesWithFlatFile(t: Trade, req: TradeRequest, now: Timestamp)
    requires t.totalConfluence == ConfluenceOf(t)
    requires req.exitPrice.Some? || !Truthy(t.exitPrice)
    ensures MongoUpdated(Some(t), req, now) == Ok(Some(FlatFileBackend.FlatFileUpdated(t, req, now)))
  {
    var m := Merged(t, req);
    assert ConfluenceOf(m) == Confluence(req.weeklyTf.GetOr(t.weeklyTf), req.dailyTf.GetOr(t.dailyTf),
      req.h4Tf.GetOr(t.h4Tf), req.h1Tf.GetOr(t.h1Tf), req.lowerTf.GetOr(t.lowerTf));
  }

  /** Otherwise they differ: an update that sends no exit to a closed trade moves the file store's close time only. */
  lemma DiffersFromFlatFileWithoutExit(t: Trade, req: TradeRequest, now: Timestamp)
    requires t.totalConfluence == ConfluenceOf(t) && Truthy(t.exitPrice) && req.exitPrice.None?
    requires t.closedAt != Some(now)
    ensures MongoUpdated(Some(t), req, now).value.value.closedAt == t.closedAt
    ensures FlatFileBackend.FlatFileUpdated(t, req, now).closedAt == Some(now)
  {
  }
}
