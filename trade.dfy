/**
 * The trade record and the accounting engine shared by the three backends:
 * P&L of one trade, the confluence score, the record built by `create_trade`,
 * and the field copy that `update_trade` performs.
 */
module TradeRecord {
  import opened Wrappers
  import opened Rounding
  import opened Dates

  datatype Status = Open | Closed | Cancelled

  /** One trade, with the fields the trade handlers read or write. */
  datatype Trade = Trade(
    id: int,
    symbol: string,
    direction: string,
    entryPrice: real,
    exitPrice: Option<real>,
    lotSize: real,
    weeklyTf: int,
    dailyTf: int,
    h4Tf: int,
    h1Tf: int,
    lowerTf: int,
    totalConfluence: real,
    riskReward: Option<real>,
    notes: Option<string>,
    status: Status,
    pnl: real,
    createdAt: Timestamp,
    closedAt: Option<Timestamp>)

  /**
   * The twelve request keys the handlers read. `None` is an absent key; for the
   * nullable fields `Some(None)` is a key sent as JSON null.
   */
  datatype TradeRequest = TradeRequest(
    symbol: Option<string>,
    direction: Option<string>,
    entryPrice: Option<real>,
    exitPrice: Option<Option<real>>,
    lotSize: Option<real>,
    weeklyTf: Option<int>,
    dailyTf: Option<int>,
    h4Tf: Option<int>,
    h1Tf: Option<int>,
    lowerTf: Option<int>,
    riskReward: Option<Option<real>>,
    notes: Option<Option<string>>)

  datatype Field =
    | Symbol | Direction | EntryPrice | ExitPrice | LotSize
    | WeeklyTf | DailyTf | H4Tf | H1Tf | LowerTf
    | RiskReward | Notes

  /** The fields an update copies from the request, in the handlers' order. */
  const UpdatableFields: seq<Field> :=
    [Symbol, Direction, EntryPrice, ExitPrice, LotSize,
     WeeklyTf, DailyTf, H4Tf, H1Tf, LowerTf, RiskReward, Notes]

  /** `field in data`. */
  predicate Present(req: TradeRequest, f: Field) {
    match f
    case Symbol => req.symbol.Some?
    case Direction => req.direction.Some?
    case EntryPrice => req.entryPrice.Some?
    case ExitPrice => req.exitPrice.Some?
    case LotSize => req.lotSize.Some?
    case WeeklyTf => req.weeklyTf.Some?
    case DailyTf => req.dailyTf.Some?
    case H4Tf => req.h4Tf.Some?
    case H1Tf => req.h1Tf.Some?
    case LowerTf => req.lowerTf.Some?
    case RiskReward => req.riskReward.Some?
    case Notes => req.notes.Some?
  }

  /** Python truthiness of an exit price: present and not zero. */
  predicate Truthy(x: Option<real>) {
    x.Some? && x.value != 0.0
  }

  /** Units per lot: the fixed forex contract size. */
  const LotUnits: real := 100000.0

  /** The unrounded P&L of a move from `entry` to `exit`; any direction but LONG counts as short. */
  function PriceMove(direction: string, entry: real, exit: real, lot: real): real {
    if direction == "LONG" then (exit - entry) * lot * LotUnits
    else (entry - exit) * lot * LotUnits
  }

  /** `calculate_pnl`: 0 without a truthy exit price, else the move rounded to cents. */
  function CalculatePnl(direction: string, entry: real, exit: Option<real>, lot: real): (r: real)
    ensures !Truthy(exit) ==> r == 0.0
    ensures Truthy(exit) ==> -0.005 <= r - PriceMove(direction, entry, exit.value, lot) <= 0.005
  {
    if !Truthy(exit) then 0.0
    else
      RoundNear(PriceMove(direction, entry, exit.value, lot), 100.0);
      Round2(PriceMove(direction, entry, exit.value, lot))
  }

  function PnlOf(t: Trade): real {
    CalculatePnl(t.direction, t.entryPrice, t.exitPrice, t.lotSize)
  }

  /** The same move is a gain for one side exactly when it is a loss for the other. */
  lemma LongShortOpposite(entry: real, exit: Option<real>, lot: real, other: string)
    requires other != "LONG"
    ensures CalculatePnl("LONG", entry, exit, lot) == -CalculatePnl(other, entry, exit, lot)
  {
    if Truthy(exit) {
      var x := exit.value;
      assert PriceMove("LONG", entry, x, lot) == -PriceMove(other, entry, x, lot);
      RoundNeg(PriceMove(other, entry, x, lot), 100.0);
    }
  }

  /** A long position with a positive lot gains when the exit is above the entry, and loses below. */
  lemma LongPnlSign(entry: real, exit: real, lot: real)
    requires lot > 0.0 && exit != 0.0
    ensures exit >= entry ==> CalculatePnl("LONG", entry, Some(exit), lot) >= 0.0
    ensures exit <= entry ==> CalculatePnl("LONG", entry, Some(exit), lot) <= 0.0
  {
    var m := PriceMove("LONG", entry, exit, lot);
    RoundZero();
    if exit >= entry {
      assert (exit - entry) * lot >= 0.0;
      RoundMonotone(0.0, m, 100.0);
    }
    if exit <= entry {
      assert (exit - entry) * lot <= 0.0;
      RoundMonotone(m, 0.0, 100.0);
    }
  }

  /** The two worked examples: a 50-pip long on one lot, a 50-pip short on two lots. */
  lemma PnlExamples()
    ensures CalculatePnl("LONG", 1.1000, Some(1.1050), 1.0) == 500.0
    ensures CalculatePnl("SHORT", 1.2000, Some(1.1950), 2.0) == 1000.0
  {
    assert PriceMove("LONG", 1.1000, 1.1050, 1.0) == 500.0;
    assert PriceMove("SHORT", 1.2000, 1.1950, 2.0) == 1000.0;
    RoundOfInt(500);
    RoundOfInt(1000);
  }

  /** `calculate_confluence`: the mean of the five timeframe scores, to one decimal. */
  function Confluence(weekly: int, daily: int, h4: int, h1: int, lower: int): real {
    Round1((weekly + daily + h4 + h1 + lower) as real / 5.0)
  }

  function ConfluenceOf(t: Trade): real {
    Confluence(t.weeklyTf, t.dailyTf, t.h4Tf, t.h1Tf, t.lowerTf)
  }

  /** The score lies between the smallest and the largest input (so in [0, 100] for inputs there). */
  lemma ConfluenceBetween(weekly: int, daily: int, h4: int, h1: int, lower: int, lo: int, hi: int)
    requires lo <= weekly <= hi && lo <= daily <= hi && lo <= h4 <= hi
    requires lo <= h1 <= hi && lo <= lower <= hi
    ensures lo as real <= Confluence(weekly, daily, h4, h1, lower) <= hi as real
  {
    var mean := (weekly + daily + h4 + h1 + lower) as real / 5.0;
    assert lo as real <= mean <= hi as real;
    RoundMonotone(lo as real, mean, 10.0);
    RoundMonotone(mean, hi as real, 10.0);
    RoundOfInt(lo);
    RoundOfInt(hi);
  }

  /** Five equal scores give that score; in particular all zeros give 0. */
  lemma ConfluenceOfEqual(k: int)
    ensures Confluence(k, k, k, k, k) == k as real
  {
    assert (k + k + k + k + k) as real / 5.0 == k as real;
    RoundOfInt(k);
  }

  /** Raising one score never lowers the total. */
  lemma ConfluenceMonotone(weekly: int, daily: int, h4: int, h1: int, lower: int, weekly': int)
    requires weekly <= weekly'
    ensures Confluence(weekly, daily, h4, h1, lower) <= Confluence(weekly', daily, h4, h1, lower)
  {
    RoundMonotone((weekly + daily + h4 + h1 + lower) as real / 5.0,
                  (weekly' + daily + h4 + h1 + lower) as real / 5.0, 10.0);
  }

  /**
   * What a record promises once a handler has finished with it: CLOSED exactly
   * when the exit price is truthy, a close time exactly when CLOSED, the P&L that
   * `calculate_pnl` gives (0 while open), and the current confluence.
   */
  predicate Consistent(t: Trade) {
    && (t.status == Open || t.status == Closed)
    && (t.status == Closed <==> Truthy(t.exitPrice))
    && (t.closedAt.Some? <==> t.status == Closed)
    && t.pnl == PnlOf(t)
    && t.totalConfluence == ConfluenceOf(t)
  }

  datatype CreateError = MissingField(field: Field)

  /** The keys `create_trade` subscripts, in the order it reads them. */
  const RequiredFields: seq<Field> := [Symbol, Direction, EntryPrice, LotSize]

  /** `data.get('exit_price')`: absent and null both read as None. */
  function ExitOf(req: TradeRequest): Option<real> {
    if req.exitPrice.Some? then req.exitPrice.value else None
  }

  /**
   * The record `create_trade` stores: the four required keys (a KeyError when one
   * is missing, reported for the first in the order the handler reads them), the
   * scores defaulting to 0, CLOSED with its P&L and close time only for a truthy
   * exit price, otherwise OPEN with P&L 0 and no close time.
   */
  function NewTrade(req: TradeRequest, id: int, now: Timestamp): (r: Result<Trade, CreateError>)
    ensures r.Ok? <==> req.symbol.Some? && req.direction.Some? && req.entryPrice.Some? && req.lotSize.Some?
    ensures r.Err? ==> !Present(req, r.error.field)
    ensures r.Err? ==> exists i :: 0 <= i < |RequiredFields| && RequiredFields[i] == r.error.field
                         && forall j :: 0 <= j < i ==> Present(req, RequiredFields[j])
    ensures r.Ok? ==> Consistent(r.value)
    ensures r.Ok? ==> r.value.id == id && r.value.createdAt == now
    ensures r.Ok? ==> r.value.symbol == req.symbol.value && r.value.entryPrice == req.entryPrice.value
                      && r.value.exitPrice == ExitOf(req) && r.value.lotSize == req.lotSize.value
                      && r.value.direction == req.direction.value
    ensures r.Ok? ==> r.value.weeklyTf == req.weeklyTf.GetOr(0) && r.value.dailyTf == req.dailyTf.GetOr(0)
                      && r.value.h4Tf == req.h4Tf.GetOr(0) && r.value.h1Tf == req.h1Tf.GetOr(0)
                      && r.value.lowerTf == req.lowerTf.GetOr(0)
    ensures r.Ok? ==> r.value.riskReward == ExitOfNullable(req.riskReward) && r.value.notes == ExitOfNullable(req.notes)
    ensures r.Ok? ==> r.value.totalConfluence
                      == Confluence(req.weeklyTf.GetOr(0), req.dailyTf.GetOr(0), req.h4Tf.GetOr(0),
                                    req.h1Tf.GetOr(0), req.lowerTf.GetOr(0))
    ensures r.Ok? ==> (r.value.status == Closed <==> Truthy(ExitOf(req)))
    ensures r.Ok? && r.value.status == Closed ==> r.value.closedAt == Some(now)
    ensures r.Ok? && r.value.status == Open ==> r.value.pnl == 0.0 && r.value.closedAt == None
  {
    var keys := RequiredFields;
    if req.symbol.None? then
      assert keys[0] == Symbol;
      Err(MissingField(Symbol))
    else if req.direction.None? then
      assert keys[1] == Direction && Present(req, keys[0]);
      Err(MissingField(Direction))
    else if req.entryPrice.None? then
      assert keys[2] == EntryPrice && Present(req, keys[0]) && Present(req, keys[1]);
      Err(MissingField(EntryPrice))
    else if req.lotSize.None? then
      assert keys[3] == LotSize && Present(req, keys[0]) && Present(req, keys[1]) && Present(req, keys[2]);
      Err(MissingField(LotSize))
    else
      var weekly, daily, h4, h1, lower :=
        req.weeklyTf.GetOr(0), req.dailyTf.GetOr(0), req.h4Tf.GetOr(0), req.h1Tf.GetOr(0), req.lowerTf.GetOr(0);
      var exit := ExitOf(req);
      var closing := Truthy(exit);
      var t := Trade(
        id, req.symbol.value, req.direction.value, req.entryPrice.value, exit, req.lotSize.value,
        weekly, daily, h4, h1, lower, Confluence(weekly, daily, h4, h1, lower),
        ExitOfNullable(req.riskReward), ExitOfNullable(req.notes),
        if closing then Closed else Open, 0.0, now, None);
      if closing
      then Ok(t.(pnl := PnlOf(t), closedAt := Some(now)))
      else Ok(t)
  }

  /** `data.get(key)` for a nullable key. */
  function ExitOfNullable<T>(v: Option<Option<T>>): Option<T> {
    if v.Some? then v.value else None
  }

  /** Field `f` holds the same value in `a` and `b`. */
  predicate SameField(a: Trade, b: Trade, f: Field) {
    match f
    case Symbol => a.symbol == b.symbol
    case Direction => a.direction == b.direction
    case EntryPrice => a.entryPrice == b.entryPrice
    case ExitPrice => a.exitPrice == b.exitPrice
    case LotSize => a.lotSize == b.lotSize
    case WeeklyTf => a.weeklyTf == b.weeklyTf
    case DailyTf => a.dailyTf == b.dailyTf
    case H4Tf => a.h4Tf == b.h4Tf
    case H1Tf => a.h1Tf == b.h1Tf
    case LowerTf => a.lowerTf == b.lowerTf
    case RiskReward => a.riskReward == b.riskReward
    case Notes => a.notes == b.notes
  }

  /** The fields no request key reaches. */
  predicate SameUnlisted(a: Trade, b: Trade) {
    a.id == b.id && a.totalConfluence == b.totalConfluence && a.status == b.status
    && a.pnl == b.pnl && a.createdAt == b.createdAt && a.closedAt == b.closedAt
  }

  /** `setattr(trade, field, data[field])` for one present field. */
  function WithField(t: Trade, f: Field, req: TradeRequest): (r: Trade)
    requires Present(req, f)
  {
    match f
    case Symbol => t.(symbol := req.symbol.value)
    case Direction => t.(direction := req.direction.value)
    case EntryPrice => t.(entryPrice := req.entryPrice.value)
    case ExitPrice => t.(exitPrice := req.exitPrice.value)
    case LotSize => t.(lotSize := req.lotSize.value)
    case WeeklyTf => t.(weeklyTf := req.weeklyTf.value)
    case DailyTf => t.(dailyTf := req.dailyTf.value)
    case H4Tf => t.(h4Tf := req.h4Tf.value)
    case H1Tf => t.(h1Tf := req.h1Tf.value)
    case LowerTf => t.(lowerTf := req.lowerTf.value)
    case RiskReward => t.(riskReward := req.riskReward.value)
    case Notes => t.(notes := req.notes.value)
  }

  /** The record with every present listed field taken from the request. */
  function Merged(t: Trade, req: TradeRequest): Trade {
    t.(symbol := req.symbol.GetOr(t.symbol),
       direction := req.direction.GetOr(t.direction),
       entryPrice := req.entryPrice.GetOr(t.entryPrice),
       exitPrice := req.exitPrice.GetOr(t.exitPrice),
       lotSize := req.lotSize.GetOr(t.lotSize),
       weeklyTf := req.weeklyTf.GetOr(t.weeklyTf),
       dailyTf := req.dailyTf.GetOr(t.dailyTf),
       h4Tf := req.h4Tf.GetOr(t.h4Tf),
       h1Tf := req.h1Tf.GetOr(t.h1Tf),
       lowerTf := req.lowerTf.GetOr(t.lowerTf),
       riskReward := req.riskReward.GetOr(t.riskReward),
       notes := req.notes.GetOr(t.notes))
  }

  /** One pass of the update loop: copy `f` when the request has it. */
  function CopyIfPresent(t: Trade, f: Field, req: TradeRequest): Trade {
    if Present(req, f) then WithField(t, f, req) else t
  }

  /** The update loop run over the fields `fs`, in order. */
  function CopyAll(t: Trade, req: TradeRequest, fs: seq<Field>): Trade {
    if |fs| == 0 then t else CopyIfPresent(CopyAll(t, req, fs[..|fs| - 1]), fs[|fs| - 1], req)
  }

  /** Copying one field leaves every other field and everything unlisted alone. */
  lemma CopyIfPresentFrame(t: Trade, f: Field, req: TradeRequest, other: Trade, g: Field)
    requires g != f
    ensures SameField(CopyIfPresent(t, f, req), other, g) == SameField(t, other, g)
    ensures SameUnlisted(CopyIfPresent(t, f, req), t)
  {
  }

  /**
   * After the loop over `fs`, a field in `fs` holds the merged value and any
   * other field its old value.
   */
  lemma {:induction false} CopyAllField(t: Trade, req: TradeRequest, fs: seq<Field>, g: Field)
    ensures SameField(CopyAll(t, req, fs), if g in fs then Merged(t, req) else t, g)
    ensures SameUnlisted(CopyAll(t, req, fs), t)
  {
    if |fs| > 0 {
      var init := fs[..|fs| - 1];
      var last := fs[|fs| - 1];
      assert fs == init + [last];
      CopyAllField(t, req, init, g);
      var x := CopyAll(t, req, init);
      var goal := if g in fs then Merged(t, req) else t;
      if g == last {
        if !Present(req, g) && g !in init {
          assert SameField(x, t, g);
        }
      } else {
        assert g in fs <==> g in init;
        CopyIfPresentFrame(x, last, req, goal, g);
      }
    }
  }

  /** Running the loop over every listed field gives the merged record. */
  lemma CopyAllMerged(t: Trade, req: TradeRequest)
    ensures CopyAll(t, req, UpdatableFields) == Merged(t, req)
  {
    var r := CopyAll(t, req, UpdatableFields);
    var m := Merged(t, req);
    CopyAllField(t, req, UpdatableFields, Symbol);
    assert SameUnlisted(r, m);
    forall g: Field ensures SameField(r, m, g) {
      CopyAllField(t, req, UpdatableFields, g);
      assert g in UpdatableFields;
    }
    assert SameField(r, m, Symbol) && SameField(r, m, Direction) && SameField(r, m, EntryPrice);
    assert SameField(r, m, ExitPrice) && SameField(r, m, LotSize) && SameField(r, m, WeeklyTf);
    assert SameField(r, m, DailyTf) && SameField(r, m, H4Tf) && SameField(r, m, H1Tf);
    assert SameField(r, m, LowerTf) && SameField(r, m, RiskReward) && SameField(r, m, Notes);
  }

  /**
   * The update loop `for field in [...]: if field in data: setattr(...)`: every
   * listed field present in the request is copied, nothing else is touched.
   */
  method CopyPresentFields(t: Trade, req: TradeRequest) returns (r: Trade)
    ensures r == Merged(t, req)
  {
    r := t;
    for i := 0 to |UpdatableFields|
      invariant r == CopyAll(t, req, UpdatableFields[..i])
    {
      assert UpdatableFields[..i + 1][..i] == UpdatableFields[..i];
      var f := UpdatableFields[i];
      if Present(req, f) {
        r := WithField(r, f, req);
      }
    }
    assert UpdatableFields[..|UpdatableFields|] == UpdatableFields;
    CopyAllMerged(t, req);
  }
}
