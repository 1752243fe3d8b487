/**
 The grid strategy as functions on its state: what each callback does to the
 levels, and what it asks of the strategy context.
 */
module GridModel {
  import opened Decimal

  datatype Config = Config(gridLow: real, gridHigh: real, gridLevels: int, quantity: real, symbolId: nat)

  datatype Level = Level(price: Raw, buy: nat, sell: nat)

  datatype Side = Buy | Sell

  function IdAt(l: Level, side: Side): nat { if side.Buy? then l.buy else l.sell }

  function WithId(l: Level, side: Side, id: nat): Level {
    if side.Buy? then l.(buy := id) else l.(sell := id)
  }

  /**
   An accepted order.  `level` and `cause` are history: where the strategy put
   its id, and the id of the fill that it counters (0 for an order from a tick).
   */
  datatype Order = Order(id: nat, side: Side, price: Raw, quantity: Raw, symbolId: nat, level: nat, cause: nat)

  /** The risk engine's answer to one submission; `gap` counts ids taken by others meanwhile. */
  datatype Decision = Refuse | Accept(gap: nat)

  type Decisions = nat -> Decision

  /** The strategy's view of the engine: the id generator, the submissions so far, the cancel requests. */
  datatype Desk = Desk(nextId: nat, asked: nat, placed: seq<Order>, cancels: seq<nat>)

  /** What became of the ids that no level holds any more. */
  datatype Ledger = Ledger(filled: set<nat>, cancelled: set<nat>, orphaned: set<nat>)

  datatype State = State(levels: seq<Level>, initialized: bool, ticks: nat, fills: nat, desk: Desk, ledger: Ledger)

  /** submitOrder: 0 when refused, a new id otherwise. */
  function Submit(d: Desk, decide: Decisions, cfg: Config, side: Side, price: Raw, level: nat,
        cause: nat): (r: (Desk, nat))
  {
    match decide(d.asked)
    case Refuse => (d.(asked := d.asked + 1), 0)
    case Accept(gap) =>
      var id := d.nextId + gap;
      var order := Order(id, side, RoundPrice(price), ToDecimal(cfg.quantity), cfg.symbolId, level, cause);
      (d.(asked := d.asked + 1, nextId := id + 1, placed := d.placed + [order]), id)
  }

  /** placeBuyAt and placeSellAt: submit, and on success overwrite the level's id. */
  function Place(s: State, cfg: Config, decide: Decisions, i: nat, side: Side, price: Raw, cause: nat): State
    requires i < |s.levels|
  {
    var (desk, id) := Submit(s.desk, decide, cfg, side, price, i, cause);
    if id == 0 then s.(desk := desk)
    else
      var prior := IdAt(s.levels[i], side);
      s.(levels := s.levels[i := WithId(s.levels[i], side, id)],
         desk := desk,
         ledger := if prior == 0 then s.ledger else s.ledger.(orphaned := s.ledger.orphaned + {prior}))
  }

  function Max(x: real, y: real): real { if x < y then y else x }
  function Min(x: real, y: real): real { if y < x then y else x }

  /** The price a tick bids at a level: across the mid by 0.5, one tick more for each bid before it. */
  function TickBid(level: Raw, mid: Raw, offset: nat): Raw {
    ToDecimal(Max(ToDouble(level), ToDouble(mid)) + 0.5 + offset as real * 0.1)
  }

  function TickAsk(level: Raw, mid: Raw, offset: nat): Raw {
    ToDecimal(Min(ToDouble(level), ToDouble(mid)) - 0.5 - offset as real * 0.1)
  }

  /** A submission that returned an id counts as a processed tick. */
  function Counted(before: State, after: State): State {
    if |after.desk.placed| > |before.desk.placed| && after.desk.placed[|after.desk.placed| - 1].id != 0
    then after.(ticks := after.ticks + 1)
    else after
  }

  /** onTick's loop from level i, having tried `bids` buys and `asks` sells. */
  function TickFrom(s: State, cfg: Config, decide: Decisions, mid: Raw, i: nat, bids: nat, asks: nat): (r: State)
    requires i <= |s.levels|
    ensures |r.levels| == |s.levels|
    decreases |s.levels| - i
  {
    if i == |s.levels| then s
    else
      var l := s.levels[i];
      if l.price < mid && l.buy == 0 then
        TickFrom(Counted(s, Place(s, cfg, decide, i, Buy, TickBid(l.price, mid, bids), 0)), cfg, decide, mid, i + 1,
          bids + 1, asks)
      else if l.price > mid && l.sell == 0 then
        TickFrom(Counted(s, Place(s, cfg, decide, i, Sell, TickAsk(l.price, mid, asks), 0)), cfg, decide, mid, i + 1,
          bids, asks + 1)
      else TickFrom(s, cfg, decide, mid, i + 1, bids, asks)
  }

  datatype Mid = NoMid | AtMid(price: Raw)

  function OnTick(s: State, cfg: Config, decide: Decisions, mid: Mid): State {
    if !s.initialized || mid.NoMid? then s else TickFrom(s, cfg, decide, mid.price, 0, 0, 0)
  }

  /** The counter-order's limit: the neighbour's price, bounded by a positive mid. */
  function CounterAsk(level: Raw, mid: Mid): Raw {
    if mid.AtMid? && mid.price > 0 then ToDecimal(Min(ToDouble(level), ToDouble(mid.price)))
      else ToDecimal(ToDouble(level))
  }

  function CounterBid(level: Raw, mid: Mid): Raw {
    if mid.AtMid? && mid.price > 0 then ToDecimal(Max(ToDouble(level), ToDouble(mid.price)))
      else ToDecimal(ToDouble(level))
  }

  /** The id leaves level i, filled. */
  function TakeFill(s: State, i: nat, side: Side): State
    requires i < |s.levels|
  {
    s.(levels := s.levels[i := WithId(s.levels[i], side, 0)], fills := s.fills + 1,
       ledger := s.ledger.(filled := s.ledger.filled + {IdAt(s.levels[i], side)}))
  }

  /** A fill of level i's order on `side`: counter it one level further. */
  function FillAt(s: State, cfg: Config, decide: Decisions, i: nat, side: Side, mid: Mid): State
    requires i < |s.levels|
  {
    var id := IdAt(s.levels[i], side);
    var t := TakeFill(s, i, side);
    if side.Buy? && i + 1 < |s.levels| then
      Place(t, cfg, decide, i + 1, Sell, CounterAsk(t.levels[i + 1].price, mid), id)
    else if side.Sell? && i > 0 then
      Place(t, cfg, decide, i - 1, Buy, CounterBid(t.levels[i - 1].price, mid), id)
    else t
  }

  /** onFill's search from level i: the first slot holding the id, buy before sell. */
  function FillFrom(s: State, cfg: Config, decide: Decisions, id: nat, mid: Mid, i: nat): State
    requires i <= |s.levels|
    decreases |s.levels| - i
  {
    if i == |s.levels| then s
    else if id != 0 && id == s.levels[i].buy then FillAt(s, cfg, decide, i, Buy, mid)
    else if id != 0 && id == s.levels[i].sell then FillAt(s, cfg, decide, i, Sell, mid)
    else FillFrom(s, cfg, decide, id, mid, i + 1)
  }

  /** onFill does not ask whether the strategy is initialized. */
  function OnFill(s: State, cfg: Config, decide: Decisions, id: nat, mid: Mid): State {
    FillFrom(s, cfg, decide, id, mid, 0)
  }

  /** Cancels one side of level i. */
  function Cancel(s: State, i: nat, side: Side): State
    requires i < |s.levels|
  {
    var id := IdAt(s.levels[i], side);
    s.(levels := s.levels[i := WithId(s.levels[i], side, 0)],
       desk := s.desk.(cancels := s.desk.cancels + [id]),
       ledger := s.ledger.(cancelled := s.ledger.cancelled + {id}))
  }

  /** A buy above mid, or a sell below it, is stale. */
  function CancelStale(s: State, mid: Raw, i: nat): State
    requires i < |s.levels|
  {
    var l := s.levels[i];
    if l.price > mid && l.buy != 0 then Cancel(s, i, Buy)
    else if l.price < mid && l.sell != 0 then Cancel(s, i, Sell)
    else s
  }

  function TimerFrom(s: State, mid: Raw, i: nat): (r: State)
    requires i <= |s.levels|
    ensures |r.levels| == |s.levels|
    decreases |s.levels| - i
  {
    if i == |s.levels| then s else TimerFrom(CancelStale(s, mid, i), mid, i + 1)
  }

  function OnTimer(s: State, mid: Mid): State {
    if !s.initialized || mid.NoMid? then s else TimerFrom(s, mid.price, 0)
  }

  /** One callback. */
  datatype Event = Load | Unload | Tick(mid: Mid) | Fill(id: nat, mid: Mid) | Timer(mid: Mid)

  function Step(s: State, cfg: Config, decide: Decisions, e: Event): State {
    match e
    case Load => s.(initialized := true)
    case Unload => s.(initialized := false)
    case Tick(mid) => OnTick(s, cfg, decide, mid)
    case Fill(id, mid) => OnFill(s, cfg, decide, id, mid)
    case Timer(mid) => OnTimer(s, mid)
  }

  function Run(s: State, cfg: Config, decide: Decisions, es: seq<Event>): State
    decreases |es|
  {
    if es == [] then s else Run(Step(s, cfg, decide, es[0]), cfg, decide, es[1..])
  }

  /** How far level i lies above the lowest: spacing times i. */
  function Rise(cfg: Config, i: nat): real
    requires cfg.gridLevels != 0
  {
    (cfg.gridHigh - cfg.gridLow) / cfg.gridLevels as real * i as real
  }

  /** The price of level i of the grid. */
  function LevelPrice(cfg: Config, i: nat): Raw
    requires cfg.gridLevels != 0
  {
    ToDecimal(cfg.gridLow + Rise(cfg, i))
  }

  /**
   The level counts that the constructor gets through: 0 divides by zero, and
   below -1 the reserved size wraps and is refused.  At -1 there are no levels.
   */
  predicate Buildable(cfg: Config) { cfg.gridLevels == -1 || cfg.gridLevels >= 1 }

  /** A new strategy on a context whose generator starts at firstId. */
  function Fresh(cfg: Config, firstId: nat): State
    requires Buildable(cfg)
  {
    State(seq(cfg.gridLevels + 1, i requires i >= 0 => Level(LevelPrice(cfg, i), 0, 0)), false, 0, 0,
          Desk(firstId, 0, [], []), Ledger({}, {}, {}))
  }
}
