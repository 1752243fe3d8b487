/**
 The grid strategy as the engine runs it: callbacks that loop over the levels
 and update them in place, against a context that numbers and records orders.
 Each callback does what `GridModel` says.
 */
module GridStrategy {
  import opened Decimal
  import opened GridModel
  import opened GridProofs

  /** Lock-free monotonic ids; 0 is reserved. */
  class OrderIDGenerator {
    var currentId: nat

    constructor (startId: nat)
      ensures currentId == startId
    {
      currentId := startId;
    }

    /** fetch_add(1): no id is ever handed out twice. */
    method Generate() returns (id: nat)
      modifies this
      ensures id == old(currentId) && currentId == old(currentId) + 1
    {
      id := currentId;
      currentId := currentId + 1;
    }

    /** Ids that the engine gives to other strategies meanwhile. */
    method Skip(n: nat)
      modifies this
      ensures currentId == old(currentId) + n
    {
      for i := 0 to n
        invariant currentId == old(currentId) + i
      {
        var _ := Generate();
      }
    }
  }

  /** The context: order submission through the risk engine, whose answers are given. */
  class StrategyContext {
    const generator: OrderIDGenerator
    const decide: Decisions
    const cfg: Config
    var asked: nat
    var placed: seq<Order>
    var cancels: seq<nat>

    ghost function Now(): Desk
      reads this, generator
    {
      Desk(generator.currentId, asked, placed, cancels)
    }

    constructor (firstId: nat, decide: Decisions, cfg: Config)
      ensures Now() == Desk(firstId, 0, [], []) && this.decide == decide && this.cfg == cfg
      ensures fresh(generator)
    {
      generator := new OrderIDGenerator(firstId);
      this.decide := decide;
      this.cfg := cfg;
      asked, placed, cancels := 0, [], [];
    }

    /** Returns the new id, or 0 if the risk engine refuses. `level` and `cause` are recorded for the books only. */
    method SubmitOrder(side: Side, limit: Raw, quantity: Raw, level: nat, cause: nat) returns (oid: nat)
      modifies this, generator
      ensures match decide(old(asked))
              case Refuse => oid == 0 && Now() == old(Now()).(asked := old(asked) + 1)
              case Accept(gap) =>
                && oid == old(generator.currentId) + gap
                && Now() == Desk(oid + 1, old(asked) + 1,
                                 old(placed) + [Order(oid, side, limit, quantity, cfg.symbolId, level, cause)],
                                   old(cancels))
    {
      var answer := decide(asked);
      asked := asked + 1;
      match answer
      case Refuse => oid := 0;
      case Accept(gap) =>
        generator.Skip(gap);
        oid := generator.Generate();
        placed := placed + [Order(oid, side, limit, quantity, cfg.symbolId, level, cause)];
    }

    method CancelOrder(id: nat)
      modifies this`cancels
      ensures cancels == old(cancels) + [id]
    {
      cancels := cancels + [id];
    }
  }

  class Strategy {
    const cfg: Config
    var levels: seq<Level>
    var initialized: bool
    var ticksProcessed: nat
    var fillsProcessed: nat
    ghost var ledger: Ledger

    ghost function Now(ctx: StrategyContext): State
      reads this, ctx, ctx.generator
    {
      State(levels, initialized, ticksProcessed, fillsProcessed, ctx.Now(), ledger)
    }

    constructor (config: Config)
      requires Buildable(config)
      ensures cfg == config
      ensures levels == Fresh(config, 0).levels && !initialized && ticksProcessed == fillsProcessed == 0
      ensures ledger == Ledger({}, {}, {})
    {
      cfg := config;
      initialized, ticksProcessed, fillsProcessed := false, 0, 0;
      ledger := Ledger({}, {}, {});
      levels := [];
      new;
      var spacing := (cfg.gridHigh - cfg.gridLow) / cfg.gridLevels as real;
      for i := 0 to cfg.gridLevels + 1
        modifies this
        invariant |levels| == i && (forall j :: 0 <= j < i ==> levels[j] == Level(LevelPrice(cfg, j), 0, 0))
        invariant !initialized && ticksProcessed == fillsProcessed == 0 && ledger == Ledger({}, {}, {})
      {
        assert spacing * i as real == Rise(cfg, i);
        levels := levels + [Level(ToDecimal(cfg.gridLow + spacing * i as real), 0, 0)];
      }
    }

    method OnLoad(ctx: StrategyContext)
      modifies this`initialized
      ensures Now(ctx) == Step(old(Now(ctx)), cfg, ctx.decide, Load)
    {
      initialized := true;
    }

    method OnUnload(ctx: StrategyContext)
      modifies this`initialized
      ensures Now(ctx) == Step(old(Now(ctx)), cfg, ctx.decide, Unload)
    {
      initialized := false;
    }

    /** placeBuyAt and placeSellAt, which differ in the side only. */
    method PlaceAt(ctx: StrategyContext, i: nat, side: Side, limit: Raw, cause: nat) returns (oid: nat)
      requires i < |levels| && ctx.cfg == cfg
      modifies this`levels, this`ledger, ctx, ctx.generator
      ensures Now(ctx) == Place(old(Now(ctx)), cfg, ctx.decide, i, side, limit, cause)
      ensures Counted(old(Now(ctx)), Now(ctx)) == if oid != 0 then Now(ctx).(ticks := ticksProcessed + 1) else Now(ctx)
    {
      oid := ctx.SubmitOrder(side, RoundPrice(limit), ToDecimal(cfg.quantity), i, cause);
      if oid != 0 {
        ghost var prior := IdAt(levels[i], side);
        ledger := if prior == 0 then ledger else ledger.(orphaned := ledger.orphaned + {prior});
        levels := levels[i := WithId(levels[i], side, oid)];
      }
    }

    /** A tick's order at level i: across the mid by 0.5, a tick further for each order before it. */
    method Offer(ctx: StrategyContext, i: nat, side: Side, levelPrice: real, midVal: real, offset: nat, ghost mid: Raw)
      requires i < |levels| && ctx.cfg == cfg
      requires levelPrice == ToDouble(levels[i].price) && midVal == ToDouble(mid)
      modifies this`levels, this`ledger, this`ticksProcessed, ctx, ctx.generator
      ensures var s := old(Now(ctx));
              var limit := if side.Buy? then TickBid(s.levels[i].price, mid, offset)
                else TickAsk(s.levels[i].price, mid, offset);
              Now(ctx) == Counted(s, Place(s, cfg, ctx.decide, i, side, limit, 0))
    {
      hide RoundPrice, Place, ToDouble;
      var aggressive := if side.Buy? then Max(levelPrice, midVal) + 0.5 + offset as real * 0.1
                        else Min(levelPrice, midVal) - 0.5 - offset as real * 0.1;
      var oid := PlaceAt(ctx, i, side, ToDecimal(aggressive), 0);
      if oid != 0 { ticksProcessed := ticksProcessed + 1; }
    }

    method OnTick(ctx: StrategyContext, mid: Mid)
      requires ctx.cfg == cfg
      modifies this, ctx, ctx.generator
      ensures Now(ctx) == Step(old(Now(ctx)), cfg, ctx.decide, Tick(mid))
    {
      hide Place, Counted, TickBid, TickAsk;
      if !initialized { return; }
      if mid.NoMid? { return; }
      var midVal := ToDouble(mid.price);
      var buyOffset: nat, sellOffset: nat := 0, 0;
      ghost var s := Now(ctx);
      for i := 0 to |levels|
        invariant |levels| == |s.levels|
        invariant TickFrom(Now(ctx), cfg, ctx.decide, mid.price, i, buyOffset, sellOffset)
                  == TickFrom(s, cfg, ctx.decide, mid.price, 0, 0, 0)
      {
        var level := levels[i];
        var levelPrice := ToDouble(level.price);
        ToDoubleMonotone(level.price, mid.price);
        ToDoubleMonotone(mid.price, level.price);
        hide ToDouble;
        ghost var t := Now(ctx);
        if levelPrice < midVal && level.buy == 0 {
          Offer(ctx, i, Buy, levelPrice, midVal, buyOffset, mid.price);
          CountedPlaceLength(t, cfg, ctx.decide, i, Buy, TickBid(level.price, mid.price, buyOffset));
          buyOffset := buyOffset + 1;
        }
        if levelPrice > midVal && level.sell == 0 {
          Offer(ctx, i, Sell, levelPrice, midVal, sellOffset, mid.price);
          CountedPlaceLength(t, cfg, ctx.decide, i, Sell, TickAsk(level.price, mid.price, sellOffset));
          sellOffset := sellOffset + 1;
        }
      }
    }

    method OnFill(ctx: StrategyContext, orderId: nat, mid: Mid)
      requires ctx.cfg == cfg
      modifies this, ctx, ctx.generator
      ensures Now(ctx) == Step(old(Now(ctx)), cfg, ctx.decide, Fill(orderId, mid))
    {
      hide Place, RoundPrice, ToDecimal, ToDouble;
      var midVal := if mid.AtMid? then ToDouble(mid.price) else 0.0;
      MidPositive(mid);
      ghost var s := Now(ctx);
      for i := 0 to |levels|
        invariant Now(ctx) == s
        invariant FillFrom(s, cfg, ctx.decide, orderId, mid, i) == FillFrom(s, cfg, ctx.decide, orderId, mid, 0)
      {
        if orderId != 0 && orderId == levels[i].buy {
          ledger := ledger.(filled := ledger.filled + {orderId});
          levels := levels[i := levels[i].(buy := 0)];
          fillsProcessed := fillsProcessed + 1;
          if i + 1 < |levels| {
            var limit := ToDouble(levels[i + 1].price);
            if midVal > 0.0 { limit := Min(limit, midVal); }
            assert ToDecimal(limit) == CounterAsk(levels[i + 1].price, mid);
            var _ := PlaceAt(ctx, i + 1, Sell, ToDecimal(limit), orderId);
          }
          return;
        }
        if orderId != 0 && orderId == levels[i].sell {
          ledger := ledger.(filled := ledger.filled + {orderId});
          levels := levels[i := levels[i].(sell := 0)];
          fillsProcessed := fillsProcessed + 1;
          if i > 0 {
            var limit := ToDouble(levels[i - 1].price);
            if midVal > 0.0 { limit := Max(limit, midVal); }
            assert ToDecimal(limit) == CounterBid(levels[i - 1].price, mid);
            var _ := PlaceAt(ctx, i - 1, Buy, ToDecimal(limit), orderId);
          }
          return;
        }
      }
    }

    method OnTimer(ctx: StrategyContext, mid: Mid)
      modifies this, ctx
      ensures Now(ctx) == Step(old(Now(ctx)), cfg, ctx.decide, Timer(mid))
    {
      if !initialized { return; }
      if mid.NoMid? { return; }
      var midVal := ToDouble(mid.price);
      ghost var s := Now(ctx);
      for i := 0 to |levels|
        invariant |levels| == |s.levels|
        invariant TimerFrom(Now(ctx), mid.price, i) == TimerFrom(s, mid.price, 0)
      {
        var levelPrice := ToDouble(levels[i].price);
        ToDoubleMonotone(levels[i].price, mid.price);
        ToDoubleMonotone(mid.price, levels[i].price);
        if levelPrice > midVal && levels[i].buy != 0 {
          ctx.CancelOrder(levels[i].buy);
          ledger := ledger.(cancelled := ledger.cancelled + {levels[i].buy});
          levels := levels[i := levels[i].(buy := 0)];
        }
        if levelPrice < midVal && levels[i].sell != 0 {
          ctx.CancelOrder(levels[i].sell);
          ledger := ledger.(cancelled := ledger.cancelled + {levels[i].sell});
          levels := levels[i := levels[i].(sell := 0)];
        }
      }
    }
  }

  lemma MidPositive(mid: Mid)
    ensures mid.AtMid? ==> (ToDouble(mid.price) > 0.0 <==> mid.price > 0)
  {
    if mid.AtMid? { ToDoubleMonotone(0, mid.price); assert ToDouble(0) == 0.0; }
  }
}
