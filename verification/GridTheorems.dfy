/**
 When the grid loses sight of a live order, what a timer followed by a tick
 leaves behind, and what prices a tick sends.
 */
module GridTheorems {
  import opened Decimal
  import opened GridModel
  import opened GridProofs

  // ---------------------------------------------------------------------
  // Orphans
  // ---------------------------------------------------------------------

  /** The slot that the counter-order of a fill at level i would take, if there is one. */
  function CounterSlot(s: State, i: nat, side: Side): (id: nat)
    requires i < |s.levels|
  {
    if side.Buy? && i + 1 < |s.levels| then s.levels[i + 1].sell
    else if side.Sell? && i > 0 then s.levels[i - 1].buy
    else 0
  }

  /** A fill of this id counters onto an occupied slot, and the counter-order is accepted. */
  ghost predicate Overwrites(s: State, decide: Decisions, id: nat) {
    && id != 0 && decide(s.desk.asked).Accept?
    && exists i: nat, side :: Holds(s.levels, i, side, id) && CounterSlot(s, i, side) != 0
  }

  lemma FillAtOrphans(s: State, cfg: Config, decide: Decisions, i: nat, side: Side, mid: Mid)
    requires Inv(s) && i < |s.levels| && IdAt(s.levels[i], side) != 0
    ensures var prior := CounterSlot(s, i, side);
            FillAt(s, cfg, decide, i, side, mid).ledger.orphaned
            == if prior != 0 && decide(s.desk.asked).Accept? then s.ledger.orphaned + {prior} else s.ledger.orphaned
  {
    hide Inv, CounterAsk, CounterBid, RoundPrice;
    assert s.desk.nextId > 0 by { PositiveIds(s); }
  }

  lemma PositiveIds(s: State)
    requires Inv(s)
    ensures s.desk.nextId > 0
  {
  }

  lemma {:induction false} FillFindsHolder(s: State, cfg: Config, decide: Decisions, id: nat, mid: Mid, i: nat,
        j: nat, side: Side)
    requires Inv(s) && id != 0 && i <= j && Holds(s.levels, j, side, id)
    ensures FillFrom(s, cfg, decide, id, mid, i) == FillAt(s, cfg, decide, j, side, mid)
    decreases j - i
  {
    assert OneSlotEach(s.levels);
    hide Inv, FillAt;
    assert Holds(s.levels, i, Buy, s.levels[i].buy) && Holds(s.levels, i, Sell, s.levels[i].sell);
    if i < j {
      FillFindsHolder(s, cfg, decide, id, mid, i + 1, j, side);
    }
  }

  /**
   A fill of a tracked id, wherever the search finds it: the id leaves its slot,
   and, unless refused or off the grid, one fresh order of the other side goes
   out one level further (above for a buy, below for a sell) and into that
   level's slot.
   */
  lemma FillCountersOneLevelOn(s: State, cfg: Config, decide: Decisions, id: nat, mid: Mid, i: nat, side: Side)
    requires Inv(s) && id != 0 && Holds(s.levels, i, side, id)
    ensures var t := OnFill(s, cfg, decide, id, mid);
            var freed := s.levels[i := WithId(s.levels[i], side, 0)];
            var k, other := if side.Buy? then i + 1 else i - 1, if side.Buy? then Sell else Buy;
            && t.fills == s.fills + 1 && t.ledger.filled == s.ledger.filled + {id}
            && if 0 <= k < |s.levels| && decide(s.desk.asked).Accept? then
                 && |t.desk.placed| == |s.desk.placed| + 1 && t.desk.placed[..|s.desk.placed|] == s.desk.placed
                 && var o := t.desk.placed[|s.desk.placed|];
                    && !Issued(s.desk, o.id) && o.level == k && o.side == other && o.cause == id
                    && o.price == RoundPrice(CounterLimit(s.levels[k].price, mid, other))
                    && o.quantity == ToDecimal(cfg.quantity) && o.symbolId == cfg.symbolId
                    && t.levels == freed[k := WithId(freed[k], other, o.id)]
               else t.levels == freed && t.desk.placed == s.desk.placed
  {
    FillFindsHolder(s, cfg, decide, id, mid, 0, i, side);
    PositiveIds(s);
    FillAtCounters(s, cfg, decide, mid, i, side);
    PlaceIsNew(s, s.desk.nextId + match decide(s.desk.asked) case Accept(gap) => gap case Refuse => 0);
    hide Inv, FillAt, CounterLimit, RoundPrice, ToDecimal, Issued;
  }

  lemma FillAtCounters(s: State, cfg: Config, decide: Decisions, mid: Mid, i: nat, side: Side)
    requires i < |s.levels| && s.desk.nextId > 0
    ensures var t := FillAt(s, cfg, decide, i, side, mid);
            var id := IdAt(s.levels[i], side);
            var freed := s.levels[i := WithId(s.levels[i], side, 0)];
            var k, other := if side.Buy? then i + 1 else i - 1, if side.Buy? then Sell else Buy;
            && t.fills == s.fills + 1 && t.ledger.filled == s.ledger.filled + {id}
            && if 0 <= k < |s.levels| && decide(s.desk.asked).Accept? then
                 && var o := Order(s.desk.nextId + decide(s.desk.asked).gap, other,
                                   RoundPrice(CounterLimit(s.levels[k].price, mid, other)), ToDecimal(cfg.quantity),
                                     cfg.symbolId, k, id);
                    t.desk.placed == s.desk.placed + [o] && t.levels == freed[k := WithId(freed[k], other, o.id)]
               else t.levels == freed && t.desk.placed == s.desk.placed
  {
    var k := if side.Buy? then i + 1 else i - 1;
    if 0 <= k < |s.levels| { CounterLimitIs(s.levels[k].price, mid); }
    hide CounterAsk, CounterBid, CounterLimit, RoundPrice, ToDecimal;
  }

  /** The neighbour's price, but a sell no higher and a buy no lower than a positive mid. */
  function CounterLimit(level: Raw, mid: Mid, side: Side): Raw {
    if mid.NoMid? || mid.price <= 0 then level
    else if side.Sell? then (if mid.price < level then mid.price else level)
    else (if mid.price > level then mid.price else level)
  }

  /** The trip through doubles loses nothing. */
  lemma CounterLimitIs(level: Raw, mid: Mid)
    ensures CounterAsk(level, mid) == CounterLimit(level, mid, Sell)
    ensures CounterBid(level, mid) == CounterLimit(level, mid, Buy)
  {
    DecimalRoundTrip(level);
    if mid.AtMid? {
      DecimalRoundTrip(mid.price);
      ToDoubleMonotone(level, mid.price);
      ToDoubleMonotone(mid.price, level);
    }
    hide ToDecimal, ToDouble;
  }

  /** One callback loses an order exactly when it is a fill that overwrites. */
  lemma StepOrphans(s: State, cfg: Config, decide: Decisions, e: Event)
    requires Inv(s)
    ensures s.ledger.orphaned <= Step(s, cfg, decide, e).ledger.orphaned
    ensures Step(s, cfg, decide, e).ledger.orphaned == s.ledger.orphaned
            <==> !(e.Fill? && Overwrites(s, decide, e.id))
  {
    match e
    case Tick(mid) => if s.initialized && mid.AtMid? { TickOrphansNothing(s, cfg, decide, mid.price, 0, 0, 0); }
    case Timer(mid) => if s.initialized && mid.AtMid? { TimerOrphansNothing(s, mid.price, 0); }
    case Fill(id, mid) => FillOrphans(s, cfg, decide, id, mid);
    case _ =>
  }

  lemma FillOrphans(s: State, cfg: Config, decide: Decisions, id: nat, mid: Mid)
    requires Inv(s)
    ensures s.ledger.orphaned <= OnFill(s, cfg, decide, id, mid).ledger.orphaned
    ensures OnFill(s, cfg, decide, id, mid).ledger.orphaned == s.ledger.orphaned <==> !Overwrites(s, decide, id)
  {
    if Tracked(s.levels, id) {
      var i: nat, side :| Holds(s.levels, i, side, id);
      FillFindsHolder(s, cfg, decide, id, mid, 0, i, side);
      FillAtOrphans(s, cfg, decide, i, side, mid);
      var prior := CounterSlot(s, i, side);
      if prior != 0 {
        var k, other := if side.Buy? then i + 1 else i - 1, if side.Buy? then Sell else Buy;
        assert Holds(s.levels, k, other, prior);
        assert prior !in s.ledger.orphaned by { assert Tracked(s.levels, prior) && OneFateEach(s); }
      }
      assert Overwrites(s, decide, id) <==> prior != 0 && decide(s.desk.asked).Accept? by {
        assert OneSlotEach(s.levels);
      }
    } else {
      UntrackedFillIgnored(s, cfg, decide, id, mid, 0);
    }
  }

  lemma {:induction false} TickOrphansNothing(s: State, cfg: Config, decide: Decisions, mid: Raw, i: nat, bids: nat,
        asks: nat)
    requires i <= |s.levels|
    ensures var r := TickFrom(s, cfg, decide, mid, i, bids, asks);
            && r.ledger == s.ledger && r.desk.cancels == s.desk.cancels
            && r.initialized == s.initialized && r.fills == s.fills
    decreases |s.levels| - i
  {
    hide RoundPrice, TickBid, TickAsk;
    if i < |s.levels| {
      var l := s.levels[i];
      if l.price < mid && l.buy == 0 {
        TickOrphansNothing(Counted(s, Place(s, cfg, decide, i, Buy, TickBid(l.price, mid, bids), 0)), cfg, decide,
          mid, i + 1, bids + 1, asks);
      } else if l.price > mid && l.sell == 0 {
        TickOrphansNothing(Counted(s, Place(s, cfg, decide, i, Sell, TickAsk(l.price, mid, asks), 0)), cfg, decide,
          mid, i + 1, bids, asks + 1);
      } else {
        TickOrphansNothing(s, cfg, decide, mid, i + 1, bids, asks);
      }
    }
  }

  /** The id that a timer cancels at this level, if any. */
  function StaleId(l: Level, mid: Raw): seq<nat> {
    if l.price > mid && l.buy != 0 then [l.buy] else if l.price < mid && l.sell != 0 then [l.sell] else []
  }

  /** The ids of the buys above mid and of the sells below it, from level i on, in level order. */
  function StaleIds(levels: seq<Level>, mid: Raw, i: nat): seq<nat>
    requires i <= |levels|
    decreases |levels| - i
  {
    if i == |levels| then [] else StaleId(levels[i], mid) + StaleIds(levels, mid, i + 1)
  }

  function ToSet(ids: seq<nat>): set<nat> { set id | id in ids }

  lemma ToSetOfSum(a: seq<nat>, b: seq<nat>)
    ensures ToSet(a + b) == ToSet(a) + ToSet(b)
  {
  }

  lemma {:induction false} StaleElsewhere(levels: seq<Level>, i: nat, l: Level, mid: Raw, j: nat)
    requires i < j <= |levels|
    ensures StaleIds(levels[i := l], mid, j) == StaleIds(levels, mid, j)
    decreases |levels| - j
  {
    hide StaleId;
    if j < |levels| { StaleElsewhere(levels, i, l, mid, j + 1); }
  }

  lemma {:induction false} TimerFromCancels(s: State, mid: Raw, i: nat)
    requires i <= |s.levels|
    ensures var r, ids := TimerFrom(s, mid, i), StaleIds(s.levels, mid, i);
            && r.desk == s.desk.(cancels := s.desk.cancels + ids)
            && r.ledger == s.ledger.(cancelled := s.ledger.cancelled + ToSet(ids))
            && r.ticks == s.ticks && r.fills == s.fills && r.initialized == s.initialized
    decreases |s.levels| - i
  {
    if i < |s.levels| {
      var t := CancelStale(s, mid, i);
      CancelStaleBooks(s, mid, i);
      StaleElsewhere(s.levels, i, t.levels[i], mid, i + 1);
      hide CancelStale, ToSet, StaleId;
      TimerFromCancels(t, mid, i + 1);
      BooksJoin(s.desk.cancels, s.ledger.cancelled, StaleId(s.levels[i], mid), StaleIds(s.levels, mid, i + 1));
    } else {
      BooksJoin(s.desk.cancels, s.ledger.cancelled, [], []);
    }
  }

  lemma BooksJoin(cancels: seq<nat>, cancelled: set<nat>, a: seq<nat>, b: seq<nat>)
    ensures cancels + a + b == cancels + (a + b) && cancels + [] == cancels
    ensures cancelled + ToSet(a) + ToSet(b) == cancelled + ToSet(a + b) && cancelled + ToSet([]) == cancelled
  {
    ToSetOfSum(a, b);
  }

  lemma CancelStaleBooks(s: State, mid: Raw, i: nat)
    requires i < |s.levels|
    ensures var t, here := CancelStale(s, mid, i), StaleId(s.levels[i], mid);
            && |t.levels| == |s.levels| && t.levels == s.levels[i := t.levels[i]]
            && t.desk == s.desk.(cancels := s.desk.cancels + here)
            && t.ledger == s.ledger.(cancelled := s.ledger.cancelled + ToSet(here))
            && t.ticks == s.ticks && t.fills == s.fills && t.initialized == s.initialized
  {
  }

  /**
   A timer requests a cancel for every stale order and for no other, once each
   and in level order, and books them as cancelled, none as filled.
   */
  lemma TimerCancelsTheStale(s: State, mid: Raw)
    requires s.initialized
    ensures var r, ids := OnTimer(s, AtMid(mid)), StaleIds(s.levels, mid, 0);
            && r.desk == s.desk.(cancels := s.desk.cancels + ids)
            && r.ledger == s.ledger.(cancelled := s.ledger.cancelled + ToSet(ids))
            && r.ticks == s.ticks && r.fills == s.fills && r.initialized == s.initialized
  {
    TimerFromCancels(s, mid, 0);
  }

  /**
   Only a fill of a tracked id adds to the filled and is counted as a fill, only
   a timer adds to the cancelled and to the requests, only a tick counts as one,
   and only onLoad and onUnload change whether the strategy is initialized.
   */
  lemma EachEventBooksItsOwn(s: State, cfg: Config, decide: Decisions, e: Event)
    requires Inv(s)
    ensures var t := Step(s, cfg, decide, e);
            && t.ledger.filled
               == (if e.Fill? && Tracked(s.levels, e.id) then s.ledger.filled + {e.id} else s.ledger.filled)
            && t.fills == (if e.Fill? && Tracked(s.levels, e.id) then s.fills + 1 else s.fills)
            && (!e.Timer? ==> t.ledger.cancelled == s.ledger.cancelled && t.desk.cancels == s.desk.cancels)
            && (!e.Tick? ==> t.ticks == s.ticks)
            && t.initialized == (e.Load? || (!e.Unload? && s.initialized))
  {
    match e
    case Tick(mid) => if s.initialized && mid.AtMid? { TickOrphansNothing(s, cfg, decide, mid.price, 0, 0, 0); }
    case Timer(mid) => if s.initialized && mid.AtMid? { TimerCancelsTheStale(s, mid.price); }
    case Fill(id, mid) =>
      if Tracked(s.levels, id) {
        var i: nat, side :| Holds(s.levels, i, side, id);
        FillFindsHolder(s, cfg, decide, id, mid, 0, i, side);
        FillAtBooks(s, cfg, decide, mid, i, side);
      } else {
        UntrackedFillIgnored(s, cfg, decide, id, mid, 0);
      }
    case _ =>
  }

  lemma FillAtBooks(s: State, cfg: Config, decide: Decisions, mid: Mid, i: nat, side: Side)
    requires i < |s.levels|
    ensures var t := FillAt(s, cfg, decide, i, side, mid);
            && t.ledger.filled == s.ledger.filled + {IdAt(s.levels[i], side)}
            && t.ledger.cancelled == s.ledger.cancelled && t.desk.cancels == s.desk.cancels
            && t.fills == s.fills + 1 && t.ticks == s.ticks && t.initialized == s.initialized
  {
    hide CounterAsk, CounterBid, RoundPrice, ToDecimal;
  }

  /** Ticks and timers, and no fill. */
  ghost predicate TicksAndTimers(es: seq<Event>) {
    forall n :: 0 <= n < |es| ==> es[n].Tick? || es[n].Timer?
  }

  lemma {:induction false} NotLoadedNothingDone(s: State, cfg: Config, decide: Decisions, es: seq<Event>)
    requires !s.initialized && TicksAndTimers(es)
    ensures Run(s, cfg, decide, es) == s
    decreases |es|
  {
    if es != [] { NotLoadedNothingDone(s, cfg, decide, es[1..]); }
  }

  /** Before onLoad and after onUnload, ticks and timers do nothing at all. */
  lemma UnloadedDoesNothing(s: State, cfg: Config, decide: Decisions, es: seq<Event>, firstId: nat)
    requires TicksAndTimers(es)
    ensures Run(s, cfg, decide, [Unload] + es) == s.(initialized := false)
    ensures Buildable(cfg) ==> Run(Fresh(cfg, firstId), cfg, decide, es) == Fresh(cfg, firstId)
  {
    assert ([Unload] + es)[1..] == es;
    NotLoadedNothingDone(s.(initialized := false), cfg, decide, es);
    if Buildable(cfg) { NotLoadedNothingDone(Fresh(cfg, firstId), cfg, decide, es); }
  }

  lemma {:induction false} TimerOrphansNothing(s: State, mid: Raw, i: nat)
    requires i <= |s.levels|
    ensures TimerFrom(s, mid, i).ledger.orphaned == s.ledger.orphaned
    decreases |s.levels| - i
  {
    if i < |s.levels| { TimerOrphansNothing(CancelStale(s, mid, i), mid, i + 1); }
  }

  /** No fill of the run counters onto an occupied slot. */
  ghost predicate NeverOverwrites(s: State, cfg: Config, decide: Decisions, es: seq<Event>)
    decreases |es|
  {
    es != [] ==>
      && !(es[0].Fill? && Overwrites(s, decide, es[0].id))
      && NeverOverwrites(Step(s, cfg, decide, es[0]), cfg, decide, es[1..])
  }

  lemma {:induction false} OrphansOnlyByOverwriting(s: State, cfg: Config, decide: Decisions, es: seq<Event>)
    requires Inv(s)
    ensures s.ledger.orphaned <= Run(s, cfg, decide, es).ledger.orphaned
    ensures Run(s, cfg, decide, es).ledger.orphaned == s.ledger.orphaned <==> NeverOverwrites(s, cfg, decide, es)
    decreases |es|
  {
    if es != [] {
      StepKeepsInv(s, cfg, decide, es[0]);
      StepOrphans(s, cfg, decide, es[0]);
      hide Inv, Step;
      OrphansOnlyByOverwriting(Step(s, cfg, decide, es[0]), cfg, decide, es[1..]);
    }
  }

  /**
   The strategy tracks every order that is neither filled nor cancelled exactly
   on the runs where no accepted counter-order lands on an occupied slot.
   */
  lemma AllLiveTrackedIff(cfg: Config, firstId: nat, decide: Decisions, es: seq<Event>)
    requires Buildable(cfg) && firstId > 0
    ensures var s := Run(Fresh(cfg, firstId), cfg, decide, es);
            (forall id: nat :: Issued(s.desk, id) && id !in s.ledger.filled && id !in s.ledger.cancelled ==>
              Tracked(s.levels, id))
            <==> NeverOverwrites(Fresh(cfg, firstId), cfg, decide, es)
  {
    FreshEstablishesInv(cfg, firstId);
    OrphansOnlyByOverwriting(Fresh(cfg, firstId), cfg, decide, es);
    RunKeepsInv(Fresh(cfg, firstId), cfg, decide, es);
    var s := Run(Fresh(cfg, firstId), cfg, decide, es);
    if s.ledger.orphaned != {} {
      var id :| id in s.ledger.orphaned;
      assert Issued(s.desk, id) && !Tracked(s.levels, id);
    }
  }

  /**
   The loss is the ordinary case: on the smallest grid a tick puts a buy on
   level 0 and a sell on level 1, and filling the buy overwrites the sell.
   */
  lemma OrdinaryFillOrphans(cfg: Config, firstId: nat, mid: Raw)
    requires cfg.gridLevels == 1 && firstId > 0
    requires LevelPrice(cfg, 0) < mid < LevelPrice(cfg, 1)
    ensures var all: Decisions := _ => Accept(0);
            Run(Fresh(cfg, firstId), cfg, all, [Load, Tick(AtMid(mid)), Fill(firstId, AtMid(mid))]).ledger.orphaned
              == {firstId + 1}
  {
    var all: Decisions := _ => Accept(0);
    hide TickBid, TickAsk, CounterAsk, CounterBid, RoundPrice, ToDecimal, LevelPrice;
    var s0 := Fresh(cfg, firstId);
    var p0, p1 := LevelPrice(cfg, 0), LevelPrice(cfg, 1);
    assert s0.levels == [Level(p0, 0, 0), Level(p1, 0, 0)];
    var s1 := s0.(initialized := true);
    var a := Counted(s1, Place(s1, cfg, all, 0, Buy, TickBid(p0, mid, 0), 0));
    assert a.levels == [Level(p0, firstId, 0), Level(p1, 0, 0)];
    var s2 := Counted(a, Place(a, cfg, all, 1, Sell, TickAsk(p1, mid, 0), 0));
    assert s2.levels == [Level(p0, firstId, 0), Level(p1, 0, firstId + 1)];
    assert TickFrom(s1, cfg, all, mid, 0, 0, 0) == TickFrom(a, cfg, all, mid, 1, 1, 0)
      == TickFrom(s2, cfg, all, mid, 2, 1, 1) == s2;
    var s3 := FillAt(s2, cfg, all, 0, Buy, AtMid(mid));
    assert OnFill(s2, cfg, all, firstId, AtMid(mid)) == s3;
    assert s3.ledger.orphaned == {firstId + 1};
    var es := [Load, Tick(AtMid(mid)), Fill(firstId, AtMid(mid))];
    assert es[1..] == [es[1], es[2]] && es[1..][1..] == [es[2]] && es[1..][1..][1..] == [];
    assert Run(s0, cfg, all, es) == Run(s1, cfg, all, es[1..]) == Run(s2, cfg, all, [es[2]]) == s3;
  }

  // ---------------------------------------------------------------------
  // A timer, then a tick, at one mid
  // ---------------------------------------------------------------------

  /** The level without its stale order. */
  function Cleaned(l: Level, mid: Raw): Level {
    if l.price > mid then l.(buy := 0) else if l.price < mid then l.(sell := 0) else l
  }

  lemma {:induction false} TimerCleans(s: State, mid: Raw, i: nat)
    requires i <= |s.levels|
    ensures var r := TimerFrom(s, mid, i);
            && r.levels == s.levels[..i] + seq(|s.levels| - i,
              j requires 0 <= j < |s.levels| - i => Cleaned(s.levels[i + j], mid))
            && r.desk == s.desk.(cancels := r.desk.cancels) && r.initialized == s.initialized
    decreases |s.levels| - i
  {
    if i < |s.levels| {
      var t := CancelStale(s, mid, i);
      assert t.levels == s.levels[i := Cleaned(s.levels[i], mid)];
      TimerCleans(t, mid, i + 1);
    }
  }

  /** Nothing is stale from level i on. */
  ghost predicate CleanFrom(levels: seq<Level>, mid: Raw, i: nat) {
    forall j: nat :: i <= j < |levels| ==> levels[j] == Cleaned(levels[j], mid)
  }

  lemma {:induction false} NothingStaleNothingDone(s: State, mid: Raw, i: nat)
    requires i <= |s.levels| && CleanFrom(s.levels, mid, i)
    ensures TimerFrom(s, mid, i) == s
    decreases |s.levels| - i
  {
    if i < |s.levels| { NothingStaleNothingDone(s, mid, i + 1); }
  }

  /** The level has no order where this mid asks for one. */
  predicate Lacks(l: Level, mid: Raw) {
    (l.price < mid && l.buy == 0) || (l.price > mid && l.sell == 0)
  }

  /** How many of the levels from i up to j lack their order. */
  function Lacking(levels: seq<Level>, mid: Raw, i: nat, j: nat): (n: nat)
    requires i <= j <= |levels|
    decreases j - i
  {
    if i == j then 0 else (if Lacks(levels[i], mid) then 1 else 0) + Lacking(levels, mid, i + 1, j)
  }

  /** What a tick does to a level whose submission, if it makes one, is number n. */
  ghost predicate Ticked(l: Level, l': Level, mid: Raw, decide: Decisions, n: nat) {
    && l'.price == l.price
    && (Lacks(l', mid) <==> Lacks(l, mid) && decide(n).Refuse?)
    && (l.price >= mid || l.buy != 0 ==> l'.buy == l.buy)
    && (l.price <= mid || l.sell != 0 ==> l'.sell == l.sell)
  }

  /** One submission of a tick: the level lacks its order after it exactly if it is refused. */
  lemma PlaceStocks(s: State, cfg: Config, decide: Decisions, i: nat, side: Side, price: Raw, mid: Raw)
    requires i < |s.levels| && s.desk.nextId > 0 && IdAt(s.levels[i], side) == 0
    requires if side.Buy? then s.levels[i].price < mid else s.levels[i].price > mid
    ensures var t := Counted(s, Place(s, cfg, decide, i, side, price, 0));
            && t.initialized == s.initialized && t.desk.nextId > 0 && t.desk.asked == s.desk.asked + 1
            && t.levels == s.levels[i := t.levels[i]]
            && Ticked(s.levels[i], t.levels[i], mid, decide, s.desk.asked)
  {
    hide RoundPrice;
  }

  /** Levels from j on lack the same orders when one before them changes. */
  lemma {:induction false} LackingElsewhere(levels: seq<Level>, i: nat, l: Level, mid: Raw, j: nat, k: nat)
    requires i < j <= k <= |levels|
    ensures Lacking(levels[i := l], mid, j, k) == Lacking(levels, mid, j, k)
    decreases k - j
  {
    if j < k { LackingElsewhere(levels, i, l, mid, j + 1, k); }
  }

  /** The submission number that a level gets from a tick that started at level i with number `asked`. */
  function NumberOf(levels: seq<Level>, mid: Raw, asked: nat, i: nat, j: nat): nat
    requires i <= j <= |levels|
  {
    asked + Lacking(levels, mid, i, j)
  }

  lemma {:induction false} TickStocks(s: State, cfg: Config, decide: Decisions, mid: Raw, i: nat, bids: nat, asks: nat)
    requires i <= |s.levels| && s.desk.nextId > 0
    ensures var r := TickFrom(s, cfg, decide, mid, i, bids, asks);
            && r.initialized == s.initialized
            && r.desk.asked == NumberOf(s.levels, mid, s.desk.asked, i, |s.levels|)
            && (forall j: nat :: j < i ==> r.levels[j] == s.levels[j])
            && (forall j: nat :: i <= j < |s.levels| ==>
                  Ticked(s.levels[j], r.levels[j], mid, decide, NumberOf(s.levels, mid, s.desk.asked, i, j)))
    decreases |s.levels| - i
  {
    hide Place, Counted, TickBid, TickAsk, Ticked;
    if i < |s.levels| {
      var l := s.levels[i];
      if l.price < mid && l.buy == 0 {
        var t := Counted(s, Place(s, cfg, decide, i, Buy, TickBid(l.price, mid, bids), 0));
        PlaceStocks(s, cfg, decide, i, Buy, TickBid(l.price, mid, bids), mid);
        TickStocks(t, cfg, decide, mid, i + 1, bids + 1, asks);
        FirstThenRest(s, t, TickFrom(t, cfg, decide, mid, i + 1, bids + 1, asks), mid, decide, i);
      } else if l.price > mid && l.sell == 0 {
        var t := Counted(s, Place(s, cfg, decide, i, Sell, TickAsk(l.price, mid, asks), 0));
        PlaceStocks(s, cfg, decide, i, Sell, TickAsk(l.price, mid, asks), mid);
        TickStocks(t, cfg, decide, mid, i + 1, bids, asks + 1);
        FirstThenRest(s, t, TickFrom(t, cfg, decide, mid, i + 1, bids, asks + 1), mid, decide, i);
      } else {
        TickStocks(s, cfg, decide, mid, i + 1, bids, asks);
        AlreadyStocked(l, mid, decide, s.desk.asked);
      }
    }
  }

  lemma AlreadyStocked(l: Level, mid: Raw, decide: Decisions, n: nat)
    requires !Lacks(l, mid)
    ensures Ticked(l, l, mid, decide, n)
  {
  }

  /** Level i's submission, then those of the levels after it. */
  lemma FirstThenRest(s: State, t: State, r: State, mid: Raw, decide: Decisions, i: nat)
    requires i < |s.levels| == |r.levels| == |t.levels| && Lacks(s.levels[i], mid)
    requires t.desk.asked == s.desk.asked + 1 && t.levels == s.levels[i := t.levels[i]]
    requires r.levels[i] == t.levels[i] && Ticked(s.levels[i], t.levels[i], mid, decide, s.desk.asked)
    requires r.desk.asked == NumberOf(t.levels, mid, t.desk.asked, i + 1, |s.levels|)
    requires forall j: nat :: i < j < |s.levels| ==>
               Ticked(t.levels[j], r.levels[j], mid, decide, NumberOf(t.levels, mid, t.desk.asked, i + 1, j))
    ensures r.desk.asked == NumberOf(s.levels, mid, s.desk.asked, i, |s.levels|)
    ensures forall j: nat :: i <= j < |s.levels| ==>
              Ticked(s.levels[j], r.levels[j], mid, decide, NumberOf(s.levels, mid, s.desk.asked, i, j))
  {
    hide Ticked;
    LackingElsewhere(s.levels, i, t.levels[i], mid, i + 1, |s.levels|);
    forall j: nat | i < j < |s.levels|
      ensures Ticked(s.levels[j], r.levels[j], mid, decide, NumberOf(s.levels, mid, s.desk.asked, i, j))
    {
      LackingElsewhere(s.levels, i, t.levels[i], mid, i + 1, j);
    }
  }

  /**
   onTimer then onTick at one mid: no sell below it, no buy above it; a level
   is without the order this mid asks for exactly if it had none and its own
   submission, counted over the levels before it, was refused; and a further
   onTimer has nothing left to cancel.
   */
  lemma TimerThenTick(s: State, cfg: Config, decide: Decisions, mid: Raw)
    requires s.initialized && s.desk.nextId > 0
    ensures var t := OnTick(OnTimer(s, AtMid(mid)), cfg, decide, AtMid(mid));
            && |t.levels| == |s.levels|
            && (forall i: nat :: i < |t.levels| ==>
                  && t.levels[i].price == s.levels[i].price
                  && (t.levels[i].price < mid ==> t.levels[i].sell == 0)
                  && (t.levels[i].price > mid ==> t.levels[i].buy == 0)
                  && (Lacks(t.levels[i], mid)
                      <==> Lacks(s.levels[i], mid) && decide(s.desk.asked + Lacking(s.levels, mid, 0, i)).Refuse?))
            && OnTimer(t, AtMid(mid)) == t
  {
    var t := OnTick(OnTimer(s, AtMid(mid)), cfg, decide, AtMid(mid));
    TimerThenTickAt(s, cfg, decide, mid);
    hide OnTick, Cleaned, Lacks, Lacking;
    forall i: nat | i < |s.levels|
      ensures (t.levels[i].price < mid ==> t.levels[i].sell == 0) && (t.levels[i].price > mid ==> t.levels[i].buy == 0)
    {
      CleanedMeans(t.levels[i], mid);
    }
    NothingStaleNothingDone(t, mid, 0);
  }

  /** The same, level by level. */
  lemma TimerThenTickAt(s: State, cfg: Config, decide: Decisions, mid: Raw)
    requires s.initialized && s.desk.nextId > 0
    ensures var t := OnTick(OnTimer(s, AtMid(mid)), cfg, decide, AtMid(mid));
            && |t.levels| == |s.levels| && t.initialized
            && (forall i: nat :: i < |s.levels| ==>
                  && t.levels[i].price == s.levels[i].price && t.levels[i] == Cleaned(t.levels[i], mid)
                  && (Lacks(t.levels[i], mid)
                      <==> Lacks(s.levels[i], mid) && decide(s.desk.asked + Lacking(s.levels, mid, 0, i)).Refuse?))
  {
    hide TimerFrom, OnTimer, TickFrom, Ticked, Cleaned, Lacks, Lacking;
    var u := OnTimer(s, AtMid(mid));
    TimerCleansEach(s, mid);
    TickStocks(u, cfg, decide, mid, 0, 0, 0);
    var t := OnTick(u, cfg, decide, AtMid(mid));
    forall i: nat | i < |s.levels|
      ensures t.levels[i].price == s.levels[i].price && t.levels[i] == Cleaned(t.levels[i], mid)
      ensures Lacks(t.levels[i], mid)
              <==> Lacks(s.levels[i], mid) && decide(s.desk.asked + Lacking(s.levels, mid, 0, i)).Refuse?
    {
      CleaningKeepsLacking(s.levels, u.levels, mid, 0, i);
      TickedAfterCleaning(s.levels[i], t.levels[i], mid, decide, u.desk.asked + Lacking(u.levels, mid, 0, i));
    }
  }

  lemma TimerCleansEach(s: State, mid: Raw)
    requires s.initialized
    ensures var u := OnTimer(s, AtMid(mid));
            && |u.levels| == |s.levels| && u.initialized
            && u.desk.asked == s.desk.asked && u.desk.nextId == s.desk.nextId
            && forall i: nat :: i < |s.levels| ==> u.levels[i] == Cleaned(s.levels[i], mid)
  {
    TimerCleans(s, mid, 0);
    hide TimerFrom;
  }

  lemma CleanedMeans(l: Level, mid: Raw)
    requires l == Cleaned(l, mid)
    ensures (l.price < mid ==> l.sell == 0) && (l.price > mid ==> l.buy == 0)
  {
  }

  lemma TickedAfterCleaning(l: Level, l': Level, mid: Raw, decide: Decisions, n: nat)
    requires Ticked(Cleaned(l, mid), l', mid, decide, n)
    ensures l'.price == l.price && l' == Cleaned(l', mid)
    ensures Lacks(l', mid) <==> Lacks(l, mid) && decide(n).Refuse?
  {
  }

  lemma {:induction false} CleaningKeepsLacking(levels: seq<Level>, cleaned: seq<Level>, mid: Raw, i: nat, j: nat)
    requires i <= j <= |levels| == |cleaned|
    requires forall k: nat :: k < |levels| ==> cleaned[k] == Cleaned(levels[k], mid)
    ensures Lacking(cleaned, mid, i, j) == Lacking(levels, mid, i, j)
    decreases j - i
  {
    if i < j { CleaningKeepsLacking(levels, cleaned, mid, i + 1, j); }
  }

  // ---------------------------------------------------------------------
  // Prices
  // ---------------------------------------------------------------------

  /** Every buy a tick sends crosses the mid: by about half, plus a tenth for each one before it. */
  lemma TickBidCrosses(level: Raw, mid: Raw, offset: nat)
    requires level <= mid
    ensures var d := ToDouble(RoundPrice(TickBid(level, mid, offset))) - ToDouble(mid) - 0.5 - offset as real * 0.1;
            -0.05 - 2.0 / SCALE <= d <= 0.05 + 2.0 / SCALE
  {
    ToDoubleMonotone(level, mid);
    var bid := ToDouble(mid) + 0.5 + offset as real * 0.1;
    DoubleRoundTrip(bid);
    RoundPriceMovesLittle(ToDecimal(bid));
    assert TickBid(level, mid, offset) == ToDecimal(bid);
    hide ToDecimal, ToDouble, RoundPrice;
  }

  /** Every sell likewise, downwards. */
  lemma TickAskCrosses(level: Raw, mid: Raw, offset: nat)
    requires level >= mid
    ensures var d := ToDouble(RoundPrice(TickAsk(level, mid, offset))) - ToDouble(mid) + 0.5 + offset as real * 0.1;
            -0.05 - 2.0 / SCALE <= d <= 0.05 + 2.0 / SCALE
  {
    ToDoubleMonotone(mid, level);
    var ask := ToDouble(mid) - 0.5 - offset as real * 0.1;
    DoubleRoundTrip(ask);
    RoundPriceMovesLittle(ToDecimal(ask));
    assert TickAsk(level, mid, offset) == ToDecimal(ask);
    hide ToDecimal, ToDouble, RoundPrice;
  }

  /** The side of this level that the mid asks for, and that is empty. */
  predicate LacksSide(l: Level, mid: Raw, side: Side) {
    if side.Buy? then l.price < mid && l.buy == 0 else l.price > mid && l.sell == 0
  }

  /** How many of the levels from i up to j lack this side. */
  function SideLacking(levels: seq<Level>, mid: Raw, side: Side, i: nat, j: nat): nat
    requires i <= j <= |levels|
    decreases j - i
  {
    if i == j then 0
    else (if LacksSide(levels[i], mid, side) then 1 else 0) + SideLacking(levels, mid, side, i + 1, j)
  }

  lemma {:induction false} SideLackingElsewhere(levels: seq<Level>, i: nat, l: Level, mid: Raw, side: Side, j: nat,
        k: nat)
    requires i < j <= k <= |levels|
    ensures SideLacking(levels[i := l], mid, side, j, k) == SideLacking(levels, mid, side, j, k)
    decreases k - j
  {
    if j < k { SideLackingElsewhere(levels, i, l, mid, side, j + 1, k); }
  }

  /** The price of the order number n, from 0, that a tick sends on this side. */
  function TickPrice(mid: Raw, side: Side, n: nat): Raw {
    RoundPrice(ToDecimal(if side.Buy? then ToDouble(mid) + 0.5 + n as real * 0.1
                         else ToDouble(mid) - 0.5 - n as real * 0.1))
  }

  /** An order of a tick that started at level i after `bids` buys and `asks` sells. */
  ghost predicate SentFrom(o: Order, levels: seq<Level>, cfg: Config, mid: Raw, i: nat, bids: nat, asks: nat) {
    && i <= o.level < |levels| && LacksSide(levels[o.level], mid, o.side)
    && o.cause == 0 && o.quantity == ToDecimal(cfg.quantity) && o.symbolId == cfg.symbolId
    && o.price == TickPrice(mid, o.side, (if o.side.Buy? then bids else asks)
                                         + SideLacking(levels, mid, o.side, i, o.level))
  }

  /** Among the orders from number `from` on there is one of level j. */
  ghost predicate OrderedAt(placed: seq<Order>, from: nat, j: nat) {
    exists k :: from <= k < |placed| && placed[k].level == j
  }

  /** All that a tick from level i sends: those orders, in level order, each counted and put in its slot. */
  ghost predicate TickSent(s: State, r: State, cfg: Config, mid: Raw, i: nat, bids: nat, asks: nat) {
    var from := |s.desk.placed|;
    && |r.levels| == |s.levels| && s.desk.placed <= r.desk.placed
    && r.ticks == s.ticks + |r.desk.placed| - from
    && (forall k :: from <= k < |r.desk.placed| ==>
          && SentFrom(r.desk.placed[k], s.levels, cfg, mid, i, bids, asks)
          && IdAt(r.levels[r.desk.placed[k].level], r.desk.placed[k].side) == r.desk.placed[k].id)
    && (forall k, m :: from <= k < m < |r.desk.placed| ==> r.desk.placed[k].level < r.desk.placed[m].level)
    && (forall j: nat :: j < |s.levels| && r.levels[j] != s.levels[j] ==> i <= j && OrderedAt(r.desk.placed, from, j))
  }

  /** One submission: nothing when refused, one order at the stated price when accepted. */
  lemma OfferSends(s: State, cfg: Config, decide: Decisions, mid: Raw, i: nat, side: Side, n: nat)
    requires i < |s.levels| && s.desk.nextId > 0 && LacksSide(s.levels[i], mid, side)
    ensures var price := if side.Buy? then TickBid(s.levels[i].price, mid, n) else TickAsk(s.levels[i].price, mid, n);
            var t := Counted(s, Place(s, cfg, decide, i, side, price, 0));
            if decide(s.desk.asked).Refuse? then t == s.(desk := s.desk.(asked := s.desk.asked + 1))
            else
              && |t.desk.placed| == |s.desk.placed| + 1 && s.desk.placed <= t.desk.placed
              && t.desk.nextId > 0 && t.ticks == s.ticks + 1
              && var o := t.desk.placed[|s.desk.placed|];
                 && o == Order(o.id, side, TickPrice(mid, side, n), ToDecimal(cfg.quantity), cfg.symbolId, i, 0)
                 && o.id > 0 && t.levels == s.levels[i := WithId(s.levels[i], side, o.id)]
  {
    OfferPrice(s.levels[i].price, mid, side, n);
    hide TickBid, TickAsk, TickPrice, RoundPrice, ToDecimal;
  }

  lemma OfferPrice(level: Raw, mid: Raw, side: Side, n: nat)
    requires if side.Buy? then level < mid else level > mid
    ensures RoundPrice(if side.Buy? then TickBid(level, mid, n) else TickAsk(level, mid, n)) == TickPrice(mid, side, n)
  {
    ToDoubleMonotone(level, mid);
    ToDoubleMonotone(mid, level);
    hide RoundPrice, ToDecimal, ToDouble;
  }

  /** The order of level i, if any, then those of the levels after it. */
  lemma SentThenRest(s: State, t: State, r: State, cfg: Config, mid: Raw, i: nat, side: Side, bids: nat, asks: nat)
    requires i < |s.levels| == |t.levels| && LacksSide(s.levels[i], mid, side) && s.desk.placed <= t.desk.placed
    requires if |t.desk.placed| == |s.desk.placed| then t.levels == s.levels && t.ticks == s.ticks
             else
               && |t.desk.placed| == |s.desk.placed| + 1 && t.ticks == s.ticks + 1
               && var o := t.desk.placed[|s.desk.placed|];
                  && o == Order(o.id, side, TickPrice(mid, side, if side.Buy? then bids else asks),
                                ToDecimal(cfg.quantity), cfg.symbolId, i, 0)
                  && t.levels == s.levels[i := WithId(s.levels[i], side, o.id)]
    requires if side.Buy? then TickSent(t, r, cfg, mid, i + 1, bids + 1, asks)
             else TickSent(t, r, cfg, mid, i + 1, bids, asks + 1)
    ensures TickSent(s, r, cfg, mid, i, bids, asks)
  {
    hide TickPrice, ToDecimal, SideLacking;
    var from, mids := |s.desk.placed|, |t.desk.placed|;
    assert r.levels[i] == t.levels[i] && t.levels == s.levels[i := t.levels[i]];
    assert forall k :: 0 <= k < mids ==> r.desk.placed[k] == t.desk.placed[k];
    forall k | from <= k < |r.desk.placed|
      ensures SentFrom(r.desk.placed[k], s.levels, cfg, mid, i, bids, asks)
      ensures IdAt(r.levels[r.desk.placed[k].level], r.desk.placed[k].side) == r.desk.placed[k].id
    {
      if k < mids {
        NoneLackingBeforeFirst(s.levels, mid, side, i);
      } else {
        SentLater(s.levels, t.levels, cfg, mid, i, side, bids, asks, r.desk.placed[k]);
      }
    }
    forall j: nat | j < |s.levels| && r.levels[j] != s.levels[j]
      ensures i <= j && OrderedAt(r.desk.placed, from, j)
    {
      if j == i {
        assert r.desk.placed[from].level == j;
      } else {
        assert OrderedAt(r.desk.placed, mids, j);
      }
    }
  }

  lemma NoneLackingBeforeFirst(levels: seq<Level>, mid: Raw, side: Side, i: nat)
    requires i <= |levels|
    ensures SideLacking(levels, mid, side, i, i) == 0
  {
  }

  /** An order of a later level, numbered after level i's own. */
  lemma SentLater(levels: seq<Level>, after: seq<Level>, cfg: Config, mid: Raw, i: nat, side: Side, bids: nat,
        asks: nat, o: Order)
    requires i < |levels| == |after| && after == levels[i := after[i]] && LacksSide(levels[i], mid, side)
    requires if side.Buy? then SentFrom(o, after, cfg, mid, i + 1, bids + 1, asks)
             else SentFrom(o, after, cfg, mid, i + 1, bids, asks + 1)
    ensures SentFrom(o, levels, cfg, mid, i, bids, asks)
  {
    hide TickPrice, ToDecimal;
    SideLackingElsewhere(levels, i, after[i], mid, o.side, i + 1, o.level);
  }

  lemma NothingSentHere(s: State, r: State, cfg: Config, mid: Raw, i: nat, bids: nat, asks: nat)
    requires i < |s.levels| && !LacksSide(s.levels[i], mid, Buy) && !LacksSide(s.levels[i], mid, Sell)
    requires TickSent(s, r, cfg, mid, i + 1, bids, asks)
    ensures TickSent(s, r, cfg, mid, i, bids, asks)
  {
    hide TickPrice, ToDecimal;
  }

  lemma {:induction false} TickSends(s: State, cfg: Config, decide: Decisions, mid: Raw, i: nat, bids: nat, asks: nat)
    requires i <= |s.levels| && s.desk.nextId > 0
    ensures TickSent(s, TickFrom(s, cfg, decide, mid, i, bids, asks), cfg, mid, i, bids, asks)
    decreases |s.levels| - i
  {
    hide Place, Counted, TickBid, TickAsk, TickPrice, TickSent;
    if i == |s.levels| {
      NothingSentAtEnd(s, cfg, mid, i, bids, asks);
    } else {
      var l := s.levels[i];
      if l.price < mid && l.buy == 0 {
        var t := Counted(s, Place(s, cfg, decide, i, Buy, TickBid(l.price, mid, bids), 0));
        OfferSends(s, cfg, decide, mid, i, Buy, bids);
        TickSends(t, cfg, decide, mid, i + 1, bids + 1, asks);
        SentThenRest(s, t, TickFrom(t, cfg, decide, mid, i + 1, bids + 1, asks), cfg, mid, i, Buy, bids, asks);
      } else if l.price > mid && l.sell == 0 {
        var t := Counted(s, Place(s, cfg, decide, i, Sell, TickAsk(l.price, mid, asks), 0));
        OfferSends(s, cfg, decide, mid, i, Sell, asks);
        TickSends(t, cfg, decide, mid, i + 1, bids, asks + 1);
        SentThenRest(s, t, TickFrom(t, cfg, decide, mid, i + 1, bids, asks + 1), cfg, mid, i, Sell, bids, asks);
      } else {
        TickSends(s, cfg, decide, mid, i + 1, bids, asks);
        NothingSentHere(s, TickFrom(s, cfg, decide, mid, i + 1, bids, asks), cfg, mid, i, bids, asks);
      }
    }
  }

  lemma NothingSentAtEnd(s: State, cfg: Config, mid: Raw, i: nat, bids: nat, asks: nat)
    ensures TickSent(s, s, cfg, mid, i, bids, asks)
  {
  }

  /**
   The orders of one tick, exactly: in level order, one for each level whose
   slot changes, on the side the mid asks for and the level lacks, at half a
   unit across the mid and a tenth further for every level before it that
   lacked that side, refused ones included; and each counted as a tick.
   */
  lemma TickPricesAreSpaced(s: State, cfg: Config, decide: Decisions, mid: Raw)
    requires s.initialized && s.desk.nextId > 0
    ensures var r := OnTick(s, cfg, decide, AtMid(mid));
            && |r.levels| == |s.levels| && s.desk.placed <= r.desk.placed
            && r.ticks == s.ticks + |r.desk.placed| - |s.desk.placed|
            && (forall k :: |s.desk.placed| <= k < |r.desk.placed| ==>
                  var o := r.desk.placed[k];
                  && o.level < |s.levels| && LacksSide(s.levels[o.level], mid, o.side)
                  && IdAt(r.levels[o.level], o.side) == o.id
                  && o.price == TickPrice(mid, o.side, SideLacking(s.levels, mid, o.side, 0, o.level))
                  && o.quantity == ToDecimal(cfg.quantity) && o.symbolId == cfg.symbolId)
            && (forall k, m :: |s.desk.placed| <= k < m < |r.desk.placed| ==>
                  r.desk.placed[k].level < r.desk.placed[m].level)
            && (forall j: nat :: j < |s.levels| && r.levels[j] != s.levels[j] ==>
                  OrderedAt(r.desk.placed, |s.desk.placed|, j))
  {
    TickSends(s, cfg, decide, mid, 0, 0, 0);
    hide TickFrom, TickPrice, ToDecimal;
  }

  /** The order crosses the mid by half a unit, and by at most a tenth more for each level below its own. */
  ghost predicate Crosses(o: Order, mid: Raw) {
    var d := if o.side.Buy? then ToDouble(o.price) - ToDouble(mid) else ToDouble(mid) - ToDouble(o.price);
    0.45 - 2.0 / SCALE <= d <= 0.55 + o.level as real * 0.1 + 2.0 / SCALE
  }

  ghost predicate NewOrdersCross(s: State, r: State, mid: Raw) {
    && s.desk.placed <= r.desk.placed
    && forall k :: |s.desk.placed| <= k < |r.desk.placed| ==> Crosses(r.desk.placed[k], mid)
  }

  lemma OfferCrosses(s: State, cfg: Config, decide: Decisions, i: nat, side: Side, mid: Raw, offset: nat)
    requires i < |s.levels| && offset <= i
    requires if side.Buy? then s.levels[i].price <= mid else s.levels[i].price >= mid
    ensures var price := if side.Buy? then TickBid(s.levels[i].price, mid, offset)
            else TickAsk(s.levels[i].price, mid, offset);
            NewOrdersCross(s, Counted(s, Place(s, cfg, decide, i, side, price, 0)), mid)
  {
    if side.Buy? {
      TickBidCrosses(s.levels[i].price, mid, offset);
    } else {
      TickAskCrosses(s.levels[i].price, mid, offset);
    }
    hide TickBid, TickAsk, RoundPrice, ToDouble, ToDecimal;
  }

  /** Every order a tick sends crosses the mid. */
  lemma {:induction false} TickOrdersCross(s: State, cfg: Config, decide: Decisions, mid: Raw, i: nat, bids: nat,
        asks: nat)
    requires i <= |s.levels| && bids <= i && asks <= i
    ensures NewOrdersCross(s, TickFrom(s, cfg, decide, mid, i, bids, asks), mid)
    decreases |s.levels| - i
  {
    hide Place, Counted, TickBid, TickAsk, Crosses;
    if i < |s.levels| {
      var l := s.levels[i];
      if l.price < mid && l.buy == 0 {
        var t := Counted(s, Place(s, cfg, decide, i, Buy, TickBid(l.price, mid, bids), 0));
        OfferCrosses(s, cfg, decide, i, Buy, mid, bids);
        CountedPlaceLength(s, cfg, decide, i, Buy, TickBid(l.price, mid, bids));
        TickOrdersCross(t, cfg, decide, mid, i + 1, bids + 1, asks);
      } else if l.price > mid && l.sell == 0 {
        var t := Counted(s, Place(s, cfg, decide, i, Sell, TickAsk(l.price, mid, asks), 0));
        OfferCrosses(s, cfg, decide, i, Sell, mid, asks);
        CountedPlaceLength(s, cfg, decide, i, Sell, TickAsk(l.price, mid, asks));
        TickOrdersCross(t, cfg, decide, mid, i + 1, bids, asks + 1);
      } else {
        TickOrdersCross(s, cfg, decide, mid, i + 1, bids, asks);
      }
    }
  }

  /** The grid runs from low to high without going back. */
  lemma LevelsAscend(cfg: Config, i: nat, j: nat)
    requires cfg.gridLevels >= 1 && cfg.gridLow <= cfg.gridHigh && i <= j <= cfg.gridLevels
    ensures LevelPrice(cfg, 0) == ToDecimal(cfg.gridLow)
    ensures LevelPrice(cfg, cfg.gridLevels) == ToDecimal(cfg.gridHigh)
    ensures LevelPrice(cfg, i) <= LevelPrice(cfg, j)
  {
    hide Rise, ToDecimal;
    RiseEnds(cfg);
    RiseMonotone(cfg, i, j);
    ToDecimalMonotone(cfg.gridLow + Rise(cfg, i), cfg.gridLow + Rise(cfg, j));
  }

  /** The levels are evenly spaced: level i stands i parts in gridLevels of the way from low to high. */
  lemma LevelsAreEven(cfg: Config, i: nat)
    requires cfg.gridLevels >= 1
    ensures LevelPrice(cfg, i)
            == ToDecimal(cfg.gridLow + (cfg.gridHigh - cfg.gridLow) * i as real / cfg.gridLevels as real)
  {
    RiseIsShare(cfg, i);
    hide ToDecimal, Rise;
  }

  lemma RiseIsShare(cfg: Config, i: nat)
    requires cfg.gridLevels >= 1
    ensures Rise(cfg, i) == (cfg.gridHigh - cfg.gridLow) * i as real / cfg.gridLevels as real
  {
    Share(cfg.gridHigh - cfg.gridLow, cfg.gridLevels as real, i as real);
  }

  lemma Share(span: real, n: real, i: real)
    requires n > 0.0
    ensures span / n * i == span * i / n
  {
    var part := span / n;
    DivideBack(span, n);
    Regroup(part, i, n);
    SameFactor(part * n, span, i);
    DivideBack(part * i, n);
  }

  lemma SameFactor(x: real, y: real, z: real)
    requires x == y
    ensures x * z == y * z
  {
  }

  lemma DivideBack(x: real, n: real)
    requires n != 0.0
    ensures x / n * n == x && x * n / n == x
  {
  }

  lemma Regroup(x: real, y: real, z: real)
    ensures x * y * z == x * z * y
  {
  }

  lemma RiseEnds(cfg: Config)
    requires cfg.gridLevels >= 1
    ensures Rise(cfg, 0) == 0.0
    ensures Rise(cfg, cfg.gridLevels) == cfg.gridHigh - cfg.gridLow
  {
  }

  lemma RiseMonotone(cfg: Config, i: nat, j: nat)
    requires cfg.gridLevels >= 1 && cfg.gridLow <= cfg.gridHigh && i <= j
    ensures Rise(cfg, i) <= Rise(cfg, j)
  {
    var spacing := (cfg.gridHigh - cfg.gridLow) / cfg.gridLevels as real;
    assert spacing >= 0.0;
    var d := (j - i) as real;
    assert spacing * d >= 0.0;
    assert spacing * j as real == spacing * i as real + spacing * d;
  }
}
