/**
 Order conservation in the grid: over every run of callbacks each id that was
 issued is in exactly one place, and is countered at most once.
 */
module GridProofs {
  import opened Decimal
  import opened GridModel

  // ---------------------------------------------------------------------
  // Invariant
  // ---------------------------------------------------------------------

  /** Level i holds id on `side`. */
  ghost predicate Holds(levels: seq<Level>, i: nat, side: Side, id: nat) {
    i < |levels| && IdAt(levels[i], side) == id
  }

  ghost predicate Tracked(levels: seq<Level>, id: nat) {
    id != 0 && exists i: nat, side :: Holds(levels, i, side, id)
  }

  ghost predicate Issued(d: Desk, id: nat) {
    exists k :: 0 <= k < |d.placed| && d.placed[k].id == id
  }

  /** No id sits in two places of the grid. */
  ghost predicate OneSlotEach(levels: seq<Level>) {
    forall i: nat, a, j: nat, b, id: nat ::
      id != 0 && Holds(levels, i, a, id) && Holds(levels, j, b, id) ==> i == j && a == b
  }

  ghost predicate IdsIncrease(d: Desk) {
    && (forall k :: 0 <= k < |d.placed| ==> 0 < d.placed[k].id < d.nextId)
    && (forall j, k :: 0 <= j < k < |d.placed| ==> d.placed[j].id < d.placed[k].id)
  }

  /** Every issued id has exactly one of four fates. */
  ghost predicate OneFateEach(s: State) {
    && (forall id: nat ::
          Issued(s.desk, id) <==>
          Tracked(s.levels, id) || id in s.ledger.filled || id in s.ledger.cancelled || id in s.ledger.orphaned)
    && s.ledger.filled !! s.ledger.cancelled && s.ledger.filled !! s.ledger.orphaned
    && s.ledger.cancelled !! s.ledger.orphaned
    && (forall id: nat :: Tracked(s.levels, id) ==>
          id !in s.ledger.filled && id !in s.ledger.cancelled && id !in s.ledger.orphaned)
  }

  /** A level holds only an order that was placed there, on that side. */
  ghost predicate HeldWherePlaced(s: State) {
    forall k, i: nat, side :: 0 <= k < |s.desk.placed| && Holds(s.levels, i, side, s.desk.placed[k].id)
      ==> s.desk.placed[k].level == i && s.desk.placed[k].side == side
  }

  /** Counter-orders answer fills, no two of them the same fill. */
  ghost predicate OneCounterEach(s: State) {
    && (forall k :: 0 <= k < |s.desk.placed| && s.desk.placed[k].cause != 0 ==>
      s.desk.placed[k].cause in s.ledger.filled)
    && (forall j, k :: 0 <= j < k < |s.desk.placed| && s.desk.placed[j].cause != 0 ==>
      s.desk.placed[j].cause != s.desk.placed[k].cause)
  }

  /** The cancel requests are the cancelled ids, each once. */
  ghost predicate OneCancelEach(s: State) {
    && (forall k :: 0 <= k < |s.desk.cancels| ==> s.desk.cancels[k] in s.ledger.cancelled)
    && (forall j, k :: 0 <= j < k < |s.desk.cancels| ==> s.desk.cancels[j] != s.desk.cancels[k])
    && (forall id :: id in s.ledger.cancelled ==> id in s.desk.cancels)
  }

  /** Every order went out on the tick of 0.1. */
  ghost predicate PricesOnTick(d: Desk) {
    forall k :: 0 <= k < |d.placed| ==> RoundPrice(d.placed[k].price) == d.placed[k].price
  }

  ghost predicate Inv(s: State) {
    && s.desk.nextId > 0 && PricesOnTick(s.desk)
    && IdsIncrease(s.desk) && OneSlotEach(s.levels) && OneFateEach(s)
    && HeldWherePlaced(s) && OneCounterEach(s) && OneCancelEach(s)
  }

  lemma FreshEstablishesInv(cfg: Config, firstId: nat)
    requires Buildable(cfg) && firstId > 0
    ensures Inv(Fresh(cfg, firstId))
  {
    var s := Fresh(cfg, firstId);
    forall id: nat ensures !Tracked(s.levels, id) {
    }
  }

  // ---------------------------------------------------------------------
  // The three ways an id moves
  // ---------------------------------------------------------------------

  /** Putting an id into one slot changes what that slot holds and nothing else. */
  lemma HoldsAfter(levels: seq<Level>, i: nat, side: Side, id: nat, j: nat, b: Side, x: nat)
    requires i < |levels|
    ensures Holds(levels[i := WithId(levels[i], side, id)], j, b, x)
            <==> if i == j && side == b then x == id else Holds(levels, j, b, x)
  {
  }

  lemma TrackedAfter(levels: seq<Level>, i: nat, side: Side, id: nat, x: nat)
    requires i < |levels| && OneSlotEach(levels)
    requires id == 0 || !Tracked(levels, id)
    ensures var prior := IdAt(levels[i], side);
            Tracked(levels[i := WithId(levels[i], side, id)], x)
            <==> (x != 0 && x == id) || (Tracked(levels, x) && x != prior)
  {
    var after := levels[i := WithId(levels[i], side, id)];
    var prior := IdAt(levels[i], side);
    assert Holds(levels, i, side, prior);
    if Tracked(after, x) {
      var j: nat, b :| Holds(after, j, b, x);
      HoldsAfter(levels, i, side, id, j, b, x);
    }
    if x != 0 && x == id { HoldsAfter(levels, i, side, id, i, side, x); }
    if Tracked(levels, x) && x != prior {
      var j: nat, b :| Holds(levels, j, b, x);
      HoldsAfter(levels, i, side, id, j, b, x);
    }
  }

  lemma SlotsAfter(levels: seq<Level>, i: nat, side: Side, id: nat)
    requires i < |levels| && OneSlotEach(levels)
    requires id == 0 || !Tracked(levels, id)
    ensures OneSlotEach(levels[i := WithId(levels[i], side, id)])
  {
    var after := levels[i := WithId(levels[i], side, id)];
    forall j: nat, a, k: nat, b, x: nat | x != 0 && Holds(after, j, a, x) && Holds(after, k, b, x)
      ensures j == k && a == b {
      HoldsAfter(levels, i, side, id, j, a, x);
      HoldsAfter(levels, i, side, id, k, b, x);
      if Holds(levels, j, a, id) { assert id == 0 || Tracked(levels, id); }
      if Holds(levels, k, b, id) { assert id == 0 || Tracked(levels, id); }
    }
  }

  lemma PlaceKeepsInv(s: State, cfg: Config, decide: Decisions, i: nat, side: Side, price: Raw, cause: nat)
    requires Inv(s) && i < |s.levels|
    requires cause == 0 || (cause in s.ledger.filled && forall k :: 0 <= k < |s.desk.placed| ==>
            s.desk.placed[k].cause != cause)
    ensures Inv(Place(s, cfg, decide, i, side, price, cause))
  {
    var t := Place(s, cfg, decide, i, side, price, cause);
    if decide(s.desk.asked).Refuse? {
      RefusedKeepsInv(s, t);
    } else {
      var id := s.desk.nextId + decide(s.desk.asked).gap;
      PlaceIsNew(s, id);
      SlotsAfter(s.levels, i, side, id);
      PlaceFates(s, cfg, decide, i, side, price, cause);
      PlaceHeld(s, cfg, decide, i, side, price, cause);
      PlaceOrder(s, cfg, decide, i, side, price, cause);
      hide OneFateEach, HeldWherePlaced, RoundPrice, IdsIncrease, PricesOnTick, OneCounterEach, Tracked;
    }
  }

  lemma PlaceOrder(s: State, cfg: Config, decide: Decisions, i: nat, side: Side, price: Raw, cause: nat)
    requires Inv(s) && i < |s.levels| && decide(s.desk.asked).Accept?
    requires cause == 0 || (cause in s.ledger.filled && forall k :: 0 <= k < |s.desk.placed| ==>
            s.desk.placed[k].cause != cause)
    ensures var t := Place(s, cfg, decide, i, side, price, cause);
            IdsIncrease(t.desk) && PricesOnTick(t.desk) && OneCounterEach(t)
  {
    RoundPriceIdempotent(price);
    hide RoundPrice, OneFateEach, HeldWherePlaced, OneSlotEach, OneCancelEach;
  }

  lemma RefusedKeepsInv(s: State, t: State)
    requires Inv(s) && t == s.(desk := s.desk.(asked := t.desk.asked))
    ensures Inv(t)
  {
    assert forall id: nat :: Issued(t.desk, id) == Issued(s.desk, id);
  }

  /** The generator's next id is nobody's. */
  lemma PlaceIsNew(s: State, id: nat)
    requires Inv(s) && id >= s.desk.nextId
    ensures !Issued(s.desk, id) && !Tracked(s.levels, id)
  {
  }

  lemma PlaceHeld(s: State, cfg: Config, decide: Decisions, i: nat, side: Side, price: Raw, cause: nat)
    requires Inv(s) && i < |s.levels| && decide(s.desk.asked).Accept?
    ensures HeldWherePlaced(Place(s, cfg, decide, i, side, price, cause))
  {
    var t := Place(s, cfg, decide, i, side, price, cause);
    var id := s.desk.nextId + decide(s.desk.asked).gap;
    PlaceIsNew(s, id);
    forall k, j: nat, b | 0 <= k < |t.desk.placed| && Holds(t.levels, j, b, t.desk.placed[k].id)
      ensures t.desk.placed[k].level == j && t.desk.placed[k].side == b {
      HoldsAfter(s.levels, i, side, id, j, b, t.desk.placed[k].id);
      if Holds(s.levels, j, b, id) { assert Tracked(s.levels, id); }
    }
  }

  lemma PlaceFates(s: State, cfg: Config, decide: Decisions, i: nat, side: Side, price: Raw, cause: nat)
    requires Inv(s) && i < |s.levels| && decide(s.desk.asked).Accept?
    ensures OneFateEach(Place(s, cfg, decide, i, side, price, cause))
  {
    var t := Place(s, cfg, decide, i, side, price, cause);
    var id := s.desk.nextId + decide(s.desk.asked).gap;
    var prior := IdAt(s.levels[i], side);
    assert Holds(s.levels, i, side, prior);
    assert !Issued(s.desk, id) && !Tracked(s.levels, id);
    forall x: nat ensures Issued(t.desk, x) <==> Issued(s.desk, x) || x == id {
      assert t.desk.placed[|s.desk.placed|].id == id;
      if Issued(s.desk, x) {
        var k :| 0 <= k < |s.desk.placed| && s.desk.placed[k].id == x;
        assert t.desk.placed[k].id == x;
      }
    }
    forall x: nat ensures Tracked(t.levels, x) <==> (x != 0 && x == id) || (Tracked(s.levels, x) && x != prior) {
      TrackedAfter(s.levels, i, side, id, x);
    }
  }

  /** Emptying a slot moves its id to the filled or to the cancelled. */
  lemma EmptySlotFates(s: State, i: nat, side: Side, ledger: Ledger)
    requires Inv(s) && i < |s.levels| && IdAt(s.levels[i], side) != 0
    requires var id := IdAt(s.levels[i], side);
             || ledger == s.ledger.(filled := s.ledger.filled + {id})
             || ledger == s.ledger.(cancelled := s.ledger.cancelled + {id})
    ensures OneSlotEach(s.levels[i := WithId(s.levels[i], side, 0)])
    ensures OneFateEach(s.(levels := s.levels[i := WithId(s.levels[i], side, 0)], ledger := ledger))
    ensures HeldWherePlaced(s.(levels := s.levels[i := WithId(s.levels[i], side, 0)], ledger := ledger))
  {
    var id := IdAt(s.levels[i], side);
    var after := s.levels[i := WithId(s.levels[i], side, 0)];
    assert Holds(s.levels, i, side, id);
    SlotsAfter(s.levels, i, side, 0);
    forall x: nat ensures Tracked(after, x) <==> Tracked(s.levels, x) && x != id {
      TrackedAfter(s.levels, i, side, 0, x);
    }
    forall k, j: nat, b | 0 <= k < |s.desk.placed| && Holds(after, j, b, s.desk.placed[k].id)
      ensures s.desk.placed[k].level == j && s.desk.placed[k].side == b {
      HoldsAfter(s.levels, i, side, 0, j, b, s.desk.placed[k].id);
    }
  }

  lemma TakeFillKeepsInv(s: State, i: nat, side: Side)
    requires Inv(s) && i < |s.levels| && IdAt(s.levels[i], side) != 0
    ensures Inv(TakeFill(s, i, side))
    ensures var id := IdAt(s.levels[i], side);
            id in TakeFill(s, i, side).ledger.filled && forall k :: 0 <= k < |s.desk.placed| ==>
              s.desk.placed[k].cause != id
  {
    var id := IdAt(s.levels[i], side);
    assert Holds(s.levels, i, side, id);
    EmptySlotFates(s, i, side, s.ledger.(filled := s.ledger.filled + {id}));
  }

  lemma CancelKeepsInv(s: State, i: nat, side: Side)
    requires Inv(s) && i < |s.levels| && IdAt(s.levels[i], side) != 0
    ensures Inv(Cancel(s, i, side))
  {
    var id := IdAt(s.levels[i], side);
    EmptySlotFates(s, i, side, s.ledger.(cancelled := s.ledger.cancelled + {id}));
    CancelRequestedOnce(s, i, side);
    var t := Cancel(s, i, side);
    SameFates(s.(levels := t.levels, ledger := t.ledger), t);
    hide OneFateEach, OneCancelEach, OneSlotEach, IdsIncrease, PricesOnTick;
  }

  /** Cancel requests are no fate. */
  lemma SameFates(s: State, t: State)
    requires OneFateEach(s) && t == s.(desk := s.desk.(cancels := t.desk.cancels))
    ensures OneFateEach(t)
  {
    assert forall x: nat :: Issued(t.desk, x) == Issued(s.desk, x);
  }

  lemma CancelRequestedOnce(s: State, i: nat, side: Side)
    requires Inv(s) && i < |s.levels| && IdAt(s.levels[i], side) != 0
    ensures OneCancelEach(Cancel(s, i, side))
  {
    var id, t := IdAt(s.levels[i], side), Cancel(s, i, side);
    assert Holds(s.levels, i, side, id) && Tracked(s.levels, id);
    assert id !in s.ledger.cancelled;
    hide Inv, OneFateEach, Tracked;
    assert OneCancelEach(s);
    forall x | x in t.ledger.cancelled ensures x in t.desk.cancels {
      assert t.desk.cancels[|s.desk.cancels|] == id;
      assert x in s.ledger.cancelled ==> x in s.desk.cancels;
    }
  }

  // ---------------------------------------------------------------------
  // Callbacks and runs
  // ---------------------------------------------------------------------

  lemma CountedPlaceLength(s: State, cfg: Config, decide: Decisions, i: nat, side: Side, price: Raw)
    requires i < |s.levels|
    ensures |Counted(s, Place(s, cfg, decide, i, side, price, 0)).levels| == |s.levels|
  {
  }

  lemma CountedKeepsInv(s: State, t: State)
    requires Inv(t)
    ensures Inv(Counted(s, t))
  {
    assert forall id: nat :: Issued(Counted(s, t).desk, id) == Issued(t.desk, id);
  }

  lemma {:induction false} TickKeepsInv(s: State, cfg: Config, decide: Decisions, mid: Raw, i: nat, bids: nat,
        asks: nat)
    requires Inv(s) && i <= |s.levels|
    ensures Inv(TickFrom(s, cfg, decide, mid, i, bids, asks))
    decreases |s.levels| - i
  {
    hide Inv, Place, Counted, TickBid, TickAsk;
    if i < |s.levels| {
      var l := s.levels[i];
      if l.price < mid && l.buy == 0 {
        CountedPlaceLength(s, cfg, decide, i, Buy, TickBid(l.price, mid, bids));
        var t := Place(s, cfg, decide, i, Buy, TickBid(l.price, mid, bids), 0);
        PlaceKeepsInv(s, cfg, decide, i, Buy, TickBid(l.price, mid, bids), 0);
        CountedKeepsInv(s, t);
        TickKeepsInv(Counted(s, t), cfg, decide, mid, i + 1, bids + 1, asks);
      } else if l.price > mid && l.sell == 0 {
        CountedPlaceLength(s, cfg, decide, i, Sell, TickAsk(l.price, mid, asks));
        var t := Place(s, cfg, decide, i, Sell, TickAsk(l.price, mid, asks), 0);
        PlaceKeepsInv(s, cfg, decide, i, Sell, TickAsk(l.price, mid, asks), 0);
        CountedKeepsInv(s, t);
        TickKeepsInv(Counted(s, t), cfg, decide, mid, i + 1, bids, asks + 1);
      } else {
        TickKeepsInv(s, cfg, decide, mid, i + 1, bids, asks);
      }
    }
  }

  lemma FillAtKeepsInv(s: State, cfg: Config, decide: Decisions, i: nat, side: Side, mid: Mid)
    requires Inv(s) && i < |s.levels| && IdAt(s.levels[i], side) != 0
    ensures Inv(FillAt(s, cfg, decide, i, side, mid))
  {
    hide Inv, Place, Submit, CounterAsk, CounterBid;
    TakeFillKeepsInv(s, i, side);
    var id := IdAt(s.levels[i], side);
    var t := TakeFill(s, i, side);
    if side.Buy? && i + 1 < |s.levels| {
      PlaceKeepsInv(t, cfg, decide, i + 1, Sell, CounterAsk(t.levels[i + 1].price, mid), id);
    } else if side.Sell? && i > 0 {
      PlaceKeepsInv(t, cfg, decide, i - 1, Buy, CounterBid(t.levels[i - 1].price, mid), id);
    }
  }

  lemma {:induction false} FillKeepsInv(s: State, cfg: Config, decide: Decisions, id: nat, mid: Mid, i: nat)
    requires Inv(s) && i <= |s.levels|
    ensures Inv(FillFrom(s, cfg, decide, id, mid, i))
    decreases |s.levels| - i
  {
    if i < |s.levels| {
      if id != 0 && id == s.levels[i].buy {
        FillAtKeepsInv(s, cfg, decide, i, Buy, mid);
      } else if id != 0 && id == s.levels[i].sell {
        FillAtKeepsInv(s, cfg, decide, i, Sell, mid);
      } else {
        FillKeepsInv(s, cfg, decide, id, mid, i + 1);
      }
    }
  }

  lemma {:induction false} TimerKeepsInv(s: State, mid: Raw, i: nat)
    requires Inv(s) && i <= |s.levels|
    ensures Inv(TimerFrom(s, mid, i))
    decreases |s.levels| - i
  {
    hide Inv;
    if i < |s.levels| {
      var l := s.levels[i];
      if l.price > mid && l.buy != 0 {
        CancelKeepsInv(s, i, Buy);
      } else if l.price < mid && l.sell != 0 {
        CancelKeepsInv(s, i, Sell);
      }
      TimerKeepsInv(CancelStale(s, mid, i), mid, i + 1);
    }
  }

  lemma StepKeepsInv(s: State, cfg: Config, decide: Decisions, e: Event)
    requires Inv(s)
    ensures Inv(Step(s, cfg, decide, e))
  {
    match e
    case Tick(mid) => if s.initialized && mid.AtMid? { TickKeepsInv(s, cfg, decide, mid.price, 0, 0, 0); }
    case Fill(id, mid) => FillKeepsInv(s, cfg, decide, id, mid, 0);
    case Timer(mid) => if s.initialized && mid.AtMid? { TimerKeepsInv(s, mid.price, 0); }
    case _ => assert forall id: nat :: Issued(Step(s, cfg, decide, e).desk, id) == Issued(s.desk, id);
  }

  lemma {:induction false} RunKeepsInv(s: State, cfg: Config, decide: Decisions, es: seq<Event>)
    requires Inv(s)
    ensures Inv(Run(s, cfg, decide, es))
    decreases |es|
  {
    if es != [] {
      StepKeepsInv(s, cfg, decide, es[0]);
      hide Inv, Step;
      RunKeepsInv(Step(s, cfg, decide, es[0]), cfg, decide, es[1..]);
    }
  }

  // ---------------------------------------------------------------------
  // Conservation
  // ---------------------------------------------------------------------

  datatype Fate = NeverIssued | Live | Filled | Cancelled | Orphaned

  /** Where an id is: on a level, or gone in one of three ways. */
  ghost function FateOf(s: State, id: nat): Fate {
    if Tracked(s.levels, id) then Live
    else if id in s.ledger.filled then Filled
    else if id in s.ledger.cancelled then Cancelled
    else if id in s.ledger.orphaned then Orphaned
    else NeverIssued
  }

  /**
   Over every run, with any refusals: the issued ids are split among the four
   fates, a live one sits in one slot only, the one it was placed in, and
   every filled one has at most one counter-order.
   */
  lemma OrdersAreConserved(cfg: Config, firstId: nat, decide: Decisions, es: seq<Event>)
    requires Buildable(cfg) && firstId > 0
    ensures var s := Run(Fresh(cfg, firstId), cfg, decide, es);
            && (forall id: nat :: FateOf(s, id) != NeverIssued <==> Issued(s.desk, id))
            && (forall id: nat :: id in s.ledger.filled <==> FateOf(s, id) == Filled)
            && (forall id: nat :: id in s.ledger.cancelled <==> FateOf(s, id) == Cancelled)
            && (forall id: nat :: id in s.ledger.orphaned <==> FateOf(s, id) == Orphaned)
            && OneSlotEach(s.levels) && HeldWherePlaced(s)
            && OneCounterEach(s) && OneCancelEach(s) && IdsIncrease(s.desk) && PricesOnTick(s.desk)
  {
    FreshEstablishesInv(cfg, firstId);
    RunKeepsInv(Fresh(cfg, firstId), cfg, decide, es);
  }

  /** A fill of an id that no level holds does nothing. */
  lemma {:induction false} UntrackedFillIgnored(s: State, cfg: Config, decide: Decisions, id: nat, mid: Mid, i: nat)
    requires i <= |s.levels| && !Tracked(s.levels, id)
    ensures FillFrom(s, cfg, decide, id, mid, i) == s
    decreases |s.levels| - i
  {
    if i < |s.levels| {
      assert Holds(s.levels, i, Buy, s.levels[i].buy) && Holds(s.levels, i, Sell, s.levels[i].sell);
      UntrackedFillIgnored(s, cfg, decide, id, mid, i + 1);
    }
  }

  /** After the first fill of an id, however partial, further fills of it do nothing for the rest of the run. */
  lemma FurtherPartialFillsIgnored(cfg: Config, firstId: nat, decide: Decisions, es: seq<Event>, id: nat, mid: Mid)
    requires Buildable(cfg) && firstId > 0
    requires id in Run(Fresh(cfg, firstId), cfg, decide, es).ledger.filled
    ensures var s := Run(Fresh(cfg, firstId), cfg, decide, es);
            OnFill(s, cfg, decide, id, mid) == s
  {
    OrdersAreConserved(cfg, firstId, decide, es);
    var s := Run(Fresh(cfg, firstId), cfg, decide, es);
    assert FateOf(s, id) == Filled;
    UntrackedFillIgnored(s, cfg, decide, id, mid, 0);
  }
}
