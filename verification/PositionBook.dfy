/**
 Position accounting.  The header declares the update by fills, the weighted
 average and the profit realized on a reduction; the two P&L getters of
 Position are given in full.  The update's body is not part of the
 repository: Update is the usual average-cost rule that those declarations
 describe, in exact arithmetic.
 */
module PositionBook {

  datatype Position = Position(quantity: real, averagePrice: real, realizedPnl: real) {
    function UnrealizedPnl(price: real): real { quantity * (price - averagePrice) }

    function TotalPnl(price: real): real { realizedPnl + UnrealizedPnl(price) }
  }

  const FLAT := Position(0.0, 0.0, 0.0)

  /** A fill: amount is positive for a buy and negative for a sell. */
  datatype Fill = Fill(symbol: nat, amount: real, price: real)

  function Abs(x: real): real { if x < 0.0 then -x else x }

  predicate SameSide(a: real, b: real) { (a > 0.0 && b > 0.0) || (a < 0.0 && b < 0.0) }

  function WeightedAverage(oldQuantity: real, oldAverage: real, amount: real, price: real): real
    requires oldQuantity + amount != 0.0
  {
    (oldQuantity * oldAverage + amount * price) / (oldQuantity + amount)
  }

  /** What closing `reduced` units earns: the price over the average for a long, the reverse for a short. */
  function RealizedOnReduce(pos: Position, price: real, reduced: real): real {
    if pos.quantity > 0.0 then reduced * (price - pos.averagePrice) else reduced * (pos.averagePrice - price)
  }

  function Update(pos: Position, amount: real, price: real): Position {
    var quantity := pos.quantity + amount;
    if amount == 0.0 then pos
    else if pos.quantity == 0.0 || SameSide(pos.quantity, amount) then
      Position(quantity, WeightedAverage(pos.quantity, pos.averagePrice, amount, price), pos.realizedPnl)
    else
      var reduced := if Abs(amount) < Abs(pos.quantity) then Abs(amount) else Abs(pos.quantity);
      Position(quantity,
               if quantity == 0.0 then 0.0 else if SameSide(quantity, pos.quantity) then pos.averagePrice else price,
               pos.realizedPnl + RealizedOnReduce(pos, price, reduced))
  }

  function Fills(pos: Position, fills: seq<Fill>): Position
    decreases |fills|
  {
    if fills == [] then pos else Fills(Update(pos, fills[0].amount, fills[0].price), fills[1..])
  }

  /** Cash received less cash paid. */
  function CashFlow(fills: seq<Fill>): real
    decreases |fills|
  {
    if fills == [] then 0.0 else CashFlow(fills[1..]) - fills[0].amount * fills[0].price
  }

  lemma MeanTimesWeight(a: real, x: real, b: real, y: real)
    requires a + b != 0.0
    ensures WeightedAverage(a, x, b, y) * (a + b) == a * x + b * y
  {
  }

  /** Realized profit with the open position taken back at its average price: the money the fills left. */
  function Money(pos: Position): real { pos.realizedPnl - pos.quantity * pos.averagePrice }

  lemma UpdateKeepsMoney(pos: Position, amount: real, price: real)
    ensures Money(Update(pos, amount, price)) == Money(pos) - amount * price
    ensures Update(pos, amount, price).quantity == pos.quantity + amount
  {
    hide Money, WeightedAverage, RealizedOnReduce;
    if amount == 0.0 {
    } else if pos.quantity == 0.0 || SameSide(pos.quantity, amount) {
      AddKeepsMoney(pos, amount, price);
    } else if Abs(amount) < Abs(pos.quantity) {
      ReduceKeepsMoney(pos, amount, price);
    } else {
      FlipKeepsMoney(pos, amount, price, Update(pos, amount, price).averagePrice);
    }
  }

  lemma AddKeepsMoney(pos: Position, amount: real, price: real)
    requires pos.quantity + amount != 0.0
    ensures Money(Position(pos.quantity + amount,
                           WeightedAverage(pos.quantity, pos.averagePrice, amount, price), pos.realizedPnl))
            == Money(pos) - amount * price
  {
    MeanTimesWeight(pos.quantity, pos.averagePrice, amount, price);
    hide WeightedAverage;
    var q, average := pos.quantity + amount, WeightedAverage(pos.quantity, pos.averagePrice, amount, price);
    assert q * average == average * q;
  }

  lemma ReduceKeepsMoney(pos: Position, amount: real, price: real)
    requires SameSide(pos.quantity, -amount)
    ensures Money(Position(pos.quantity + amount, pos.averagePrice,
                           pos.realizedPnl + RealizedOnReduce(pos, price, Abs(amount))))
            == Money(pos) - amount * price
  {
    var q, average := pos.quantity, pos.averagePrice;
    SumTimes(q, amount, average);
    DifferenceTimes(amount, price, average);
    DifferenceTimes(amount, average, price);
    NegatedFactor(amount, price - average);
  }

  /** The whole position is closed; what is left is opened at the price. */
  lemma FlipKeepsMoney(pos: Position, amount: real, price: real, average: real)
    requires SameSide(pos.quantity, -amount) && (average == price || pos.quantity + amount == 0.0)
    ensures Money(Position(pos.quantity + amount, average,
                           pos.realizedPnl + RealizedOnReduce(pos, price, Abs(pos.quantity))))
            == Money(pos) - amount * price
  {
    var q, before := pos.quantity, pos.averagePrice;
    SumTimes(q, amount, price);
    DifferenceTimes(q, price, before);
    DifferenceTimes(q, before, price);
    NegatedFactor(q, before - price);
    assert (q + amount) * average == (q + amount) * price;
  }

  lemma SumTimes(a: real, b: real, x: real)
    ensures (a + b) * x == a * x + b * x
  {
  }

  lemma DifferenceTimes(a: real, x: real, y: real)
    ensures a * (x - y) == a * x - a * y
  {
  }

  lemma NegatedFactor(a: real, x: real)
    ensures -a * x == -(a * x)
  {
  }

  lemma {:induction false} FillsKeepMoney(pos: Position, fills: seq<Fill>)
    ensures Money(Fills(pos, fills)) == Money(pos) + CashFlow(fills)
    decreases |fills|
  {
    hide Update, Money;
    if fills != [] {
      UpdateKeepsMoney(pos, fills[0].amount, fills[0].price);
      FillsKeepMoney(Update(pos, fills[0].amount, fills[0].price), fills[1..]);
    }
  }

  lemma TotalIsMoneyAndStock(pos: Position, price: real)
    ensures pos.TotalPnl(price) == Money(pos) + pos.quantity * price
  {
  }

  /**
   Profit is conserved over every list of fills, whether they add, reduce or
   flip the position: from flat, realized plus unrealized profit at any price
   is the net cash flow plus what the quantity held is worth at that price.
   */
  lemma ProfitIsConserved(fills: seq<Fill>, price: real)
    ensures Fills(FLAT, fills).TotalPnl(price) == CashFlow(fills) + Fills(FLAT, fills).quantity * price
  {
    hide Fills;
    FillsKeepMoney(FLAT, fills);
    TotalIsMoneyAndStock(Fills(FLAT, fills), price);
  }

  // ---------------------------------------------------------------------
  // What a fill realizes, in plain numbers
  // ---------------------------------------------------------------------

  /** A fill on the position's own side, or from flat: nothing is realized, the cost is averaged in. */
  ghost predicate Adds(was: Position, amount: real, price: real, now: Position) {
    && now.realizedPnl == was.realizedPnl
    && now.averagePrice * now.quantity == was.averagePrice * was.quantity + amount * price
  }

  /** A fill of `size` units against a larger position: the average stays, and those units are realized. */
  ghost predicate Reduces(was: Position, size: real, price: real, now: Position) {
    && now.averagePrice == was.averagePrice
    && now.realizedPnl == was.realizedPnl + (if was.quantity > 0.0 then size * (price - was.averagePrice)
                                             else size * (was.averagePrice - price))
  }

  /** A fill against the position, at or past its size: the whole of it is realized, the rest opens at the price. */
  ghost predicate Closes(was: Position, price: real, now: Position) {
    && (now.quantity != 0.0 ==> now.averagePrice == price)
    && now.realizedPnl == was.realizedPnl + was.quantity * (price - was.averagePrice)
  }

  ghost predicate FillRule(was: Position, amount: real, price: real, now: Position) {
    && now.quantity == was.quantity + amount
    && (amount == 0.0 ==> now == was)
    && (amount > 0.0 && was.quantity >= 0.0 ==> Adds(was, amount, price, now))
    && (amount < 0.0 && was.quantity <= 0.0 ==> Adds(was, amount, price, now))
    && (was.quantity > 0.0 && 0.0 < -amount < was.quantity ==> Reduces(was, -amount, price, now))
    && (was.quantity < 0.0 && 0.0 < amount < -was.quantity ==> Reduces(was, amount, price, now))
    && (was.quantity > 0.0 && -amount >= was.quantity ==> Closes(was, price, now))
    && (was.quantity < 0.0 && amount >= -was.quantity ==> Closes(was, price, now))
  }

  /** Every fill of every position, whichever way it goes. */
  lemma UpdateFollowsRule(pos: Position, amount: real, price: real)
    ensures FillRule(pos, amount, price, Update(pos, amount, price))
  {
    hide WeightedAverage, RealizedOnReduce, Adds, Reduces, Closes;
    if (amount > 0.0 && pos.quantity >= 0.0) || (amount < 0.0 && pos.quantity <= 0.0) {
      AddFollowsRule(pos, amount, price);
    } else if SameSide(pos.quantity, -amount) {
      if Abs(amount) < Abs(pos.quantity) {
        ReduceFollowsRule(pos, amount, price);
      } else {
        CloseFollowsRule(pos, amount, price);
      }
    }
  }

  lemma AddFollowsRule(pos: Position, amount: real, price: real)
    requires (amount > 0.0 && pos.quantity >= 0.0) || (amount < 0.0 && pos.quantity <= 0.0)
    ensures Adds(pos, amount, price, Update(pos, amount, price))
  {
    hide WeightedAverage, RealizedOnReduce;
    MeanTimesWeight(pos.quantity, pos.averagePrice, amount, price);
    Commute(pos.averagePrice, pos.quantity);
  }

  lemma ReduceFollowsRule(pos: Position, amount: real, price: real)
    requires SameSide(pos.quantity, -amount) && Abs(amount) < Abs(pos.quantity)
    ensures Reduces(pos, Abs(amount), price, Update(pos, amount, price))
  {
    hide WeightedAverage;
  }

  lemma CloseFollowsRule(pos: Position, amount: real, price: real)
    requires SameSide(pos.quantity, -amount) && Abs(amount) >= Abs(pos.quantity)
    ensures Closes(pos, price, Update(pos, amount, price))
  {
    hide WeightedAverage;
    DifferenceTimes(pos.quantity, price, pos.averagePrice);
    DifferenceTimes(pos.quantity, pos.averagePrice, price);
    NegatedFactor(pos.quantity, pos.averagePrice - price);
  }

  lemma Commute(x: real, y: real)
    ensures x * y == y * x
  {
  }

  /** A fill may arrive in parts: two partial fills at one price leave the very position of the whole. */
  lemma PartsMakeTheWhole(pos: Position, a: real, b: real, price: real)
    requires SameSide(a, b)
    ensures Update(Update(pos, a, price), b, price) == Update(pos, a + b, price)
  {
    var q := pos.quantity;
    if q == 0.0 || SameSide(q, a) {
      PartsAdd(pos, a, b, price);
    } else if Abs(a + b) <= Abs(q) {
      PartsReduce(pos, a, b, price);
    } else {
      PartsFlip(pos, a, b, price);
    }
  }

  lemma PartsAdd(pos: Position, a: real, b: real, price: real)
    requires SameSide(a, b) && (pos.quantity == 0.0 || SameSide(pos.quantity, a))
    ensures Update(Update(pos, a, price), b, price) == Update(pos, a + b, price)
  {
    MeanInParts(pos.quantity, pos.averagePrice, a, b, price);
    hide WeightedAverage;
  }

  /** Averaging in two parts at one price is averaging in the whole. */
  lemma MeanInParts(q: real, x: real, a: real, b: real, price: real)
    requires q + a != 0.0 && q + a + b != 0.0
    ensures WeightedAverage(q + a, WeightedAverage(q, x, a, price), b, price) == WeightedAverage(q, x, a + b, price)
  {
    MeanTimesWeight(q, x, a, price);
    SumTimes(a, b, price);
    var m := WeightedAverage(q, x, a, price);
    assert (q + a) * m == m * (q + a);
    assert (q + a) * m + b * price == q * x + (a + b) * price;
    assert (q + a) + b == q + (a + b);
  }

  lemma PartsReduce(pos: Position, a: real, b: real, price: real)
    requires SameSide(a, b) && SameSide(pos.quantity, -a) && Abs(a + b) <= Abs(pos.quantity)
    ensures Update(Update(pos, a, price), b, price) == Update(pos, a + b, price)
  {
    hide WeightedAverage, RealizedOnReduce;
    var first := Update(pos, a, price);
    assert first.quantity == pos.quantity + a && first.averagePrice == pos.averagePrice;
    RealizedInParts(pos, first, price, Abs(a), Abs(b));
  }

  /** Closing in two parts realizes what closing at once does. */
  lemma RealizedInParts(pos: Position, first: Position, price: real, x: real, y: real)
    requires SameSide(pos.quantity, first.quantity) && first.averagePrice == pos.averagePrice
    ensures RealizedOnReduce(pos, price, x) + RealizedOnReduce(first, price, y) == RealizedOnReduce(pos, price, x + y)
  {
    SumTimes(x, y, price - pos.averagePrice);
    SumTimes(x, y, pos.averagePrice - price);
  }

  lemma PartsFlip(pos: Position, a: real, b: real, price: real)
    requires SameSide(a, b) && SameSide(pos.quantity, -a) && Abs(a + b) > Abs(pos.quantity)
    ensures Update(Update(pos, a, price), b, price) == Update(pos, a + b, price)
  {
    hide WeightedAverage, RealizedOnReduce;
    var first := Update(pos, a, price);
    if SameSide(first.quantity, b) {
      MeanOfEqual(first.quantity, b, price);
    } else if first.quantity == 0.0 {
      AverageFromFlat(first.averagePrice, b, price);
    } else {
      assert first.averagePrice == pos.averagePrice;
      RealizedInParts(pos, first, price, Abs(a), Abs(first.quantity));
    }
  }

  lemma MeanOfEqual(a: real, b: real, price: real)
    requires SameSide(a, b)
    ensures WeightedAverage(a, price, b, price) == price
  {
  }

  lemma AverageFromFlat(average: real, amount: real, price: real)
    requires amount != 0.0
    ensures WeightedAverage(0.0, average, amount, price) == price
  {
  }

  lemma Product(x: real, y: real)
    requires x >= 0.0 && y >= 0.0
    ensures x * y >= 0.0
  {
  }

  lemma Quotient(d: real, w: real)
    requires w > 0.0 && d * w >= 0.0
    ensures d >= 0.0
  {
  }

  /** A mean is between what it is a mean of. */
  lemma MeanIsBetween(a: real, x: real, b: real, y: real, low: real, high: real)
    requires SameSide(a, b) && low <= x <= high && low <= y <= high
    ensures low <= WeightedAverage(a, x, b, y) <= high
  {
    hide WeightedAverage;
    MeanTimesWeight(a, x, b, y);
    var m := WeightedAverage(a, x, b, y);
    if a > 0.0 {
      MeanOfPositive(m, a, b, x, y, low, high);
    } else {
      NegatedFactor(a, x);
      NegatedFactor(b, y);
      NegatedFactor(a + b, m);
      assert (a + b) * m == m * (a + b) && m * (-a + -b) == (-(a + b)) * m;
      MeanOfPositive(m, -a, -b, x, y, low, high);
    }
  }

  lemma MeanOfPositive(m: real, u: real, v: real, x: real, y: real, low: real, high: real)
    requires u > 0.0 && v > 0.0 && m * (u + v) == u * x + v * y
    requires low <= x <= high && low <= y <= high
    ensures low <= m <= high
  {
    NotBelow(m, u, v, x, y, low);
    NegatedFactor(m, u + v);
    DifferenceTimes(u, 0.0, x);
    DifferenceTimes(v, 0.0, y);
    NotBelow(-m, u, v, -x, -y, -high);
  }

  lemma NotBelow(m: real, u: real, v: real, x: real, y: real, low: real)
    requires u > 0.0 && v > 0.0 && m * (u + v) == u * x + v * y && low <= x && low <= y
    ensures m >= low
  {
    Product(u, x - low);
    Product(v, y - low);
    DifferenceTimes(u, x, low);
    DifferenceTimes(v, y, low);
    DifferenceTimes(u + v, m, low);
    SumTimes(u, v, low);
    assert (u + v) * m == m * (u + v) && (u + v) * (m - low) == (m - low) * (u + v);
    Quotient(m - low, u + v);
  }

  lemma AverageWithin(pos: Position, amount: real, price: real, low: real, high: real)
    requires low <= price <= high
    requires pos.quantity != 0.0 ==> low <= pos.averagePrice <= high
    ensures Update(pos, amount, price).quantity != 0.0 ==> low <= Update(pos, amount, price).averagePrice <= high
  {
    hide WeightedAverage, RealizedOnReduce;
    if SameSide(pos.quantity, amount) {
      MeanIsBetween(pos.quantity, pos.averagePrice, amount, price, low, high);
    } else if pos.quantity == 0.0 && amount != 0.0 {
      AverageFromFlat(pos.averagePrice, amount, price);
    }
  }

  /** An open position's average stays within the prices it was filled at. */
  lemma {:induction false} AverageWithinFillPrices(pos: Position, fills: seq<Fill>, low: real, high: real)
    requires forall i :: 0 <= i < |fills| ==> low <= fills[i].price <= high
    requires pos.quantity != 0.0 ==> low <= pos.averagePrice <= high
    ensures Fills(pos, fills).quantity != 0.0 ==> low <= Fills(pos, fills).averagePrice <= high
    decreases |fills|
  {
    if fills != [] {
      AverageWithin(pos, fills[0].amount, fills[0].price, low, high);
      AverageWithinFillPrices(Update(pos, fills[0].amount, fills[0].price), fills[1..], low, high);
    }
  }

  // ---------------------------------------------------------------------
  // The manager's map
  // ---------------------------------------------------------------------

  function PositionOf(book: map<nat, Position>, symbol: nat): Position {
    if symbol in book then book[symbol] else FLAT
  }

  function Booked(book: map<nat, Position>, fill: Fill): map<nat, Position> {
    if fill.amount == 0.0 then book
    else book[fill.symbol := Update(PositionOf(book, fill.symbol), fill.amount, fill.price)]
  }

  function BookedAll(book: map<nat, Position>, fills: seq<Fill>): map<nat, Position>
    decreases |fills|
  {
    if fills == [] then book else BookedAll(Booked(book, fills[0]), fills[1..])
  }

  function FillsOf(symbol: nat, fills: seq<Fill>): seq<Fill> {
    if fills == [] then []
    else if fills[0].symbol == symbol then [fills[0]] + FillsOf(symbol, fills[1..])
    else FillsOf(symbol, fills[1..])
  }

  /** A symbol's position depends on its own fills alone. */
  lemma {:induction false} SymbolsAreIndependent(book: map<nat, Position>, fills: seq<Fill>, symbol: nat)
    ensures PositionOf(BookedAll(book, fills), symbol) == Fills(PositionOf(book, symbol), FillsOf(symbol, fills))
    decreases |fills|
  {
    hide Update;
    if fills != [] {
      SymbolsAreIndependent(Booked(book, fills[0]), fills[1..], symbol);
      ZeroFillIsNothing(PositionOf(book, symbol), fills[0].price);
      if fills[0].symbol == symbol {
        assert FillsOf(symbol, fills)[1..] == FillsOf(symbol, fills[1..]);
      }
    }
  }

  lemma ZeroFillIsNothing(pos: Position, price: real)
    ensures Update(pos, 0.0, price) == pos
  {
  }

  /** In a book of many symbols, each earns its own cash flow plus the worth of what it holds. */
  lemma BookProfitIsConserved(fills: seq<Fill>, symbol: nat, price: real)
    ensures var pos := PositionOf(BookedAll(map[], fills), symbol);
            pos.TotalPnl(price) == CashFlow(FillsOf(symbol, fills)) + pos.quantity * price
  {
    hide BookedAll, FillsOf, Fills, CashFlow;
    SymbolsAreIndependent(map[], fills, symbol);
    ProfitIsConserved(FillsOf(symbol, fills), price);
  }

  class PositionManager {
    var positions: map<nat, Position>

    constructor ()
      ensures positions == map[]
    {
      positions := map[];
    }

    /** Returns no position when the fill quantity is zero. */
    method UpdatePosition(fill: Fill) returns (found: bool)
      modifies this
      ensures positions == Booked(old(positions), fill)
      ensures found <==> fill.amount != 0.0
      ensures found ==> fill.symbol in positions
      // no other symbol's position is touched, and this one's quantity and money move by the fill alone
      ensures forall symbol :: symbol != fill.symbol ==>
                (symbol in positions <==> symbol in old(positions))
                && PositionOf(positions, symbol) == PositionOf(old(positions), symbol)
      ensures var was, now := PositionOf(old(positions), fill.symbol), PositionOf(positions, fill.symbol);
              && FillRule(was, fill.amount, fill.price, now)
              && now.quantity == was.quantity + fill.amount
              && Money(now) == Money(was) - fill.amount * fill.price
    {
      UpdateKeepsMoney(PositionOf(positions, fill.symbol), fill.amount, fill.price);
      UpdateFollowsRule(PositionOf(positions, fill.symbol), fill.amount, fill.price);
      ZeroFillIsNothing(PositionOf(positions, fill.symbol), fill.price);
      hide Update, Money, FillRule;
      if fill.amount == 0.0 { return false; }
      var pos := PositionOf(positions, fill.symbol);
      positions := positions[fill.symbol := Update(pos, fill.amount, fill.price)];
      found := true;
    }

    method Clear()
      modifies this
      ensures positions == map[]
    {
      positions := map[];
    }
  }
}
