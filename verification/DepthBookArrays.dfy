/** The depth book in place: a fixed array with a count, and the hot copy of its five best. */
module DepthBookArrays {
  import opened Decimal
  import opened DepthBook

  lemma {:induction false} PositionIs(side: Side, s: Levels, price: Raw, k: nat)
    requires k <= |s| && (forall i :: 0 <= i < k ==> Better(side, s[i].price, price))
    requires k < |s| ==> !Better(side, s[k].price, price)
    ensures Position(side, s, price) == k
  {
    if k > 0 { PositionIs(side, s[1..], price, k - 1); }
  }

  /** What the shifting loop of an insertion must leave in the array. */
  lemma PutIs(side: Side, s: Levels, price: Raw, quantity: Raw, r: Levels)
    requires var k, d := Position(side, s, price), if Present(side, s, price) then 0 else 1;
             && |s| <= MAX_DEPTH && k < MAX_DEPTH
             && |r| == (if |s| + d > MAX_DEPTH then MAX_DEPTH else |s| + d)
             && r[k] == PriceLevel(price, quantity)
             && (forall i :: 0 <= i < k ==> r[i] == s[i])
             && (forall i :: k < i < |r| ==> r[i] == s[i - d])
    ensures r == Best(Put(side, s, price, quantity), MAX_DEPTH)
  {
    var k := Position(side, s, price);
    var w := Put(side, s, price, quantity);
    hide Position;
    forall i | 0 <= i < |r| ensures r[i] == w[i] {}
    assert |r| == MAX_DEPTH || r == w;
  }

  lemma InsertBeyond(side: Side, s: Levels, price: Raw, quantity: Raw)
    requires Position(side, s, price) == |s| == MAX_DEPTH
    ensures Best(Put(side, s, price, quantity), MAX_DEPTH) == s
  {
  }

  lemma CutIs(s: Levels, k: nat, r: Levels)
    requires k < |s| == |r| + 1 && forall i :: 0 <= i < |r| ==> r[i] == s[if i < k then i else i + 1]
    ensures r == Cut(s, k)
  {
  }

  class BookSide {
    const side: Side
    const levels: array<PriceLevel>
    var count: nat
    const hot: array<PriceLevel>
    var hotCount: nat

    ghost predicate Shape()
      reads this
    {
      levels.Length == MAX_DEPTH && hot.Length == HOT_DEPTH && levels != hot && count <= MAX_DEPTH
        && hotCount <= HOT_DEPTH
    }

    ghost function Contents(): Levels
      requires Shape()
      reads this, levels
    {
      levels[..count]
    }

    ghost function HotContents(): Levels
      requires Shape()
      reads this, hot
    {
      hot[..hotCount]
    }

    /** The book is in order and the hot copy is its five best. */
    ghost predicate Valid()
      reads this, levels, hot
    {
      Shape() && BookOk(side, Contents()) && HotContents() == Best(Contents(), HOT_DEPTH)
    }

    constructor (side: Side)
      ensures Valid() && Contents() == [] && this.side == side
      ensures fresh(levels) && fresh(hot)
    {
      this.side := side;
      levels := new PriceLevel[MAX_DEPTH](_ => PriceLevel(0, 0));
      hot := new PriceLevel[HOT_DEPTH](_ => PriceLevel(0, 0));
      count, hotCount := 0, 0;
    }

    method Find(price: Raw) returns (k: nat)
      requires Shape()
      ensures k == Position(side, Contents(), price)
    {
      k := 0;
      while k < count && Better(side, levels[k].price, price)
        invariant k <= count
        invariant forall i :: 0 <= i < k ==> Better(side, levels[i].price, price)
      {
        k := k + 1;
      }
      PositionIs(side, Contents(), price, k);
    }

    /** Makes room at k: the levels from there on move one place towards the end, the last one out. */
    method ShiftUp(k: nat)
      requires Shape() && k < count
      modifies levels
      ensures forall j :: 0 <= j < k ==> levels[j] == old(levels[j])
      ensures forall j :: k < j < count ==> levels[j] == old(levels[j - 1])
    {
      var i := count - 1;
      while i > k
        invariant k <= i < count
        invariant forall j :: 0 <= j <= i ==> levels[j] == old(levels[j])
        invariant forall j :: i < j < count ==> levels[j] == old(levels[j - 1])
      {
        levels[i] := levels[i - 1];
        i := i - 1;
      }
    }

    /** Closes the place at k. */
    method ShiftDown(k: nat)
      requires Shape() && k < count
      modifies levels
      ensures forall j :: 0 <= j < count - 1 ==> levels[j] == old(levels[if j < k then j else j + 1])
    {
      var i := k;
      while i < count - 1
        invariant k <= i <= count - 1
        invariant forall j :: 0 <= j < i ==> levels[j] == old(levels[if j < k then j else j + 1])
        invariant forall j :: i < j < count ==> levels[j] == old(levels[j])
      {
        levels[i] := levels[i + 1];
        i := i + 1;
      }
    }

    /** Returns the affected position, or -1 for a level beyond the depth. */
    method InsertLevel(price: Raw, quantity: Raw) returns (at: int)
      requires Shape() && quantity > 0
      modifies levels, `count
      ensures Shape() && Contents() == Apply(side, old(Contents()), Op(price, quantity))
      ensures at == AffectedAt(side, old(Contents()), Op(price, quantity))
    {
      hide Put, Position, Best;
      var k := Find(price);
      ghost var s := Contents();
      if k == MAX_DEPTH {
        InsertBeyond(side, s, price, quantity);
        return -1;
      }
      if k < count && levels[k].price == price {
        levels[k] := PriceLevel(price, quantity);
      } else {
        if count < MAX_DEPTH { count := count + 1; }
        ShiftUp(k);
        levels[k] := PriceLevel(price, quantity);
      }
      at := k;
      PutIs(side, s, price, quantity, Contents());
    }

    /** Returns the removed position, or -1 when there is no such level. */
    method RemoveLevel(price: Raw) returns (at: int)
      requires Shape()
      modifies levels, `count
      ensures Shape() && Contents() == Remove(side, old(Contents()), price)
      ensures at == AffectedAt(side, old(Contents()), Op(price, 0))
    {
      hide Cut, Position;
      var k := Find(price);
      ghost var s := Contents();
      if k == count || levels[k].price != price { return -1; }
      ShiftDown(k);
      count := count - 1;
      at := k;
      CutIs(s, k, Contents());
    }

    method RebuildHot()
      requires Shape()
      modifies hot, `hotCount
      ensures Shape() && HotContents() == Best(Contents(), HOT_DEPTH)
    {
      hotCount := if count > HOT_DEPTH then HOT_DEPTH else count;
      for i := 0 to hotCount
        invariant forall j :: 0 <= j < i ==> hot[j] == levels[j]
        modifies hot
      {
        hot[i] := levels[i];
      }
    }

    /** One level of a tick.  The hot data is rebuilt only when one of the five best is affected. */
    method UpdateLevel(op: Op)
      requires Valid()
      modifies this, levels, hot
      ensures Valid() && Contents() == Apply(side, old(Contents()), op)
    {
      ghost var s := Contents();
      ApplyKeepsBookOk(side, s, op);
      var at;
      if op.quantity > 0 {
        at := InsertLevel(op.price, op.quantity);
      } else {
        at := RemoveLevel(op.price);
      }
      var dirty := 0 <= at < HOT_DEPTH;
      if dirty {
        RebuildHot();
      } else {
        HotStaysTopFive(side, s, op);
      }
    }
  }
}
