/**
 One side of the depth book: at most twenty levels in a fixed array, best
 first, with the five best mirrored in the hot data.  Against it stands the
 ordered map that is trimmed to its twenty best prices after every update.

 The headers declare the arrays, the returned positions and the dirty flag;
 the insert and remove bodies are not part of the repository, so those in
 BookSide are written from the declared contract.
 */
module DepthBook {
  import opened Decimal

  datatype PriceLevel = PriceLevel(price: Raw, quantity: Raw)

  datatype Side = Bid | Ask

  const MAX_DEPTH: nat := 20
  const HOT_DEPTH: nat := 5

  type Levels = seq<PriceLevel>

  /** Bids: highest first.  Asks: lowest first. */
  predicate Better(side: Side, a: Raw, b: Raw) { if side.Bid? then a > b else a < b }

  ghost predicate Sorted(side: Side, s: Levels) {
    forall i, j :: 0 <= i < j < |s| ==> Better(side, s[i].price, s[j].price)
  }

  ghost predicate BookOk(side: Side, s: Levels) {
    |s| <= MAX_DEPTH && Sorted(side, s) && forall i :: 0 <= i < |s| ==> s[i].quantity > 0
  }

  /** How many levels are better than the price. */
  function Position(side: Side, s: Levels, price: Raw): (k: nat)
    ensures k <= |s|
    ensures forall i :: 0 <= i < k ==> Better(side, s[i].price, price)
    ensures k < |s| ==> !Better(side, s[k].price, price)
  {
    if s == [] || !Better(side, s[0].price, price) then 0 else 1 + Position(side, s[1..], price)
  }

  predicate Present(side: Side, s: Levels, price: Raw) {
    var k := Position(side, s, price);
    k < |s| && s[k].price == price
  }

  function Best(s: Levels, n: nat): Levels { if |s| > n then s[..n] else s }

  /** The level l at k: inserted for d == 1, in place of what is there for d == 0. */
  function Spliced(s: Levels, k: nat, d: nat, l: PriceLevel): Levels
    requires k <= |s| && d <= 1 && k + 1 - d <= |s|
  {
    s[..k] + [l] + s[k + 1 - d..]
  }

  /** The level put in its place, before the depth is trimmed. */
  function Put(side: Side, s: Levels, price: Raw, quantity: Raw): Levels {
    Spliced(s, Position(side, s, price), if Present(side, s, price) then 0 else 1, PriceLevel(price, quantity))
  }

  function Cut(s: Levels, k: nat): Levels
    requires k < |s|
  {
    s[..k] + s[k + 1..]
  }

  /** The level taken out, where there is one. */
  function Remove(side: Side, s: Levels, price: Raw): Levels {
    if Present(side, s, price) then Cut(s, Position(side, s, price)) else s
  }

  /** One level of a tick: a positive quantity sets the level, any other removes it. */
  datatype Op = Op(price: Raw, quantity: Raw)

  function Apply(side: Side, s: Levels, op: Op): Levels {
    if op.quantity > 0 then Best(Put(side, s, op.price, op.quantity), MAX_DEPTH)
    else Remove(side, s, op.price)
  }

  /** The affected position: -1 beyond the depth, and for a removal that finds nothing. */
  function AffectedAt(side: Side, s: Levels, op: Op): int {
    var k := Position(side, s, op.price);
    if (if op.quantity > 0 then k < MAX_DEPTH else Present(side, s, op.price)) then k else -1
  }

  function BookRun(side: Side, s: Levels, ops: seq<Op>): Levels
    decreases |ops|
  {
    if ops == [] then s else BookRun(side, Apply(side, s, ops[0]), ops[1..])
  }

  // ---------------------------------------------------------------------
  // The order is kept
  // ---------------------------------------------------------------------

  /** From its position on, every other level is worse than the price. */
  lemma WorseAfterPosition(side: Side, s: Levels, price: Raw)
    requires Sorted(side, s)
    ensures forall i :: Position(side, s, price) <= i < |s| ==> s[i].price == price || Better(side, price, s[i].price)
    ensures forall i :: Position(side, s, price) < i < |s| ==> Better(side, price, s[i].price)
  {
    var k := Position(side, s, price);
    assert forall i :: k < i < |s| ==> Better(side, s[k].price, s[i].price);
  }

  lemma SplicedAt(s: Levels, k: nat, d: nat, l: PriceLevel)
    requires k <= |s| && d <= 1 && k + 1 - d <= |s|
    ensures |Spliced(s, k, d, l)| == |s| + d && Spliced(s, k, d, l)[k] == l
    ensures forall i :: 0 <= i < k ==> Spliced(s, k, d, l)[i] == s[i]
    ensures forall i :: k < i < |s| + d ==> Spliced(s, k, d, l)[i] == s[i - d]
  {
  }

  lemma PutKeepsOrder(side: Side, s: Levels, price: Raw, quantity: Raw)
    requires Sorted(side, s)
    ensures Sorted(side, Put(side, s, price, quantity))
  {
    hide Position, Spliced;
    WorseAfterPosition(side, s, price);
    var k, d := Position(side, s, price), if Present(side, s, price) then 0 else 1;
    SplicedAt(s, k, d, PriceLevel(price, quantity));
    var w := Put(side, s, price, quantity);
    forall i, j | 0 <= i < j < |w| ensures Better(side, w[i].price, w[j].price) {
      if i < k && k < j { assert Better(side, s[i].price, price) && Better(side, price, s[j - d].price); }
    }
  }

  lemma PutKeepsPositive(side: Side, s: Levels, price: Raw, quantity: Raw)
    requires quantity > 0 && forall i :: 0 <= i < |s| ==> s[i].quantity > 0
    ensures forall i :: 0 <= i < |Put(side, s, price, quantity)| ==> Put(side, s, price, quantity)[i].quantity > 0
  {
    hide Position, Spliced;
    SplicedAt(s, Position(side, s, price), if Present(side, s, price) then 0 else 1, PriceLevel(price, quantity));
  }

  /** Twenty levels at most, strictly ordered, with positive quantities. */
  lemma ApplyKeepsBookOk(side: Side, s: Levels, op: Op)
    requires BookOk(side, s)
    ensures BookOk(side, Apply(side, s, op))
  {
    hide Position, Put, Cut;
    if op.quantity > 0 {
      PutKeepsOrder(side, s, op.price, op.quantity);
      PutKeepsPositive(side, s, op.price, op.quantity);
    } else if Present(side, s, op.price) {
      CutKeepsOrder(side, s, Position(side, s, op.price));
    }
  }

  // ---------------------------------------------------------------------
  // The ordered map, trimmed
  // ---------------------------------------------------------------------

  /** The prices and quantities of the levels. */
  ghost function AsMap(s: Levels): map<Raw, Raw> {
    if s == [] then map[] else AsMap(s[1..])[s[0].price := s[0].quantity]
  }

  lemma {:induction false} AsMapAt(side: Side, s: Levels, i: nat)
    requires Sorted(side, s) && i < |s|
    ensures s[i].price in AsMap(s) && AsMap(s)[s[i].price] == s[i].quantity
  {
    if i > 0 {
      assert Better(side, s[0].price, s[i].price);
      AsMapAt(side, s[1..], i - 1);
    }
  }

  lemma {:induction false} AsMapHas(s: Levels, p: Raw) returns (i: nat)
    requires p in AsMap(s)
    ensures i < |s| && s[i].price == p && AsMap(s)[p] == s[i].quantity
  {
    if s[0].price == p {
      i := 0;
    } else {
      i := AsMapHas(s[1..], p);
      i := i + 1;
    }
  }

  lemma {:induction false} AsMapSize(side: Side, s: Levels)
    requires Sorted(side, s)
    ensures |AsMap(s)| == |s|
  {
    if s != [] {
      AsMapSize(side, s[1..]);
      forall p | p in AsMap(s[1..]) ensures p != s[0].price {
        var i := AsMapHas(s[1..], p);
        assert Better(side, s[0].price, s[i + 1].price);
      }
      assert AsMap(s).Keys == AsMap(s[1..]).Keys + {s[0].price};
    }
  }

  /** t is m cut down to its best `MAX_DEPTH` prices. */
  ghost predicate TrimmedTo(side: Side, m: map<Raw, Raw>, t: map<Raw, Raw>) {
    && t.Keys <= m.Keys && (forall p :: p in t ==> t[p] == m[p])
    && |t| == (if |m| <= MAX_DEPTH then |m| else MAX_DEPTH)
    && (forall p, q :: p in t && q in m && q !in t ==> Better(side, p, q))
  }

  /** One update of the map-based book. */
  ghost predicate MapStep(side: Side, m: map<Raw, Raw>, op: Op, t: map<Raw, Raw>) {
    if op.quantity > 0 then TrimmedTo(side, m[op.price := op.quantity], t) else t == m - {op.price}
  }

  lemma SubsetOfSameSize(a: set<Raw>, b: set<Raw>)
    requires a <= b && |a| == |b|
    ensures a == b
  {
    assert b == a + (b - a);
  }

  /** Trimming has one result. */
  lemma TrimIsUnique(side: Side, m: map<Raw, Raw>, t: map<Raw, Raw>, u: map<Raw, Raw>)
    requires TrimmedTo(side, m, t) && TrimmedTo(side, m, u)
    ensures t == u
  {
    assert |t.Keys| == |t| == |u| == |u.Keys|;
    if forall p :: p in t ==> p in u {
      assert forall p :: p in t ==> t[p] == u[p];
      SubsetOfSameSize(t.Keys, u.Keys);
    } else if forall q :: q in u ==> q in t {
      assert forall p :: p in u ==> t[p] == u[p];
      SubsetOfSameSize(u.Keys, t.Keys);
    }
  }

  /** Putting a level is setting the price in the map. */
  lemma PutIsMapUpdate(side: Side, s: Levels, price: Raw, quantity: Raw)
    requires Sorted(side, s)
    ensures AsMap(Put(side, s, price, quantity)) == AsMap(s)[price := quantity]
  {
    hide Position, Spliced, AsMap, Sorted;
    var k, d := Position(side, s, price), if Present(side, s, price) then 0 else 1;
    var w := Put(side, s, price, quantity);
    SplicedAt(s, k, d, PriceLevel(price, quantity));
    PutKeepsOrder(side, s, price, quantity);
    WorseAfterPosition(side, s, price);
    AsMapAt(side, w, k);
    forall p | p in AsMap(w) && p != price ensures p in AsMap(s) && AsMap(s)[p] == AsMap(w)[p] {
      var i := AsMapHas(w, p);
      AsMapAt(side, s, if i < k then i else i - d);
    }
    forall p | p in AsMap(s) && p != price ensures p in AsMap(w) {
      var i := AsMapHas(s, p);
      AsMapAt(side, w, if i < k then i else i + d);
    }
    assert AsMap(w).Keys == AsMap(s).Keys + {price};
  }

  /** Keeping the first levels of a sorted book keeps the best prices of its map. */
  lemma BestIsTrimming(side: Side, w: Levels)
    requires Sorted(side, w)
    ensures TrimmedTo(side, AsMap(w), AsMap(Best(w, MAX_DEPTH)))
  {
    hide AsMap;
    var r := Best(w, MAX_DEPTH);
    AsMapSize(side, w);
    AsMapSize(side, r);
    forall p | p in AsMap(r)
      ensures p in AsMap(w) && AsMap(r)[p] == AsMap(w)[p]
      ensures forall q :: q in AsMap(w) && q !in AsMap(r) ==> Better(side, p, q)
    {
      var i := AsMapHas(r, p);
      AsMapAt(side, w, i);
      forall q | q in AsMap(w) && q !in AsMap(r) ensures Better(side, p, q) {
        var j := AsMapHas(w, q);
        if j < |r| { AsMapAt(side, r, j); }
      }
    }
  }

  lemma CutKeepsOrder(side: Side, s: Levels, k: nat)
    requires Sorted(side, s) && k < |s|
    ensures Sorted(side, Cut(s, k))
    ensures |Cut(s, k)| == |s| - 1 && forall i :: 0 <= i < |s| - 1 ==> Cut(s, k)[i] == s[if i < k then i else i + 1]
  {
    var r := Cut(s, k);
    forall i, j | 0 <= i < j < |r| ensures Better(side, r[i].price, r[j].price) {
      assert r[i] == s[if i < k then i else i + 1];
      assert r[j] == s[if j < k then j else j + 1];
    }
  }

  lemma RemoveShifts(side: Side, s: Levels, price: Raw) returns (k: nat, d: nat)
    requires Sorted(side, s)
    ensures Sorted(side, Remove(side, s, price)) && d <= 1 && k <= k + d <= |s|
    ensures |Remove(side, s, price)| == |s| - d
    ensures forall i :: 0 <= i < |s| - d ==> Remove(side, s, price)[i] == s[if i < k then i else i + d]
    ensures forall i :: 0 <= i < |s| ==> (s[i].price == price <==> d == 1 && i == k)
  {
    hide Cut;
    k, d := Position(side, s, price), 0;
    WorseAfterPosition(side, s, price);
    if Present(side, s, price) {
      CutKeepsOrder(side, s, k);
      d := 1;
    }
  }

  lemma RemoveIsMapStep(side: Side, s: Levels, price: Raw)
    requires Sorted(side, s)
    ensures AsMap(Remove(side, s, price)) == AsMap(s) - {price}
  {
    hide AsMap, Remove, Sorted;
    var r := Remove(side, s, price);
    var k, d := RemoveShifts(side, s, price);
    forall p | p in AsMap(r) ensures p != price && p in AsMap(s) && AsMap(s)[p] == AsMap(r)[p] {
      var i := AsMapHas(r, p);
      AsMapAt(side, s, if i < k then i else i + d);
    }
    forall p | p in AsMap(s) && p != price ensures p in AsMap(r) {
      var i := AsMapHas(s, p);
      AsMapAt(side, r, if i < k then i else i - d);
    }
    assert AsMap(r).Keys == AsMap(s).Keys - {price};
  }

  lemma ApplyIsMapStep(side: Side, s: Levels, op: Op)
    requires BookOk(side, s)
    ensures MapStep(side, AsMap(s), op, AsMap(Apply(side, s, op)))
  {
    hide Position, Put, AsMap, Remove, Best;
    if op.quantity > 0 {
      PutKeepsOrder(side, s, op.price, op.quantity);
      PutIsMapUpdate(side, s, op.price, op.quantity);
      BestIsTrimming(side, Put(side, s, op.price, op.quantity));
    } else {
      RemoveIsMapStep(side, s, op.price);
    }
  }

  /** The map-based book's states while it takes a list of updates. */
  ghost predicate MapRun(side: Side, ops: seq<Op>, ms: seq<map<Raw, Raw>>) {
    |ms| == |ops| + 1 && forall i :: 0 <= i < |ops| ==> MapStep(side, ms[i], ops[i], ms[i + 1])
  }

  /** Refinement over every run: the sorted arrays and the trimmed map hold the same book. */
  lemma {:induction false} ArraysAreTheTrimmedMap(side: Side, s: Levels, ops: seq<Op>, ms: seq<map<Raw, Raw>>)
    requires BookOk(side, s) && MapRun(side, ops, ms) && ms[0] == AsMap(s)
    ensures BookOk(side, BookRun(side, s, ops)) && AsMap(BookRun(side, s, ops)) == ms[|ops|]
    decreases |ops|
  {
    hide AsMap, Apply;
    if ops != [] {
      var t := Apply(side, s, ops[0]);
      ApplyKeepsBookOk(side, s, ops[0]);
      ApplyIsMapStep(side, s, ops[0]);
      assert MapStep(side, ms[0], ops[0], ms[1]);
      if ops[0].quantity > 0 {
        TrimIsUnique(side, ms[0][ops[0].price := ops[0].quantity], AsMap(t), ms[1]);
      }
      ArraysAreTheTrimmedMap(side, t, ops[1..], ms[1..]);
    }
  }

  // ---------------------------------------------------------------------
  // The affected position
  // ---------------------------------------------------------------------

  /**
   After setting a level, it is at the returned position, and -1 says that its
   price is in the book no more, being beyond the depth.
   */
  lemma InsertedAt(side: Side, s: Levels, op: Op)
    requires BookOk(side, s) && op.quantity > 0
    ensures var at, r := AffectedAt(side, s, op), Apply(side, s, op);
            if op.price in AsMap(r) then 0 <= at < |r| && r[at] == PriceLevel(op.price, op.quantity) else at == -1
  {
    hide Position, Spliced, AsMap;
    var k, r := Position(side, s, op.price), Apply(side, s, op);
    SplicedAt(s, k, if Present(side, s, op.price) then 0 else 1, PriceLevel(op.price, op.quantity));
    PutKeepsOrder(side, s, op.price, op.quantity);
    ApplyKeepsBookOk(side, s, op);
    if k < MAX_DEPTH {
      AsMapAt(side, r, k);
    } else {
      forall p | p in AsMap(r) ensures p != op.price {
        var i := AsMapHas(r, p);
        assert Better(side, r[i].price, Put(side, s, op.price, op.quantity)[k].price);
      }
    }
  }

  /** A removal returns where the level was, and -1 if and only if there was none. */
  lemma RemovedAt(side: Side, s: Levels, op: Op)
    requires BookOk(side, s) && op.quantity <= 0
    ensures var at := AffectedAt(side, s, op);
            if op.price in AsMap(s) then 0 <= at < |s| && s[at].price == op.price else at == -1
  {
    hide Position, AsMap;
    WorseAfterPosition(side, s, op.price);
    if Present(side, s, op.price) {
      AsMapAt(side, s, Position(side, s, op.price));
    } else {
      forall p | p in AsMap(s) ensures p != op.price {
        var i := AsMapHas(s, p);
      }
    }
  }

  // ---------------------------------------------------------------------
  // Hot data
  // ---------------------------------------------------------------------

  /** Below the five best, or at no position, an update leaves the five best as they were. */
  lemma HotStaysTopFive(side: Side, s: Levels, op: Op)
    requires BookOk(side, s) && !(0 <= AffectedAt(side, s, op) < HOT_DEPTH)
    ensures Best(Apply(side, s, op), HOT_DEPTH) == Best(s, HOT_DEPTH)
  {
    var k := Position(side, s, op.price);
    var r := Apply(side, s, op);
    hide Position;
    if k >= HOT_DEPTH {
      assert forall i :: 0 <= i < HOT_DEPTH ==> r[i] == s[i];
    } else {
      assert r == s;
    }
  }
}
