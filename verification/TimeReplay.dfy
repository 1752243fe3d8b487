/**
 Merging recorded streams by timestamp.  The header declares the heap, the
 stream positions and what each call promises; the bodies are not part of
 the repository and are written from those declarations.
 */
module TimeReplay {

  datatype Record = Record(timestamp: nat, valid: bool)

  type Stream = seq<Record>

  /** One delivered record: which stream, and where in it. */
  datatype Event = Event(stream: nat, index: nat)

  datatype HeapEntry = HeapEntry(timestamp: nat, stream: nat)

  /** The first valid record from k on, or the end. */
  function NextValid(s: Stream, k: nat): (n: nat)
    requires k <= |s|
    ensures k <= n <= |s| && (n < |s| ==> s[n].valid)
    ensures forall i :: k <= i < n ==> !s[i].valid
    decreases |s| - k
  {
    if k == |s| || s[k].valid then k else NextValid(s, k + 1)
  }

  /** The indices of the valid records among the first k. */
  ghost function ValidBefore(s: Stream, k: nat): seq<nat>
    requires k <= |s|
  {
    if k == 0 then [] else if s[k - 1].valid then ValidBefore(s, k - 1) + [k - 1] else ValidBefore(s, k - 1)
  }

  /** The indices delivered from one stream, in the order of delivery. */
  ghost function From(d: seq<Event>, stream: nat): seq<nat> {
    if d == [] then []
    else
      var n := |d| - 1;
      if d[n].stream == stream then From(d[..n], stream) + [d[n].index] else From(d[..n], stream)
  }

  ghost predicate SortedStream(s: Stream) {
    forall i, j :: 0 <= i < j < |s| && s[i].valid && s[j].valid ==> s[i].timestamp <= s[j].timestamp
  }

  ghost predicate WellFormed(streams: seq<Stream>, d: seq<Event>) {
    forall e :: e in d ==> e.stream < |streams| && e.index < |streams[e.stream]|
  }

  ghost function Time(streams: seq<Stream>, e: Event): nat
    requires e.stream < |streams| && e.index < |streams[e.stream]|
  {
    streams[e.stream][e.index].timestamp
  }

  ghost predicate InOrder(streams: seq<Stream>, d: seq<Event>)
    requires WellFormed(streams, d)
  {
    forall a, b :: 0 <= a < b < |d| ==> Time(streams, d[a]) <= Time(streams, d[b])
  }

  /** Every valid record before the positions was delivered once, in its stream's order, and nothing else. */
  ghost predicate DeliveredUpTo(streams: seq<Stream>, pos: seq<nat>, d: seq<Event>) {
    && |pos| == |streams| && WellFormed(streams, d)
    && forall i :: 0 <= i < |streams| ==> pos[i] <= |streams[i]| && From(d, i) == ValidBefore(streams[i], pos[i])
  }

  /** A complete replay. */
  ghost predicate Complete(streams: seq<Stream>, d: seq<Event>) {
    WellFormed(streams, d)
    && forall i :: 0 <= i < |streams| ==> From(d, i) == ValidBefore(streams[i], |streams[i]|)
  }

  lemma {:induction false} SkippingKeepsValid(s: Stream, k: nat, n: nat)
    requires k <= n <= |s| && forall i :: k <= i < n ==> !s[i].valid
    ensures ValidBefore(s, n) == ValidBefore(s, k)
  {
    if k < n { SkippingKeepsValid(s, k, n - 1); }
  }

  lemma {:induction false} ValidBeforeCount(s: Stream, k: nat, x: nat)
    requires k <= |s|
    ensures multiset(ValidBefore(s, k))[x] == if x < k && s[x].valid then 1 else 0
  {
    if k > 0 { ValidBeforeCount(s, k - 1, x); }
  }

  lemma {:induction false} FromCount(d: seq<Event>, stream: nat, x: nat)
    ensures multiset(From(d, stream))[x] == multiset(d)[Event(stream, x)]
  {
    if d != [] {
      var n := |d| - 1;
      FromCount(d[..n], stream, x);
      assert d == d[..n] + [d[n]];
    }
  }

  lemma {:induction false} FromHas(d: seq<Event>, stream: nat, x: nat)
    ensures x in From(d, stream) <==> Event(stream, x) in d
  {
    if d != [] {
      var n := |d| - 1;
      FromHas(d[..n], stream, x);
      assert d == d[..n] + [d[n]];
    }
  }

  /** A complete replay delivers each valid record once, and no other. */
  lemma EachValidRecordOnce(streams: seq<Stream>, d: seq<Event>, i: nat, x: nat)
    requires Complete(streams, d) && i < |streams|
    ensures multiset(d)[Event(i, x)] == if x < |streams[i]| && streams[i][x].valid then 1 else 0
  {
    FromCount(d, i, x);
    ValidBeforeCount(streams[i], |streams[i]|, x);
  }

  ghost predicate NoTies(streams: seq<Stream>) {
    forall i, j, x, y :: 0 <= i < j < |streams| && 0 <= x < |streams[i]| && 0 <= y < |streams[j]| ==>
      streams[i][x].timestamp != streams[j][y].timestamp
  }

  ghost predicate SameDeliveries(streams: seq<Stream>, d: seq<Event>, e: seq<Event>) {
    && WellFormed(streams, d) && WellFormed(streams, e)
    && InOrder(streams, d) && InOrder(streams, e)
    && forall i :: 0 <= i < |streams| ==> From(d, i) == From(e, i)
  }

  /** An event of the one replay is no later than the last of the other. */
  lemma LastIsLatest(streams: seq<Stream>, d: seq<Event>, e: seq<Event>)
    requires SameDeliveries(streams, d, e) && d != []
    ensures e != [] && Time(streams, d[|d| - 1]) <= Time(streams, e[|e| - 1])
  {
    var last := d[|d| - 1];
    assert last in d;
    FromHas(d, last.stream, last.index);
    FromHas(e, last.stream, last.index);
    var k :| 0 <= k < |e| && e[k] == last;
  }

  lemma LastAgrees(streams: seq<Stream>, d: seq<Event>, e: seq<Event>)
    requires SameDeliveries(streams, d, e) && NoTies(streams) && d != [] && e != []
    ensures d[|d| - 1] == e[|e| - 1]
  {
    LastIsLatest(streams, d, e);
    LastIsLatest(streams, e, d);
    var x, y := d[|d| - 1], e[|e| - 1];
    assert x in d && y in e;
    assert x.stream == y.stream;
    assert From(d, x.stream)[|From(d, x.stream)| - 1] == x.index;
  }

  lemma WithoutLast(d: seq<Event>, e: seq<Event>, i: nat)
    requires d != [] && e != [] && d[|d| - 1] == e[|e| - 1] && From(d, i) == From(e, i)
    ensures From(d[..|d| - 1], i) == From(e[..|e| - 1], i)
  {
    var x, y := From(d[..|d| - 1], i), From(e[..|e| - 1], i);
    if d[|d| - 1].stream == i {
      assert x == (x + [d[|d| - 1].index])[..|x|] && y == (y + [e[|e| - 1].index])[..|y|];
    }
  }

  /** Where no two streams share a timestamp, the order of replay is determined: only ties may fall either way. */
  lemma {:induction false} ReplayIsDetermined(streams: seq<Stream>, d: seq<Event>, e: seq<Event>)
    requires SameDeliveries(streams, d, e) && NoTies(streams)
    ensures d == e
    decreases |d|
  {
    if d == [] {
      if e != [] { LastIsLatest(streams, e, d); }
    } else {
      LastIsLatest(streams, d, e);
      LastAgrees(streams, d, e);
      var n, m := |d| - 1, |e| - 1;
      hide From;
      forall i | 0 <= i < |streams| ensures From(d[..n], i) == From(e[..m], i) {
        WithoutLast(d, e, i);
      }
      ReplayIsDetermined(streams, d[..n], e[..m]);
      assert d == d[..n] + [d[n]] && e == e[..m] + [e[m]];
    }
  }

  /** Records not yet passed. */
  ghost function Remaining(streams: seq<Stream>, pos: seq<nat>): int
    requires |pos| == |streams|
  {
    if streams == [] then 0
    else
      var n := |streams| - 1;
      Remaining(streams[..n], pos[..n]) + |streams[n]| - pos[n]
  }

  lemma {:induction false} RemainingDrops(streams: seq<Stream>, pos: seq<nat>, i: nat, to: nat)
    requires |pos| == |streams| && i < |streams|
    ensures Remaining(streams, pos[i := to]) == Remaining(streams, pos) + pos[i] - to
  {
    var n := |streams| - 1;
    if i < n {
      RemainingDrops(streams[..n], pos[..n], i, to);
      assert pos[i := to][..n] == pos[..n][i := to];
    } else {
      assert pos[i := to][..n] == pos[..n];
    }
  }

  lemma {:induction false} RemainingNotNegative(streams: seq<Stream>, pos: seq<nat>)
    requires |pos| == |streams| && forall i :: 0 <= i < |streams| ==> pos[i] <= |streams[i]|
    ensures Remaining(streams, pos) >= 0
  {
    if streams != [] { RemainingNotNegative(streams[..|streams| - 1], pos[..|streams| - 1]); }
  }

  lemma {:induction false} Earliest(heap: set<HeapEntry>) returns (e: HeapEntry)
    requires heap != {}
    ensures e in heap && forall f :: f in heap ==> e.timestamp <= f.timestamp
    decreases |heap|
  {
    e :| e in heap;
    var rest := heap - {e};
    if rest != {} {
      var f := Earliest(rest);
      if f.timestamp < e.timestamp { e := f; }
    }
    assert forall g :: g in heap ==> g in rest || g !in rest;
  }
}
