/** The replayer: a heap with the next valid record of every stream that has one. */
module TimeReplayers {
  import opened TimeReplay

  /** The replayer's fields, and what its callbacks were given. */
  datatype Replay = Replay(streams: seq<Stream>, pos: seq<nat>, heap: set<HeapEntry>, time: nat, delivered: seq<Event>)

  /** The heap holds each stream's record at its position, and that record is valid. */
  ghost predicate HeapOk(streams: seq<Stream>, pos: seq<nat>, heap: set<HeapEntry>)
    requires |pos| == |streams|
  {
    && (forall i :: 0 <= i < |streams| && pos[i] < |streams[i]| ==>
          streams[i][pos[i]].valid && HeapEntry(streams[i][pos[i]].timestamp, i) in heap)
    && (forall e :: e in heap ==>
          e.stream < |streams| && pos[e.stream] < |streams[e.stream]|
          && e.timestamp == streams[e.stream][pos[e.stream]].timestamp)
  }

  ghost predicate Valid(r: Replay) {
    DeliveredUpTo(r.streams, r.pos, r.delivered) && HeapOk(r.streams, r.pos, r.heap)
  }

  /** For streams that are sorted themselves: time has not gone back and will not. */
  ghost predicate OnTime(r: Replay)
    requires Valid(r)
  {
    && (forall i :: 0 <= i < |r.streams| ==> SortedStream(r.streams[i]))
    && InOrder(r.streams, r.delivered)
    && (forall a :: 0 <= a < |r.delivered| ==> Time(r.streams, r.delivered[a]) <= r.time)
    && (forall e :: e in r.heap ==> r.time <= e.timestamp)
  }

  predicate IsEarliest(heap: set<HeapEntry>, e: HeapEntry) {
    e in heap && forall f :: f in heap ==> e.timestamp <= f.timestamp
  }

  function WithNext(heap: set<HeapEntry>, s: Stream, k: nat, i: nat): set<HeapEntry> {
    if k < |s| then heap + {HeapEntry(s[k].timestamp, i)} else heap
  }

  /** The heap's entry e is delivered and its stream moves to its next valid record. */
  ghost function Deliver(r: Replay, e: HeapEntry): Replay
    requires Valid(r) && e in r.heap
  {
    var i := e.stream;
    var next := NextValid(r.streams[i], r.pos[i] + 1);
    Replay(r.streams, r.pos[i := next], WithNext(r.heap - {e}, r.streams[i], next, i), e.timestamp,
           r.delivered + [Event(i, r.pos[i])])
  }

  ghost function Join(r: Replay, reader: Stream): Replay {
    var k := NextValid(reader, 0);
    Replay(r.streams + [reader], r.pos + [k], WithNext(r.heap, reader, k, |r.streams|), r.time, r.delivered)
  }

  lemma {:induction false} FromNone(d: seq<Event>, stream: nat)
    requires forall e :: e in d ==> e.stream != stream
    ensures From(d, stream) == []
  {
    if d != [] { FromNone(d[..|d| - 1], stream); }
  }

  lemma EntryFits(r: Replay, e: HeapEntry)
    requires Valid(r) && e in r.heap
    ensures e.stream < |r.streams| == |r.pos| && r.pos[e.stream] < |r.streams[e.stream]|
  {
  }

  lemma DeliverKeepsRecord(r: Replay, e: HeapEntry)
    requires Valid(r) && e in r.heap
    ensures var t := Deliver(r, e); DeliveredUpTo(t.streams, t.pos, t.delivered)
  {
    var i := e.stream;
    var t := Deliver(r, e);
    assert t.delivered[..|r.delivered|] == r.delivered;
    SkippingKeepsValid(r.streams[i], r.pos[i] + 1, t.pos[i]);
  }

  lemma DeliverKeepsHeap(r: Replay, e: HeapEntry)
    requires Valid(r) && e in r.heap
    ensures var t := Deliver(r, e); HeapOk(t.streams, t.pos, t.heap)
  {
    hide From, ValidBefore;
  }

  lemma DeliverKeepsValid(r: Replay, e: HeapEntry)
    requires Valid(r) && e in r.heap
    ensures Valid(Deliver(r, e))
  {
    hide Deliver, DeliveredUpTo, HeapOk;
    DeliverKeepsRecord(r, e);
    DeliverKeepsHeap(r, e);
  }

  lemma DeliverKeepsOnTime(r: Replay, e: HeapEntry)
    requires Valid(r) && OnTime(r) && IsEarliest(r.heap, e)
    ensures Valid(Deliver(r, e)) && OnTime(Deliver(r, e))
  {
    hide DeliveredUpTo, NextValid, InOrder;
    DeliverKeepsValid(r, e);
    EntryFits(r, e);
    DeliverKeepsOrder(r, e);
    NextIsLater(r, e);
    assert forall f :: f in Deliver(r, e).heap ==> e.timestamp <= f.timestamp;
    assert r.time <= e.timestamp;
  }

  lemma DeliverKeepsOrder(r: Replay, e: HeapEntry)
    requires Valid(r) && OnTime(r) && IsEarliest(r.heap, e) && Valid(Deliver(r, e))
    ensures InOrder(r.streams, Deliver(r, e).delivered)
    ensures forall a :: 0 <= a < |Deliver(r, e).delivered| ==>
            Time(r.streams, Deliver(r, e).delivered[a]) <= e.timestamp
  {
    hide DeliveredUpTo, NextValid;
    EntryFits(r, e);
    var d := Deliver(r, e).delivered;
    assert Time(r.streams, d[|r.delivered|]) == e.timestamp;
    assert forall a :: 0 <= a < |r.delivered| ==> d[a] == r.delivered[a];
  }

  /** The next valid record of the stream is no earlier than the one delivered. */
  lemma NextIsLater(r: Replay, e: HeapEntry)
    requires Valid(r) && OnTime(r) && e in r.heap
    ensures forall f :: f in Deliver(r, e).heap ==> f in r.heap || e.timestamp <= f.timestamp
  {
    EntryFits(r, e);
    var s := r.streams[e.stream];
    hide DeliveredUpTo, InOrder;
    assert SortedStream(s);
  }

  lemma DeliverUsesRecord(r: Replay, e: HeapEntry)
    requires Valid(r) && e in r.heap
    ensures |Deliver(r, e).pos| == |r.pos| == |r.streams|
    ensures 0 <= Remaining(r.streams, Deliver(r, e).pos) < Remaining(r.streams, r.pos)
  {
    DeliverKeepsValid(r, e);
    RemainingDrops(r.streams, r.pos, e.stream, Deliver(r, e).pos[e.stream]);
    RemainingNotNegative(r.streams, Deliver(r, e).pos);
  }

  lemma JoinKeepsValid(r: Replay, reader: Stream)
    requires Valid(r)
    ensures Valid(Join(r, reader))
  {
    SkippingKeepsValid(reader, 0, NextValid(reader, 0));
    FromNone(r.delivered, |r.streams|);
    hide NextValid, From, ValidBefore;
    assert ValidBefore(reader, 0) == [] by { EmptyPrefix(reader); }
  }

  lemma EmptyPrefix(s: Stream)
    ensures ValidBefore(s, 0) == []
  {
  }

  lemma JoinKeepsOnTime(r: Replay, reader: Stream)
    requires Valid(r) && OnTime(r) && SortedStream(reader) && r.time == 0
    ensures Valid(Join(r, reader)) && OnTime(Join(r, reader))
    ensures var t := Join(r, reader); t.streams == r.streams + [reader] && t.time == 0 && t.delivered == r.delivered
  {
    JoinKeepsValid(r, reader);
  }

  /** An empty heap means that all is delivered. */
  lemma EmptyHeapIsComplete(r: Replay)
    requires Valid(r) && r.heap == {}
    ensures Complete(r.streams, r.delivered)
  {
  }

  /** The replay before its first event, with all readers added. */
  ghost function Joined(readers: seq<Stream>): Replay {
    if readers == [] then Replay([], [], {}, 0, []) else Join(Joined(readers[..|readers| - 1]), readers[|readers| - 1])
  }

  /** t is reached from r by delivering entries, each an earliest one of its moment. */
  ghost predicate Replays(r: Replay, es: seq<HeapEntry>, t: Replay)
    decreases |es|
  {
    if es == [] then t == r else Valid(r) && IsEarliest(r.heap, es[0]) && Replays(Deliver(r, es[0]), es[1..], t)
  }

  lemma {:induction false} JoinedOk(readers: seq<Stream>)
    requires forall i :: 0 <= i < |readers| ==> SortedStream(readers[i])
    ensures var r := Joined(readers); r.streams == readers && r.time == 0 && r.delivered == [] && Valid(r) && OnTime(r)
  {
    hide Join, Valid, OnTime, SortedStream;
    if readers == [] {
      NothingJoinedOk();
    } else {
      var n := |readers| - 1;
      JoinedOk(readers[..n]);
      JoinKeepsOnTime(Joined(readers[..n]), readers[n]);
    }
  }

  lemma NothingJoinedOk()
    ensures var r := Replay([], [], {}, 0, []); Valid(r) && OnTime(r)
  {
  }

  lemma {:induction false} ReplaysKeepsOnTime(r: Replay, es: seq<HeapEntry>, t: Replay)
    requires Valid(r) && OnTime(r) && Replays(r, es, t)
    ensures Valid(t) && OnTime(t) && t.streams == r.streams
    decreases |es|
  {
    hide Valid, OnTime;
    if es != [] {
      DeliverKeepsOnTime(r, es[0]);
      ReplaysKeepsOnTime(Deliver(r, es[0]), es[1..], t);
    }
  }

  /** Every replay of sorted readers that runs out of events has merged them by time. */
  lemma EveryReplayMerges(readers: seq<Stream>, es: seq<HeapEntry>, t: Replay)
    requires forall i :: 0 <= i < |readers| ==> SortedStream(readers[i])
    requires Replays(Joined(readers), es, t) && t.heap == {}
    ensures Complete(readers, t.delivered) && InOrder(readers, t.delivered)
  {
    hide Joined, Replays;
    JoinedOk(readers);
    ReplaysKeepsOnTime(Joined(readers), es, t);
    EmptyHeapIsComplete(t);
  }

  /** Two replays of readers without common timestamps deliver the same events in the same order. */
  lemma ReplaysAgree(readers: seq<Stream>, es: seq<HeapEntry>, t: Replay, fs: seq<HeapEntry>, u: Replay)
    requires (forall i :: 0 <= i < |readers| ==> SortedStream(readers[i])) && NoTies(readers)
    requires Replays(Joined(readers), es, t) && t.heap == {}
    requires Replays(Joined(readers), fs, u) && u.heap == {}
    ensures t.delivered == u.delivered
  {
    hide Joined, Replays, SortedStream, NoTies, InOrder;
    EveryReplayMerges(readers, es, t);
    EveryReplayMerges(readers, fs, u);
    ReplayIsDetermined(readers, t.delivered, u.delivered);
  }

  /** A later state of the same replay. */
  ghost predicate Later(r: Replay, t: Replay) {
    t.streams == r.streams && |r.delivered| <= |t.delivered| && t.delivered[..|r.delivered|] == r.delivered
  }

  lemma DeliverIsLater(r: Replay, s: Replay, e: HeapEntry)
    requires Valid(s) && e in s.heap && Later(r, s)
    ensures Later(r, Deliver(s, e))
  {
  }

  /** What one call adds to a replay that began at r. */
  lemma Progress(r: Replay, was: Replay, now: Replay, more: bool, e: HeapEntry)
    requires Valid(was) && Later(r, was)
    requires if more then IsEarliest(was.heap, e) && now == Deliver(was, e) else now == was
    ensures Valid(now) && Later(r, now) && |now.pos| == |now.streams|
    ensures OnTime(was) ==> OnTime(now)
    ensures more ==> 0 <= Remaining(now.streams, now.pos) < Remaining(was.streams, was.pos)
    ensures more ==> |now.delivered| == |was.delivered| + 1 && now.delivered[..|was.delivered|] == was.delivered
    ensures more ==> now.time == Time(now.streams, now.delivered[|was.delivered|])
  {
    if more {
      DeliverKeepsValid(was, e);
      DeliverIsLater(r, was, e);
      DeliverUsesRecord(was, e);
      if OnTime(was) { DeliverKeepsOnTime(was, e); }
    }
  }

  /** Of the events delivered from `start` on, only the last can have reached the target. */
  ghost predicate AllButLastBefore(r: Replay, start: nat, target: nat)
    requires Valid(r)
  {
    forall a :: start <= a < |r.delivered| - 1 ==> Time(r.streams, r.delivered[a]) < target
  }

  ghost predicate LastIsNow(r: Replay)
    requires Valid(r)
  {
    r.delivered != [] && Time(r.streams, r.delivered[|r.delivered| - 1]) == r.time
  }

  lemma TargetStep(r: Replay, e: HeapEntry, start: nat, target: nat)
    requires Valid(r) && e in r.heap && start <= |r.delivered| && r.time < target
    requires AllButLastBefore(r, start, target) && (|r.delivered| > start ==> LastIsNow(r))
    ensures Valid(Deliver(r, e)) && AllButLastBefore(Deliver(r, e), start, target) && LastIsNow(Deliver(r, e))
  {
    DeliverKeepsValid(r, e);
    hide DeliveredUpTo, NextValid;
    assert Valid(Deliver(r, e));
  }

  class TimeReplayer {
    var streams: seq<Stream>
    var pos: seq<nat>
    var heap: set<HeapEntry>
    var currentTime: nat
    var eventsProcessed: nat
    var paused: bool
    ghost var delivered: seq<Event>

    ghost function Now(): Replay
      reads this
    {
      Replay(streams, pos, heap, currentTime, delivered)
    }

    ghost predicate Ok()
      reads this
    {
      Valid(Now()) && eventsProcessed == |delivered|
    }

    constructor ()
      ensures Ok() && OnTime(Now()) && Now() == Replay([], [], {}, 0, []) && !paused
    {
      streams, pos, heap, currentTime, delivered := [], [], {}, 0, [];
      eventsProcessed, paused := 0, false;
    }

    method AddStream(reader: Stream)
      requires Ok()
      modifies this
      ensures Ok() && Now() == Join(old(Now()), reader) && paused == old(paused)
    {
      JoinKeepsValid(Now(), reader);
      hide DeliveredUpTo, HeapOk;
      var k := NextValid(reader, 0);
      heap := WithNext(heap, reader, k, |streams|);
      streams, pos := streams + [reader], pos + [k];
    }

    method Pause()
      modifies this`paused
      ensures paused
    {
      paused := true;
    }

    method Resume()
      modifies this`paused
      ensures !paused
    {
      paused := false;
    }

    /** Delivers an earliest event, unless the replayer is paused or no events remain. */
    method AdvanceToNextEvent() returns (more: bool, e: HeapEntry)
      requires Ok()
      modifies this
      ensures Ok() && paused == old(paused)
      ensures more <==> !paused && old(heap) != {}
      ensures more ==> IsEarliest(old(heap), e) && Now() == Deliver(old(Now()), e)
      ensures !more ==> Now() == old(Now())
    {
      hide DeliveredUpTo, HeapOk;
      e := HeapEntry(0, 0);
      if paused || heap == {} { return false, e; }
      ghost var first := Earliest(heap);
      ghost var was := Now();
      e :| e in heap && forall f :: f in heap ==> e.timestamp <= f.timestamp;
      DeliverKeepsValid(was, e);
      EntryFits(was, e);
      var i, k := e.stream, pos[e.stream];
      var next := NextValid(streams[i], k + 1);
      heap := WithNext(heap - {e}, streams[i], next, i);
      pos := pos[i := next];
      delivered := delivered + [Event(i, k)];
      currentTime := e.timestamp;
      eventsProcessed := eventsProcessed + 1;
      more := true;
    }

    /** Delivers until the time reaches the target, or no events remain. */
    method AdvanceTo(target: nat) returns (count: nat)
      requires Ok()
      modifies this
      ensures Ok() && paused == old(paused) && Later(old(Now()), Now())
      ensures |delivered| == |old(delivered)| + count
      ensures old(OnTime(Now())) ==> OnTime(Now())
      ensures currentTime >= target || paused || heap == {}
      ensures AllButLastBefore(Now(), |old(delivered)|, target)
      ensures paused || old(currentTime) >= target ==> Now() == old(Now())
    {
      count := 0;
      var more := true;
      while more && currentTime < target
        invariant Ok() && paused == old(paused) && Later(old(Now()), Now())
        invariant |delivered| == |old(delivered)| + count
        invariant old(OnTime(Now())) ==> OnTime(Now())
        invariant more || paused || heap == {}
        invariant AllButLastBefore(Now(), |old(delivered)|, target) && (count > 0 ==> LastIsNow(Now()))
        invariant paused || old(currentTime) >= target ==> Now() == old(Now())
        decreases Remaining(streams, pos), more
      {
        hide DeliveredUpTo, HeapOk, OnTime, Later, Deliver, AllButLastBefore, LastIsNow;
        var e;
        ghost var was := Now();
        more, e := AdvanceToNextEvent();
        Progress(old(Now()), was, Now(), more, e);
        if more { TargetStep(was, e, |old(delivered)|, target); }
        if more { count := count + 1; }
      }
    }

    /** Fast-forward: the replay is then complete, and on time if its streams are sorted. */
    method AdvanceToEnd() returns (count: nat)
      requires Ok()
      modifies this
      ensures Ok() && paused == old(paused) && Later(old(Now()), Now())
      ensures |delivered| == |old(delivered)| + count
      ensures old(OnTime(Now())) ==> OnTime(Now())
      ensures if paused then Now() == old(Now()) else Complete(streams, delivered)
    {
      count := 0;
      var more := true;
      while more
        invariant Ok() && paused == old(paused) && Later(old(Now()), Now())
        invariant |delivered| == |old(delivered)| + count
        invariant old(OnTime(Now())) ==> OnTime(Now())
        invariant more || paused || heap == {}
        invariant paused ==> Now() == old(Now())
        decreases Remaining(streams, pos), more
      {
        hide DeliveredUpTo, HeapOk, OnTime, Later, Deliver;
        var e;
        ghost var was := Now();
        more, e := AdvanceToNextEvent();
        Progress(old(Now()), was, Now(), more, e);
        if more { count := count + 1; }
      }
      if heap == {} { EmptyHeapIsComplete(Now()); }
    }
  }
}
