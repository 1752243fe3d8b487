/**
 What the queue promises over all runs: ticket order, no lost, duplicated or
 invented element, no overlapping copies, and the exact meaning of `false`.
 */
module QueueTheorems {
  import opened ModArith
  import opened QueueMachine
  import opened QueueInvariant
  import opened QueueSteps

  // ---------------------------------------------------------------------
  // Safety over whole runs
  // ---------------------------------------------------------------------

  lemma RunFromInit(s: State, es: Schedule)
    requires Init(s) && |s.slots| >= 2
    ensures Inv(Run(s, es), RunHistory(s, NoHistory, es))
  {
    InitEstablishesInv(s);
    RunKeepsInv(s, NoHistory, es);
  }

  /**
   Each sequence number is t or t + 1 for exactly one ticket t of its slot, and
   the tickets handed out but not yet consumed never exceed one lap.
   */
  lemma SlotNumbersStayInLap(s: State, es: Schedule, i: nat)
    requires Init(s) && 2 <= |s.slots| && i < |s.slots|
    ensures var r := Run(s, es);
            && r.tail <= r.head <= r.tail + |s.slots|
            && var q := r.slots[i].turn;
               && (q % |s.slots| == i <==> !(q > 0 && (q - 1) % |s.slots| == i))
               && (q % |s.slots| == i ==> r.tail <= q < r.tail + |s.slots|)
               && (q % |s.slots| != i ==> q <= r.head < q + |s.slots|)
  {
    RunFromInit(s, es);
    var r := Run(s, es);
    assert SlotOk(r, RunHistory(s, NoHistory, es), i);
    NextSlotDiffers(r.slots[i].turn - 1, |s.slots|);
  }

  /** Where the element of a claimed ticket is: exactly one of these five. */
  datatype Place = BeingWritten | InSlot | BeingRead | Delivered | NotClaimed

  ghost function PlaceOf(s: State, h: History, k: nat): Place
    requires Inv(s, h)
  {
    if k >= s.head then NotClaimed
    else if k in h.popped then Delivered
    else if k < s.tail then BeingRead
    else if Produces(s, h.producer[k], k) then BeingWritten
    else InSlot
  }

  /**
   No element is lost, duplicated or invented: at any moment the element
   pushed under ticket k sits in the place its ticket says.
   */
  lemma ElementIsInItsPlace(s: State, es: Schedule, k: nat)
    requires Init(s) && 2 <= |s.slots|
    requires k < Run(s, es).head
    ensures var r := Run(s, es);
            var h := RunHistory(s, NoHistory, es);
            && Inv(r, h) && k < |h.pushed|
            && match PlaceOf(r, h, k)
               case NotClaimed => false
               case Delivered => h.popped[k] == h.pushed[k]
               case BeingRead =>
                 && Consumes(r, h.consumer[k], k)
                 && r.At(k) == Slot(h.pushed[k], k + 1)
                 && r.threads[h.consumer[k]].got <= h.pushed[k]
               case InSlot => r.At(k) == Slot(h.pushed[k], k + 1)
               case BeingWritten =>
                 && r.At(k).turn == k
                 && r.threads[h.producer[k]].val == h.pushed[k]
  {
    RunFromInit(s, es);
    var r := Run(s, es);
    var h := RunHistory(s, NoHistory, es);
    SlotOfTicket(r, h, k);
    if k >= r.tail {
      UnconsumedIsInSlot(r, h, k);
    }
    if PlaceOf(r, h, k) == BeingRead {
      assert ThreadOk(r, h, h.consumer[k]);
    } else if PlaceOf(r, h, k) == BeingWritten {
      assert ThreadOk(r, h, h.producer[k]);
    }
  }

  /** A claimed, unconsumed ticket still owns its slot, written or about to be. */
  lemma UnconsumedIsInSlot(s: State, h: History, k: nat)
    requires Inv(s, h) && s.tail <= k < s.head
    ensures s.At(k).turn == k || s.At(k).turn == k + 1
    ensures s.At(k).turn == k <==> Produces(s, h.producer[k], k)
  {
    var n, q := |s.slots|, s.At(k).turn;
    SlotOfTicket(s, h, k);
    if q % n == k % n {
      if q < k { LapGap(q, k, n); } else if q > k { LapGap(k, q, n); }
    } else {
      if q - 1 < k { LapGap(q - 1, k, n); } else if q - 1 > k { LapGap(k, q - 1, n); }
    }
    if Produces(s, h.producer[k], k) {
      assert ThreadOk(s, h, h.producer[k]);
    }
  }

  /** A claimed ticket owns its slot exactly until its pop has handed the slot back. */
  lemma OwnsSlotUntilPopped(s: State, h: History, k: nat)
    requires Inv(s, h) && k < s.head
    ensures (s.At(k).turn == k || s.At(k).turn == k + 1) <==> k !in h.popped
  {
    SlotOfTicket(s, h, k);
    if s.tail <= k {
      UnconsumedIsInSlot(s, h, k);
    } else if k !in h.popped {
      assert ThreadOk(s, h, h.consumer[k]);
    }
  }

  /** With nobody between a winning compare-and-swap and its store, nothing is in flight. */
  ghost predicate Quiet(s: State) {
    forall t :: 0 <= t < |s.threads| ==> !Copying(s.threads[t])
  }

  /** At rest, the popped elements are the first `tail` pushed ones in order, and the rest are in the slots. */
  lemma FifoAtRest(s: State, es: Schedule)
    requires Init(s) && 2 <= |s.slots| && Quiet(Run(s, es))
    ensures var r := Run(s, es);
            var h := RunHistory(s, NoHistory, es);
            && |h.pushed| == r.head
            && (forall k: nat :: k in h.popped <==> k < r.tail)
            && (forall k: nat :: k in h.popped ==> k < |h.pushed| && h.popped[k] == h.pushed[k])
            && (forall k: nat :: r.tail <= k < r.head ==> k < |h.pushed| && r.At(k) == Slot(h.pushed[k], k + 1))
  {
    RunFromInit(s, es);
    var r := Run(s, es);
    var h := RunHistory(s, NoHistory, es);
    forall k: nat | r.tail <= k < r.head ensures r.At(k) == Slot(h.pushed[k], k + 1) {
      SlotOfTicket(r, h, k);
      UnconsumedIsInSlot(r, h, k);
    }
  }

  /** Data-race freedom: two threads that copy at the same time use different slots. */
  lemma CopiesNeverOverlap(s: State, es: Schedule, t: nat, u: nat)
    requires Init(s) && 2 <= |s.slots|
    requires t < |s.threads| && u < |s.threads| && t != u
    requires Copying(Run(s, es).threads[t]) && Copying(Run(s, es).threads[u])
    ensures Run(s, es).threads[t].pos % |s.slots| != Run(s, es).threads[u].pos % |s.slots|
  {
    RunFromInit(s, es);
    var r := Run(s, es);
    var h := RunHistory(s, NoHistory, es);
    assert ThreadOk(r, h, t) && ThreadOk(r, h, u);
    var p, q := r.threads[t].pos, r.threads[u].pos;
    if p % |s.slots| == q % |s.slots| {
      NextSlotDiffers(p, |s.slots|);
      NextSlotDiffers(q, |s.slots|);
    }
  }

  // ---------------------------------------------------------------------
  // What false means
  // ---------------------------------------------------------------------

  /** try_push returns false exactly when ticket head - N has been claimed but not handed back. */
  lemma FullExactly(s: State, h: History, t: nat)
    requires Inv(s, h) && t < |s.threads| && s.threads[t].PushLook?
    ensures var n := |s.slots|;
            Step(s, Event(t, Go)).threads[t] == Idle(Full)
            <==> s.threads[t].pos == s.head && s.head >= n && s.head - n !in h.popped
  {
    var n, pos := |s.slots|, s.threads[t].pos;
    assert ThreadOk(s, h, t);
    if s.At(pos).turn < pos {
      BehindMeansFull(s, h, pos);
    }
    if pos == s.head && s.head >= n {
      LapSameSlot(pos - n, n);
      OwnsSlotUntilPopped(s, h, pos - n);
    }
  }

  /** try_pop returns false exactly when ticket tail is unclaimed or its producer has not published. */
  lemma EmptyExactly(s: State, h: History, t: nat)
    requires Inv(s, h) && t < |s.threads| && s.threads[t].PopLook?
    ensures Step(s, Event(t, Go)).threads[t] == Idle(Empty)
            <==> s.threads[t].pos == s.tail
                 && (s.tail == s.head || Produces(s, h.producer[s.tail], s.tail))
  {
    var pos := s.threads[t].pos;
    assert ThreadOk(s, h, t);
    if s.At(pos).turn <= pos {
      UnpublishedMeansEmpty(s, h, pos);
    }
    if pos == s.tail == s.head {
      AheadMeansClaimed(s, h, pos);
    } else if pos == s.tail {
      UnconsumedIsInSlot(s, h, pos);
    }
  }

  /** With nobody copying, false from try_push means exactly N elements, false from try_pop exactly none. */
  lemma FalseAtRest(s: State, h: History, t: nat)
    requires Inv(s, h) && t < |s.threads| && Quiet(s)
    ensures s.threads[t].PushLook? ==>
              (Step(s, Event(t, Go)).threads[t] == Idle(Full)
               <==> s.threads[t].pos == s.head && s.head - s.tail == |s.slots|)
    ensures s.threads[t].PopLook? ==>
              (Step(s, Event(t, Go)).threads[t] == Idle(Empty)
               <==> s.threads[t].pos == s.tail && s.head == s.tail)
  {
    if s.threads[t].PushLook? { FullExactly(s, h, t); }
    if s.threads[t].PopLook? { EmptyExactly(s, h, t); }
  }
}
