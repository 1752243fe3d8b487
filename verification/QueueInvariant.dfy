/**
 The inductive invariant of the queue machine, kept by every step of every
 thread although threads act on stale tickets and stale sequence numbers.
 */
module QueueInvariant {
  import opened ModArith
  import opened QueueMachine

  /** Slot i is free for ticket q: its producer may have won it but has not published. */
  ghost predicate FreeSlot(s: State, h: History, q: nat) {
    && s.tail <= q < s.tail + |s.slots|
    && s.head <= q + |s.slots|
    && (q < s.head ==> q < |h.producer| && Produces(s, h.producer[q], q))
  }

  /** Slot holds the published element of ticket k: a consumer may be draining it. */
  ghost predicate FullSlot(s: State, h: History, c: Slot, k: nat) {
    && k < s.head <= k + |s.slots|
    && k < |h.pushed| && c.data == h.pushed[k]
    && (k < s.tail ==> k < |h.consumer| && Consumes(s, h.consumer[k], k))
  }

  /** Thread p is between its winning compare-and-swap on ticket q and its store. */
  ghost predicate Produces(s: State, p: nat, q: nat) {
    p < |s.threads| && s.threads[p].PushCopy? && s.threads[p].pos == q
  }

  ghost predicate Consumes(s: State, p: nat, k: nat) {
    p < |s.threads| && s.threads[p].PopCopy? && s.threads[p].pos == k
  }

  ghost predicate SlotOk(s: State, h: History, i: nat)
    requires i < |s.slots|
  {
    var c := s.slots[i];
    && |c.data| == s.size
    && (if c.turn % |s.slots| == i then FreeSlot(s, h, c.turn)
        else c.turn > 0 && (c.turn - 1) % |s.slots| == i && FullSlot(s, h, c, c.turn - 1))
  }

  ghost predicate ThreadOk(s: State, h: History, t: nat)
    requires |s.slots| > 0 && t < |s.threads|
  {
    match s.threads[t]
    case Idle(_) => true
    case PushLook(val, pos) => |val| == s.size && pos <= s.head
    case PushCas(val, pos) => |val| == s.size && pos <= s.head && (pos == s.head ==> s.At(pos).turn == pos)
    case PushReload(val, pos) => |val| == s.size && pos < s.head
    case PushCopy(val, pos, done) =>
      && |val| == s.size && done <= s.size
      && pos < s.head && s.At(pos).turn == pos
      && pos < |h.pushed| && h.pushed[pos] == val
      && pos < |h.producer| && h.producer[pos] == t
      && |s.At(pos).data| == s.size && s.At(pos).data[..done] == val[..done]
    case PopLook(pos) => pos <= s.tail
    case PopCas(pos) => pos <= s.tail && (pos == s.tail ==> s.At(pos).turn == pos + 1)
    case PopReload(pos) => pos < s.tail
    case PopCopy(pos, got) =>
      && pos < s.tail && s.At(pos).turn == pos + 1
      && pos < |h.consumer| && h.consumer[pos] == t
      && pos < |h.pushed| && |got| <= |h.pushed[pos]| && got == h.pushed[pos][..|got|]
  }

  ghost predicate HistoryOk(s: State, h: History) {
    && |h.pushed| == |h.producer| == s.head
    && |h.consumer| == s.tail
    && (forall k :: 0 <= k < |h.pushed| ==> |h.pushed[k]| == s.size)
    && (forall k :: k in h.popped ==> k < s.tail && k < |h.pushed| && h.popped[k] == h.pushed[k])
    && (forall k: nat :: k < |h.consumer| ==> (k in h.popped <==> !Consumes(s, h.consumer[k], k)))
  }

  ghost predicate Inv(s: State, h: History) {
    && |s.slots| >= 2
    && s.tail <= s.head <= s.tail + |s.slots|
    && HistoryOk(s, h)
    && (forall i: nat :: i < |s.slots| ==> SlotOk(s, h, i))
    && (forall t: nat :: t < |s.threads| ==> ThreadOk(s, h, t))
  }

  lemma InitEstablishesInv(s: State)
    requires Init(s) && |s.slots| >= 2
    ensures Inv(s, NoHistory)
  {
    forall i: nat | i < |s.slots| ensures SlotOk(s, NoHistory, i) {
      assert s.slots[i].turn == i;
      DivModUnique(i, |s.slots|, 0, i);
    }
  }

  // ---------------------------------------------------------------------
  // Consequences used by the step lemmas
  // ---------------------------------------------------------------------

  /** The slot of a ticket p, read from the invariant. */
  lemma SlotOfTicket(s: State, h: History, p: nat)
    requires Inv(s, h)
    ensures SlotOk(s, h, p % |s.slots|)
    ensures s.At(p) == s.slots[p % |s.slots|]
    ensures s.At(p).turn == p ==> FreeSlot(s, h, p)
    ensures s.At(p).turn == p + 1 ==> FullSlot(s, h, s.At(p), p)
  {
    NextSlotDiffers(p, |s.slots|);
  }

  /** A slot whose number is ahead of ticket p has moved on, so p has been claimed. */
  lemma AheadMeansClaimed(s: State, h: History, p: nat)
    requires Inv(s, h)
    ensures s.At(p).turn > p ==> p < s.head
    ensures s.At(p).turn > p + 1 ==> p < s.tail
  {
    var n, q := |s.slots|, s.At(p).turn;
    SlotOfTicket(s, h, p);
    if q > p {
      if q % n == p % n {
        LapGap(p, q, n);
      } else if q - 1 > p {
        LapGap(p, q - 1, n);
      }
    }
  }

  /** A slot behind ticket p, where p has not passed head, means one lap behind: the queue is full. */
  lemma BehindMeansFull(s: State, h: History, p: nat)
    requires Inv(s, h) && p <= s.head && s.At(p).turn < p
    ensures p == s.head && p >= |s.slots|
    ensures s.At(p).turn == p - |s.slots| || s.At(p).turn == p - |s.slots| + 1
  {
    var n, q := |s.slots|, s.At(p).turn;
    SlotOfTicket(s, h, p);
    if q % n == p % n {
      LapGap(q, p, n);
    } else {
      LapGap(q - 1, p, n);
      NextSlotDiffers(q - 1, n);
    }
  }

  /** A slot not yet published for ticket p, where p has not passed tail: ticket tail is unpublished. */
  lemma UnpublishedMeansEmpty(s: State, h: History, p: nat)
    requires Inv(s, h) && p <= s.tail && s.At(p).turn <= p
    ensures p == s.tail
  {
    var n, q := |s.slots|, s.At(p).turn;
    SlotOfTicket(s, h, p);
    if q < p {
      BehindMeansFull(s, h, p);
    }
  }
}
