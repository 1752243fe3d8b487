/**
 Every step keeps the queue invariant, one lemma for each kind of step.
 */
module QueueSteps {
  import opened ModArith
  import opened QueueMachine
  import opened QueueInvariant

  ghost predicate Copying(l: Local) { l.PushCopy? || l.PopCopy? }

  /** Loads, failed compare-and-swaps and returns of false touch only the thread. */
  lemma LocalStep(s: State, h: History, t: nat, l: Local)
    requires Inv(s, h) && t < |s.threads|
    requires !Copying(s.threads[t]) && !Copying(l)
    requires ThreadOk(WithThread(s, t, l), h, t)
    ensures Inv(WithThread(s, t, l), h)
  {
    var s' := WithThread(s, t, l);
    forall i: nat | i < |s'.slots| ensures SlotOk(s', h, i) {
      assert SlotOk(s, h, i);
    }
    forall u: nat | u < |s'.threads| ensures ThreadOk(s', h, u) {
      assert ThreadOk(s, h, u);
    }
  }

  lemma PushWins(s: State, h: History, t: nat, val: Element)
    requires Inv(s, h) && t < |s.threads| && s.threads[t] == PushCas(val, s.head)
    ensures var s' := WithThread(s.(head := s.head + 1), t, PushCopy(val, s.head, 0));
            Inv(s', h.(pushed := h.pushed + [val], producer := h.producer + [t]))
  {
    var s' := WithThread(s.(head := s.head + 1), t, PushCopy(val, s.head, 0));
    var h' := h.(pushed := h.pushed + [val], producer := h.producer + [t]);
    var n := |s.slots|;
    assert ThreadOk(s, h, t);
    SlotOfTicket(s, h, s.head);
    forall i: nat | i < n ensures SlotOk(s', h', i) {
      PushWinsSlot(s, h, t, val, i);
    }
    forall u: nat | u < |s'.threads| ensures ThreadOk(s', h', u) {
      PushWinsThread(s, h, t, val, u);
    }
    assert HistoryOk(s', h') by { ConsumersUnchanged(s, h, s', t); }
  }

  lemma PushWinsSlot(s: State, h: History, t: nat, val: Element, i: nat)
    requires Inv(s, h) && t < |s.threads| && s.threads[t] == PushCas(val, s.head) && i < |s.slots|
    ensures SlotOk(WithThread(s.(head := s.head + 1), t, PushCopy(val, s.head, 0)),
                   h.(pushed := h.pushed + [val], producer := h.producer + [t]), i)
  {
    assert ThreadOk(s, h, t) && SlotOk(s, h, i) && HistoryOk(s, h);
    hide Inv;
    var q := s.slots[i].turn;
    if q % |s.slots| == i {
      LapSameSlot(q, |s.slots|);
    } else {
      LapSameSlot(q - 1, |s.slots|);
    }
  }

  lemma PushWinsThread(s: State, h: History, t: nat, val: Element, u: nat)
    requires Inv(s, h) && t < |s.threads| && s.threads[t] == PushCas(val, s.head) && u < |s.threads|
    ensures ThreadOk(WithThread(s.(head := s.head + 1), t, PushCopy(val, s.head, 0)),
                     h.(pushed := h.pushed + [val], producer := h.producer + [t]), u)
  {
    assert ThreadOk(s, h, t) && ThreadOk(s, h, u) && HistoryOk(s, h);
    SlotOfTicket(s, h, s.head);
    hide Inv;
  }

  lemma PushCopiesByte(s: State, h: History, t: nat)
    requires Inv(s, h) && t < |s.threads| && s.threads[t].PushCopy? && s.threads[t].done < s.size
    ensures Inv(Step(s, Event(t, Go)), h)
  {
    var s' := Step(s, Event(t, Go));
    var pos := s.threads[t].pos;
    assert ThreadOk(s, h, t);
    assert HistoryOk(s', h) by { ConsumersUnchanged(s, h, s', t); }
    forall i: nat | i < |s.slots| ensures SlotOk(s', h, i) {
      PushCopiesByteSlot(s, h, t, i);
    }
    forall u: nat | u < |s'.threads| ensures ThreadOk(s', h, u) {
      PushCopiesByteThread(s, h, t, u);
    }
  }

  lemma PushCopiesByteSlot(s: State, h: History, t: nat, i: nat)
    requires Inv(s, h) && t < |s.threads| && s.threads[t].PushCopy? && s.threads[t].done < s.size
    requires i < |s.slots|
    ensures SlotOk(Step(s, Event(t, Go)), h, i)
  {
    assert ThreadOk(s, h, t) && SlotOk(s, h, i);
  }

  lemma PushCopiesByteThread(s: State, h: History, t: nat, u: nat)
    requires Inv(s, h) && t < |s.threads| && s.threads[t].PushCopy? && s.threads[t].done < s.size
    requires u < |s.threads|
    ensures ThreadOk(Step(s, Event(t, Go)), h, u)
  {
    assert ThreadOk(s, h, t) && ThreadOk(s, h, u);
    hide Inv;
    if u == t {
      var PushCopy(val, pos, done) := s.threads[t];
      assert (s.At(pos).data[done := val[done]])[..done + 1] == val[..done + 1];
    }
  }

  /** A step that neither starts nor ends a drain leaves every ticket's consumer as it was. */
  lemma ConsumersUnchanged(s: State, h: History, s': State, t: nat)
    requires t < |s.threads| && |s'.threads| == |s.threads|
    requires s'.threads == s.threads[t := s'.threads[t]]
    requires s.threads[t].PopCopy? == s'.threads[t].PopCopy?
    requires s.threads[t].PopCopy? ==> s.threads[t].pos == s'.threads[t].pos
    ensures forall p: nat, k: nat :: Consumes(s', p, k) == Consumes(s, p, k)
  {
  }

  /** Thread t, done with its ticket, stores `turn` into the slot and returns. */
  ghost function HandOver(s: State, t: nat, pos: nat, turn: nat, out: Outcome): State
    requires |s.slots| > 0 && t < |s.threads|
  {
    WithThread(WithSlot(s, pos, s.At(pos).(turn := turn)), t, Idle(out))
  }

  /** The other slots do not notice a hand-over. */
  lemma HandOverSlot(s: State, h: History, t: nat, pos: nat, turn: nat, out: Outcome, h': History, i: nat)
    requires Inv(s, h) && t < |s.threads|
    requires Produces(s, t, pos) || Consumes(s, t, pos)
    requires h' == h.(popped := h'.popped)
    requires i < |s.slots| && i != pos % |s.slots|
    ensures SlotOk(HandOver(s, t, pos, turn, out), h', i)
  {
    assert SlotOk(s, h, i);
    assert ThreadOk(s, h, t);
  }

  /** The other threads keep their own tickets through a hand-over. */
  lemma HandOverThread(s: State, h: History, t: nat, pos: nat, turn: nat, out: Outcome, h': History, u: nat)
    requires Inv(s, h) && t < |s.threads|
    requires Produces(s, t, pos) || Consumes(s, t, pos)
    requires h' == h.(popped := h'.popped)
    requires u < |s.threads| && u != t
    ensures ThreadOk(HandOver(s, t, pos, turn, out), h', u)
  {
    var n := |s.slots|;
    assert ThreadOk(s, h, t) && ThreadOk(s, h, u);
    var l := s.threads[u];
    if !l.Idle? && l.pos % n == pos % n {
      NextSlotDiffers(pos, n);
      NextSlotDiffers(l.pos, n);
    }
  }

  lemma HandOverKeepsInv(s: State, h: History, t: nat, pos: nat, turn: nat, out: Outcome, h': History)
    requires Inv(s, h) && t < |s.threads|
    requires Produces(s, t, pos) || Consumes(s, t, pos)
    requires h' == h.(popped := h'.popped)
    requires HistoryOk(HandOver(s, t, pos, turn, out), h')
    requires SlotOk(HandOver(s, t, pos, turn, out), h', pos % |s.slots|)
    ensures Inv(HandOver(s, t, pos, turn, out), h')
  {
    var s' := HandOver(s, t, pos, turn, out);
    forall i: nat | i < |s'.slots| ensures SlotOk(s', h', i) {
      if i != pos % |s.slots| { HandOverSlot(s, h, t, pos, turn, out, h', i); }
    }
    forall u: nat | u < |s'.threads| ensures ThreadOk(s', h', u) {
      if u != t { HandOverThread(s, h, t, pos, turn, out, h', u); }
    }
  }

  lemma PushPublishes(s: State, h: History, t: nat)
    requires Inv(s, h) && t < |s.threads| && s.threads[t].PushCopy? && s.threads[t].done == s.size
    ensures Inv(Step(s, Event(t, Go)), h)
  {
    var PushCopy(val, pos, done) := s.threads[t];
    assert ThreadOk(s, h, t);
    SlotOfTicket(s, h, pos);
    NextSlotDiffers(pos, |s.slots|);
    assert s.At(pos).data[..done] == s.At(pos).data && val[..done] == val;
    var s' := HandOver(s, t, pos, pos + 1, Pushed);
    assert HistoryOk(s', h) by {
      forall k: nat | k < |h.consumer| ensures k in h.popped <==> !Consumes(s', h.consumer[k], k) {
        assert Consumes(s', h.consumer[k], k) == Consumes(s, h.consumer[k], k);
      }
    }
    HandOverKeepsInv(s, h, t, pos, pos + 1, Pushed, h);
  }

  lemma PopWins(s: State, h: History, t: nat)
    requires Inv(s, h) && t < |s.threads| && s.threads[t] == PopCas(s.tail)
    ensures var s' := WithThread(s.(tail := s.tail + 1), t, PopCopy(s.tail, []));
            Inv(s', h.(consumer := h.consumer + [t]))
  {
    var s' := WithThread(s.(tail := s.tail + 1), t, PopCopy(s.tail, []));
    var h' := h.(consumer := h.consumer + [t]);
    assert ThreadOk(s, h, t);
    SlotOfTicket(s, h, s.tail);
    assert HistoryOk(s', h') by {
      forall k: nat | k < |h'.consumer| ensures k in h'.popped <==> !Consumes(s', h'.consumer[k], k) {
        assert k < s.tail ==> Consumes(s', h.consumer[k], k) == Consumes(s, h.consumer[k], k);
      }
    }
    forall i: nat | i < |s.slots| ensures SlotOk(s', h', i) {
      PopWinsSlot(s, h, t, i);
    }
    forall u: nat | u < |s'.threads| ensures ThreadOk(s', h', u) {
      assert ThreadOk(s, h, u);
    }
  }

  lemma PopWinsSlot(s: State, h: History, t: nat, i: nat)
    requires Inv(s, h) && t < |s.threads| && s.threads[t] == PopCas(s.tail) && i < |s.slots|
    ensures SlotOk(WithThread(s.(tail := s.tail + 1), t, PopCopy(s.tail, [])), h.(consumer := h.consumer + [t]), i)
  {
    assert ThreadOk(s, h, t) && SlotOk(s, h, i);
    NextSlotDiffers(s.tail, |s.slots|);
  }

  lemma PopCopiesByte(s: State, h: History, t: nat)
    requires Inv(s, h) && t < |s.threads| && s.threads[t].PopCopy? && |s.threads[t].got| < s.size
    ensures Inv(Step(s, Event(t, Go)), h)
  {
    var s' := Step(s, Event(t, Go));
    var PopCopy(pos, got) := s.threads[t];
    assert ThreadOk(s, h, t);
    SlotOfTicket(s, h, pos);
    var l := PopCopy(pos, got + [s.At(pos).data[|got|]]);
    assert s' == WithThread(s, t, l);
    assert HistoryOk(s', h) by { ConsumersUnchanged(s, h, s', t); }
    forall i: nat | i < |s.slots| ensures SlotOk(s', h, i) {
      PopCopiesByteSlot(s, h, t, l, i);
    }
    forall u: nat | u < |s'.threads| ensures ThreadOk(s', h, u) {
      assert ThreadOk(s, h, u);
    }
  }

  lemma PopCopiesByteSlot(s: State, h: History, t: nat, l: Local, i: nat)
    requires Inv(s, h) && t < |s.threads| && s.threads[t].PopCopy? && l.PopCopy? && l.pos == s.threads[t].pos
    requires i < |s.slots|
    ensures SlotOk(WithThread(s, t, l), h, i)
  {
    assert SlotOk(s, h, i);
    hide Inv;
  }

  lemma PopReleases(s: State, h: History, t: nat)
    requires Inv(s, h) && t < |s.threads| && s.threads[t].PopCopy? && |s.threads[t].got| == s.size
    ensures Inv(Step(s, Event(t, Go)), h.(popped := h.popped[s.threads[t].pos := s.threads[t].got]))
  {
    var PopCopy(pos, got) := s.threads[t];
    var h' := h.(popped := h.popped[pos := got]);
    assert ThreadOk(s, h, t);
    SlotOfTicket(s, h, pos);
    LapSameSlot(pos, |s.slots|);
    assert got == h.pushed[pos];
    var s' := HandOver(s, t, pos, pos + |s.slots|, Popped(got));
    assert HistoryOk(s', h') by {
      forall k: nat | k < |h'.consumer| ensures k in h'.popped <==> !Consumes(s', h'.consumer[k], k) {
        assert k != pos ==> Consumes(s', h.consumer[k], k) == Consumes(s, h.consumer[k], k);
      }
    }
    HandOverKeepsInv(s, h, t, pos, pos + |s.slots|, Popped(got), h');
  }

  lemma PushStepKeepsInv(s: State, h: History, e: Event)
    requires Inv(s, h) && e.tid < |s.threads|
    requires var l := s.threads[e.tid]; l.PushLook? || l.PushCas? || l.PushReload? || l.PushCopy?
    ensures Inv(Step(s, e), Record(s, h, e))
  {
    var t := e.tid;
    assert ThreadOk(s, h, t);
    match (s.threads[t], e.action)
    case (PushLook(val, pos), Go) =>
      AheadMeansClaimed(s, h, pos);
      LocalStep(s, h, t, PushBranch(val, pos, s.At(pos).turn));
    case (PushCas(val, pos), Go) =>
      if pos == s.head { PushWins(s, h, t, val); } else { LocalStep(s, h, t, PushLook(val, s.head)); }
    case (PushCas(val, _), CasFails) => LocalStep(s, h, t, PushLook(val, s.head));
    case (PushReload(val, _), Go) => LocalStep(s, h, t, PushLook(val, s.head));
    case (PushCopy(val, pos, done), Go) =>
      if done < s.size { PushCopiesByte(s, h, t); } else { PushPublishes(s, h, t); }
    case _ =>
  }

  lemma PopStepKeepsInv(s: State, h: History, e: Event)
    requires Inv(s, h) && e.tid < |s.threads|
    requires var l := s.threads[e.tid]; l.PopLook? || l.PopCas? || l.PopReload? || l.PopCopy?
    ensures Inv(Step(s, e), Record(s, h, e))
  {
    hide HistoryOk;
    var t := e.tid;
    assert ThreadOk(s, h, t);
    match (s.threads[t], e.action)
    case (PopLook(pos), Go) =>
      AheadMeansClaimed(s, h, pos);
      LocalStep(s, h, t, PopBranch(pos, s.At(pos).turn));
    case (PopCas(pos), Go) =>
      if pos == s.tail { PopWins(s, h, t); } else { LocalStep(s, h, t, PopLook(s.tail)); }
    case (PopCas(_), CasFails) => LocalStep(s, h, t, PopLook(s.tail));
    case (PopReload(_), Go) => LocalStep(s, h, t, PopLook(s.tail));
    case (PopCopy(pos, got), Go) =>
      SlotOfTicket(s, h, pos);
      if |got| < s.size { PopCopiesByte(s, h, t); } else { PopReleases(s, h, t); }
    case _ =>
  }

  /** The invariant is inductive: any step of any thread keeps it. */
  lemma StepKeepsInv(s: State, h: History, e: Event)
    requires Inv(s, h)
    ensures Inv(Step(s, e), Record(s, h, e))
  {
    if e.tid < |s.threads| {
      var l := s.threads[e.tid];
      if l.Idle? {
        match e.action
        case StartPush(val) => if |val| == s.size { LocalStep(s, h, e.tid, PushLook(val, s.head)); }
        case StartPop => LocalStep(s, h, e.tid, PopLook(s.tail));
        case _ =>
      } else if l.PushLook? || l.PushCas? || l.PushReload? || l.PushCopy? {
        PushStepKeepsInv(s, h, e);
      } else {
        PopStepKeepsInv(s, h, e);
      }
    }
  }

  lemma {:induction false} RunKeepsInv(s: State, h: History, es: Schedule)
    requires Inv(s, h)
    ensures Inv(Run(s, es), RunHistory(s, h, es))
    decreases |es|
  {
    if es != [] {
      StepKeepsInv(s, h, es[0]);
      RunKeepsInv(Step(s, es[0]), Record(s, h, es[0]), es[1..]);
    }
  }
}
