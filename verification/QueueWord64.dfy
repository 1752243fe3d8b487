/**
 The queue as it is compiled: head, tail, sequence numbers and local tickets
 are 64-bit words that wrap, the slot is picked with a mask, and the branch is
 taken on a two's complement difference.  Every run agrees with the unbounded
 machine as long as no thread sleeps through about 2^63 tickets.
 */
module QueueWord64 {
  import opened ModArith
  import opened Bits
  import opened QueueMachine
  import opened QueueInvariant
  import opened QueueProgress
  import opened QueueSteps

  function Wrap(x: nat): nat { x % TWO_64 }

  function WrapLocal(l: Local): Local {
    match l
    case Idle(_) => l
    case PushLook(val, pos) => PushLook(val, Wrap(pos))
    case PushCas(val, pos) => PushCas(val, Wrap(pos))
    case PushReload(val, pos) => PushReload(val, Wrap(pos))
    case PushCopy(val, pos, done) => PushCopy(val, Wrap(pos), done)
    case PopLook(pos) => PopLook(Wrap(pos))
    case PopCas(pos) => PopCas(Wrap(pos))
    case PopReload(pos) => PopReload(Wrap(pos))
    case PopCopy(pos, got) => PopCopy(Wrap(pos), got)
  }

  function WrapSlot(c: Slot): Slot { c.(turn := Wrap(c.turn)) }

  /** The 64-bit image of an unbounded state. */
  function WrapState(s: State): State {
    State(s.size, seq(|s.slots|, i requires 0 <= i < |s.slots| => WrapSlot(s.slots[i])),
          Wrap(s.head), Wrap(s.tail),
          seq(|s.threads|, t requires 0 <= t < |s.threads| => WrapLocal(s.threads[t])))
  }

  /** pos & (N - 1); a word beyond the array, which a capacity that is no power of two could give, is cut off. */
  function MaskIndex(s: State, pos: nat): (i: nat)
    requires |s.slots| > 0
    ensures i < |s.slots|
  {
    var i := BitAnd(pos, |s.slots| - 1);
    if i < |s.slots| then i else 0
  }

  function PushBranch64(val: Element, pos: nat, turn: nat): Local {
    var diff := WordDiff(Wrap(turn), Wrap(pos));
    if diff == 0 then PushCas(val, pos) else if diff < 0 then Idle(Full) else PushReload(val, pos)
  }

  function PopBranch64(pos: nat, turn: nat): Local {
    var diff := WordDiff(Wrap(turn), Wrap(pos + 1));
    if diff == 0 then PopCas(pos) else if diff < 0 then Idle(Empty) else PopReload(pos)
  }

  /** One step on 64-bit words. */
  function Step64(s: State, e: Event): State
    requires |s.slots| > 0
  {
    if e.tid >= |s.threads| then s else
    match (s.threads[e.tid], e.action)
    case (Idle(_), StartPush(val)) =>
      if |val| == s.size then WithThread(s, e.tid, PushLook(val, s.head)) else s
    case (Idle(_), StartPop) => WithThread(s, e.tid, PopLook(s.tail))
    case (PushLook(val, pos), Go) =>
      WithThread(s, e.tid, PushBranch64(val, pos, s.slots[MaskIndex(s, pos)].turn))
    case (PushCas(val, pos), Go) =>
      if s.head == pos then WithThread(s.(head := Wrap(pos + 1)), e.tid, PushCopy(val, pos, 0))
      else WithThread(s, e.tid, PushLook(val, s.head))
    case (PushCas(val, pos), CasFails) => WithThread(s, e.tid, PushLook(val, s.head))
    case (PushReload(val, pos), Go) => WithThread(s, e.tid, PushLook(val, s.head))
    case (PushCopy(val, pos, done), Go) =>
      var i := MaskIndex(s, pos);
      var c := s.slots[i];
      if done < |val| && done < |c.data| then
        WithThread(s.(slots := s.slots[i := c.(data := c.data[done := val[done]])]), e.tid,
          PushCopy(val, pos, done + 1))
      else
        WithThread(s.(slots := s.slots[i := c.(turn := Wrap(pos + 1))]), e.tid, Idle(Pushed))
    case (PopLook(pos), Go) =>
      WithThread(s, e.tid, PopBranch64(pos, s.slots[MaskIndex(s, pos)].turn))
    case (PopCas(pos), Go) =>
      if s.tail == pos then WithThread(s.(tail := Wrap(pos + 1)), e.tid, PopCopy(pos, []))
      else WithThread(s, e.tid, PopLook(s.tail))
    case (PopCas(pos), CasFails) => WithThread(s, e.tid, PopLook(s.tail))
    case (PopReload(pos), Go) => WithThread(s, e.tid, PopLook(s.tail))
    case (PopCopy(pos, got), Go) =>
      var i := MaskIndex(s, pos);
      var c := s.slots[i];
      if |got| < |c.data| then WithThread(s, e.tid, PopCopy(pos, got + [c.data[|got|]]))
      else WithThread(s.(slots := s.slots[i := c.(turn := Wrap(pos + |s.slots|))]), e.tid, Idle(Popped(got)))
    case _ => s
  }

  function Run64(s: State, es: Schedule): State
    requires |s.slots| > 0
    decreases |es|
  {
    if es == [] then s else Run64(Step64(s, es[0]), es[1..])
  }

  /** No thread inside a retry loop holds a ticket 2^63 - N or more behind. */
  ghost predicate NobodyLags(s: State) {
    forall t: nat :: t < |s.threads| ==>
      match s.threads[t]
      case PushLook(_, pos) => s.head - pos < TWO_63 - |s.slots|
      case PushCas(_, pos) => s.head - pos < TWO_63 - |s.slots|
      case PopLook(pos) => s.tail - pos < TWO_63 - |s.slots|
      case PopCas(pos) => s.tail - pos < TWO_63 - |s.slots|
      case _ => true
  }

  ghost predicate NobodyEverLags(s: State, es: Schedule)
    requires |s.slots| > 0
    decreases |es|
  {
    NobodyLags(s) && (es != [] ==> NobodyEverLags(Step(s, es[0]), es[1..]))
  }

  /** The mask finds the slot of the unbounded ticket, and a wrapped successor is the successor's wrap. */
  lemma MaskFindsSlot(s: State, pos: nat, p: nat)
    requires p <= 62 && |s.slots| == Pow2(p)
    ensures MaskIndex(WrapState(s), Wrap(pos)) == pos % |s.slots|
  {
    MaskIsRemainder(Wrap(pos), p);
    WrapKeepsIndex(pos, p);
  }

  lemma WrapSum(x: nat, d: nat)
    ensures Wrap(Wrap(x) + d) == Wrap(x + d)
    ensures Wrap(Wrap(x)) == Wrap(x)
  {
  }

  /** Equality of words is equality of tickets for a pair less than a wrap apart. */
  lemma WrapInjective(x: nat, y: nat)
    requires x <= y < x + TWO_64
    ensures Wrap(x) == Wrap(y) <==> x == y
  {
    if x < y && Wrap(x) == Wrap(y) {
      LapGap(x, y, TWO_64);
    }
  }

  lemma PushBranchesAgree(s: State, h: History, val: Element, pos: nat)
    requires Inv(s, h) && pos <= s.head && s.head - pos < TWO_63 - |s.slots|
    ensures PushBranch64(val, Wrap(pos), Wrap(s.At(pos).turn)) == WrapLocal(PushBranch(val, pos, s.At(pos).turn))
  {
    var turn := s.At(pos).turn;
    SlotOfTicket(s, h, pos);
    if turn < pos { BehindMeansFull(s, h, pos); }
    assert -TWO_63 <= turn - pos < TWO_63;
    hide Inv;
    WrapSum(pos, 0);
    WrapSum(turn, 0);
    WordDiffIsDifference(turn, pos);
    hide WordDiff;
  }

  lemma PopBranchesAgree(s: State, h: History, pos: nat)
    requires Inv(s, h) && pos <= s.tail && s.tail - pos < TWO_63 - |s.slots|
    ensures PopBranch64(Wrap(pos), Wrap(s.At(pos).turn)) == WrapLocal(PopBranch(pos, s.At(pos).turn))
  {
    var turn := s.At(pos).turn;
    SlotOfTicket(s, h, pos);
    if turn < pos { BehindMeansFull(s, h, pos); }
    assert -TWO_63 <= turn - (pos + 1) < TWO_63;
    hide Inv;
    WrapSum(pos, 1);
    WrapSum(turn, 0);
    WordDiffIsDifference(turn, pos + 1);
    hide WordDiff;
  }

  /** The two branches on words agree with the branches on tickets. */
  lemma BranchesAgree(s: State, h: History, val: Element, pos: nat)
    requires Inv(s, h)
    ensures pos <= s.head && s.head - pos < TWO_63 - |s.slots| ==>
              PushBranch64(val, Wrap(pos), Wrap(s.At(pos).turn)) == WrapLocal(PushBranch(val, pos, s.At(pos).turn))
    ensures pos <= s.tail && s.tail - pos < TWO_63 - |s.slots| ==>
              PopBranch64(Wrap(pos), Wrap(s.At(pos).turn)) == WrapLocal(PopBranch(pos, s.At(pos).turn))
  {
    hide Inv, PushBranch64, PopBranch64;
    if pos <= s.head && s.head - pos < TWO_63 - |s.slots| { PushBranchesAgree(s, h, val, pos); }
    if pos <= s.tail && s.tail - pos < TWO_63 - |s.slots| { PopBranchesAgree(s, h, pos); }
  }

  /** The bound on the lag is the right one: a slot number ahead of pos is recognised exactly below 2^63. */
  lemma BranchAgreesIff(val: Element, pos: nat, turn: nat)
    requires pos <= turn < pos + TWO_64
    ensures PushBranch64(val, Wrap(pos), Wrap(turn)) == WrapLocal(PushBranch(val, pos, turn)) <==> turn - pos < TWO_63
  {
    WrapSum(pos, 0);
    WrapSum(turn, 0);
    if turn - pos < TWO_63 {
      WordDiffIsDifference(turn, pos);
    } else {
      var d := turn - pos;
      DivModUnique(Wrap(turn) - Wrap(pos), TWO_64, pos / TWO_64 - turn / TWO_64, d);
    }
  }

  lemma WrapThread(s: State, t: nat, l: Local)
    requires t < |s.threads|
    ensures WrapState(WithThread(s, t, l)) == WithThread(WrapState(s), t, WrapLocal(l))
  {
    assert WrapState(WithThread(s, t, l)).threads == WithThread(WrapState(s), t, WrapLocal(l)).threads;
  }

  lemma WrapCopyStep(s: State, t: nat, pos: nat, c: Slot, l: Local, p: nat)
    requires |s.slots| == Pow2(p) && p <= 62 && t < |s.threads|
    ensures WrapState(WithThread(WithSlot(s, pos, c), t, l))
            == var w := WrapState(s);
               WithThread(w.(slots := w.slots[MaskIndex(w, Wrap(pos)) := WrapSlot(c)]), t, WrapLocal(l))
  {
    MaskFindsSlot(s, pos, p);
    WrapThread(WithSlot(s, pos, c), t, l);
    var w := WrapState(s);
    assert WrapState(WithSlot(s, pos, c)).slots == w.slots[pos % |s.slots| := WrapSlot(c)];
    assert WrapState(WithSlot(s, pos, c)) == w.(slots := w.slots[pos % |s.slots| := WrapSlot(c)]);
  }

  /** The loads and the branch that follows them. */
  lemma LookStepAgrees(s: State, h: History, e: Event, p: nat)
    requires Inv(s, h) && NobodyLags(s) && p <= 62 && |s.slots| == Pow2(p)
    requires e.tid < |s.threads|
    requires var l := s.threads[e.tid]; l.PushLook? || l.PopLook?
    ensures Step64(WrapState(s), e) == WrapState(Step(s, e))
  {
    var t := e.tid;
    var pos := s.threads[t].pos;
    assert ThreadOk(s, h, t);
    MaskFindsSlot(s, pos, p);
    WrapThread(s, t, Step(s, e).threads[t]);
    BranchesAgree(s, h, if s.threads[t].PushLook? then s.threads[t].val else [], pos);
  }

  /** The compare-and-swap on head, and on tail. */
  lemma PushCasAgrees(s: State, h: History, e: Event)
    requires Inv(s, h) && NobodyLags(s) && e.tid < |s.threads| && s.threads[e.tid].PushCas?
    ensures Step64(WrapState(s), e) == WrapState(Step(s, e))
  {
    var t, pos := e.tid, s.threads[e.tid].pos;
    assert ThreadOk(s, h, t) && s.head - pos < TWO_63 - |s.slots|;
    hide Inv, NobodyLags, ThreadOk, Wrap;
    WrapSum(pos, 1);
    WrapInjective(pos, s.head);
    WrapThread(s, t, Step(s, e).threads[t]);
    WrapThread(s.(head := pos + 1), t, Step(s, e).threads[t]);
  }

  lemma PopCasAgrees(s: State, h: History, e: Event)
    requires Inv(s, h) && NobodyLags(s) && e.tid < |s.threads| && s.threads[e.tid].PopCas?
    ensures Step64(WrapState(s), e) == WrapState(Step(s, e))
  {
    var t, pos := e.tid, s.threads[e.tid].pos;
    assert ThreadOk(s, h, t) && s.tail - pos < TWO_63 - |s.slots|;
    hide Inv, NobodyLags, ThreadOk, Wrap;
    WrapSum(pos, 1);
    WrapInjective(pos, s.tail);
    WrapThread(s, t, Step(s, e).threads[t]);
    WrapThread(s.(tail := pos + 1), t, Step(s, e).threads[t]);
  }

  lemma LoopStepAgrees(s: State, h: History, e: Event, p: nat)
    requires Inv(s, h) && NobodyLags(s) && p <= 62 && |s.slots| == Pow2(p)
    requires e.tid < |s.threads| && !Copying(s.threads[e.tid])
    ensures Step64(WrapState(s), e) == WrapState(Step(s, e))
  {
    var l := s.threads[e.tid];
    if l.PushLook? || l.PopLook? {
      LookStepAgrees(s, h, e, p);
    } else if l.PushCas? {
      PushCasAgrees(s, h, e);
    } else if l.PopCas? {
      PopCasAgrees(s, h, e);
    } else {
      WrapThread(s, e.tid, Step(s, e).threads[e.tid]);
    }
  }

  lemma PushCopyAgrees(s: State, t: nat, p: nat)
    requires p <= 62 && |s.slots| == Pow2(p) && t < |s.threads| && s.threads[t].PushCopy?
    ensures Step64(WrapState(s), Event(t, Go)) == WrapState(Step(s, Event(t, Go)))
  {
    var PushCopy(val, pos, done) := s.threads[t];
    var c := s.At(pos);
    MaskFindsSlot(s, pos, p);
    WrapSum(pos, 1);
    hide MaskIndex, Wrap;
    assert WrapState(s).slots[MaskIndex(WrapState(s), Wrap(pos))] == WrapSlot(c);
    if done < |val| && done < |c.data| {
      WrapCopyStep(s, t, pos, c.(data := c.data[done := val[done]]), PushCopy(val, pos, done + 1), p);
    } else {
      WrapCopyStep(s, t, pos, c.(turn := pos + 1), Idle(Pushed), p);
    }
  }

  lemma PopCopyAgrees(s: State, t: nat, p: nat)
    requires p <= 62 && |s.slots| == Pow2(p) && t < |s.threads| && s.threads[t].PopCopy?
    ensures Step64(WrapState(s), Event(t, Go)) == WrapState(Step(s, Event(t, Go)))
  {
    var PopCopy(pos, got) := s.threads[t];
    var c := s.At(pos);
    MaskFindsSlot(s, pos, p);
    WrapSum(pos, |s.slots|);
    hide MaskIndex, Wrap;
    assert WrapState(s).slots[MaskIndex(WrapState(s), Wrap(pos))] == WrapSlot(c);
    if |got| < |c.data| {
      WrapThread(s, t, PopCopy(pos, got + [c.data[|got|]]));
    } else {
      WrapCopyStep(s, t, pos, c.(turn := pos + |s.slots|), Idle(Popped(got)), p);
    }
  }

  lemma StepAgrees(s: State, h: History, e: Event, p: nat)
    requires Inv(s, h) && NobodyLags(s) && p <= 62 && |s.slots| == Pow2(p)
    ensures Step64(WrapState(s), e) == WrapState(Step(s, e))
  {
    if e.tid < |s.threads| {
      var l := s.threads[e.tid];
      if !Copying(l) {
        LoopStepAgrees(s, h, e, p);
      } else if e.action == Go {
        if l.PushCopy? { PushCopyAgrees(s, e.tid, p); } else { PopCopyAgrees(s, e.tid, p); }
      }
    }
  }

  /** Every run on words is the image of the run on tickets, across any number of wraps. */
  lemma {:induction false} RunAgrees(s: State, h: History, es: Schedule, p: nat)
    requires Inv(s, h) && NobodyEverLags(s, es) && p <= 62 && |s.slots| == Pow2(p)
    ensures Run64(WrapState(s), es) == WrapState(Run(s, es))
    decreases |es|
  {
    if es != [] {
      StepAgrees(s, h, es[0], p);
      StepKeepsInv(s, h, es[0]);
      RunAgrees(Step(s, es[0]), Record(s, h, es[0]), es[1..], p);
    }
  }

  lemma WrapSmall(x: nat)
    requires x < TWO_64
    ensures Wrap(x) == x
  {
  }

  lemma SlotIsItsOwnImage(s: State, h: History, i: nat)
    requires Inv(s, h) && s.head + |s.slots| < TWO_63 && i < |s.slots|
    ensures WrapSlot(s.slots[i]) == s.slots[i]
  {
    assert SlotOk(s, h, i);
    hide Wrap;
    WrapSmall(s.slots[i].turn);
  }

  lemma ThreadIsItsOwnImage(s: State, h: History, t: nat)
    requires Inv(s, h) && s.head + |s.slots| < TWO_63 && t < |s.threads|
    ensures WrapLocal(s.threads[t]) == s.threads[t]
  {
    assert ThreadOk(s, h, t);
    hide Wrap, Inv;
    if !s.threads[t].Idle? { WrapSmall(s.threads[t].pos); }
  }

  /** A state whose numbers are all below 2^64 is its own image. */
  lemma SmallIsItsOwnImage(s: State, h: History)
    requires Inv(s, h) && s.head + |s.slots| < TWO_63
    ensures WrapState(s) == s
  {
    assert s.tail <= s.head;
    hide Wrap, Inv, WrapSlot, WrapLocal;
    WrapSmall(s.head);
    WrapSmall(s.tail);
    var w := WrapState(s);
    forall i: nat | i < |s.slots| ensures w.slots[i] == s.slots[i] {
      SlotIsItsOwnImage(s, h, i);
    }
    forall t: nat | t < |s.threads| ensures w.threads[t] == s.threads[t] {
      ThreadIsItsOwnImage(s, h, t);
    }
    assert w.slots == s.slots && w.threads == s.threads;
  }

  /**
   Within the first 2^63 - N tickets, over every run and with no assumption on
   any thread, the machine on words takes the very steps of the unbounded one.
   */
  lemma {:induction false} EarlyRunsAgree(s: State, h: History, es: Schedule, p: nat)
    requires Inv(s, h) && p <= 62 && |s.slots| == Pow2(p) && Run(s, es).head + |s.slots| < TWO_63
    ensures NobodyEverLags(s, es) && Run64(s, es) == Run(s, es)
    decreases |es|
  {
    CountersOnlyGrow(s, es);
    EarlyTicketsAreSafe(s, h, s.head);
    SmallIsItsOwnImage(s, h);
    if es != [] {
      var t, h' := Step(s, es[0]), Record(s, h, es[0]);
      StepKeepsInv(s, h, es[0]);
      CountersOnlyGrow(t, es[1..]);
      SmallIsItsOwnImage(t, h');
      StepAgrees(s, h, es[0], p);
      hide Step64, Step, Record, Inv;
      EarlyRunsAgree(t, h', es[1..], p);
    }
  }

  /** Until head nears 2^63 nobody can lag and the source's cast-then-subtract is exact at every slot and ticket. */
  lemma EarlyTicketsAreSafe(s: State, h: History, pos: nat)
    requires Inv(s, h) && s.head + |s.slots| < TWO_63 && pos <= s.head
    ensures NobodyLags(s)
    ensures Signed(Wrap(s.At(pos).turn)) - Signed(Wrap(pos)) == s.At(pos).turn - pos
    ensures Signed(Wrap(s.At(pos).turn)) - Signed(Wrap(pos + 1)) == s.At(pos).turn - (pos + 1)
  {
    NobodyLagsEarly(s, h);
    hide Inv, Wrap, Signed;
    TurnIsEarly(s, h, pos);
    EarlyCast(s.At(pos).turn, pos);
    EarlyCast(s.At(pos).turn, pos + 1);
  }

  lemma NobodyLagsEarly(s: State, h: History)
    requires Inv(s, h) && s.head + |s.slots| < TWO_63
    ensures NobodyLags(s)
  {
    assert s.tail <= s.head;
  }

  lemma TurnIsEarly(s: State, h: History, pos: nat)
    requires Inv(s, h) && s.head + |s.slots| < TWO_63
    ensures s.At(pos).turn <= s.head + |s.slots|
  {
    SlotOfTicket(s, h, pos);
  }

  lemma EarlyCast(a: nat, b: nat)
    requires a < TWO_63 && b < TWO_63
    ensures Signed(Wrap(a)) - Signed(Wrap(b)) == a - b
  {
    CastThenSubtract(a, b);
  }
}
