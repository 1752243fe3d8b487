/**
 The bounded multi-producer multi-consumer queue as a step machine.

 One step is one access to shared memory: a load of `head_` or `tail_`, a load
 of a slot's sequence number, a compare-and-swap, the copy of one byte of an
 element, or the store that hands the slot on.  Any number of threads
 interleave these steps in any order; a compare-and-swap may fail spuriously.
 Tickets are unbounded here; module `QueueWord64` replaces them by 64-bit words.
 */
module QueueMachine {

  newtype Byte = x: int | 0 <= x < 256

  /** An element, as the bytes that memcpy moves. */
  type Element = seq<Byte>

  datatype Slot = Slot(data: Element, turn: nat)

  /** What the last call of a thread returned. */
  datatype Outcome = NoCall | Pushed | Full | Popped(val: Element) | Empty

  /** Program counter and locals of one thread. */
  datatype Local =
    | Idle(last: Outcome)
    | PushLook(val: Element, pos: nat)              // about to load the slot's sequence number
    | PushCas(val: Element, pos: nat)               // it equalled pos
    | PushReload(val: Element, pos: nat)            // it was ahead of pos
    | PushCopy(val: Element, pos: nat, done: nat)   // ticket won, `done` bytes written
    | PopLook(pos: nat)
    | PopCas(pos: nat)
    | PopReload(pos: nat)
    | PopCopy(pos: nat, got: Element)               // ticket won, `got` read so far

  /** `size` is the number of bytes of an element. */
  datatype State = State(size: nat, slots: seq<Slot>, head: nat, tail: nat, threads: seq<Local>)
  {
    ghost predicate WellFormed() {
      && |slots| > 0
      && (forall i :: 0 <= i < |slots| ==> |slots[i].data| == size)
    }

    /** The slot that a ticket uses. */
    function At(pos: nat): Slot
      requires |slots| > 0
    {
      slots[pos % |slots|]
    }
  }

  /** The scheduler's choice for one thread; `CasFails` is a spurious failure. */
  datatype Action = StartPush(val: Element) | StartPop | Go | CasFails

  datatype Event = Event(tid: nat, action: Action)

  type Schedule = seq<Event>

  function WithThread(s: State, tid: nat, l: Local): State
    requires tid < |s.threads|
  {
    s.(threads := s.threads[tid := l])
  }

  function WithSlot(s: State, pos: nat, c: Slot): State
    requires |s.slots| > 0
  {
    s.(slots := s.slots[pos % |s.slots| := c])
  }

  /** Where a push goes after comparing a loaded sequence number with pos. */
  function PushBranch(val: Element, pos: nat, turn: nat): Local {
    if turn == pos then PushCas(val, pos)
    else if turn < pos then Idle(Full)
    else PushReload(val, pos)
  }

  function PopBranch(pos: nat, turn: nat): Local {
    if turn == pos + 1 then PopCas(pos)
    else if turn < pos + 1 then Idle(Empty)
    else PopReload(pos)
  }

  /** One step; an event that its thread cannot take changes nothing. */
  function Step(s: State, e: Event): State
    requires |s.slots| > 0
  {
    if e.tid >= |s.threads| then s else
    match (s.threads[e.tid], e.action)
    case (Idle(_), StartPush(val)) =>
      if |val| == s.size then WithThread(s, e.tid, PushLook(val, s.head)) else s
    case (Idle(_), StartPop) =>
      WithThread(s, e.tid, PopLook(s.tail))
    case (PushLook(val, pos), Go) =>
      WithThread(s, e.tid, PushBranch(val, pos, s.At(pos).turn))
    case (PushCas(val, pos), Go) =>
      if s.head == pos then WithThread(s.(head := pos + 1), e.tid, PushCopy(val, pos, 0))
      else WithThread(s, e.tid, PushLook(val, s.head))
    case (PushCas(val, pos), CasFails) =>
      WithThread(s, e.tid, PushLook(val, s.head))
    case (PushReload(val, pos), Go) =>
      WithThread(s, e.tid, PushLook(val, s.head))
    case (PushCopy(val, pos, done), Go) =>
      var c := s.At(pos);
      if done < |val| && done < |c.data| then
        WithThread(WithSlot(s, pos, c.(data := c.data[done := val[done]])), e.tid, PushCopy(val, pos, done + 1))
      else
        WithThread(WithSlot(s, pos, c.(turn := pos + 1)), e.tid, Idle(Pushed))
    case (PopLook(pos), Go) =>
      WithThread(s, e.tid, PopBranch(pos, s.At(pos).turn))
    case (PopCas(pos), Go) =>
      if s.tail == pos then WithThread(s.(tail := pos + 1), e.tid, PopCopy(pos, []))
      else WithThread(s, e.tid, PopLook(s.tail))
    case (PopCas(pos), CasFails) =>
      WithThread(s, e.tid, PopLook(s.tail))
    case (PopReload(pos), Go) =>
      WithThread(s, e.tid, PopLook(s.tail))
    case (PopCopy(pos, got), Go) =>
      var c := s.At(pos);
      if |got| < |c.data| then
        WithThread(s, e.tid, PopCopy(pos, got + [c.data[|got|]]))
      else
        WithThread(WithSlot(s, pos, c.(turn := pos + |s.slots|)), e.tid, Idle(Popped(got)))
    case _ => s
  }

  /** The state after a whole schedule. */
  function Run(s: State, es: Schedule): (r: State)
    requires |s.slots| > 0
    ensures |r.slots| == |s.slots| && |r.threads| == |s.threads| && r.size == s.size
    decreases |es|
  {
    if es == [] then s else Run(Step(s, es[0]), es[1..])
  }

  /** The constructor: slot i carries sequence number i; element bytes are arbitrary. */
  ghost predicate Init(s: State) {
    && s.WellFormed()
    && s.head == 0 && s.tail == 0
    && (forall i :: 0 <= i < |s.slots| ==> s.slots[i].turn == i)
    && (forall t :: 0 <= t < |s.threads| ==> s.threads[t] == Idle(NoCall))
  }

  lemma {:induction false} RunSplit(s: State, a: Schedule, b: Schedule)
    requires |s.slots| > 0
    ensures Run(s, a + b) == Run(Run(s, a), b)
    decreases |a|
  {
    if a == [] {
      assert a + b == b;
    } else {
      assert (a + b)[1..] == a[1..] + b;
      RunSplit(Step(s, a[0]), a[1..], b);
    }
  }

  // ---------------------------------------------------------------------
  // History: who owned each ticket, and which element went with it.
  // ---------------------------------------------------------------------

  /**
   `pushed[t]`, `producer[t]` and `consumer[t]` belong to ticket t and are
   recorded by the winning compare-and-swap; `popped[t]` by the pop's return.
   */
  datatype History = History(
    pushed: seq<Element>, producer: seq<nat>, consumer: seq<nat>, popped: map<nat, Element>)

  const NoHistory := History([], [], [], map[])

  /** What one step adds to the history. */
  function Record(s: State, h: History, e: Event): History
    requires |s.slots| > 0
  {
    if e.tid >= |s.threads| || e.action != Go then h else
    match s.threads[e.tid]
    case PushCas(val, pos) =>
      if s.head == pos then h.(pushed := h.pushed + [val], producer := h.producer + [e.tid]) else h
    case PopCas(pos) =>
      if s.tail == pos then h.(consumer := h.consumer + [e.tid]) else h
    case PopCopy(pos, got) =>
      if |got| < |s.At(pos).data| then h else h.(popped := h.popped[pos := got])
    case _ => h
  }

  function RunHistory(s: State, h: History, es: Schedule): History
    requires |s.slots| > 0
    decreases |es|
  {
    if es == [] then h else RunHistory(Step(s, es[0]), Record(s, h, es[0]), es[1..])
  }
}
