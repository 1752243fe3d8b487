/**
 The queue against an atomic one: every run, whatever its interleaving, is a
 run of a FIFO of capacity N in which each call takes effect at one instant
 between its invocation and its return.  A return of false comes only while
 the FIFO is full, respectively empty, or while some pop, respectively some
 push, has taken effect and not yet returned (`QueueTheorems.FullExactly` and
 `QueueTheorems.EmptyExactly` give the exact tickets).
 */
module QueueLinearizable {
  import opened QueueMachine
  import opened QueueInvariant
  import opened QueueSteps
  import opened QueueTheorems

  /** Visible events: invocations, returns and the two instants of effect. */
  datatype Visible =
    | CallPush(tid: nat, val: Element)
    | Enqueue(tid: nat)
    | ReturnPush(tid: nat, ok: bool)
    | CallPop(tid: nat)
    | Dequeue(tid: nat)
    | ReturnPop(tid: nat, out: Outcome)

  datatype Status = Ready | PushWaits(val: Element) | PushDone | PopWaits | PopHolds(val: Element)

  /** The atomic queue and what each of its clients is doing. */
  datatype Fifo = Fifo(queue: seq<Element>, clients: seq<Status>)

  datatype Verdict = Accepted(fifo: Fifo) | Refused

  function Become(f: Fifo, tid: nat, st: Status): Fifo
    requires tid < |f.clients|
  {
    f.(clients := f.clients[tid := st])
  }

  /** A push may be refused when the queue is full, or while a pop holds an element it has not returned. */
  predicate MayRefusePush(f: Fifo, n: nat) {
    |f.queue| == n || exists c :: c in f.clients && c.PopHolds?
  }

  /** A pop may be refused when the queue is empty, or while a push has taken effect but not returned. */
  predicate MayRefusePop(f: Fifo) {
    f.queue == [] || exists c :: c in f.clients && c.PushDone?
  }

  /** One visible event of an atomic FIFO that holds at most n elements. */
  function Atomic(f: Fifo, n: nat, v: Visible): Verdict {
    if v.tid >= |f.clients| then Refused else
    match (f.clients[v.tid], v)
    case (Ready, CallPush(t, val)) => Accepted(Become(f, t, PushWaits(val)))
    case (PushWaits(val), Enqueue(t)) =>
      if |f.queue| < n then Accepted(Become(f.(queue := f.queue + [val]), t, PushDone)) else Refused
    case (PushDone, ReturnPush(t, ok)) => if ok then Accepted(Become(f, t, Ready)) else Refused
    case (PushWaits(_), ReturnPush(t, ok)) =>
      if !ok && MayRefusePush(f, n) then Accepted(Become(f, t, Ready)) else Refused
    case (Ready, CallPop(t)) => Accepted(Become(f, t, PopWaits))
    case (PopWaits, Dequeue(t)) =>
      if |f.queue| > 0 then Accepted(Become(f.(queue := f.queue[1..]), t, PopHolds(f.queue[0]))) else Refused
    case (PopHolds(val), ReturnPop(t, out)) => if out == Popped(val) then Accepted(Become(f, t, Ready)) else Refused
    case (PopWaits, ReturnPop(t, out)) =>
      if out == Empty && MayRefusePop(f) then Accepted(Become(f, t, Ready)) else Refused
    case _ => Refused
  }

  function AtomicRun(f: Fifo, n: nat, trace: seq<Visible>): Verdict
    decreases |trace|
  {
    if trace == [] then Accepted(f) else
    match Atomic(f, n, trace[0])
    case Accepted(f') => AtomicRun(f', n, trace[1..])
    case Refused => Refused
  }

  /** What a step of the real queue shows, read off the program counters alone. */
  function Shows(s: State, e: Event): seq<Visible>
    requires |s.slots| > 0
  {
    if e.tid >= |s.threads| then [] else
    match (s.threads[e.tid], Step(s, e).threads[e.tid])
    case (Idle(_), PushLook(val, _)) => [CallPush(e.tid, val)]
    case (PushLook(_, _), Idle(_)) => [ReturnPush(e.tid, false)]
    case (PushCas(_, _), PushCopy(_, _, _)) => [Enqueue(e.tid)]
    case (PushCopy(_, _, _), Idle(_)) => [ReturnPush(e.tid, true)]
    case (Idle(_), PopLook(_)) => [CallPop(e.tid)]
    case (PopLook(_), Idle(out)) => [ReturnPop(e.tid, out)]
    case (PopCas(_), PopCopy(_, _)) => [Dequeue(e.tid)]
    case (PopCopy(_, _), Idle(out)) => [ReturnPop(e.tid, out)]
    case _ => []
  }

  function Trace(s: State, es: Schedule): seq<Visible>
    requires |s.slots| > 0
    decreases |es|
  {
    if es == [] then [] else Shows(s, es[0]) + Trace(Step(s, es[0]), es[1..])
  }

  /** The atomic queue that a state stands for. */
  ghost function Abstract(s: State, h: History): Fifo
    requires Inv(s, h)
  {
    Fifo(h.pushed[s.tail..s.head], seq(|s.threads|, t requires 0 <= t < |s.threads| => Client(s, h, t)))
  }

  ghost function Client(s: State, h: History, t: nat): Status
    requires Inv(s, h) && t < |s.threads|
  {
    match s.threads[t]
    case Idle(_) => Ready
    case PushLook(val, _) => PushWaits(val)
    case PushCas(val, _) => PushWaits(val)
    case PushReload(val, _) => PushWaits(val)
    case PushCopy(_, _, _) => PushDone
    case PopLook(_) => PopWaits
    case PopCas(_) => PopWaits
    case PopReload(_) => PopWaits
    case PopCopy(pos, _) => assert ThreadOk(s, h, t); PopHolds(h.pushed[pos])
  }

  ghost function StepQueue(s: State, h: History, e: Event): seq<Element>
    requires Inv(s, h)
  {
    var queue := h.pushed[s.tail..s.head];
    if Shows(s, e) == [Enqueue(e.tid)] then queue + [s.threads[e.tid].val]
    else if Shows(s, e) == [Dequeue(e.tid)] && queue != [] then queue[1..]
    else queue
  }

  lemma SliceOfAppend(a: seq<Element>, x: Element, i: nat)
    requires i <= |a|
    ensures (a + [x])[i..|a| + 1] == a[i..] + [x]
  {
  }

  /** What a step does to the counters and the pushed elements. */
  lemma EffectOfStep(s: State, h: History, e: Event)
    requires |s.slots| > 0
    ensures |Step(s, e).slots| == |s.slots| && |Step(s, e).threads| == |s.threads|
    ensures Shows(s, e) == [Enqueue(e.tid)] ==> e.tid < |s.threads| && s.threads[e.tid].PushCas?
    ensures var s', h' := Step(s, e), Record(s, h, e);
            if Shows(s, e) == [Enqueue(e.tid)] then
              s'.head == s.head + 1 && s'.tail == s.tail && h'.pushed == h.pushed + [s.threads[e.tid].val]
            else if Shows(s, e) == [Dequeue(e.tid)] then
              s'.head == s.head && s'.tail == s.tail + 1 && h'.pushed == h.pushed
            else s'.head == s.head && s'.tail == s.tail && h'.pushed == h.pushed
  {
  }

  /** The queue part: only the two winning compare-and-swaps change it. */
  lemma QueueAfterStep(s: State, h: History, e: Event)
    requires Inv(s, h)
    ensures Inv(Step(s, e), Record(s, h, e))
    ensures Abstract(Step(s, e), Record(s, h, e)).queue == StepQueue(s, h, e)
    ensures Shows(s, e) == [Enqueue(e.tid)] ==> s.head < s.tail + |s.slots|
    ensures Shows(s, e) == [Dequeue(e.tid)] ==> s.tail < s.head
  {
    hide Step, Record, Shows, SlotOk, ThreadOk;
    StepKeepsInv(s, h, e);
    EffectOfStep(s, h, e);
    var s' := Step(s, e);
    assert |h.pushed| == s.head && s.tail <= s.head && s'.tail <= s'.head <= s'.tail + |s.slots|;
    hide Inv;
    if Shows(s, e) == [Enqueue(e.tid)] {
      SliceOfAppend(h.pushed, s.threads[e.tid].val, s.tail);
      assert h.pushed[s.tail..s.head] == h.pushed[s.tail..];
    } else if Shows(s, e) == [Dequeue(e.tid)] {
      assert h.pushed[s.tail + 1..s.head] == h.pushed[s.tail..s.head][1..];
    }
  }

  lemma OtherClients(s: State, h: History, e: Event, u: nat)
    requires Inv(s, h) && Inv(Step(s, e), Record(s, h, e))
    requires u < |s.threads| && u != e.tid
    ensures Client(Step(s, e), Record(s, h, e), u) == Client(s, h, u)
  {
    assert ThreadOk(s, h, u);
    hide Inv;
  }

  /** The stepping thread's status moves as the atomic queue says. */
  ghost predicate MovesAsShown(s: State, h: History, e: Event)
    requires Inv(s, h) && Inv(Step(s, e), Record(s, h, e)) && e.tid < |s.threads|
  {
    var c, c' := Client(s, h, e.tid), Client(Step(s, e), Record(s, h, e), e.tid);
    var shown := Shows(s, e);
    if shown == [] then c' == c
    else |shown| == 1 && shown[0].tid == e.tid && match shown[0]
      case CallPush(_, val) => c == Ready && c' == PushWaits(val)
      case Enqueue(_) => c == PushWaits(s.threads[e.tid].val) && c' == PushDone
      case ReturnPush(_, ok) => (if ok then c == PushDone else c.PushWaits?) && c' == Ready
      case CallPop(_) => c == Ready && c' == PopWaits
      case Dequeue(_) => c == PopWaits && s.tail < |h.pushed| && c' == PopHolds(h.pushed[s.tail])
      case ReturnPop(_, out) =>
        (if out == Empty then c == PopWaits else out.Popped? && c == PopHolds(out.val)) && c' == Ready
  }

  lemma OwnClient(s: State, h: History, e: Event)
    requires Inv(s, h) && Inv(Step(s, e), Record(s, h, e)) && e.tid < |s.threads|
    ensures MovesAsShown(s, h, e)
  {
    var l := s.threads[e.tid];
    if l.PushCopy? || l.PopCopy? {
      CopyingClient(s, h, e);
    } else if l.PopLook? || l.PopCas? || l.PopReload? {
      PoppingClient(s, h, e);
    } else {
      assert ThreadOk(s, h, e.tid);
      hide Inv;
    }
  }

  lemma CopyingClient(s: State, h: History, e: Event)
    requires Inv(s, h) && Inv(Step(s, e), Record(s, h, e)) && e.tid < |s.threads|
    requires s.threads[e.tid].PushCopy? || s.threads[e.tid].PopCopy?
    ensures MovesAsShown(s, h, e)
  {
    assert ThreadOk(s, h, e.tid);
    SlotOfTicket(s, h, s.threads[e.tid].pos);
    hide Inv;
  }

  lemma PoppingClient(s: State, h: History, e: Event)
    requires Inv(s, h) && Inv(Step(s, e), Record(s, h, e)) && e.tid < |s.threads|
    requires s.threads[e.tid].PopLook? || s.threads[e.tid].PopCas? || s.threads[e.tid].PopReload?
    ensures MovesAsShown(s, h, e)
  {
    assert ThreadOk(s, h, e.tid) && |h.pushed| == s.head;
    assert Step(s, e).tail <= Step(s, e).head;
    hide Inv;
  }

  /** false from try_push: the FIFO is full, or a pop is between its effect and its return. */
  lemma RefusedPushIsAllowed(s: State, h: History, t: nat)
    requires Inv(s, h) && t < |s.threads| && Shows(s, Event(t, Go)) == [ReturnPush(t, false)]
    ensures MayRefusePush(Abstract(s, h), |s.slots|)
  {
    FullExactly(s, h, t);
    var k := s.head - |s.slots|;
    if k < s.tail {
      assert Consumes(s, h.consumer[k], k);
      HasClient(s, h, h.consumer[k]);
    }
  }

  /** false from try_pop: the FIFO is empty, or a push is between its effect and its return. */
  lemma RefusedPopIsAllowed(s: State, h: History, t: nat)
    requires Inv(s, h) && t < |s.threads| && Shows(s, Event(t, Go)) == [ReturnPop(t, Empty)]
    requires s.threads[t].PopLook?
    ensures MayRefusePop(Abstract(s, h))
  {
    EmptyExactly(s, h, t);
    if s.tail < s.head {
      assert Produces(s, h.producer[s.tail], s.tail);
      HasClient(s, h, h.producer[s.tail]);
    }
  }

  lemma HasClient(s: State, h: History, t: nat)
    requires Inv(s, h) && t < |s.threads|
    ensures Client(s, h, t) in Abstract(s, h).clients
  {
    assert Abstract(s, h).clients[t] == Client(s, h, t);
  }

  /** A return of false comes only from the branch on a loaded sequence number. */
  lemma OnlyGoReturnsFalse(s: State, e: Event)
    requires |s.slots| > 0 && e.tid < |s.threads| && e.action != Go
    ensures Shows(s, e) == [] || Shows(s, e)[0].CallPush? || Shows(s, e)[0].CallPop?
  {
  }

  lemma RefusalIsAllowed(s: State, h: History, e: Event)
    requires Inv(s, h) && e.tid < |s.threads|
    ensures Shows(s, e) == [ReturnPush(e.tid, false)] ==> MayRefusePush(Abstract(s, h), |s.slots|)
    ensures Shows(s, e) == [ReturnPop(e.tid, Empty)] ==> MayRefusePop(Abstract(s, h))
  {
    if e.action != Go {
      OnlyGoReturnsFalse(s, e);
    } else {
      hide Inv;
      if s.threads[e.tid].PushLook? && Shows(s, e) == [ReturnPush(e.tid, false)] {
        RefusedPushIsAllowed(s, h, e.tid);
      } else if s.threads[e.tid].PopLook? && Shows(s, e) == [ReturnPop(e.tid, Empty)] {
        RefusedPopIsAllowed(s, h, e.tid);
      }
    }
  }

  /** One step of the real queue is one event, or none, of the atomic queue. */
  lemma StepIsAtomic(s: State, h: History, e: Event)
    requires Inv(s, h)
    ensures Inv(Step(s, e), Record(s, h, e))
    ensures AtomicRun(Abstract(s, h), |s.slots|, Shows(s, e)) == Accepted(Abstract(Step(s, e), Record(s, h, e)))
  {
    assert |s.slots| >= 2;
    hide Inv, Step, Record, Client;
    EffectOfStep(s, h, e);
    QueueAfterStep(s, h, e);
    var f, f' := Abstract(s, h), Abstract(Step(s, e), Record(s, h, e));
    forall u: nat | u < |s.threads| && u != e.tid ensures f'.clients[u] == f.clients[u] {
      OtherClients(s, h, e, u);
    }
    if e.tid < |s.threads| {
      OwnClient(s, h, e);
      RefusalIsAllowed(s, h, e);
      hide MayRefusePush, MayRefusePop;
      assert f'.clients == f.clients[e.tid := f'.clients[e.tid]];
      OneEvent(f, f', |s.slots|, e.tid, Shows(s, e));
    } else {
      assert f'.clients == f.clients;
    }
  }

  lemma OneEvent(f: Fifo, f': Fifo, n: nat, tid: nat, shown: seq<Visible>)
    requires tid < |f.clients| && |f'.clients| == |f.clients|
    requires f'.clients == f.clients[tid := f'.clients[tid]]
    requires |shown| <= 1
    requires if shown == [] then f' == f else Atomic(f, n, shown[0]) == Accepted(f')
    ensures AtomicRun(f, n, shown) == Accepted(f')
  {
    if shown != [] { assert shown[1..] == []; }
  }

  lemma {:induction false} AtomicRunSplit(f: Fifo, n: nat, a: seq<Visible>, b: seq<Visible>)
    requires AtomicRun(f, n, a).Accepted?
    ensures AtomicRun(f, n, a + b) == AtomicRun(AtomicRun(f, n, a).fifo, n, b)
    decreases |a|
  {
    if a == [] {
      assert a + b == b;
    } else {
      assert (a + b)[1..] == a[1..] + b;
      AtomicRunSplit(Atomic(f, n, a[0]).fifo, n, a[1..], b);
    }
  }

  lemma {:induction false} RunIsAtomic(s: State, h: History, es: Schedule)
    requires Inv(s, h)
    ensures Inv(Run(s, es), RunHistory(s, h, es))
    ensures AtomicRun(Abstract(s, h), |s.slots|, Trace(s, es)) == Accepted(Abstract(Run(s, es), RunHistory(s, h, es)))
    decreases |es|
  {
    RunKeepsInv(s, h, es);
    if es != [] {
      StepIsAtomic(s, h, es[0]);
      RunIsAtomic(Step(s, es[0]), Record(s, h, es[0]), es[1..]);
      AtomicRunSplit(Abstract(s, h), |s.slots|, Shows(s, es[0]), Trace(Step(s, es[0]), es[1..]));
    }
  }

  function EmptyFifo(clients: nat): Fifo {
    Fifo([], seq(clients, _ => Ready))
  }

  /** Linearizability of every run of any number of threads from the constructor's state. */
  lemma QueueIsLinearizable(s: State, es: Schedule)
    requires Init(s) && |s.slots| >= 2
    ensures var v := AtomicRun(EmptyFifo(|s.threads|), |s.slots|, Trace(s, es));
            && v.Accepted?
            && |v.fifo.queue| == Run(s, es).head - Run(s, es).tail
  {
    AbstractOfInit(s);
    hide Init, AtomicRun, Trace, RunHistory, Run, Atomic;
    RunIsAtomic(s, NoHistory, es);
    RunFromInit(s, es);
  }

  lemma AbstractOfInit(s: State)
    requires Init(s) && |s.slots| >= 2
    ensures Inv(s, NoHistory) && Abstract(s, NoHistory) == EmptyFifo(|s.threads|)
  {
    InitEstablishesInv(s);
  }
}
