/**
 Progress of the retry loops, the reading of size(), and why one slot is not enough.
 */
module QueueProgress {
  import opened Bits
  import opened ModArith
  import opened QueueMachine
  import opened QueueInvariant
  import opened QueueSteps

  // ---------------------------------------------------------------------
  // Retries are paid for by other threads
  // ---------------------------------------------------------------------

  ghost predicate InPushLoop(l: Local) { l.PushLook? || l.PushCas? || l.PushReload? }
  ghost predicate InPopLoop(l: Local) { l.PopLook? || l.PopCas? || l.PopReload? }

  /** Thread t goes round its loop once more, for a reason other than a spurious failure. */
  function Retry(s: State, e: Event, t: nat): nat {
    if e.tid != t || t >= |s.threads| || e.action != Go then 0 else
    match s.threads[t]
    case PushCas(_, pos) => if s.head != pos then 1 else 0
    case PushReload(_, _) => 1
    case PopCas(pos) => if s.tail != pos then 1 else 0
    case PopReload(_) => 1
    case _ => 0
  }

  function Retries(s: State, es: Schedule, t: nat): nat
    requires |s.slots| > 0
    decreases |es|
  {
    if es == [] then 0 else Retry(s, es[0], t) + Retries(Step(s, es[0]), es[1..], t)
  }

  /** How often threads other than t advanced head. */
  function OthersPushed(s: State, es: Schedule, t: nat): nat
    requires |s.slots| > 0
    decreases |es|
  {
    if es == [] then 0
    else (if es[0].tid != t && Step(s, es[0]).head != s.head then 1 else 0) + OthersPushed(Step(s, es[0]), es[1..], t)
  }

  /** How often threads other than t advanced tail. */
  function OthersPopped(s: State, es: Schedule, t: nat): nat
    requires |s.slots| > 0
    decreases |es|
  {
    if es == [] then 0
    else (if es[0].tid != t && Step(s, es[0]).tail != s.tail then 1 else 0) + OthersPopped(Step(s, es[0]), es[1..], t)
  }

  /** t starts no further call during the schedule. */
  ghost predicate OneCall(es: Schedule, t: nat) {
    forall i :: 0 <= i < |es| && es[i].tid == t ==> es[i].action == Go || es[i].action == CasFails
  }

  /** Outside both loops, and starting no call, a thread never retries. */
  lemma {:induction false} NoRetryOutsideLoops(s: State, es: Schedule, t: nat)
    requires |s.slots| > 0 && t < |s.threads| && OneCall(es, t)
    requires !InPushLoop(s.threads[t]) && !InPopLoop(s.threads[t])
    ensures Retries(s, es, t) == 0
    decreases |es|
  {
    if es != [] {
      assert OneCall(es[1..], t);
      NoRetryOutsideLoops(Step(s, es[0]), es[1..], t);
    }
  }

  /**
   Every retry of a push strictly raises its ticket, so during one call there
   are at most as many as other threads' pushes since that ticket was loaded.
   */
  lemma {:induction false} PushRetriesPaidByOthers(s: State, h: History, es: Schedule, t: nat)
    requires Inv(s, h) && t < |s.threads| && InPushLoop(s.threads[t]) && OneCall(es, t)
    ensures s.threads[t].pos + Retries(s, es, t) <= s.head + OthersPushed(s, es, t)
    decreases |es|
  {
    assert ThreadOk(s, h, t);
    if es != [] {
      var s', h' := Step(s, es[0]), Record(s, h, es[0]);
      StepKeepsInv(s, h, es[0]);
      assert OneCall(es[1..], t);
      PushLoopStep(s, h, es[0], t);
      if InPushLoop(s'.threads[t]) {
        PushRetriesPaidByOthers(s', h', es[1..], t);
      } else {
        NoRetryOutsideLoops(s', es[1..], t);
      }
    }
  }

  lemma PushLoopStep(s: State, h: History, e: Event, t: nat)
    requires Inv(s, h) && t < |s.threads| && InPushLoop(s.threads[t])
    requires e.tid == t ==> e.action == Go || e.action == CasFails
    ensures var s' := Step(s, e);
            && !InPopLoop(s'.threads[t])
            && s.head <= s'.head <= s.head + 1
            && (InPushLoop(s'.threads[t]) ==>
                  && s'.threads[t].pos >= s.threads[t].pos + Retry(s, e, t)
                  && (e.tid == t ==> s'.head == s.head))
            && (!InPushLoop(s'.threads[t]) ==> Retry(s, e, t) == 0)
  {
    assert ThreadOk(s, h, t);
  }

  lemma {:induction false} PopRetriesPaidByOthers(s: State, h: History, es: Schedule, t: nat)
    requires Inv(s, h) && t < |s.threads| && InPopLoop(s.threads[t]) && OneCall(es, t)
    ensures s.threads[t].pos + Retries(s, es, t) <= s.tail + OthersPopped(s, es, t)
    decreases |es|
  {
    assert ThreadOk(s, h, t);
    if es != [] {
      var s', h' := Step(s, es[0]), Record(s, h, es[0]);
      StepKeepsInv(s, h, es[0]);
      assert OneCall(es[1..], t);
      PopLoopStep(s, h, es[0], t);
      if InPopLoop(s'.threads[t]) {
        PopRetriesPaidByOthers(s', h', es[1..], t);
      } else {
        NoRetryOutsideLoops(s', es[1..], t);
      }
    }
  }

  lemma PopLoopStep(s: State, h: History, e: Event, t: nat)
    requires Inv(s, h) && t < |s.threads| && InPopLoop(s.threads[t])
    requires e.tid == t ==> e.action == Go || e.action == CasFails
    ensures var s' := Step(s, e);
            && !InPushLoop(s'.threads[t])
            && s.tail <= s'.tail <= s.tail + 1
            && (InPopLoop(s'.threads[t]) ==>
                  && s'.threads[t].pos >= s.threads[t].pos + Retry(s, e, t)
                  && (e.tid == t ==> s'.tail == s.tail))
            && (!InPopLoop(s'.threads[t]) ==> Retry(s, e, t) == 0)
  {
    assert ThreadOk(s, h, t);
  }

  /**
   One whole call, from its first load: it retries at most as often as other
   threads won a ticket of the same kind meanwhile.
   */
  lemma CallRetriesBounded(s: State, h: History, start: Action, es: Schedule, t: nat)
    requires Inv(s, h) && t < |s.threads| && s.threads[t].Idle? && OneCall(es, t)
    requires start == StartPop || (start.StartPush? && |start.val| == s.size)
    ensures var s' := Step(s, Event(t, start));
            Retries(s', es, t) <= if start.StartPush? then OthersPushed(s', es, t) else OthersPopped(s', es, t)
  {
    StepKeepsInv(s, h, Event(t, start));
    if start.StartPush? {
      PushRetriesPaidByOthers(Step(s, Event(t, start)), h, es, t);
    } else {
      PopRetriesPaidByOthers(Step(s, Event(t, start)), h, es, t);
    }
  }

  // ---------------------------------------------------------------------
  // size(): head is loaded before tail
  // ---------------------------------------------------------------------

  lemma {:induction false} CountersOnlyGrow(s: State, es: Schedule)
    requires |s.slots| > 0
    ensures Run(s, es).head >= s.head && Run(s, es).tail >= s.tail
    decreases |es|
  {
    if es != [] {
      CountersOnlyGrow(Step(s, es[0]), es[1..]);
    }
  }

  /** The value size() returns when `es` runs between its two loads. */
  function SizeReading(s: State, es: Schedule): int
    requires |s.slots| > 0
  {
    (s.head - Run(s, es).tail) % TWO_64
  }

  /**
   size() never over-reports what the queue held, but it wraps to a huge number
   exactly when pops overtook the head it had loaded; undisturbed it is exact.
   */
  lemma SizeReadingMeaning(s: State, h: History, es: Schedule)
    requires Inv(s, h) && |s.slots| < TWO_63
    requires Run(s, es).tail - s.head < TWO_63
    ensures SizeReading(s, es) <= s.head - s.tail <==> Run(s, es).tail <= s.head
    ensures SizeReading(s, es) > |s.slots| <==> Run(s, es).tail > s.head
    ensures es == [] ==> SizeReading(s, es) == s.head - s.tail
  {
    CountersOnlyGrow(s, es);
    var d := s.head - Run(s, es).tail;
    if d >= 0 {
      DivModUnique(d, TWO_64, 0, d);
    } else {
      DivModUnique(d, TWO_64, -1, d + TWO_64);
    }
  }

  // ---------------------------------------------------------------------
  // One slot is not enough
  // ---------------------------------------------------------------------

  /** The steps of a push that meets nobody: invoke, look, win, copy, publish. */
  function PushAlone(t: nat, val: Element): Schedule {
    ClaimAlone(t, val) + seq(|val| + 1, _ => Event(t, Go))
  }

  /** The copy loop of one thread, run alone. */
  lemma {:induction false} CopyAlone(s: State, t: nat, val: Element, pos: nat, done: nat)
    requires s.WellFormed() && t < |s.threads|
    requires |val| == s.size && done <= s.size && s.threads[t] == PushCopy(val, pos, done)
    requires s.At(pos).data[..done] == val[..done]
    ensures Run(s, seq(s.size - done + 1, _ => Event(t, Go)))
            == WithThread(WithSlot(s, pos, Slot(val, pos + 1)), t, Idle(Pushed))
    decreases s.size - done
  {
    var es := seq(s.size - done + 1, _ => Event(t, Go));
    var s' := Step(s, es[0]);
    if done < s.size {
      assert es[1..] == seq(s.size - (done + 1) + 1, _ => Event(t, Go));
      assert s'.At(pos).data[..done + 1] == val[..done + 1];
      CopyAlone(s', t, val, pos, done + 1);
      assert Run(s, es) == WithThread(WithSlot(s, pos, Slot(val, pos + 1)), t, Idle(Pushed));
    } else {
      assert es[1..] == [];
      assert s.At(pos).data == s.At(pos).data[..done] == val;
    }
  }

  /** Invoke, look and win, alone, on the slot numbered for ticket head. */
  function ClaimAlone(t: nat, val: Element): Schedule {
    [Event(t, StartPush(val)), Event(t, Go), Event(t, Go)]
  }

  lemma ClaimAloneRuns(s: State, t: nat, val: Element)
    requires s.WellFormed() && t < |s.threads| && s.threads[t].Idle? && |val| == s.size
    requires s.At(s.head).turn == s.head
    ensures Run(s, ClaimAlone(t, val)) == WithThread(s.(head := s.head + 1), t, PushCopy(val, s.head, 0))
  {
    var a := ClaimAlone(t, val);
    var s1 := WithThread(s, t, PushLook(val, s.head));
    var s2 := WithThread(s1, t, PushCas(val, s.head));
    var s3 := WithThread(s2.(head := s.head + 1), t, PushCopy(val, s.head, 0));
    assert Step(s, a[0]) == s1 && Step(s1, a[1]) == s2 && Step(s2, a[2]) == s3;
    assert a[1..][1..] == [a[2]] && a[1..][1..][1..] == [];
    assert Run(s, a) == Run(s1, a[1..]) == Run(s2, [a[2]]) == s3;
  }

  /** A push alone on the slot numbered for its ticket publishes its element. */
  lemma PushAloneRuns(s: State, t: nat, val: Element)
    requires s.WellFormed() && t < |s.threads| && s.threads[t].Idle? && |val| == s.size
    requires s.At(s.head).turn == s.head
    ensures Run(s, PushAlone(t, val))
            == WithThread(WithSlot(s, s.head, Slot(val, s.head + 1)), t, Idle(Pushed)).(head := s.head + 1)
  {
    ClaimAloneRuns(s, t, val);
    RunSplit(s, ClaimAlone(t, val), seq(|val| + 1, _ => Event(t, Go)));
    CopyAlone(Run(s, ClaimAlone(t, val)), t, val, s.head, 0);
  }

  /** With N = 1, which the static_assert admits, a second push overwrites the first unread element. */
  lemma OneSlotOverwrites(s: State, t: nat, x: Element, y: Element)
    requires Init(s) && |s.slots| == 1 && t < |s.threads| && |x| == |y| == s.size
    ensures var r := Run(s, PushAlone(t, x) + PushAlone(t, y));
            r.head == 2 && r.tail == 0 && r.threads[t] == Idle(Pushed) && r.slots == [Slot(y, 2)]
  {
    assert s.slots[0].turn == 0;
    RunSplit(s, PushAlone(t, x), PushAlone(t, y));
    PushAloneRuns(s, t, x);
    var s1 := Run(s, PushAlone(t, x));
    assert s1.slots == [Slot(x, 1)];
    PushAloneRuns(s1, t, y);
  }

  /** The capacity is respected on every run exactly when there are at least two slots. */
  lemma CapacityHoldsIffTwoSlots(s: State)
    requires Init(s) && |s.threads| > 0
    ensures (forall es: Schedule :: Run(s, es).head - Run(s, es).tail <= |s.slots|) <==> |s.slots| >= 2
  {
    if |s.slots| >= 2 {
      forall es: Schedule ensures Run(s, es).head - Run(s, es).tail <= |s.slots| {
        InitEstablishesInv(s);
        RunKeepsInv(s, NoHistory, es);
      }
    } else {
      var x := seq(s.size, _ => 0 as Byte);
      OneSlotOverwrites(s, 0, x, x);
    }
  }

  // ---------------------------------------------------------------------
  // A stalled producer hides finished pushes
  // ---------------------------------------------------------------------

  /**
   `false` from try_pop is not linearizable: thread 0 stalls after winning
   ticket 0, thread 1 completes a push, and thread 2 is then told the queue is
   empty.  `QueueTheorems.EmptyExactly` says exactly when this happens.
   */
  lemma EmptyBehindFinishedPush(s: State, x: Element, y: Element)
    requires Init(s) && |s.slots| >= 2 && |s.threads| >= 3 && |x| == |y| == s.size
    ensures var r := Run(s, ClaimAlone(0, x) + PushAlone(1, y) + PopLooks(2));
            r.threads[1] == Idle(Pushed) && r.threads[2] == Idle(Empty) && r.head - r.tail == 2
  {
    assert s.slots[0].turn == 0 && s.slots[1].turn == 1;
    ClaimAloneRuns(s, 0, x);
    var s1 := Run(s, ClaimAlone(0, x));
    assert s1.At(1).turn == 1;
    PushAloneRuns(s1, 1, y);
    var s2 := Run(s1, PushAlone(1, y));
    RunSplit(s, ClaimAlone(0, x), PushAlone(1, y));
    RunSplit(s, ClaimAlone(0, x) + PushAlone(1, y), PopLooks(2));
    assert s2.At(0).turn == 0;
    PopLooksRuns(s2, 2);
  }

  /** A pop up to the branch on its first loaded sequence number. */
  function PopLooks(t: nat): Schedule { [Event(t, StartPop), Event(t, Go)] }

  lemma PopLooksRuns(s: State, t: nat)
    requires |s.slots| > 0 && t < |s.threads| && s.threads[t].Idle?
    ensures Run(s, PopLooks(t)) == WithThread(s, t, PopBranch(s.tail, s.At(s.tail).turn))
  {
    var c := PopLooks(t);
    var s1 := WithThread(s, t, PopLook(s.tail));
    assert Step(s, c[0]) == s1 && c[1..] == [c[1]] && c[1..][1..] == [];
    assert Run(s, c) == Run(s1, [c[1]]) == Step(s1, c[1]);
  }
}
