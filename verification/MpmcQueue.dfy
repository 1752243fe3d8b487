/**
 The queue object in place: one array of slots, two counters, and the calls
 try_push, try_pop and size with their loops.  Other threads act between any
 two shared accesses of a call; the caller's schedule says what they do.
 */
module MpmcQueue {
  import opened Bits
  import opened ModArith
  import opened QueueMachine
  import opened QueueInvariant
  import opened QueueSteps
  import opened QueueTheorems
  import opened QueueProgress

  /** What happens before one shared access: other threads' steps, and whether a compare-and-swap fails spuriously. */
  datatype Burst = Burst(others: Schedule, casFails: bool)

  ghost predicate OthersOnly(es: Schedule, me: nat) {
    forall i :: 0 <= i < |es| ==> es[i].tid != me
  }

  ghost predicate WorldOthersOnly(world: seq<Burst>, me: nat) {
    forall i :: 0 <= i < |world| ==> OthersOnly(world[i].others, me)
  }

  lemma {:induction false} RunHistorySplit(s: State, h: History, a: Schedule, b: Schedule)
    requires |s.slots| > 0
    ensures RunHistory(s, h, a + b) == RunHistory(Run(s, a), RunHistory(s, h, a), b)
    decreases |a|
  {
    if a == [] {
      assert a + b == b;
    } else {
      assert (a + b)[1..] == a[1..] + b;
      RunHistorySplit(Step(s, a[0]), Record(s, h, a[0]), a[1..], b);
    }
  }

  lemma RunOneMore(s: State, h: History, es: Schedule, e: Event)
    requires |s.slots| > 0
    ensures Run(s, es + [e]) == Step(Run(s, es), e)
    ensures RunHistory(s, h, es + [e]) == Record(Run(s, es), RunHistory(s, h, es), e)
  {
    RunSplit(s, es, [e]);
    RunHistorySplit(s, h, es, [e]);
    assert [e][1..] == [];
  }

  /** Steps of others leave a thread's own program counter alone; counters and history only grow. */
  lemma {:induction false} OthersKeep(s: State, h: History, es: Schedule, me: nat)
    requires Inv(s, h) && OthersOnly(es, me) && me < |s.threads|
    ensures Run(s, es).threads[me] == s.threads[me]
    ensures s.head <= Run(s, es).head && s.tail <= Run(s, es).tail
    decreases |es|
  {
    if es != [] {
      StepKeepsInv(s, h, es[0]);
      assert OthersOnly(es[1..], me);
      OthersKeep(Step(s, es[0]), Record(s, h, es[0]), es[1..], me);
    }
  }

  /** Nobody but `me` is copying. */
  ghost predicate CalmBut(s: State, me: nat) {
    forall t: nat :: t < |s.threads| && t != me ==> !Copying(s.threads[t])
  }

  lemma LookKeepsCalm(s: State, me: nat)
    requires |s.slots| > 0 && me < |s.threads| && (s.threads[me].PushLook? || s.threads[me].PopLook?)
    ensures CalmBut(Step(s, Event(me, Go)), me) ==> CalmBut(s, me)
  {
    var t := Step(s, Event(me, Go));
    if CalmBut(t, me) {
      forall u: nat | u < |s.threads| && u != me ensures !Copying(s.threads[u]) {
        assert t.threads[u] == s.threads[u];
      }
    }
  }

  /** What a loaded sequence number tells a push. */
  lemma PushLookMeans(s: State, h: History, me: nat, val: Element, pos: nat)
    requires Inv(s, h) && me < |s.threads| && s.threads[me] == PushLook(val, pos)
    ensures s.tail <= s.head == |h.pushed|
    ensures var turn := s.At(pos).turn;
            && (turn < pos ==> s.head >= |s.slots| && s.head - |s.slots| !in h.popped)
            && (turn < pos && CalmBut(Step(s, Event(me, Go)), me) ==> s.head - s.tail == |s.slots|)
            && (turn > pos ==> pos < s.head)
  {
    FullExactly(s, h, me);
    AheadMeansClaimed(s, h, pos);
    LookKeepsCalm(s, me);
    if CalmBut(s, me) { FalseAtRest(s, h, me); }
  }

  /** What a loaded sequence number tells a pop. */
  lemma PopLookMeans(s: State, h: History, me: nat, pos: nat)
    requires Inv(s, h) && me < |s.threads| && s.threads[me] == PopLook(pos)
    ensures s.tail <= s.head == |h.pushed| == |h.producer|
    ensures var turn := s.At(pos).turn;
            && (turn <= pos ==> s.tail == s.head || Produces(s, h.producer[s.tail], s.tail))
            && (turn <= pos && CalmBut(Step(s, Event(me, Go)), me) ==> s.tail == s.head)
            && (turn > pos + 1 ==> pos < s.tail)
  {
    EmptyExactly(s, h, me);
    AheadMeansClaimed(s, h, pos);
    LookKeepsCalm(s, me);
    if CalmBut(s, me) { FalseAtRest(s, h, me); }
  }

  class Queue {
    const slots: array<Slot>
    const threads: array<Local>   // program counter and locals of every thread
    const size: nat               // bytes of an element
    var head: nat
    var tail: nat
    ghost var hist: History       // owner and element of every ticket
    ghost var start: State        // the state the constructor left
    ghost var ran: Schedule       // every step taken since

    ghost function Now(): State
      reads this, slots, threads
    {
      State(size, slots[..], head, tail, threads[..])
    }

    ghost predicate Valid()
      reads this, slots, threads
    {
      && Init(start) && |start.slots| >= 2
      && Now() == Run(start, ran) && hist == RunHistory(start, NoHistory, ran)
      && Inv(Now(), hist)
    }

    /** Since the old state only steps were taken, and at least these. */
    twostate predicate Extended()
      reads this
    {
      start == old(start) && old(ran) <= ran
    }

    /** The elements pushed and not yet claimed by a pop. */
    ghost function Contents(): seq<Element>
      requires Valid()
      reads this, slots, threads
    {
      hist.pushed[tail..head]
    }

    constructor (capacity: nat, elementSize: nat, clients: nat)
      requires capacity >= 1
      ensures capacity >= 2 ==> Valid()
      ensures fresh(slots) && fresh(threads)
      ensures slots.Length == capacity && threads.Length == clients && size == elementSize
      ensures Init(Now()) && hist == NoHistory
    {
      slots := new Slot[capacity](i => Slot([], 0));
      threads := new Local[clients](i => Idle(NoCall));
      size := elementSize;
      head, tail := 0, 0;
      hist := NoHistory;
      new;
      var blank := seq(elementSize, _ => 0 as Byte);
      for i := 0 to capacity
        modifies slots
        invariant forall j :: 0 <= j < i ==> slots[j] == Slot(blank, j)
      {
        slots[i] := Slot(blank, i);
      }
      start, ran := Now(), [];
      if capacity >= 2 { InitEstablishesInv(start); }
    }

    /** Bookkeeping of one step: the run grows by it and the invariant holds after it. */
    ghost method Stepped(s: State, h: History, e: Event)
      requires Init(start) && |start.slots| >= 2 && Inv(s, h)
      requires s == Run(start, ran) && h == RunHistory(start, NoHistory, ran)
      requires Now() == Step(s, e)
      modifies this`hist, this`ran
      ensures Valid() && ran == old(ran) + [e] && hist == Record(s, h, e)
      ensures Now() == old(Now())
    {
      StepKeepsInv(s, h, e);
      RunOneMore(start, NoHistory, ran, e);
      hist, ran := Record(s, h, e), ran + [e];
    }

    // -------------------------------------------------------------------
    // Single shared accesses
    // -------------------------------------------------------------------

    /** head_.load at the start of try_push. */
    method BeginPush(t: nat, val: Element) returns (pos: nat)
      requires Valid() && t < threads.Length && threads[t].Idle? && |val| == size
      modifies this`hist, this`ran, threads
      ensures Valid() && Now() == Step(old(Now()), Event(t, StartPush(val))) && hist == old(hist)
      ensures ran == old(ran) + [Event(t, StartPush(val))]
      ensures threads[t] == PushLook(val, pos) && pos == head
      ensures forall u: nat :: u < threads.Length && u != t ==> threads[u] == old(threads[u])
    {
      ghost var s, h := Now(), hist;
      pos := head;
      threads[t] := PushLook(val, pos);
      Stepped(s, h, Event(t, StartPush(val)));
    }

    method BeginPop(t: nat) returns (pos: nat)
      requires Valid() && t < threads.Length && threads[t].Idle?
      modifies this`hist, this`ran, threads
      ensures Valid() && Now() == Step(old(Now()), Event(t, StartPop)) && hist == old(hist)
      ensures ran == old(ran) + [Event(t, StartPop)]
      ensures threads[t] == PopLook(pos) && pos == tail
      ensures forall u: nat :: u < threads.Length && u != t ==> threads[u] == old(threads[u])
    {
      ghost var s, h := Now(), hist;
      pos := tail;
      threads[t] := PopLook(pos);
      Stepped(s, h, Event(t, StartPop));
    }

    /** Load of a slot's sequence number; the thread goes where the comparison sends it. */
    method Look(t: nat) returns (turn: nat)
      requires Valid() && t < threads.Length && (threads[t].PushLook? || threads[t].PopLook?)
      modifies this`hist, this`ran, threads
      ensures Valid() && Now() == Step(old(Now()), Event(t, Go)) && hist == old(hist)
      ensures ran == old(ran) + [Event(t, Go)]
      ensures turn == old(Now()).At(old(threads[t]).pos).turn
    {
      ghost var s, h := Now(), hist;
      var pos := threads[t].pos;
      turn := slots[pos % slots.Length].turn;
      threads[t] := if threads[t].PushLook? then PushBranch(threads[t].val, pos, turn) else PopBranch(pos, turn);
      Stepped(s, h, Event(t, Go));
    }

    /** head_.compare_exchange_weak; on failure pos becomes the current head. */
    method CasHead(t: nat, fails: bool) returns (won: bool, pos: nat)
      requires Valid() && t < threads.Length && threads[t].PushCas?
      modifies this, threads
      ensures var e := Event(t, if fails then CasFails else Go);
              && Now() == Step(old(Now()), e) && hist == Record(old(Now()), old(hist), e)
              && ran == old(ran) + [e] && start == old(start)
      ensures Valid()
      ensures won == (!fails && old(head) == old(threads[t]).pos)
      ensures threads[t] == if won then PushCopy(old(threads[t]).val, pos, 0) else PushLook(old(threads[t]).val, pos)
      ensures pos == old(head) && tail == old(tail) && head == (if won then pos + 1 else pos)
    {
      ghost var s, h := Now(), hist;
      var PushCas(val, expected) := threads[t];
      pos := head;
      won := !fails && pos == expected;
      if won {
        head := expected + 1;
        threads[t] := PushCopy(val, pos, 0);
      } else {
        threads[t] := PushLook(val, pos);
      }
      Stepped(s, h, Event(t, if fails then CasFails else Go));
    }

    method CasTail(t: nat, fails: bool) returns (won: bool, pos: nat)
      requires Valid() && t < threads.Length && threads[t].PopCas?
      modifies this, threads
      ensures var e := Event(t, if fails then CasFails else Go);
              && Now() == Step(old(Now()), e) && hist == Record(old(Now()), old(hist), e)
              && ran == old(ran) + [e] && start == old(start)
      ensures Valid()
      ensures won == (!fails && old(tail) == old(threads[t]).pos)
      ensures threads[t] == if won then PopCopy(pos, []) else PopLook(pos)
      ensures pos == old(tail) && head == old(head) && tail == (if won then pos + 1 else pos)
    {
      ghost var s, h := Now(), hist;
      var expected := threads[t].pos;
      pos := tail;
      won := !fails && pos == expected;
      if won {
        tail := expected + 1;
        threads[t] := PopCopy(pos, []);
      } else {
        threads[t] := PopLook(pos);
      }
      Stepped(s, h, Event(t, if fails then CasFails else Go));
    }

    /** The reload of head_ or tail_ after the slot was found ahead. */
    method Reload(t: nat) returns (pos: nat)
      requires Valid() && t < threads.Length && (threads[t].PushReload? || threads[t].PopReload?)
      modifies this`hist, this`ran, threads
      ensures Valid() && Now() == Step(old(Now()), Event(t, Go)) && hist == old(hist)
      ensures ran == old(ran) + [Event(t, Go)]
      ensures if old(threads[t]).PushReload? then threads[t] == PushLook(old(threads[t]).val, pos) && pos == head
              else threads[t] == PopLook(pos) && pos == tail
    {
      ghost var s, h := Now(), hist;
      if threads[t].PushReload? {
        pos := head;
        threads[t] := PushLook(threads[t].val, pos);
      } else {
        pos := tail;
        threads[t] := PopLook(pos);
      }
      Stepped(s, h, Event(t, Go));
    }

    /** One byte of memcpy into the slot or out of it. */
    method CopyByte(t: nat)
      requires Valid() && t < threads.Length
      requires threads[t].PushCopy? || threads[t].PopCopy?
      requires (if threads[t].PushCopy? then threads[t].done else |threads[t].got|) < size
      modifies this`hist, this`ran, slots, threads
      ensures Valid() && Now() == Step(old(Now()), Event(t, Go)) && hist == old(hist)
      ensures ran == old(ran) + [Event(t, Go)]
      ensures if old(threads[t]).PushCopy? then threads[t] == old(threads[t]).(done := old(threads[t]).done + 1)
              else
                && threads[t].PopCopy? && threads[t].pos == old(threads[t]).pos
                && |threads[t].got| == |old(threads[t]).got| + 1
    {
      ghost var s, h := Now(), hist;
      assert ThreadOk(s, h, t);
      var i := threads[t].pos % slots.Length;
      assert SlotOk(s, h, i);
      if threads[t].PushCopy? {
        var PushCopy(val, pos, done) := threads[t];
        slots[i] := slots[i].(data := slots[i].data[done := val[done]]);
        threads[t] := PushCopy(val, pos, done + 1);
      } else {
        var PopCopy(pos, got) := threads[t];
        threads[t] := PopCopy(pos, got + [slots[i].data[|got|]]);
      }
      Stepped(s, h, Event(t, Go));
    }

    /** The store that hands the slot on and ends the call. */
    method HandOn(t: nat)
      requires Valid() && t < threads.Length
      requires threads[t].PushCopy? || threads[t].PopCopy?
      requires (if threads[t].PushCopy? then threads[t].done else |threads[t].got|) == size
      modifies this`hist, this`ran, slots, threads
      ensures Now() == Step(old(Now()), Event(t, Go)) && hist == Record(old(Now()), old(hist), Event(t, Go))
      ensures Valid() && ran == old(ran) + [Event(t, Go)]
      ensures threads[t] == if old(threads[t]).PushCopy? then Idle(Pushed) else Idle(Popped(old(threads[t]).got))
      ensures old(threads[t]).PopCopy? ==>
                hist == old(hist).(popped := old(hist).popped[old(threads[t]).pos := old(threads[t]).got])
      ensures old(threads[t]).PushCopy? ==> hist == old(hist)
    {
      ghost var s, h := Now(), hist;
      assert ThreadOk(s, h, t);
      var pos := threads[t].pos;
      var i := pos % slots.Length;
      assert SlotOk(s, h, i);
      if threads[t].PushCopy? {
        slots[i] := slots[i].(turn := pos + 1);
        threads[t] := Idle(Pushed);
      } else {
        slots[i] := slots[i].(turn := pos + slots.Length);
        threads[t] := Idle(Popped(threads[t].got));
      }
      Stepped(s, h, Event(t, Go));
    }

    // -------------------------------------------------------------------
    // Interference
    // -------------------------------------------------------------------

    /** One step of any thread, in place. */
    method Advance(e: Event)
      requires Valid()
      modifies this, slots, threads
      ensures Valid() && Now() == Step(old(Now()), e) && hist == Record(old(Now()), old(hist), e)
      ensures Extended()
    {
      hide Valid, Inv, Run, RunHistory;
      var t := e.tid;
      if t < threads.Length {
        match (threads[t], e.action)
        case (Idle(_), StartPush(val)) => if |val| == size { var _ := BeginPush(t, val); }
        case (Idle(_), StartPop) => var _ := BeginPop(t);
        case (PushLook(_, _), Go) => var _ := Look(t);
        case (PopLook(_), Go) => var _ := Look(t);
        case (PushCas(_, _), Go) => var _, _ := CasHead(t, false);
        case (PushCas(_, _), CasFails) => var _, _ := CasHead(t, true);
        case (PopCas(_), Go) => var _, _ := CasTail(t, false);
        case (PopCas(_), CasFails) => var _, _ := CasTail(t, true);
        case (PushReload(_, _), Go) => var _ := Reload(t);
        case (PopReload(_), Go) => var _ := Reload(t);
        case (PushCopy(_, _, done), Go) => Continue(t, done);
        case (PopCopy(_, got), Go) => Continue(t, |got|);
        case _ =>
      }
    }

    /** The next byte of a copy, or the store after its last byte. */
    method Continue(t: nat, done: nat)
      requires Valid() && t < threads.Length && Copying(threads[t])
      requires done == (if threads[t].PushCopy? then threads[t].done else |threads[t].got|)
      modifies this`hist, this`ran, slots, threads
      ensures Valid() && Now() == Step(old(Now()), Event(t, Go)) && hist == Record(old(Now()), old(hist), Event(t, Go))
      ensures ran == old(ran) + [Event(t, Go)]
    {
      ghost var s := Now();
      assert ThreadOk(s, hist, t);
      SlotOfTicket(s, hist, threads[t].pos);
      if done < size { CopyByte(t); } else { HandOn(t); }
    }

    /** The gap before one of our accesses: the next burst of the world, if any is left. */
    method Pause(world: seq<Burst>, w: nat, ghost me: nat) returns (next: nat, fails: bool)
      requires Valid() && w <= |world| && me < threads.Length && WorldOthersOnly(world, me)
      modifies this, slots, threads
      ensures Valid() && Extended()
      ensures threads[me] == old(threads[me])
      ensures head >= old(head) && tail >= old(tail)
      ensures w <= next <= |world| && (w < |world| ==> w < next)
      ensures w == |world| ==> !fails && Now() == old(Now()) && hist == old(hist)
    {
      next, fails := w, false;
      if w < |world| {
        ghost var s, h := Now(), hist;
        var es := world[w].others;
        for i := 0 to |es|
          invariant Valid() && Extended()
          invariant Now() == Run(s, es[..i]) && hist == RunHistory(s, h, es[..i])
        {
          RunOneMore(s, h, es[..i], es[i]);
          assert es[..i + 1] == es[..i] + [es[i]];
          Advance(es[i]);
        }
        assert es[..|es|] == es;
        OthersKeep(s, h, es, me);
        assert Now().threads[me] == threads[me];
        next, fails := w + 1, world[w].casFails;
      }
    }

    // -------------------------------------------------------------------
    // try_push
    // -------------------------------------------------------------------

    ghost predicate Calm(me: nat)
      reads this, slots, threads
    {
      CalmBut(Now(), me)
    }

    /** Nothing happened to the queue, whoever else is waiting. */
    twostate predicate Undisturbed(me: nat)
      requires old(Valid()) && Valid()
      reads this, slots, threads
    {
      head == old(head) && Contents() == old(Contents()) && (old(Calm(me)) ==> Calm(me))
    }

    /** Load of the slot's sequence number in try_push, after a gap. */
    method LoadTurnForPush(me: nat, ghost val: Element, ghost pos: nat, world: seq<Burst>, w: nat)
      returns (turn: nat, next: nat)
      requires Valid() && w <= |world| && me < threads.Length && WorldOthersOnly(world, me)
      requires threads[me] == PushLook(val, pos)
      modifies this, slots, threads
      ensures Valid() && Extended() && w <= next <= |world| && (w < |world| ==> w < next)
      ensures threads[me] == PushBranch(val, pos, turn)
      ensures head >= old(head) && (w == |world| ==> Undisturbed(me))
      ensures turn < pos ==> head >= slots.Length && head - slots.Length !in hist.popped
      ensures turn < pos && Calm(me) ==> |Contents()| == slots.Length
      ensures turn > pos ==> pos < head
    {
      hide Run, RunHistory, Inv;
      var fails;
      next, fails := Pause(world, w, me);
      PushLookMeans(Now(), hist, me, val, pos);
      turn := Look(me);
      assert threads[me] == Now().threads[me];
    }

    /** The compare-and-swap on head_, after a gap. */
    method TryClaimHead(me: nat, ghost val: Element, ghost pos: nat, world: seq<Burst>, w: nat)
      returns (won: bool, now: nat, next: nat)
      requires Valid() && w <= |world| && me < threads.Length && WorldOthersOnly(world, me)
      requires threads[me] == PushCas(val, pos)
      modifies this, slots, threads
      ensures Valid() && Extended() && w <= next <= |world| && (w < |world| ==> w < next)
      ensures won ==> threads[me] == PushCopy(val, pos, 0) && head == pos + 1
      ensures !won ==> threads[me] == PushLook(val, now) && now == head >= old(head)
      ensures w == |world| && !won ==> Undisturbed(me) && old(head) != pos
      ensures w == |world| && won ==> Contents() == old(Contents()) + [val] && |old(Contents())| < slots.Length
    {
      hide Run, RunHistory, SlotOk, ThreadOk;
      var fails;
      next, fails := Pause(world, w, me);
      label Gap:
      won, now := CasHead(me, fails);
      if won {
        assert hist.pushed[tail..head] == old@Gap(hist.pushed[tail..head]) + [val];
      }
    }

    /** The reload of head_, after a gap. */
    method ReloadHead(me: nat, ghost val: Element, ghost pos: nat, world: seq<Burst>, w: nat)
      returns (now: nat, next: nat)
      requires Valid() && w <= |world| && me < threads.Length && WorldOthersOnly(world, me)
      requires threads[me] == PushReload(val, pos)
      modifies this, slots, threads
      ensures Valid() && Extended() && w <= next <= |world| && (w < |world| ==> w < next)
      ensures threads[me] == PushLook(val, now) && now == head >= old(head)
      ensures w == |world| ==> Undisturbed(me)
    {
      var fails;
      next, fails := Pause(world, w, me);
      now := Reload(me);
    }

    method TryPush(me: nat, val: Element, world: seq<Burst>) returns (ok: bool)
      requires Valid() && me < threads.Length && threads[me].Idle? && |val| == size
      requires WorldOthersOnly(world, me)
      modifies this, slots, threads
      ensures Valid() && Extended()
      ensures threads[me] == Idle(if ok then Pushed else Full)
      // success: one ticket claimed during the call carries val
      ensures ok ==> exists k: nat :: old(head) <= k < head && k < |hist.pushed| && k < |hist.producer|
                                      && hist.pushed[k] == val && hist.producer[k] == me
      // failure: at its last load the ticket one lap back was still held
      ensures !ok ==> head >= slots.Length && head - slots.Length !in hist.popped
      // undisturbed, and with nobody copying, it is a bounded FIFO's push
      ensures world == [] && old(Calm(me)) ==>
                && (ok <==> |old(Contents())| < slots.Length)
                && Contents() == old(Contents()) + if ok then [val] else []
    {
      hide Inv, Run, RunHistory, Step, Record;
      var w: nat := 0;
      var pos: nat := BeginPush(me, val);
      hide Valid, Contents, Calm, WorldOthersOnly, Now;
      while true
        invariant Valid() && Extended() && w <= |world|
        invariant threads[me] == PushLook(val, pos) && old(head) <= pos <= head
        invariant world == [] ==> Undisturbed(me)
        decreases |world| - w, head - pos
      {
        var turn;
        turn, w := LoadTurnForPush(me, val, pos, world, w);
        if turn == pos {
          var won, now;
          won, now, w := TryClaimHead(me, val, pos, world, w);
          if won {
            FinishPush(me, val, pos, world, w);
            return true;
          }
          pos := now;
        } else if turn < pos {
          return false;  // full: the slot is not yet handed back
        } else {
          pos, w := ReloadHead(me, val, pos, world, w);
        }
      }
    }

    /** memcpy of the element and the publishing store, after the ticket is won. */
    method FinishPush(me: nat, val: Element, pos: nat, world: seq<Burst>, w0: nat)
      requires Valid() && me < threads.Length && w0 <= |world| && WorldOthersOnly(world, me)
      requires threads[me] == PushCopy(val, pos, 0)
      modifies this, slots, threads
      ensures Valid() && Extended()
      ensures threads[me] == Idle(Pushed)
      ensures pos < head && pos < |hist.pushed| && hist.pushed[pos] == val
      ensures pos < |hist.producer| && hist.producer[pos] == me
      ensures world == [] ==> Contents() == old(Contents())
    {
      hide Run, RunHistory, SlotOk, Step, Record;
      var w: nat, fails := w0, false;
      for done := 0 to size
        invariant Valid() && Extended() && w <= |world|
        invariant threads[me] == PushCopy(val, pos, done)
        invariant world == [] ==> head == old(head) && tail == old(tail) && hist == old(hist)
      {
        w, fails := Pause(world, w, me);
        CopyByte(me);
      }
      w, fails := Pause(world, w, me);
      assert ThreadOk(Now(), hist, me);
      HandOn(me);
    }

    // -------------------------------------------------------------------
    // try_pop
    // -------------------------------------------------------------------

    /** Load of the slot's sequence number in try_pop, after a gap. */
    method LoadTurnForPop(me: nat, ghost pos: nat, world: seq<Burst>, w: nat)
      returns (turn: nat, next: nat)
      requires Valid() && w <= |world| && me < threads.Length && WorldOthersOnly(world, me)
      requires threads[me] == PopLook(pos)
      modifies this, slots, threads
      ensures Valid() && Extended() && w <= next <= |world| && (w < |world| ==> w < next)
      ensures threads[me] == PopBranch(pos, turn)
      ensures tail >= old(tail) && (w == |world| ==> UndisturbedPop(me))
      ensures turn <= pos ==> tail == head || (tail < |hist.producer| && Produces(Now(), hist.producer[tail], tail))
      ensures turn <= pos && Calm(me) ==> Contents() == []
      ensures turn > pos + 1 ==> pos < tail
    {
      hide Run, RunHistory, Inv;
      var fails;
      next, fails := Pause(world, w, me);
      PopLookMeans(Now(), hist, me, pos);
      turn := Look(me);
      assert threads[me] == Now().threads[me];
    }

    twostate predicate UndisturbedPop(me: nat)
      requires old(Valid()) && Valid()
      reads this, slots, threads
    {
      tail == old(tail) && Contents() == old(Contents()) && (old(Calm(me)) ==> Calm(me))
    }

    /** The compare-and-swap on tail_, after a gap. */
    method TryClaimTail(me: nat, ghost pos: nat, world: seq<Burst>, w: nat)
      returns (won: bool, now: nat, next: nat)
      requires Valid() && w <= |world| && me < threads.Length && WorldOthersOnly(world, me)
      requires threads[me] == PopCas(pos)
      modifies this, slots, threads
      ensures Valid() && Extended() && w <= next <= |world| && (w < |world| ==> w < next)
      ensures won ==> threads[me] == PopCopy(pos, []) && tail == pos + 1
      ensures !won ==> threads[me] == PopLook(now) && now == tail >= old(tail)
      ensures w == |world| && !won ==> UndisturbedPop(me) && old(tail) != pos
      ensures w == |world| && won ==>
                pos < |hist.pushed| && old(Contents()) == [hist.pushed[pos]] + Contents()
    {
      hide Run, RunHistory, SlotOk, ThreadOk;
      var fails;
      next, fails := Pause(world, w, me);
      label Gap:
      won, now := CasTail(me, fails);
      if won {
        assert old@Gap(hist.pushed[tail..head]) == [hist.pushed[pos]] + hist.pushed[tail..head];
      }
    }

    /** The reload of tail_, after a gap. */
    method ReloadTail(me: nat, ghost pos: nat, world: seq<Burst>, w: nat)
      returns (now: nat, next: nat)
      requires Valid() && w <= |world| && me < threads.Length && WorldOthersOnly(world, me)
      requires threads[me] == PopReload(pos)
      modifies this, slots, threads
      ensures Valid() && Extended() && w <= next <= |world| && (w < |world| ==> w < next)
      ensures threads[me] == PopLook(now) && now == tail >= old(tail)
      ensures w == |world| ==> UndisturbedPop(me)
    {
      var fails;
      next, fails := Pause(world, w, me);
      now := Reload(me);
    }

    /** memcpy of the element and the releasing store, after the ticket is won. */
    method FinishPop(me: nat, pos: nat, world: seq<Burst>, w0: nat) returns (val: Element)
      requires Valid() && me < threads.Length && w0 <= |world| && WorldOthersOnly(world, me)
      requires threads[me] == PopCopy(pos, [])
      modifies this, slots, threads
      ensures Valid() && Extended()
      ensures threads[me] == Idle(Popped(val))
      ensures pos < tail && pos < |hist.pushed| && val == hist.pushed[pos]
      ensures pos < |hist.consumer| && hist.consumer[pos] == me && pos in hist.popped && hist.popped[pos] == val
      ensures world == [] ==>
                && Contents() == old(Contents())
                && (pos < |old(hist).pushed| ==> val == old(hist).pushed[pos])
    {
      hide Run, RunHistory, SlotOk, Step, Record;
      var w: nat, fails := w0, false;
      for done := 0 to size
        invariant Valid() && Extended() && w <= |world|
        invariant threads[me].PopCopy? && threads[me].pos == pos && |threads[me].got| == done
        invariant world == [] ==> head == old(head) && tail == old(tail) && hist == old(hist)
      {
        w, fails := Pause(world, w, me);
        CopyByte(me);
      }
      w, fails := Pause(world, w, me);
      assert ThreadOk(Now(), hist, me);
      val := threads[me].got;
      HandOn(me);
    }

    method TryPop(me: nat, world: seq<Burst>) returns (ok: bool, val: Element)
      requires Valid() && me < threads.Length && threads[me].Idle?
      requires WorldOthersOnly(world, me)
      modifies this, slots, threads
      ensures Valid() && Extended()
      ensures threads[me] == Idle(if ok then Popped(val) else Empty)
      // success: one ticket claimed during the call, and val is what was pushed under it
      ensures ok ==> exists k: nat :: old(tail) <= k < tail && k < |hist.pushed| && k < |hist.consumer|
                                      && hist.pushed[k] == val && hist.consumer[k] == me
                                      && k in hist.popped && hist.popped[k] == val
      // failure: at its last load ticket tail was unclaimed or unpublished
      ensures !ok ==> tail == head || (tail < |hist.producer| && Produces(Now(), hist.producer[tail], tail))
      // undisturbed, and with nobody copying, it is a FIFO's pop
      ensures world == [] && old(Calm(me)) ==>
                && (ok <==> old(Contents()) != [])
                && old(Contents()) == (if ok then [val] else []) + Contents()
    {
      hide Inv, Run, RunHistory, Step, Record;
      val := [];
      var w: nat := 0;
      var pos: nat := BeginPop(me);
      hide Valid, Contents, Calm, WorldOthersOnly, Now;
      while true
        invariant Valid() && Extended() && w <= |world| && val == []
        invariant threads[me] == PopLook(pos) && old(tail) <= pos <= tail
        invariant world == [] ==> UndisturbedPop(me)
        decreases |world| - w, tail - pos
      {
        var turn;
        turn, w := LoadTurnForPop(me, pos, world, w);
        if turn == pos + 1 {
          var won, now;
          won, now, w := TryClaimTail(me, pos, world, w);
          if won {
            val := FinishPop(me, pos, world, w);
            return true, val;
          }
          pos := now;
        } else if turn < pos + 1 {
          return false, [];  // empty: nothing published under this ticket yet
        } else {
          pos, w := ReloadTail(me, pos, world, w);
        }
      }
    }

    /** Loads head_, then tail_; other threads act in between. */
    method Size(me: nat, world: seq<Burst>) returns (n: nat)
      requires Valid() && me < threads.Length && WorldOthersOnly(world, me)
      requires slots.Length < TWO_63
      modifies this, slots, threads
      ensures Valid() && Extended() && n < TWO_64
      // exact up to wrapping, never more than was queued at the first load unless pops overtook it
      ensures n == (old(head) - tail) % TWO_64
      ensures tail <= old(head) ==> n <= |old(Contents())|
      ensures old(head) < tail < old(head) + TWO_63 ==> n > slots.Length
      ensures world == [] ==> n == |old(Contents())|
    {
      var h := head;
      var w, fails := Pause(world, 0, me);
      var d := h - tail;
      n := d % TWO_64;
      if d >= 0 {
        DivModUnique(d, TWO_64, 0, d);
      } else if d >= -TWO_63 {
        DivModUnique(d, TWO_64, -1, d + TWO_64);
      }
    }
  }
}
