/**
 The promises of parameter publication, stated on runs from a fresh engine.
 */
module RiskTheorems {
  import opened Decimal
  import opened RiskMachine
  import opened RiskProofs

  lemma RunFromInit(s: State, es: Schedule)
    requires Init(s)
    ensures Inv(Run(s, es))
  {
    InitEstablishesInv(s);
    RunKeepsInv(s, es);
  }

  /**
   A version-matched read returns fields of one whole set, and that set is
   exactly what hot_params_ holds at the instant the second version is loaded.
   */
  lemma MatchedReadIsOneCurrentSet(s: State, es: Schedule, r: nat)
    requires Init(s) && r < |s.readers|
    requires var t := Run(s, es); r < |t.readers| && t.readers[r].Read? && t.readers[r].v1 == t.mem.version
    ensures var t := Run(s, es);
            var got := t.readers[r].got;
            var k := t.mem.version / 2;
            && Step(t, Finish(r)).readers[r] == Outside(Matched(2 * k, got))
            && k < |t.log.params| && t.mem.hot == SetAt(t.log, k)
            && (k > 0 ==> HotHolds(t.mem.hot, t.log.params[k]))
            && t.readers[r].from <= 2 * k
            && (forall n :: 0 <= n < |got| ==> got[n].0 < FIELDS && got[n].1 == t.mem.hot[got[n].0])
  {
    RunFromInit(s, es);
    MatchedReadHere(Run(s, es), r);
  }

  /** The same in any state that keeps the invariant. */
  lemma MatchedReadHere(t: State, r: nat)
    requires Inv(t) && r < |t.readers| && t.readers[r].Read? && t.readers[r].v1 == t.mem.version
    ensures var got, k := t.readers[r].got, t.mem.version / 2;
            && Step(t, Finish(r)).readers[r] == Outside(Matched(2 * k, got))
            && k < |t.log.params| && t.mem.hot == SetAt(t.log, k)
            && (k > 0 ==> HotHolds(t.mem.hot, t.log.params[k]))
            && t.readers[r].from <= 2 * k
            && (forall n :: 0 <= n < |got| ==> got[n].0 < FIELDS && got[n].1 == t.mem.hot[got[n].0])
  {
    hide WriterInv, BuildHot, HotHolds;
    assert ReaderOk(t, t.readers[r]);
    HotFieldsAreRecent(t, 0);
    BuildHotConverts(t.log.params[t.mem.version / 2]);
    WriterInvWellFormed(t);
  }

  lemma WriterInvWellFormed(t: State)
    requires WriterInv(t)
    ensures WellFormed(t.mem) && Begun(t) >= 0
  {
  }

  /** The versions of one reader's matched reads never decrease. */
  lemma MatchedVersionsNeverDecrease(s: State, es: Schedule, r: nat)
    requires Init(s) && r < |s.readers|
    ensures var t := Run(s, es);
            && r < |t.log.seen|
            && (forall i, j :: 0 <= i < j < |t.log.seen[r]| ==> t.log.seen[r][i] <= t.log.seen[r][j])
            && (forall i :: 0 <= i < |t.log.seen[r]| ==> t.log.seen[r][i] <= t.mem.version)
  {
    RunFromInit(s, es);
    RunKeepsReaders(s, es);
    var t := Run(s, es);
    assert SeenOk(t, r) && ReaderOk(t, t.readers[r]);
  }

  lemma {:induction false} RunKeepsReaders(s: State, es: Schedule)
    requires WellFormed(s.mem)
    ensures |Run(s, es).readers| == |s.readers|
    decreases |es|
  {
    if es != [] {
      StepWellFormed(s, es[0]);
      RunKeepsReaders(Step(s, es[0]), es[1..]);
    }
  }

  /**
   After a hundred failed attempts the reader reads anyway: each field is then
   that of some set from the one current when the call began to the one current,
   or being copied in, when it ended.
   */
  lemma FallbackFieldsAreRecent(s: State, es: Schedule, r: nat)
    requires Init(s)
    requires var t := Run(s, es); r < |t.readers| && t.readers[r].Outside? && t.readers[r].out.Unmatched?
    ensures var t := Run(s, es);
            FromSets(t.log, t.readers[r].out.from / 2, Newest(t.readers[r].out.upTo), t.readers[r].out.got)
  {
    RunFromInit(s, es);
    assert ReaderOk(Run(s, es), Run(s, es).readers[r]);
  }

  /** Between updates everything agrees with the number of updates made. */
  lemma AtRestAllCopiesAgree(s: State, es: Schedule)
    requires Init(s) && Run(s, es).writer.Rest?
    ensures var t := Run(s, es);
            var b := Begun(t);
            && b >= 0 && t.mem.version == 2 * b && t.mem.active == b % 2 && t.mem.writeIdx == 1 - t.mem.active
            && (forall c :: 0 <= c < 2 ==> t.mem.cold[c].hot == t.mem.hot)
            && t.mem.cold[t.mem.active].params == t.log.params[b]
            && (b > 0 ==> t.mem.hot == BuildHot(t.mem.cold[t.mem.active].params))
            && (b > 0 ==> t.mem.cold[t.mem.active].hotVersion == 2 * b - 1)
  {
    RunFromInit(s, es);
    var t := Run(s, es);
    assert t.mem.cold[t.mem.active].hot == t.mem.cold[t.mem.writeIdx].hot == t.mem.hot;
  }

  /**
   A cold reader that finishes before the second update after its pointer
   load begins has read one unmixed set of parameters.
   */
  lemma ColdReadHasOneUpdateOfGrace(s: State, es: Schedule, r: nat)
    requires Init(s)
    requires var t := Run(s, es);
             r < |t.readers| && t.readers[r].Outside? && t.readers[r].out.ColdResult?
             && t.readers[r].out.begun <= t.readers[r].out.swaps + 1
    ensures var t := Run(s, es);
            FromParams(t.log, t.readers[r].out.swaps, t.readers[r].out.params)
  {
    RunFromInit(s, es);
    assert ReaderOk(Run(s, es), Run(s, es).readers[r]);
  }

  // ---------------------------------------------------------------------
  // The bounded retry loop
  // ---------------------------------------------------------------------

  /** Version loads a hot reader can still make. */
  function Rank(rd: Reader): nat {
    match rd
    case Load(attempt, _) => if attempt < MAX_RETRIES then 2 * (MAX_RETRIES - attempt) + 1 else 1
    case Read(attempt, _, _, _) => if attempt < MAX_RETRIES then 2 * (MAX_RETRIES - attempt) else 1
    case Fallback(_, _) => 1
    case _ => 0
  }

  /** The event makes reader r load a version or end its func. */
  ghost predicate Turn(s: State, e: Event, r: nat)
    requires r < |s.readers|
  {
    match e
    case LoadVersion(q) => q == r && s.readers[r].Load?
    case Finish(q) => q == r && (s.readers[r].Read? || s.readers[r].Fallback?)
    case _ => false
  }

  ghost function Turns(s: State, es: Schedule, r: nat): nat
    requires WellFormed(s.mem) && r < |s.readers| && r < |s.log.seen|
    decreases |es|
  {
    if es == [] then 0
    else
      StepWellFormed(s, es[0]);
      (if Turn(s, es[0], r) then 1 else 0) + Turns(Step(s, es[0]), es[1..], r)
  }

  lemma StepUsesRank(s: State, e: Event, r: nat)
    requires WellFormed(s.mem) && r < |s.readers| && r < |s.log.seen|
    requires e != Begin(r) && e != BeginCold(r)
    requires s.readers[r].Load? || s.readers[r].Read? ==> s.readers[r].attempt < MAX_RETRIES
    ensures var rd := Step(s, e).readers[r];
            && (if Turn(s, e, r) then Rank(rd) < Rank(s.readers[r]) else Rank(rd) == Rank(s.readers[r]))
            && (rd.Load? || rd.Read? ==> rd.attempt < MAX_RETRIES)
  {
  }

  /**
   The read is wait-free: in any schedule, with the writer as busy as it likes,
   one call makes at most 201 version loads and ends of func, and it has ended
   once they are used up.
   */
  lemma {:induction false} ReaderAlwaysEnds(s: State, es: Schedule, r: nat)
    requires WellFormed(s.mem) && r < |s.readers| && r < |s.log.seen|
    requires Begin(r) !in es && BeginCold(r) !in es
    requires s.readers[r].Load? || s.readers[r].Read? ==> s.readers[r].attempt < MAX_RETRIES
    ensures r < |Run(s, es).readers|
    ensures Turns(s, es, r) + Rank(Run(s, es).readers[r]) <= Rank(s.readers[r]) <= 2 * MAX_RETRIES + 1
    ensures Rank(Run(s, es).readers[r]) == 0 ==> Run(s, es).readers[r].Outside? || Run(s, es).readers[r].ColdRead?
    decreases |es|
  {
    if es != [] {
      StepWellFormed(s, es[0]);
      assert es[0] in es;
      StepUsesRank(s, es[0], r);
      hide Turn;
      ReaderAlwaysEnds(Step(s, es[0]), es[1..], r);
    }
  }

  /** An attempt of reader r fails: it finds version odd, or changed under its func. */
  ghost predicate Fails(s: State, e: Event, r: nat)
    requires r < |s.readers|
  {
    match e
    case LoadVersion(q) => q == r && s.readers[r].Load? && s.mem.version % 2 == 1
    case Finish(q) => q == r && s.readers[r].Read? && s.mem.version != s.readers[r].v1
    case _ => false
  }

  ghost function Failures(s: State, es: Schedule, r: nat): nat
    requires WellFormed(s.mem) && r < |s.readers| && r < |s.log.seen|
    decreases |es|
  {
    if es == [] then 0
    else
      StepWellFormed(s, es[0]);
      (if Fails(s, es[0], r) then 1 else 0) + Failures(Step(s, es[0]), es[1..], r)
  }

  /** Inside the loop, with fewer than a hundred attempts behind it. */
  predicate Trying(rd: Reader) { (rd.Load? || rd.Read?) && rd.attempt < 100 }

  lemma FailureStep(s: State, e: Event, r: nat)
    requires WellFormed(s.mem) && r < |s.readers| && r < |s.log.seen|
    requires e != Begin(r) && e != BeginCold(r)
    ensures var rd, rd' := s.readers[r], Step(s, e).readers[r];
            && (Trying(rd) && !Fails(s, e, r) ==> if Trying(rd') then rd'.attempt == rd.attempt else !FellBack(rd'))
            && (Trying(rd) && Fails(s, e, r) ==>
                  if rd.attempt < 99 then Trying(rd') && rd'.attempt == rd.attempt + 1 else FellBack(rd'))
            && (Trying(rd) ==> Trying(rd') || rd'.Fallback? || rd'.Outside?)
            && (FellBack(rd) ==> FellBack(rd') && !Fails(s, e, r))
            && (rd.Outside? ==> rd' == rd && !Fails(s, e, r))
  {
  }

  lemma {:induction false} NoFailureOutside(s: State, es: Schedule, r: nat)
    requires WellFormed(s.mem) && r < |s.readers| && r < |s.log.seen|
    requires Begin(r) !in es && BeginCold(r) !in es && (FellBack(s.readers[r]) || s.readers[r].Outside?)
    ensures r < |Run(s, es).readers| && Failures(s, es, r) == 0
    ensures FellBack(Run(s, es).readers[r]) <==> FellBack(s.readers[r])
    decreases |es|
  {
    if es != [] {
      StepWellFormed(s, es[0]);
      assert es[0] in es;
      FailureStep(s, es[0], r);
      hide Fails;
      NoFailureOutside(Step(s, es[0]), es[1..], r);
    }
  }

  lemma {:induction false} FailuresCount(s: State, es: Schedule, r: nat)
    requires WellFormed(s.mem) && r < |s.readers| && r < |s.log.seen|
    requires Begin(r) !in es && BeginCold(r) !in es && Trying(s.readers[r])
    ensures r < |Run(s, es).readers| && s.readers[r].attempt + Failures(s, es, r) <= 100
    ensures FellBack(Run(s, es).readers[r]) <==> s.readers[r].attempt + Failures(s, es, r) == 100
    decreases |es|
  {
    if es != [] {
      var t := Step(s, es[0]);
      StepWellFormed(s, es[0]);
      assert es[0] in es;
      FailureStep(s, es[0], r);
      hide Fails, Step;
      if Trying(t.readers[r]) {
        FailuresCount(t, es[1..], r);
      } else {
        NoFailureOutside(t, es[1..], r);
      }
    }
  }

  /**
   The fallback is a last resort: in any schedule a call falls back if and only
   if a hundred of its attempts have failed, and never more of them fail.
   */
  lemma FallbackAfterHundredFailures(s: State, es: Schedule, r: nat)
    requires WellFormed(s.mem) && r < |s.readers| && r < |s.log.seen| && s.readers[r].Outside?
    requires Begin(r) !in es && BeginCold(r) !in es
    ensures var t := Step(s, Begin(r));
            && WellFormed(t.mem) && r < |t.readers| && r < |t.log.seen| && r < |Run(t, es).readers|
            && Failures(t, es, r) <= 100
            && (FellBack(Run(t, es).readers[r]) <==> Failures(t, es, r) == 100)
  {
    StepWellFormed(s, Begin(r));
    FailuresCount(Step(s, Begin(r)), es, r);
  }

  // ---------------------------------------------------------------------
  // What the hot fields are
  // ---------------------------------------------------------------------

  /** The five fields, one by one, each from its own parameter. */
  ghost predicate HotHolds(hot: Hot, p: RiskParameters) {
    && |hot| == 5
    && IsDecimalOf(hot[0], p.maxOrderValue)
    && IsDecimalOf(hot[1], p.maxPositionValue)
    && IsDecimalOf(hot[2], p.maxTotalPositionValue)
    && IsDecimalOf(hot[3], p.minAvailableCapital)
    && hot[4] == p.maxOrdersPerSecond
  }

  lemma BuildHotConverts(p: RiskParameters)
    ensures HotHolds(BuildHot(p), p)
  {
    ToDecimalIsDecimal(p.maxOrderValue);
    ToDecimalIsDecimal(p.maxPositionValue);
    ToDecimalIsDecimal(p.maxTotalPositionValue);
    ToDecimalIsDecimal(p.minAvailableCapital);
    hide ToDecimal, IsDecimalOf;
  }

  /** Between updates, from the first on, each hot field is the Decimal of its own active parameter. */
  lemma AtRestHotIsConverted(s: State, es: Schedule)
    requires Init(s) && Run(s, es).writer.Rest? && Begun(Run(s, es)) > 0
    ensures var t := Run(s, es);
            && HotHolds(t.mem.hot, t.mem.cold[t.mem.active].params)
            && t.mem.cold[t.mem.active].params == t.log.params[|t.log.params| - 1]
  {
    AtRestAllCopiesAgree(s, es);
    BuildHotConverts(Run(s, es).mem.cold[Run(s, es).mem.active].params);
    hide BuildHot, Init, Run;
  }

  // ---------------------------------------------------------------------
  // The writer, undisturbed
  // ---------------------------------------------------------------------

  function WriterRun(m: Memory, w: Writer, n: nat): (Memory, Writer)
    requires WellFormed(m)
    decreases n
  {
    if n == 0 then (m, w)
    else
      WriterNextWellFormed(m, w);
      WriterRun(WriterNext(m, w).0, WriterNext(m, w).1, n - 1)
  }

  lemma WriterNextWellFormed(m: Memory, w: Writer)
    requires WellFormed(m)
    ensures WellFormed(WriterNext(m, w).0)
  {
  }

  lemma {:induction false} WriterRunSplit(m: Memory, w: Writer, a: nat, b: nat)
    requires WellFormed(m)
    ensures WellFormed(WriterRun(m, w, a).0)
    ensures WriterRun(m, w, a + b) == WriterRun(WriterRun(m, w, a).0, WriterRun(m, w, a).1, b)
    decreases a
  {
    if a > 0 {
      WriterNextWellFormed(m, w);
      var (m', w') := WriterNext(m, w);
      WriterRunSplit(m', w', a - 1, b);
    }
  }

  lemma WithDarkTwice(m: Memory, c: ColdParams, d: ColdParams)
    requires m.writeIdx < |m.cold|
    ensures WithDark(WithDark(m, c), d) == WithDark(m, d)
    ensures WithDark(m, m.cold[m.writeIdx]) == m
  {
    assert WithDark(WithDark(m, c), d).cold == WithDark(m, d).cold;
    assert WithDark(m, m.cold[m.writeIdx]).cold == m.cold;
  }

  /** updateParameters fills the dark buffer's params, one scalar at a time. */
  lemma {:induction false} SetParamsRuns(m: Memory, p: RiskParameters, i: nat) returns (n: nat)
    requires WellFormed(m) && i <= PARAMS
    requires forall j :: 0 <= j < i ==> ParamAt(m.cold[m.writeIdx].params, j) == ParamAt(p, j)
    ensures WriterRun(m, SetParams(p, i), n) == (WithDark(m, m.cold[m.writeIdx].(params := p)), Build(0))
    decreases PARAMS - i
  {
    var m' := WriterNext(m, SetParams(p, i)).0;
    if i < PARAMS {
      n := SetParamsRuns(m', p, i + 1);
      WithDarkTwice(m, m'.cold[m.writeIdx], m.cold[m.writeIdx].(params := p));
      n := WriterFirst(m, SetParams(p, i), n);
    } else {
      ParamsFromScalars(m.cold[m.writeIdx].params, p);
      WithDarkTwice(m, m.cold[m.writeIdx], m.cold[m.writeIdx]);
      n := WriterFirst(m, SetParams(p, i), 0);
    }
  }

  lemma {:induction false} BuildRuns(m: Memory, i: nat) returns (n: nat)
    requires WellFormed(m) && i <= FIELDS
    requires PrefixOf(m.cold[m.writeIdx].hot, i, BuildHot(m.cold[m.writeIdx].params))
    ensures var dark := m.cold[m.writeIdx];
            WriterRun(m, Build(i), n) == (WithDark(m, dark.(hot := BuildHot(dark.params))), Stamp)
    decreases FIELDS - i
  {
    var m' := WriterNext(m, Build(i)).0;
    var dark := m.cold[m.writeIdx];
    if i < FIELDS {
      n := BuildRuns(m', i + 1);
      WithDarkTwice(m, m'.cold[m.writeIdx], dark.(hot := BuildHot(dark.params)));
      n := WriterFirst(m, Build(i), n);
    } else {
      WholePrefix(dark.hot, BuildHot(dark.params));
      WithDarkTwice(m, dark, dark);
      n := WriterFirst(m, Build(i), 0);
    }
  }

  lemma {:induction false} CopyRuns(m: Memory, i: nat) returns (n: nat)
    requires WellFormed(m) && i <= FIELDS && PrefixOf(m.hot, i, m.cold[m.writeIdx].hot)
    ensures WriterRun(m, Copy(i), n) == (m.(hot := m.cold[m.writeIdx].hot), Close)
    decreases FIELDS - i
  {
    if i < FIELDS {
      n := CopyRuns(WriterNext(m, Copy(i)).0, i + 1);
      n := WriterFirst(m, Copy(i), n);
    } else {
      WholePrefix(m.hot, m.cold[m.writeIdx].hot);
      n := WriterFirst(m, Copy(i), 0);
    }
  }

  lemma {:induction false} BackRuns(m: Memory, i: nat) returns (n: nat)
    requires WellFormed(m) && i <= FIELDS && PrefixOf(m.cold[m.writeIdx].hot, i, m.hot)
    ensures WriterRun(m, Back(i), n) == (WithDark(m, m.cold[m.writeIdx].(hot := m.hot)), Rest)
    decreases FIELDS - i
  {
    var m' := WriterNext(m, Back(i)).0;
    if i < FIELDS {
      n := BackRuns(m', i + 1);
      WithDarkTwice(m, m'.cold[m.writeIdx], m.cold[m.writeIdx].(hot := m.hot));
      n := WriterFirst(m, Back(i), n);
    } else {
      WholePrefix(m.cold[m.writeIdx].hot, m.hot);
      WithDarkTwice(m, m.cold[m.writeIdx], m.cold[m.writeIdx]);
      n := WriterFirst(m, Back(i), 0);
    }
  }

  /** One step before a run. */
  lemma WriterFirst(m: Memory, w: Writer, n: nat) returns (k: nat)
    requires WellFormed(m)
    ensures WellFormed(WriterNext(m, w).0)
    ensures WriterRun(m, w, k) == WriterRun(WriterNext(m, w).0, WriterNext(m, w).1, n)
    ensures n == 0 ==> WriterRun(m, w, k) == WriterNext(m, w)
  {
    WriterNextWellFormed(m, w);
    k := n + 1;
  }

  /** Run to a known point, then on from there. */
  lemma WriterThen(m: Memory, w: Writer, a: nat, m': Memory, w': Writer, b: nat) returns (k: nat)
    requires WellFormed(m) && WriterRun(m, w, a) == (m', w')
    ensures WellFormed(m') && WriterRun(m, w, k) == WriterRun(m', w', b)
  {
    WriterRunSplit(m, w, a, b);
    k := a + b;
  }

  /** The memory after one undisturbed update: publishParams, then swapColdBuffers. */
  function AfterUpdate(m: Memory, p: RiskParameters): Memory
    requires WellFormed(m)
  {
    var other := if m.writeIdx == 0 then 1 else 0;
    var hot := BuildHot(p);
    Memory(m.version + 2, hot,
           m.cold[m.writeIdx := ColdParams(p, hot, m.version + 1)][other := m.cold[other].(hot := hot)],
           m.writeIdx, other)
  }

  /** updateParameters and buildHot: only the dark buffer changes, and version becomes odd. */
  lemma PrepareRuns(m: Memory, p: RiskParameters) returns (n: nat)
    requires WellFormed(m)
    ensures WriterRun(m, SetParams(p, 0), n)
            == (WithDark(m, ColdParams(p, BuildHot(p), m.version + 1)).(version := m.version + 1), Copy(0))
  {
    var dark := m.cold[m.writeIdx];
    var d1, d2, d3 := dark.(params := p), ColdParams(p, BuildHot(p), dark.hotVersion),
      ColdParams(p, BuildHot(p), m.version + 1);
    WithDarkTwice(m, d1, d2);
    WithDarkTwice(m, d2, d3);
    var nOpen := WriterFirst(WithDark(m, d3), Open, 0);
    var stamped := WriterFirst(WithDark(m, d2), Stamp, nOpen);
    var built := BuildRuns(WithDark(m, d1), 0);
    built := WriterThen(WithDark(m, d1), Build(0), built, WithDark(m, d2), Stamp, stamped);
    n := SetParamsRuns(m, p, 0);
    n := WriterThen(m, SetParams(p, 0), n, WithDark(m, d1), Build(0), built);
  }

  /** From the odd version to the even one, the swap and the copy back. */
  lemma PublishRuns(m: Memory) returns (n: nat)
    requires WellFormed(m)
    ensures var hot := m.cold[m.writeIdx].hot;
            var other := if m.writeIdx == 0 then 1 else 0;
            WriterRun(m, Copy(0), n)
            == (Memory(m.version + 1, hot, m.cold[other := m.cold[other].(hot := hot)], m.writeIdx, other), Rest)
  {
    var m1 := m.(hot := m.cold[m.writeIdx].hot);
    var m2 := m1.(version := m.version + 1);
    var m3 := m2.(active := m.writeIdx);
    var m4 := m3.(writeIdx := if m.writeIdx == 0 then 1 else 0);
    var back := BackRuns(m4, 0);
    back := WriterFirst(m3, Flip, back);
    back := WriterFirst(m2, Swap, back);
    back := WriterFirst(m1, Close, back);
    n := CopyRuns(m, 0);
    n := WriterThen(m, Copy(0), n, m1, Close, back);
  }

  /** The scalar-by-scalar writer, left alone, performs exactly that update. */
  lemma UpdateRuns(m: Memory, p: RiskParameters) returns (n: nat)
    requires WellFormed(m)
    ensures WriterRun(m, SetParams(p, 0), n) == (AfterUpdate(m, p), Rest)
  {
    var m1 := WithDark(m, ColdParams(p, BuildHot(p), m.version + 1)).(version := m.version + 1);
    n := PrepareRuns(m, p);
    var rest := PublishRuns(m1);
    n := WriterThen(m, SetParams(p, 0), n, m1, Copy(0), rest);
  }
}
