/**
 What publication guarantees under every interleaving of one writer with any
 number of readers.
 */
module RiskProofs {
  import opened RiskMachine

  // ---------------------------------------------------------------------
  // Invariant
  // ---------------------------------------------------------------------

  /** The number of updates begun. */
  function Begun(s: State): int { |s.log.params| - 1 }

  /** The writer is at or past the swap of the current update. */
  predicate Published(w: Writer) { w.Swap? || w.Flip? || w.Back? || w.Rest? }

  ghost predicate PrefixOf(a: Hot, n: nat, b: Hot) {
    n <= |a| && n <= |b| && (forall j :: 0 <= j < n ==> a[j] == b[j])
  }

  /** The dark buffer while update number Begun is prepared in it. */
  ghost predicate DarkOk(s: State)
    requires WellFormed(s.mem) && Begun(s) >= 0
  {
    var dark := s.mem.cold[s.mem.writeIdx];
    var b := Begun(s);
    match s.writer
    case Rest => dark.hot == s.mem.hot && (b > 0 ==> s.mem.cold[s.mem.active].hotVersion == s.mem.version - 1)
    case SetParams(source, i) =>
      i <= PARAMS && b > 0 && source == s.log.params[b]
        && (forall j :: 0 <= j < i ==> ParamAt(dark.params, j) == ParamAt(source, j))
    case Build(i) =>
      i <= FIELDS && b > 0 && dark.params == s.log.params[b] && PrefixOf(dark.hot, i, SetAt(s.log, b))
    case Back(i) =>
      i <= FIELDS && b > 0 && PrefixOf(dark.hot, i, s.mem.hot)
        && s.mem.cold[s.mem.active].hotVersion == s.mem.version - 1
    case _ =>
      && b > 0 && dark.params == s.log.params[b] && dark.hot == SetAt(s.log, b)
      && (s.writer.Stamp? || dark.hotVersion == 2 * b - 1)
  }

  /** hot_params_ and version. */
  ghost predicate HotOk(s: State)
    requires WellFormed(s.mem) && Begun(s) >= 0 && |s.log.first| == FIELDS
  {
    var b := Begun(s);
    match s.writer
    case Copy(i) =>
      && i <= FIELDS && b > 0 && s.mem.version == 2 * b - 1
      && PrefixOf(s.mem.hot, i, SetAt(s.log, b))
      && (forall j :: i <= j < FIELDS ==> s.mem.hot[j] == SetAt(s.log, b - 1)[j])
    case Close => b > 0 && s.mem.version == 2 * b - 1 && s.mem.hot == SetAt(s.log, b)
    case _ =>
      if Published(s.writer) then s.mem.version == 2 * b && s.mem.hot == SetAt(s.log, b)
      else b > 0 && s.mem.version == 2 * (b - 1) && s.mem.hot == SetAt(s.log, b - 1)
  }

  /** The two cold buffers and which of them is active. */
  ghost predicate ColdOk(s: State)
    requires WellFormed(s.mem) && Begun(s) >= 0
  {
    var b, c := Begun(s), s.log.swaps;
    && (if s.writer.Flip? || s.writer.Back? || s.writer.Rest? then c == b else c == b - 1)
    && c >= 0 && s.mem.active == c % 2
    && s.mem.writeIdx == (if s.writer.Back? || s.writer.Rest? then (b + 1) % 2 else b % 2)
    && s.mem.cold[c % 2].params == s.log.params[c] && s.mem.cold[c % 2].hot == SetAt(s.log, c)
    && (c > 0 && c == b ==> s.mem.cold[(c - 1) % 2].params == s.log.params[c - 1])
  }

  /** Every field read is that of the k-th set. */
  ghost predicate FromSet(log: Log, k: nat, got: Reads) {
    && k < |log.params| && |log.first| == FIELDS
    && (forall n :: 0 <= n < |got| ==> got[n].0 < FIELDS && got[n].1 == SetAt(log, k)[got[n].0])
  }

  /** Every field read is that of some set from number lo to number hi, each perhaps of another. */
  ghost predicate FromSets(log: Log, lo: nat, hi: nat, got: Reads) {
    && |log.first| == FIELDS
    && forall n :: 0 <= n < |got| ==> got[n].0 < FIELDS && FieldOfSome(log, lo, hi, got[n].0, got[n].1)
  }

  ghost predicate FieldOfSome(log: Log, lo: nat, hi: nat, i: nat, x: int)
    requires |log.first| == FIELDS && i < FIELDS
  {
    exists j: nat :: lo <= j <= hi && j < |log.params| && SetAt(log, j)[i] == x
  }

  /** The number of the set that hot_params_ holds, or that is being copied into it. */
  function Newest(version: nat): nat { (version + 1) / 2 }

  ghost predicate FromParams(log: Log, c: nat, got: ParamReads) {
    c < |log.params| && (forall n :: 0 <= n < |got| ==>
      got[n].0 < PARAMS && got[n].1 == ParamAt(log.params[c], got[n].0))
  }

  ghost predicate ReaderOk(s: State, rd: Reader)
    requires Begun(s) >= 0
  {
    match rd
    case Outside(NoResult) => true
    case Outside(Matched(v, got)) => v % 2 == 0 && v <= s.mem.version && FromSet(s.log, v / 2, got)
    case Outside(Unmatched(from, upTo, got)) =>
      from <= upTo <= s.mem.version && FromSets(s.log, from / 2, Newest(upTo), got)
    case Outside(ColdResult(c, begun, got)) => begun <= c + 1 ==> FromParams(s.log, c, got)
    case Load(attempt, from) => attempt < MAX_RETRIES && from <= s.mem.version
    case Read(attempt, from, v1, got) =>
      && attempt < MAX_RETRIES && from <= v1 <= s.mem.version && v1 % 2 == 0
      && (v1 == s.mem.version ==> FromSet(s.log, v1 / 2, got))
    case Fallback(from, got) => from <= s.mem.version && FromSets(s.log, from / 2, Newest(s.mem.version), got)
    case ColdRead(b, c, got) =>
      b == c % 2 && c <= s.log.swaps && (Begun(s) <= c + 1 ==> FromParams(s.log, c, got))
  }

  /** The version a reader's next matched read cannot go below. */
  function Floor(s: State, rd: Reader): nat {
    match rd
    case Load(_, from) => from
    case Read(_, from, _, _) => from
    case _ => s.mem.version
  }

  ghost predicate SeenOk(s: State, r: nat)
    requires r < |s.readers| && r < |s.log.seen|
  {
    var seen := s.log.seen[r];
    && (forall i, j :: 0 <= i < j < |seen| ==> seen[i] <= seen[j])
    && (forall i :: 0 <= i < |seen| ==> seen[i] <= Floor(s, s.readers[r]))
  }

  ghost predicate WriterInv(s: State) {
    && WellFormed(s.mem) && Begun(s) >= 0 && |s.log.first| == FIELDS
    && DarkOk(s) && HotOk(s) && ColdOk(s)
  }

  ghost predicate Inv(s: State) {
    && WriterInv(s)
    && |s.log.seen| == |s.readers|
    && (forall r: nat :: r < |s.readers| ==> ReaderOk(s, s.readers[r]) && SeenOk(s, r))
  }

  lemma InitEstablishesInv(s: State)
    requires Init(s)
    ensures Inv(s)
  {
  }

  // ---------------------------------------------------------------------
  // Writer steps
  // ---------------------------------------------------------------------

  lemma ParamsFromScalars(a: RiskParameters, b: RiskParameters)
    requires forall j :: 0 <= j < PARAMS ==> ParamAt(a, j) == ParamAt(b, j)
    ensures a == b
  {
    assert ParamAt(a, 0) == ParamAt(b, 0) && ParamAt(a, 1) == ParamAt(b, 1) && ParamAt(a, 2) == ParamAt(b, 2);
    assert ParamAt(a, 3) == ParamAt(b, 3) && ParamAt(a, 4) == ParamAt(b, 4) && ParamAt(a, 5) == ParamAt(b, 5);
  }

  lemma WholePrefix(a: Hot, b: Hot)
    requires |a| == |b| && PrefixOf(a, |a|, b)
    ensures a == b
  {
  }

  lemma WriterStepKeepsDark(s: State)
    requires WriterInv(s)
    ensures WellFormed(Step(s, WriterStep).mem) && DarkOk(Step(s, WriterStep))
  {
    StepWellFormed(s, WriterStep);
    var dark := s.mem.cold[s.mem.writeIdx];
    match s.writer
    case SetParams(source, i) =>
      if i == PARAMS { ParamsFromScalars(dark.params, source); }
    case Build(i) =>
      if i == FIELDS { WholePrefix(dark.hot, SetAt(s.log, Begun(s))); }
    case Back(i) =>
      if i == FIELDS { WholePrefix(dark.hot, s.mem.hot); }
    case _ =>
  }

  lemma WriterStepKeepsHot(s: State)
    requires WriterInv(s)
    ensures WellFormed(Step(s, WriterStep).mem) && HotOk(Step(s, WriterStep))
  {
    StepWellFormed(s, WriterStep);
    match s.writer
    case Copy(i) =>
      if i == FIELDS { WholePrefix(s.mem.hot, SetAt(s.log, Begun(s))); }
    case _ =>
  }

  lemma WriterStepKeepsCold(s: State)
    requires WriterInv(s)
    ensures WellFormed(Step(s, WriterStep).mem) && ColdOk(Step(s, WriterStep))
  {
    StepWellFormed(s, WriterStep);
    match s.writer
    case Back(i) =>
      if i == FIELDS { WholePrefix(s.mem.cold[s.mem.writeIdx].hot, s.mem.hot); }
    case _ =>
  }

  lemma WriterStepKeepsWriterInv(s: State)
    requires WriterInv(s)
    ensures WriterInv(Step(s, WriterStep))
  {
    WriterStepKeepsDark(s);
    WriterStepKeepsHot(s);
    WriterStepKeepsCold(s);
  }

  lemma UpdateKeepsWriterInv(s: State, p: RiskParameters)
    requires WriterInv(s)
    ensures WriterInv(Step(s, Update(p)))
  {
  }

  // ---------------------------------------------------------------------
  // Readers
  // ---------------------------------------------------------------------

  /** Each field of hot_params_ is that of the last complete set or of the one being copied. */
  lemma HotFieldsAreRecent(s: State, i: nat)
    requires WriterInv(s) && i < FIELDS
    ensures s.mem.version / 2 <= Newest(s.mem.version) < |s.log.params|
    ensures s.mem.version % 2 == 0 ==> s.mem.hot == SetAt(s.log, s.mem.version / 2)
    ensures FieldOfSome(s.log, s.mem.version / 2, Newest(s.mem.version), i, s.mem.hot[i])
  {
    var b := Begun(s);
    match s.writer
    case Copy(n) => assert s.mem.hot[i] == SetAt(s.log, if i < n then b else b - 1)[i];
    case Close => assert s.mem.hot[i] == SetAt(s.log, b)[i];
    case _ => assert s.mem.hot[i] == SetAt(s.log, s.mem.version / 2)[i];
  }

  /** What other steps may do to the parts of the state that a reader's claims mention. */
  ghost predicate Grown(s: State, s': State) {
    && s'.mem.version >= s.mem.version
    && s'.log.swaps >= s.log.swaps
    && s'.log.first == s.log.first
    && s.log.params <= s'.log.params
  }

  lemma ReaderOkStable(s: State, s': State, rd: Reader)
    requires Begun(s) >= 0 && Begun(s') >= 0 && Grown(s, s') && ReaderOk(s, rd)
    ensures ReaderOk(s', rd)
    ensures Floor(s', rd) >= Floor(s, rd)
  {
    match rd
    case Outside(Unmatched(from, upTo, got)) => FromSetsGrow(s.log, s'.log, from / 2, Newest(upTo), Newest(upTo), got);
    case Fallback(from, got) =>
      FromSetsGrow(s.log, s'.log, from / 2, Newest(s.mem.version), Newest(s'.mem.version), got);
    case _ =>
  }

  /** A field of some set stays one while the log grows and the range widens. */
  lemma FieldStays(log: Log, log': Log, lo: nat, hi: nat, lo': nat, hi': nat, i: nat, x: int)
    requires |log.first| == FIELDS && i < FIELDS && FieldOfSome(log, lo, hi, i, x)
    requires log'.first == log.first && log.params <= log'.params && lo' <= lo && hi <= hi'
    ensures FieldOfSome(log', lo', hi', i, x)
  {
    var j: nat :| lo <= j <= hi && j < |log.params| && SetAt(log, j)[i] == x;
    assert SetAt(log', j) == SetAt(log, j);
  }

  lemma FromSetsGrow(log: Log, log': Log, lo: nat, hi: nat, hi': nat, got: Reads)
    requires log'.first == log.first && log.params <= log'.params && hi <= hi'
    requires FromSets(log, lo, hi, got)
    ensures FromSets(log', lo, hi', got)
  {
    forall n | 0 <= n < |got| ensures FieldOfSome(log', lo, hi', got[n].0, got[n].1) {
      FieldStays(log, log', lo, hi, lo, hi', got[n].0, got[n].1);
    }
  }

  lemma FromSetsAppend(log: Log, lo: nat, hi: nat, got: Reads, i: nat, x: int)
    requires FromSets(log, lo, hi, got) && i < FIELDS && FieldOfSome(log, lo, hi, i, x)
    ensures FromSets(log, lo, hi, got + [(i, x)])
  {
    var got' := got + [(i, x)];
    forall n | 0 <= n < |got'| ensures got'[n].0 < FIELDS && FieldOfSome(log, lo, hi, got'[n].0, got'[n].1) {
      assert n < |got| ==> got'[n] == got[n];
    }
  }

  /** Until the second update after swap c begins, the buffer named by swap c keeps its params. */
  lemma BufferKeptForOneUpdate(s: State, c: nat)
    requires WriterInv(s) && c <= s.log.swaps && Begun(s) <= c + 1
    ensures s.mem.cold[c % 2].params == s.log.params[c]
    ensures s.mem.active == s.log.swaps % 2 && Begun(s) <= s.log.swaps + 1
  {
  }

  lemma ColdReaderStep(s: State, rd: Reader, e: Event)
    requires WriterInv(s) && ReaderOk(s, rd) && rd.ColdRead? && !e.Update? && !e.WriterStep?
    ensures ReaderOk(s, ReaderNext(s.mem, s.log, rd, e))
  {
    if Begun(s) <= rd.swaps + 1 { BufferKeptForOneUpdate(s, rd.swaps); }
    hide WriterInv;
  }

  /** The stepping reader's own claims. */
  lemma ReaderStepKeepsReader(s: State, rd: Reader, e: Event)
    requires WriterInv(s) && ReaderOk(s, rd) && !e.Update? && !e.WriterStep?
    ensures ReaderOk(s, ReaderNext(s.mem, s.log, rd, e))
  {
    if rd.ColdRead? {
      ColdReaderStep(s, rd, e);
    } else if rd.Fallback? && e.ReadField? {
      FallbackReaderStep(s, rd, e);
    } else {
      HotFieldsAreRecent(s, 0);
      BufferKeptForOneUpdate(s, s.log.swaps) by { assert ColdOk(s); }
      hide DarkOk, HotOk, ColdOk;
    }
  }

  lemma FallbackReaderStep(s: State, rd: Reader, e: Event)
    requires WriterInv(s) && ReaderOk(s, rd) && rd.Fallback? && e.ReadField?
    ensures ReaderOk(s, ReaderNext(s.mem, s.log, rd, e))
  {
    var Fallback(from, got) := rd;
    if e.i < FIELDS {
      HotFieldsAreRecent(s, e.i);
      hide DarkOk, HotOk, ColdOk;
      var hi := Newest(s.mem.version);
      FieldStays(s.log, s.log, s.mem.version / 2, hi, from / 2, hi, e.i, s.mem.hot[e.i]);
      FromSetsAppend(s.log, from / 2, hi, got, e.i, s.mem.hot[e.i]);
    }
  }

  lemma StepKeepsInv(s: State, e: Event)
    requires Inv(s)
    ensures Inv(Step(s, e))
  {
    var s' := Step(s, e);
    if e.Update? {
      UpdateKeepsWriterInv(s, e.params);
    } else if e.WriterStep? {
      WriterStepKeepsWriterInv(s);
    } else {
      ReaderStepKeepsInv(s, e);
    }
    if e.Update? || e.WriterStep? {
      assert Grown(s, s');
      forall r: nat | r < |s.readers| ensures ReaderOk(s', s'.readers[r]) && SeenOk(s', r) {
        assert SeenOk(s, r);
        ReaderOkStable(s, s', s.readers[r]);
      }
    }
  }

  lemma WriterInvIgnoresReaders(s: State, s': State)
    requires WriterInv(s) && s' == s.(readers := s'.readers, log := s.log.(seen := s'.log.seen))
    ensures WriterInv(s')
  {
  }

  lemma ReaderStepKeepsInv(s: State, e: Event)
    requires Inv(s) && !e.Update? && !e.WriterStep?
    ensures Inv(Step(s, e))
  {
    var s' := Step(s, e);
    var r := ReaderOf(e);
    WriterInvIgnoresReaders(s, s');
    if r < |s.readers| {
      assert SeenOk(s, r);
      ReaderStepKeepsReader(s, s.readers[r], e);
      ReaderStepKeepsSeen(s, e);
      hide DarkOk, HotOk, ColdOk, ReaderNext;
      forall q: nat | q < |s.readers| && q != r ensures ReaderOk(s', s'.readers[q]) && SeenOk(s', q) {
        assert SeenOk(s, q) && ReaderOk(s, s.readers[q]);
        ReaderOkStable(s, s', s.readers[q]);
      }
      ReaderOkStable(s, s', s'.readers[r]);
    }
  }

  /** A matched read adds the version it saw, which nothing seen before exceeds. */
  lemma ReaderStepKeepsSeen(s: State, e: Event)
    requires Inv(s) && !e.Update? && !e.WriterStep? && ReaderOf(e) < |s.readers|
    ensures WellFormed(Step(s, e).mem) && SeenOk(Step(s, e), ReaderOf(e))
  {
    var r := ReaderOf(e);
    assert SeenOk(s, r) && ReaderOk(s, s.readers[r]);
    StepWellFormed(s, e);
    hide Inv, WriterInv;
  }

  lemma {:induction false} RunKeepsInv(s: State, es: Schedule)
    requires Inv(s)
    ensures Inv(Run(s, es))
    decreases |es|
  {
    if es != [] {
      StepKeepsInv(s, es[0]);
      RunKeepsInv(Step(s, es[0]), es[1..]);
    }
  }
}
