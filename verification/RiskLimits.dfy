/**
 Where the guarantees of parameter publication end: exactly when the fallback
 read is of one set, and that a cold reader's grace is one update, no longer.
 */
module RiskLimits {
  import opened RiskMachine
  import opened RiskProofs
  import opened RiskTheorems

  function WriterSteps(n: nat): Schedule { seq(n, _ => WriterStep) }

  lemma {:induction false} RunSplit(s: State, a: Schedule, b: Schedule)
    requires WellFormed(s.mem)
    ensures Run(s, a + b) == Run(Run(s, a), b)
    decreases |a|
  {
    if a == [] {
      assert a + b == b;
    } else {
      assert (a + b)[1..] == a[1..] + b;
      StepWellFormed(s, a[0]);
      RunSplit(Step(s, a[0]), a[1..], b);
    }
  }

  lemma RunOnce(s: State, e: Event)
    requires WellFormed(s.mem)
    ensures Run(s, [e]) == Step(s, e)
  {
    StepWellFormed(s, e);
    assert [e][1..] == [];
  }

  /** A run of writer steps alone is the writer's own run; readers and parameters stay. */
  lemma {:induction false} RunIsWriterRun(s: State, n: nat)
    requires WellFormed(s.mem)
    ensures var t := Run(s, WriterSteps(n));
            && (t.mem, t.writer) == WriterRun(s.mem, s.writer, n)
            && t.readers == s.readers && t.log == s.log.(swaps := t.log.swaps)
    decreases n
  {
    if n > 0 {
      assert WriterSteps(n)[1..] == WriterSteps(n - 1);
      StepWellFormed(s, WriterStep);
      RunIsWriterRun(Step(s, WriterStep), n - 1);
    }
  }

  /** While version is odd every attempt fails, up to the fallback. */
  lemma {:induction false} AttemptsFailWhileOdd(s: State, attempt: nat, from: nat)
    requires WellFormed(s.mem) && |s.readers| > 0 && |s.log.seen| > 0
    requires s.mem.version % 2 == 1 && attempt < MAX_RETRIES && s.readers[0] == Load(attempt, from)
    ensures Run(s, seq(MAX_RETRIES - attempt, _ => LoadVersion(0))) == s.(readers := s.readers[0 := Fallback(from, [])])
    decreases MAX_RETRIES - attempt
  {
    var es: Schedule := seq(MAX_RETRIES - attempt, _ => LoadVersion(0));
    var s' := s.(readers := s.readers[0 := Retry(attempt, from)]);
    assert Step(s, es[0]) == s';
    if attempt + 1 < MAX_RETRIES {
      assert es[1..] == seq(MAX_RETRIES - (attempt + 1), _ => LoadVersion(0));
      AttemptsFailWhileOdd(s', attempt + 1, from);
    } else {
      assert es[1..] == [];
    }
  }

  // ---------------------------------------------------------------------
  // The fallback: exactly when it is whole
  // ---------------------------------------------------------------------

  /** The schedule updates to parameters of the given kind only, as often as it likes. */
  ghost predicate OnlyUpdates(es: Schedule, kind: iset<RiskParameters>) {
    forall n :: 0 <= n < |es| && es[n].Update? ==> es[n].params in kind
  }

  /** The reads are those of one set, the first or a published one. */
  ghost predicate Whole(log: Log, got: Reads) {
    exists k: nat :: FromSet(log, k, got)
  }

  /** If reader r has just returned from the fallback, its reads are whole. */
  ghost predicate FallbackWhole(t: State, r: nat) {
    r < |t.readers| && t.readers[r].Outside? && t.readers[r].out.Unmatched? ==> Whole(t.log, t.readers[r].out.got)
  }

  /** No field was read twice. */
  ghost predicate EachOnce(got: Reads) {
    forall m, n :: 0 <= m < n < |got| ==> got[m].0 != got[n].0
  }

  ghost predicate FallbackWholeIfOnce(t: State, r: nat) {
    r < |t.readers| && t.readers[r].Outside? && t.readers[r].out.Unmatched? && EachOnce(t.readers[r].out.got)
    ==> Whole(t.log, t.readers[r].out.got)
  }

  /** The parameters of all updates begun are of the kind the schedule admits. */
  lemma {:induction false} UpdatesLogged(s: State, es: Schedule, kind: iset<RiskParameters>)
    requires WellFormed(s.mem) && OnlyUpdates(es, kind) && |s.log.params| > 0
    requires forall j :: 0 < j < |s.log.params| ==> s.log.params[j] in kind
    ensures var log := Run(s, es).log;
            log.first == s.log.first && |log.params| > 0 && forall j :: 0 < j < |log.params| ==> log.params[j] in kind
    decreases |es|
  {
    if es != [] {
      StepWellFormed(s, es[0]);
      assert OnlyUpdates(es[1..], kind);
      UpdatesLogged(Step(s, es[0]), es[1..], kind);
    }
  }

  /** Between updates, reader 0 idle. */
  ghost predicate AtRest(s: State) {
    && WellFormed(s.mem) && s.writer == Rest && s.mem.version % 2 == 0
    && |s.readers| == |s.log.seen| && |s.readers| > 0 && s.readers[0].Outside?
  }

  /** hot_params_ when n fields of p have been copied over the old ones. */
  function Mixed(p: RiskParameters, before: Hot, n: nat): Hot
    requires |before| == FIELDS && n <= FIELDS
  {
    BuildHot(p)[..n] + before[n..]
  }

  /** t is in the middle of an update that began at s, with n fields copied. */
  ghost predicate Copied(s: State, p: RiskParameters, n: nat, t: State) {
    && WellFormed(s.mem) && WellFormed(t.mem) && n <= FIELDS
    && t.mem.version == s.mem.version + 1 && t.writer == Copy(n)
    && t.mem.cold[t.mem.writeIdx].hot == BuildHot(p) && t.mem.hot == Mixed(p, s.mem.hot, n)
    && t.log.first == s.log.first && t.log.params == s.log.params + [p] && |t.log.seen| == |s.log.seen|
  }

  lemma CopyOne(s: State, p: RiskParameters, n: nat, t: State)
    requires Copied(s, p, n, t) && n < FIELDS
    ensures Copied(s, p, n + 1, Step(t, WriterStep)) && Step(t, WriterStep).readers == t.readers
  {
    assert Step(t, WriterStep).mem.hot == Mixed(p, s.mem.hot, n + 1);
  }

  /** The copy goes on while the readers stand still. */
  lemma {:induction false} CopyMore(s: State, p: RiskParameters, n: nat, m: nat, t: State)
    requires Copied(s, p, n, t) && n <= m <= FIELDS
    ensures Copied(s, p, m, Run(t, WriterSteps(m - n))) && Run(t, WriterSteps(m - n)).readers == t.readers
    decreases m - n
  {
    if n < m {
      CopyOne(s, p, n, t);
      assert WriterSteps(m - n)[1..] == WriterSteps(m - n - 1);
      CopyMore(s, p, n + 1, m, Step(t, WriterStep));
    }
  }

  lemma {:induction false} CopyLeavesLog(s: State, p: RiskParameters, n: nat, m: nat, t: State)
    requires Copied(s, p, n, t) && n <= m <= FIELDS
    ensures Run(t, WriterSteps(m - n)).log == t.log
    decreases m - n
  {
    if n < m {
      CopyOne(s, p, n, t);
      assert WriterSteps(m - n)[1..] == WriterSteps(m - n - 1);
      CopyLeavesLog(s, p, n + 1, m, Step(t, WriterStep));
    }
  }

  /** From rest to the start of the copy. */
  lemma CopyBegins(s: State, p: RiskParameters) returns (es: Schedule)
    requires AtRest(s)
    ensures Copied(s, p, 0, Run(s, es)) && Run(s, es).readers == s.readers && OnlyUpdates(es, iset{p})
  {
    var s1 := Step(s, Update(p));
    RunOnce(s, Update(p));
    var steps := PrepareRuns(s1.mem, p);
    RunIsWriterRun(s1, steps);
    RunSplit(s, [Update(p)], WriterSteps(steps));
    es := [Update(p)] + WriterSteps(steps);
    assert Run(s, es).mem.hot == Mixed(p, s.mem.hot, 0);
  }

  /** From rest through one whole update to rest. */
  lemma WholeUpdate(s: State, p: RiskParameters) returns (es: Schedule)
    requires AtRest(s)
    ensures AtRest(Run(s, es)) && OnlyUpdates(es, iset{p})
    ensures var t := Run(s, es);
            t.mem.hot == BuildHot(p) && t.log.first == s.log.first && t.log.params == s.log.params + [p]
  {
    var s1 := Step(s, Update(p));
    RunOnce(s, Update(p));
    var steps := UpdateRuns(s1.mem, p);
    RunIsWriterRun(s1, steps);
    RunSplit(s, [Update(p)], WriterSteps(steps));
    es := [Update(p)] + WriterSteps(steps);
  }

  /** A call of reader 0, its hundred failing attempts while version is odd. */
  const TRIES: Schedule := [Begin(0)] + seq(MAX_RETRIES, _ => LoadVersion(0))

  lemma TriesRun(t: State)
    requires WellFormed(t.mem) && |t.readers| > 0 && |t.log.seen| > 0
    requires t.mem.version % 2 == 1 && t.readers[0].Outside?
    ensures Run(t, TRIES) == t.(readers := t.readers[0 := Fallback(t.mem.version, [])])
  {
    var t1 := t.(readers := t.readers[0 := Load(0, t.mem.version)]);
    assert Step(t, Begin(0)) == t1;
    RunOnce(t, Begin(0));
    AttemptsFailWhileOdd(t1, 0, t.mem.version);
    RunSplit(t, [Begin(0)], seq(MAX_RETRIES, _ => LoadVersion(0)));
    assert t1.readers[0 := Fallback(t.mem.version, [])] == t.readers[0 := Fallback(t.mem.version, [])];
  }

  /** A fallback that has begun before the copy's first field. */
  lemma FallbackBegins(s: State, p: RiskParameters) returns (es: Schedule)
    requires AtRest(s)
    ensures var t := Run(s, es);
            && Copied(s, p, 0, t) && |t.readers| > 0 && t.readers[0] == Fallback(s.mem.version + 1, [])
            && OnlyUpdates(es, iset{p})
  {
    var begun := CopyBegins(s, p);
    TriesRun(Run(s, begun));
    RunSplit(s, begun, TRIES);
    es := begun + TRIES;
  }

  lemma ReadStep(t: State, i: nat, from: nat, got: Reads)
    requires WellFormed(t.mem) && |t.readers| > 0 && |t.log.seen| > 0 && i < FIELDS
    requires t.readers[0] == Fallback(from, got)
    ensures Run(t, [ReadField(0, i)]) == t.(readers := t.readers[0 := Fallback(from, got + [(i, t.mem.hot[i])])])
  {
    hide WriterNext, WellFormed, Run;
    RunOnce(t, ReadField(0, i));
    assert Step(t, ReadField(0, i)).log == t.log;
  }

  lemma FinishStep(t: State, from: nat, got: Reads)
    requires WellFormed(t.mem) && |t.readers| > 0 && |t.log.seen| > 0 && t.readers[0] == Fallback(from, got)
    ensures Run(t, [Finish(0)]) == t.(readers := t.readers[0 := Outside(Unmatched(from, t.mem.version, got))])
  {
    hide WriterNext, WellFormed, Run;
    RunOnce(t, Finish(0));
    assert Step(t, Finish(0)).log == t.log;
  }

  /** Field i once it is copied, and the end. */
  lemma LooksAfter(s: State, p: RiskParameters, i: nat, t: State, got: Reads) returns (es: Schedule)
    requires Copied(s, p, 0, t) && i < FIELDS && |t.log.seen| > 0
    requires |t.readers| > 0 && t.readers[0] == Fallback(t.mem.version, got)
    ensures es == WriterSteps(i + 1) + ([ReadField(0, i)] + [Finish(0)])
    ensures Run(t, es).log == t.log && |Run(t, es).readers| > 0
    ensures var v := t.mem.version; Run(t, es).readers[0] == Outside(Unmatched(v, v, got + [(i, BuildHot(p)[i])]))
  {
    hide Step;
    CopyMore(s, p, 0, i + 1, t);
    CopyLeavesLog(s, p, 0, i + 1, t);
    var t2 := Run(t, WriterSteps(i + 1));
    assert t2.mem.hot[i] == BuildHot(p)[i];
    ReadStep(t2, i, t.mem.version, got);
    var t3 := Run(t2, [ReadField(0, i)]);
    FinishStep(t3, t.mem.version, got + [(i, BuildHot(p)[i])]);
    RunSplit(t2, [ReadField(0, i)], [Finish(0)]);
    RunSplit(t, WriterSteps(i + 1), [ReadField(0, i)] + [Finish(0)]);
    es := WriterSteps(i + 1) + ([ReadField(0, i)] + [Finish(0)]);
  }

  /** Field j before the copy, field i after it, and the end. */
  lemma LooksAround(s: State, p: RiskParameters, j: nat, i: nat, t: State) returns (es: Schedule)
    requires Copied(s, p, 0, t) && i < FIELDS && j < FIELDS && |t.log.seen| > 0
    requires |t.readers| > 0 && t.readers[0] == Fallback(t.mem.version, [])
    ensures Run(t, es).log == t.log && |Run(t, es).readers| > 0 && forall n :: 0 <= n < |es| ==> !es[n].Update?
    ensures var v := t.mem.version;
            Run(t, es).readers[0] == Outside(Unmatched(v, v, [(j, s.mem.hot[j]), (i, BuildHot(p)[i])]))
  {
    hide Step;
    var v, x := t.mem.version, s.mem.hot[j];
    ReadStep(t, j, v, []);
    assert [] + [(j, t.mem.hot[j])] == [(j, x)];
    var t1 := Run(t, [ReadField(0, j)]);
    var rest := LooksAfter(s, p, i, t1, [(j, x)]);
    assert [(j, x)] + [(i, BuildHot(p)[i])] == [(j, x), (i, BuildHot(p)[i])];
    RunSplit(t, [ReadField(0, j)], rest);
    es := [ReadField(0, j)] + rest;
  }

  /** Any update can be caught with the old value of one field and the new one of any other, or of the same. */
  lemma OldThenNew(s: State, p: RiskParameters, j: nat, i: nat) returns (es: Schedule)
    requires AtRest(s) && i < FIELDS && j < FIELDS
    ensures var t := Run(s, es);
            && OnlyUpdates(es, iset{p}) && t.log.first == s.log.first && t.log.params == s.log.params + [p]
            && |t.readers| > 0 && t.readers[0].Outside? && t.readers[0].out.Unmatched?
            && t.readers[0].out.got == [(j, s.mem.hot[j]), (i, BuildHot(p)[i])]
  {
    hide Step, BuildHot;
    var start := FallbackBegins(s, p);
    var looks := LooksAround(s, p, j, i, Run(s, start));
    RunSplit(s, start, looks);
    es := start + looks;
  }

  /** Two reads that disagree with every set there is. */
  lemma NotOfOneSet(log: Log, j: nat, x: int, i: nat, y: int)
    requires |log.first| == FIELDS && i < FIELDS && j < FIELDS
    requires forall k :: 0 <= k < |log.params| ==> x != SetAt(log, k)[j] || y != SetAt(log, k)[i]
    ensures !Whole(log, [(j, x), (i, y)])
  {
    hide SetAt;
    var got := [(j, x), (i, y)];
    forall k: nat ensures !FromSet(log, k, got) {
      assert got[0] == (j, x) && got[1] == (i, y);
    }
  }

  /**
   Exactly when the fallback can be trusted: whatever func reads and however
   often, every fallback read of every run is of one set if and only if no
   update ever changes the converted parameters.
   */
  lemma FallbackWholeIff(s: State, kind: iset<RiskParameters>)
    requires Init(s) && |s.readers| > 0
    ensures (forall es: Schedule, r: nat :: OnlyUpdates(es, kind) ==> FallbackWhole(Run(s, es), r))
            <==> (forall p :: p in kind ==> BuildHot(p) == s.mem.hot)
  {
    if forall p :: p in kind ==> BuildHot(p) == s.mem.hot {
      forall es: Schedule, r: nat | OnlyUpdates(es, kind) ensures FallbackWhole(Run(s, es), r) {
        OneSetIsWhole(s, es, kind, r);
      }
    } else {
      var p :| p in kind && BuildHot(p) != s.mem.hot;
      var i :| 0 <= i < FIELDS && BuildHot(p)[i] != s.mem.hot[i];
      var es := OldThenNew(s, p, i, i);
      TwoSets(Run(s, es).log, s, p);
      NotOfOneSet(Run(s, es).log, i, s.mem.hot[i], i, BuildHot(p)[i]);
      assert OnlyUpdates(es, kind) && !FallbackWhole(Run(s, es), 0);
    }
  }

  /** After one update begun from the start there are two sets. */
  lemma TwoSets(log: Log, s: State, p: RiskParameters)
    requires Init(s) && log.first == s.log.first && log.params == s.log.params + [p]
    ensures |log.first| == FIELDS && |log.params| == 2 && SetAt(log, 0) == s.mem.hot && SetAt(log, 1) == BuildHot(p)
  {
  }

  lemma OneSetIsWhole(s: State, es: Schedule, kind: iset<RiskParameters>, r: nat)
    requires Init(s) && OnlyUpdates(es, kind) && forall p :: p in kind ==> BuildHot(p) == s.mem.hot
    ensures FallbackWhole(Run(s, es), r)
  {
    var t := Run(s, es);
    UpdatesLogged(s, es, kind);
    if r < |t.readers| && t.readers[r].Outside? && t.readers[r].out.Unmatched? {
      FallbackFieldsAreRecent(s, es, r);
      hide Init, Step, BuildHot;
      var got := t.readers[r].out.got;
      forall n | 0 <= n < |got| ensures got[n].0 < FIELDS && got[n].1 == SetAt(t.log, 0)[got[n].0] {
        var j := SetOfField(t.log, t.readers[r].out.from / 2, Newest(t.readers[r].out.upTo), got, n);
        assert SetAt(t.log, j) == s.mem.hot;
      }
      assert FromSet(t.log, 0, got);
    }
  }

  lemma SetOfField(log: Log, lo: nat, hi: nat, got: Reads, n: nat) returns (j: nat)
    requires FromSets(log, lo, hi, got) && n < |got|
    ensures j < |log.params| && got[n].0 < FIELDS && SetAt(log, j)[got[n].0] == got[n].1
  {
    assert FieldOfSome(log, lo, hi, got[n].0, got[n].1);
    j :| lo <= j <= hi && j < |log.params| && SetAt(log, j)[got[n].0] == got[n].1;
  }

  /** The two sets differ in one field at most. */
  ghost predicate DifferInOne(a: Hot, b: Hot)
    requires |a| == FIELDS && |b| == FIELDS
  {
    forall i, j :: 0 <= i < j < FIELDS ==> a[i] == b[i] || a[j] == b[j]
  }

  /** Any two of the first set and those that updates of the kind install differ in one field at most. */
  ghost predicate DifferPairwiseInOne(first: Hot, kind: iset<RiskParameters>)
    requires |first| == FIELDS
  {
    && (forall p :: p in kind ==> DifferInOne(BuildHot(p), first))
    && (forall p, q :: p in kind && q in kind ==> DifferInOne(BuildHot(p), BuildHot(q)))
  }

  /**
   For a func that reads no field twice: every fallback read of every run is of
   one set if and only if no two of the sets that runs can install differ in
   more than one field.
   */
  lemma FallbackWholeOnceIff(s: State, kind: iset<RiskParameters>)
    requires Init(s) && |s.readers| > 0
    ensures (forall es: Schedule, r: nat :: OnlyUpdates(es, kind) ==> FallbackWholeIfOnce(Run(s, es), r))
            <==> DifferPairwiseInOne(s.mem.hot, kind)
  {
    if DifferPairwiseInOne(s.mem.hot, kind) {
      forall es: Schedule, r: nat | OnlyUpdates(es, kind) ensures FallbackWholeIfOnce(Run(s, es), r) {
        OneFieldIsWhole(s, es, kind, r);
      }
    } else if p :| p in kind && !DifferInOne(BuildHot(p), s.mem.hot) {
      var es := TornFromFirst(s, p);
      assert OnlyUpdates(es, kind);
    } else {
      var p, q :| p in kind && q in kind && !DifferInOne(BuildHot(p), BuildHot(q));
      var es := TornBetween(s, q, p, kind);
    }
  }

  /** A first update to a set that differs in two fields can be read in part. */
  lemma TornFromFirst(s: State, p: RiskParameters) returns (es: Schedule)
    requires Init(s) && |s.readers| > 0 && !DifferInOne(BuildHot(p), s.mem.hot)
    ensures OnlyUpdates(es, iset{p}) && !FallbackWholeIfOnce(Run(s, es), 0)
  {
    hide BuildHot;
    var i, j :| 0 <= i < j < FIELDS && BuildHot(p)[i] != s.mem.hot[i] && BuildHot(p)[j] != s.mem.hot[j];
    es := OldThenNew(s, p, j, i);
    TwoSets(Run(s, es).log, s, p);
    NotOfOneSet(Run(s, es).log, j, s.mem.hot[j], i, BuildHot(p)[i]);
  }

  /**
   So can the second of two updates whose sets differ in two fields: of the two
   ways to mix them, one at least is not the first set either.
   */
  lemma TornBetween(s: State, q: RiskParameters, p: RiskParameters, kind: iset<RiskParameters>) returns (es: Schedule)
    requires Init(s) && |s.readers| > 0 && p in kind && q in kind && !DifferInOne(BuildHot(p), BuildHot(q))
    ensures OnlyUpdates(es, kind) && !FallbackWholeIfOnce(Run(s, es), 0)
  {
    hide BuildHot, Step;
    var i, j :| 0 <= i < j < FIELDS && BuildHot(p)[i] != BuildHot(q)[i] && BuildHot(p)[j] != BuildHot(q)[j];
    if s.mem.hot[j] == BuildHot(q)[j] && s.mem.hot[i] == BuildHot(p)[i] { i, j := j, i; }
    var before := WholeUpdate(s, q);
    var s1 := Run(s, before);
    var torn := OldThenNew(s1, p, j, i);
    RunSplit(s, before, torn);
    es := before + torn;
    ThreeSets(Run(s, es).log, s, q, p);
    NotOfOneSet(Run(s, es).log, j, BuildHot(q)[j], i, BuildHot(p)[i]);
  }

  lemma ThreeSets(log: Log, s: State, q: RiskParameters, p: RiskParameters)
    requires Init(s) && log.first == s.log.first && log.params == s.log.params + [q] + [p]
    ensures |log.first| == FIELDS && |log.params| == 3
    ensures SetAt(log, 0) == s.mem.hot && SetAt(log, 1) == BuildHot(q) && SetAt(log, 2) == BuildHot(p)
  {
  }

  lemma OneFieldIsWhole(s: State, es: Schedule, kind: iset<RiskParameters>, r: nat)
    requires Init(s) && OnlyUpdates(es, kind) && DifferPairwiseInOne(s.mem.hot, kind)
    ensures FallbackWholeIfOnce(Run(s, es), r)
  {
    var t := Run(s, es);
    UpdatesLogged(s, es, kind);
    if r < |t.readers| && t.readers[r].Outside? && t.readers[r].out.Unmatched? && EachOnce(t.readers[r].out.got) {
      FallbackFieldsAreRecent(s, es, r);
      var log := t.log;
      forall a, b | 0 <= a < |log.params| && 0 <= b < |log.params| ensures DifferInOne(SetAt(log, a), SetAt(log, b)) {
        LoggedPair(log, s.mem.hot, kind, a, b);
      }
      OneFieldOfSets(log, t.readers[r].out.from / 2, Newest(t.readers[r].out.upTo), t.readers[r].out.got);
    }
  }

  lemma LoggedPair(log: Log, first: Hot, kind: iset<RiskParameters>, a: nat, b: nat)
    requires |first| == FIELDS && log.first == first && DifferPairwiseInOne(first, kind)
    requires a < |log.params| && b < |log.params| && forall j :: 0 < j < |log.params| ==> log.params[j] in kind
    ensures DifferInOne(SetAt(log, a), SetAt(log, b))
  {
    hide BuildHot;
  }

  /** Sets of which any two differ in one field at most all differ in the same field. */
  lemma CommonField(log: Log) returns (d: nat)
    requires |log.first| == FIELDS
    requires forall a, b :: 0 <= a < |log.params| && 0 <= b < |log.params| ==> DifferInOne(SetAt(log, a), SetAt(log, b))
    ensures forall a, b, e :: 0 <= a < |log.params| && 0 <= b < |log.params| && 0 <= e < FIELDS && e != d ==>
              SetAt(log, a)[e] == SetAt(log, b)[e]
  {
    hide SetAt;
    if a, b, f :| 0 <= a < |log.params| && 0 <= b < |log.params| && 0 <= f < FIELDS
                  && SetAt(log, a)[f] != SetAt(log, b)[f] {
      d := f;
      forall c, e | 0 <= c < |log.params| && 0 <= e < FIELDS && e != d ensures SetAt(log, c)[e] == SetAt(log, a)[e] {
        assert DifferInOne(SetAt(log, a), SetAt(log, b));
        assert DifferInOne(SetAt(log, c), SetAt(log, a)) && DifferInOne(SetAt(log, c), SetAt(log, b));
        assert SetAt(log, a)[e] == SetAt(log, b)[e];
      }
    } else {
      d := 0;
    }
  }

  lemma OneFieldOfSets(log: Log, lo: nat, hi: nat, got: Reads)
    requires |log.params| > 0 && |log.first| == FIELDS && FromSets(log, lo, hi, got) && EachOnce(got)
    requires forall a, b :: 0 <= a < |log.params| && 0 <= b < |log.params| ==> DifferInOne(SetAt(log, a), SetAt(log, b))
    ensures Whole(log, got)
  {
    hide SetAt, DifferInOne;
    var d := CommonField(log);
    var k: nat := 0;
    if m: nat :| m < |got| && got[m].0 == d {
      k := SetOfField(log, lo, hi, got, m);
      assert forall n :: 0 <= n < |got| && got[n].0 == d ==> n == m;
    }
    forall n | 0 <= n < |got| ensures got[n].0 < FIELDS && got[n].1 == SetAt(log, k)[got[n].0] {
      var j := SetOfField(log, lo, hi, got, n);
    }
    assert FromSet(log, k, got);
  }

  /** What a fallback has read so far, or read in all. */
  function FallbackReads(rd: Reader): Reads
    requires FellBack(rd)
  {
    if rd.Fallback? then rd.got else rd.out.got
  }

  lemma {:induction false} VersionGrows(s: State, es: Schedule)
    requires WellFormed(s.mem)
    ensures Run(s, es).mem.version >= s.mem.version
    decreases |es|
  {
    if es != [] {
      StepWellFormed(s, es[0]);
      VersionGrows(Step(s, es[0]), es[1..]);
    }
  }

  lemma QuietStep(s: State, e: Event, r: nat)
    requires Inv(s) && r < |s.readers| && FellBack(s.readers[r]) && e != Begin(r) && e != BeginCold(r)
    requires s.mem.version % 2 == 0 && FromSet(s.log, s.mem.version / 2, FallbackReads(s.readers[r]))
    ensures var t := Step(s, e);
            && |t.readers| == |s.readers| && FellBack(t.readers[r])
            && FromSet(t.log, s.mem.version / 2, FallbackReads(t.readers[r]))
  {
    HotFieldsAreRecent(s, 0);
    StepAround(s, e, r);
    hide Inv, WriterInv, BuildHot, SetAt, FromSet, Step;
    FromSetStays(s.log, Step(s, e).log, s.mem.version / 2, FallbackReads(s.readers[r]));
    if e.ReadField? && e.r == r && s.readers[r].Fallback? { QuietRead(s, e.i, r); }
  }

  /** What a step leaves of a reader that has fallen back, unless the step is its next read. */
  lemma StepAround(s: State, e: Event, r: nat)
    requires Inv(s) && r < |s.readers| && FellBack(s.readers[r]) && e != Begin(r) && e != BeginCold(r)
    ensures WellFormed(s.mem) && |s.readers| == |s.log.seen|
    ensures var t := Step(s, e);
            && |t.readers| == |s.readers| && t.log.first == s.log.first && s.log.params <= t.log.params
            && (!(e.ReadField? && e.r == r && s.readers[r].Fallback?) ==>
                  FellBack(t.readers[r]) && FallbackReads(t.readers[r]) == FallbackReads(s.readers[r]))
  {
    hide DarkOk, HotOk, ColdOk, ReaderOk, SeenOk, WriterNext;
    if !e.Update? && !e.WriterStep? && ReaderOf(e) != r {
      assert Step(s, e).readers[r] == s.readers[r];
    }
  }

  lemma QuietRead(s: State, i: nat, r: nat)
    requires WellFormed(s.mem) && r < |s.readers| == |s.log.seen| && s.readers[r].Fallback?
    requires var k := s.mem.version / 2; FromSet(s.log, k, s.readers[r].got) && s.mem.hot == SetAt(s.log, k)
    ensures var t := Step(s, ReadField(r, i));
            && |t.readers| == |s.readers| && t.readers[r].Fallback?
            && FromSet(t.log, s.mem.version / 2, t.readers[r].got)
  {
    hide SetAt;
    var got := s.readers[r].got;
    if i < FIELDS {
      assert Step(s, ReadField(r, i)).readers[r].got == got + [(i, s.mem.hot[i])];
    }
  }

  lemma FromSetStays(log: Log, log': Log, k: nat, got: Reads)
    requires FromSet(log, k, got) && log'.first == log.first && log.params <= log'.params
    ensures FromSet(log', k, got)
  {
    assert SetAt(log', k) == SetAt(log, k);
  }

  /**
   Over every run: a fallback whose reads all happen while version is even and
   does not change is of one set, the one hot_params_ holds all the while.
   */
  lemma {:induction false} FallbackWithoutWriteIsWhole(s: State, es: Schedule, r: nat)
    requires Inv(s) && r < |s.readers| && FellBack(s.readers[r])
    requires Begin(r) !in es && BeginCold(r) !in es
    requires s.mem.version % 2 == 0 && Run(s, es).mem.version == s.mem.version
    requires FromSet(s.log, s.mem.version / 2, FallbackReads(s.readers[r]))
    ensures var t := Run(s, es);
            && r < |t.readers| && FellBack(t.readers[r])
            && FromSet(t.log, t.mem.version / 2, FallbackReads(t.readers[r]))
    decreases |es|
  {
    if es != [] {
      assert es[0] in es;
      var t := Step(s, es[0]);
      StepKeepsInv(s, es[0]);
      VersionGrows(s, [es[0]]);
      RunOnce(s, es[0]);
      VersionGrows(t, es[1..]);
      QuietStep(s, es[0], r);
      hide Inv, Step, FromSet;
      FallbackWithoutWriteIsWhole(t, es[1..], r);
    }
  }

  lemma RunLast(s: State, es: Schedule)
    requires WellFormed(s.mem) && es != []
    ensures var n := |es| - 1; Run(s, es) == Step(Run(s, es[..n]), es[n])
  {
    var n := |es| - 1;
    assert es == es[..n] + [es[n]];
    RunSplit(s, es[..n], [es[n]]);
    RunOnce(Run(s, es[..n]), es[n]);
  }

  /** One step adds at most the field it reads to what a fallback has read. */
  lemma StepReads(t: State, e: Event, r: nat)
    requires WellFormed(t.mem) && r < |t.readers| && FellBack(Step(t, e).readers[r])
    ensures var rd, rd' := t.readers[r], Step(t, e).readers[r];
            || (FellBack(rd) && FallbackReads(rd') == FallbackReads(rd))
            || (rd.Fallback? && e.ReadField? && e.r == r && e.i < FIELDS
                && FallbackReads(rd') == rd.got + [(e.i, t.mem.hot[e.i])])
            || FallbackReads(rd') == []
  {
    hide WriterNext;
    if !e.Update? && !e.WriterStep? && ReaderOf(e) != r {
      assert Step(t, e).readers[r] == t.readers[r];
    }
  }

  lemma InitHasNotFallenBack(s: State, es: Schedule, r: nat)
    requires Init(s) && r < |s.readers|
    ensures WellFormed(s.mem)
    ensures r < |Run(s, es).readers| && FellBack(Run(s, es).readers[r]) ==> es != []
  {
  }

  /**
   Each field of a fallback read is a value that field of hot_params_ held
   during the call: at step m, from which on the reader is in this fallback.
   */
  lemma {:induction false} FallbackFieldsWereHeld(s: State, es: Schedule, r: nat, n: nat) returns (m: nat)
    requires Init(s) && r < |s.readers|
    requires var t := Run(s, es); r < |t.readers| && FellBack(t.readers[r]) && n < |FallbackReads(t.readers[r])|
    ensures m < |es| && es[m].ReadField? && es[m].r == r
    ensures var (i, x) := FallbackReads(Run(s, es).readers[r])[n];
            es[m].i == i < FIELDS && Run(s, es[..m]).mem.hot[i] == x
    ensures forall q :: m <= q <= |es| ==>
              r < |Run(s, es[..q]).readers| && FellBack(Run(s, es[..q]).readers[r])
    decreases |es|
  {
    hide Init, Run, Step, WellFormed;
    InitHasNotFallenBack(s, es, r);
    RunKeepsReaders(s, es);
    assert es[..|es|] == es;
    var k := |es| - 1;
    var t := Run(s, es[..k]);
    RunKeepsReaders(s, es[..k]);
    RunLast(s, es);
    StepReads(t, es[k], r);
    if FellBack(t.readers[r]) && n < |FallbackReads(t.readers[r])| {
      m := FallbackFieldsWereHeld(s, es[..k], r, n);
      assert forall q :: 0 <= q <= k ==> es[..k][..q] == es[..q];
    } else {
      m := k;
    }
  }

  lemma RunThree(s: State, a: Event, b: Event, c: Event)
    requires WellFormed(s.mem)
    ensures WellFormed(Step(s, a).mem) && WellFormed(Step(Step(s, a), b).mem)
    ensures Run(s, [a, b, c]) == Step(Step(Step(s, a), b), c)
  {
    StepWellFormed(s, a);
    StepWellFormed(Step(s, a), b);
    assert [a, b, c] == [a] + ([b] + [c]);
    RunSplit(s, [a], [b] + [c]);
    RunSplit(Step(s, a), [b], [c]);
    RunOnce(s, a);
    RunOnce(Step(s, a), b);
    RunOnce(Step(Step(s, a), b), c);
  }

  const LOOKS: Schedule := [ReadField(0, 0), ReadField(0, 1), Finish(0)]

  lemma ColdReadStep(t: State, i: nat, b: nat, c: nat, got: ParamReads)
    requires WellFormed(t.mem) && |t.readers| > 0 && |t.log.seen| > 0 && b < 2 && i < PARAMS
    requires t.readers[0] == ColdRead(b, c, got)
    ensures Step(t, ReadField(0, i))
            == t.(readers := t.readers[0 := ColdRead(b, c, got + [(i, ParamAt(t.mem.cold[b].params, i))])])
  {
  }

  lemma ColdLooks(s: State, b: nat, c: nat)
    requires WellFormed(s.mem) && |s.readers| > 0 && |s.log.seen| > 0 && b < 2 && s.readers[0] == ColdRead(b, c, [])
    ensures var p := s.mem.cold[b].params;
            Run(s, LOOKS)
            == s.(readers := s.readers[0 := Outside(ColdResult(c, |s.log.params| - 1,
                                                               [(0, ParamAt(p, 0)), (1, ParamAt(p, 1))]))])
  {
    RunThree(s, LOOKS[0], LOOKS[1], LOOKS[2]);
    var x, y := (0, ParamAt(s.mem.cold[b].params, 0)), (1, ParamAt(s.mem.cold[b].params, 1));
    ColdReadStep(s, 0, b, c, []);
    assert [] + [x] == [x];
    var s1 := Step(s, LOOKS[0]);
    ColdReadStep(s1, 1, b, c, [x]);
    assert [x] + [y] == [x, y];
    assert s1.readers[0 := ColdRead(b, c, [x, y])] == s.readers[0 := ColdRead(b, c, [x, y])];
  }

  lemma InitFacts(s: State)
    requires Init(s) && |s.readers| > 0
    ensures WellFormed(s.mem) && |s.log.seen| == |s.readers| && s.readers[0] == Outside(NoResult)
    ensures s.log.params == [s.mem.cold[0].params] && s.writer == Rest && s.mem.writeIdx == 1 && s.mem.active == 0
  {
  }

  /** After the first update the second one overwrites the first scalar of the buffer active before both. */
  lemma SecondUpdateReachesOldBuffer(s: State, p: RiskParameters, q: RiskParameters) returns (es: Schedule)
    requires WellFormed(s.mem) && s.writer == Rest && s.mem.writeIdx == 1
    ensures var t := Run(s, es);
            && WellFormed(t.mem) && t.readers == s.readers
            && t.log == s.log.(params := s.log.params + [p, q], swaps := t.log.swaps)
            && t.mem.cold[0].params == CopyParam(s.mem.cold[0].params, q, 0)
  {
    var s1 := s.(writer := SetParams(p, 0), log := s.log.(params := s.log.params + [p]));
    assert Step(s, Update(p)) == s1;
    RunOnce(s, Update(p));
    var n := UpdateRuns(s1.mem, p);
    RunIsWriterRun(s1, n);
    var s2 := Run(s1, WriterSteps(n));
    assert s2.writer == Rest && s2.mem == AfterUpdate(s.mem, p);
    RunOnce(s2, Update(q));
    RunOnce(Step(s2, Update(q)), WriterStep);
    RunSplit(s2, [Update(q)], [WriterStep]);
    RunSplit(s1, WriterSteps(n), [Update(q)] + [WriterStep]);
    RunSplit(s, [Update(p)], WriterSteps(n) + ([Update(q)] + [WriterStep]));
    es := [Update(p)] + (WriterSteps(n) + ([Update(q)] + [WriterStep]));
  }

  /** Once the second update after its pointer load has begun, a cold reader can mix two sets. */
  lemma ColdReadCanMixAfterGrace(s: State, p: RiskParameters, q: RiskParameters) returns (es: Schedule)
    requires Init(s) && |s.readers| > 0
    ensures var t := Run(s, es);
            var old0 := s.mem.cold[0].params;
            && t.log.params == [old0, p, q] && |t.readers| > 0
            && t.readers[0] == Outside(ColdResult(0, 2, [(0, ParamAt(q, 0)), (1, ParamAt(old0, 1))]))
  {
    InitFacts(s);
    assert s.log.swaps == 0;
    var s1 := s.(readers := s.readers[0 := ColdRead(0, 0, [])]);
    assert Step(s, BeginCold(0)) == s1;
    RunOnce(s, BeginCold(0));
    var writes := SecondUpdateReachesOldBuffer(s1, p, q);
    var s2 := Run(s1, writes);
    ColdLooks(s2, 0, 0);
    hide Step, Init;
    RunSplit(s1, writes, LOOKS);
    RunSplit(s, [BeginCold(0)], writes + LOOKS);
    es := [BeginCold(0)] + (writes + LOOKS);
    assert s2.log.params == [s.mem.cold[0].params, p, q];
  }

  /** If reader r has just returned from a cold read begun at most k updates ago, it read one set of parameters. */
  ghost predicate ColdWholeWithin(t: State, r: nat, k: nat) {
    r < |t.readers| && t.readers[r].Outside? && t.readers[r].out.ColdResult?
    && t.readers[r].out.begun <= t.readers[r].out.swaps + k
    ==> exists c: nat :: FromParams(t.log, c, t.readers[r].out.params)
  }

  /** The grace of a cold reader is one update: exactly up to there every read of every run is whole. */
  lemma ColdGraceIsOneUpdate(s: State, k: nat)
    requires Init(s) && |s.readers| > 0
    ensures (forall es: Schedule, r: nat :: ColdWholeWithin(Run(s, es), r, k)) <==> k <= 1
  {
    if k <= 1 {
      forall es: Schedule, r: nat ensures ColdWholeWithin(Run(s, es), r, k) {
        var t := Run(s, es);
        if r < |t.readers| && t.readers[r].Outside? && t.readers[r].out.ColdResult?
           && t.readers[r].out.begun <= t.readers[r].out.swaps + k {
          ColdReadHasOneUpdateOfGrace(s, es, r);
        }
      }
    } else {
      var first := s.mem.cold[0].params;
      var q := first.(maxOrderValue := first.maxOrderValue + 1.0, maxPositionValue := first.maxPositionValue + 1.0);
      var es := ColdReadCanMixAfterGrace(s, q, q);
      hide Init, Run;
      var t := Run(s, es);
      var got := t.readers[0].out.params;
      forall c: nat ensures !FromParams(t.log, c, got) {
        assert got[0] == (0, ParamAt(q, 0)) && got[1] == (1, ParamAt(first, 1));
      }
      assert !ColdWholeWithin(t, 0, k);
    }
  }
}
