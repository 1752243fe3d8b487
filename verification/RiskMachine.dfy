/**
 Publication of risk parameters as a step machine: one writer, any number of
 readers, one step for each scalar read or written.

 Shared memory is `hot_params_` (five fields behind a version counter that is
 odd while they change) and two cold buffers, one of which `active_cold_`
 names.  The writer runs publishParams and swapColdBuffers; hot readers run
 readHotParamsOptimistic; cold readers follow the pointer and read `params`.
 */
module RiskMachine {
  import opened Decimal

  /** The original configuration, as the operator gives it. */
  datatype RiskParameters = RiskParameters(
    maxOrderValue: real, maxPositionValue: real, maxOrdersPerSecond: nat,
    maxTotalPositionValue: real, minAvailableCapital: real, maxDrawdownPercent: real)

  const PARAMS: nat := 6

  /** The scalars of RiskParameters in declaration order. */
  function ParamAt(p: RiskParameters, i: nat): real {
    match i
    case 0 => p.maxOrderValue
    case 1 => p.maxPositionValue
    case 2 => p.maxOrdersPerSecond as real
    case 3 => p.maxTotalPositionValue
    case 4 => p.minAvailableCapital
    case _ => p.maxDrawdownPercent
  }

  /** Assigns scalar i of `from` into `to`. */
  function CopyParam(to: RiskParameters, from: RiskParameters, i: nat): RiskParameters {
    match i
    case 0 => to.(maxOrderValue := from.maxOrderValue)
    case 1 => to.(maxPositionValue := from.maxPositionValue)
    case 2 => to.(maxOrdersPerSecond := from.maxOrdersPerSecond)
    case 3 => to.(maxTotalPositionValue := from.maxTotalPositionValue)
    case 4 => to.(minAvailableCapital := from.minAvailableCapital)
    case _ => to.(maxDrawdownPercent := from.maxDrawdownPercent)
  }

  /** The fields of HotParams that precede `version`: four raw Decimals and the rate limit. */
  type Hot = seq<int>

  const FIELDS: nat := 5

  /** Field i of ColdParams::buildHot. */
  function HotField(p: RiskParameters, i: nat): int {
    match i
    case 0 => ToDecimal(p.maxOrderValue)
    case 1 => ToDecimal(p.maxPositionValue)
    case 2 => ToDecimal(p.maxTotalPositionValue)
    case 3 => ToDecimal(p.minAvailableCapital)
    case _ => p.maxOrdersPerSecond
  }

  function BuildHot(p: RiskParameters): (hot: Hot)
    ensures |hot| == FIELDS
  {
    seq(FIELDS, i requires i >= 0 => HotField(p, i))
  }

  datatype ColdParams = ColdParams(params: RiskParameters, hot: Hot, hotVersion: nat)

  datatype Memory = Memory(version: nat, hot: Hot, cold: seq<ColdParams>, active: nat, writeIdx: nat)

  /** Where the writer is; the number counts scalars already done. */
  datatype Writer =
    | Rest
    | SetParams(source: RiskParameters, i: nat)   // updateParameters fills the dark buffer
    | Build(i: nat)                               // buildHot
    | Stamp                                       // dark->hot.version
    | Open                                        // version becomes odd
    | Copy(i: nat)                                // memcpy into hot_params_
    | Close                                       // version becomes even
    | Swap                                        // active_cold_ names the dark buffer
    | Flip                                        // write_idx_ names the other
    | Back(i: nat)                                // memcpy into the new dark buffer's hot

  /** A field or scalar that a reader has read. */
  type Reads = seq<(nat, int)>
  type ParamReads = seq<(nat, real)>

  const MAX_RETRIES: nat := 100

  /** `from` is the version when the call began; in a result, `upTo` is the version when it ended. */
  datatype Reader =
    | Outside(out: Result)
    | Load(attempt: nat, from: nat)                          // about to load v1
    | Read(attempt: nat, from: nat, v1: nat, got: Reads)     // inside func, then load v2
    | Fallback(from: nat, got: Reads)                        // func after the last retry
    | ColdRead(buffer: nat, swaps: nat, params: ParamReads)      // following active_cold_

  datatype Result =
    | NoResult
    | Matched(version: nat, got: Reads)
    | Unmatched(from: nat, upTo: nat, got: Reads)
    | ColdResult(swaps: nat, begun: int, params: ParamReads)

  /** In the fallback, or returned from it. */
  predicate FellBack(rd: Reader) { rd.Fallback? || (rd.Outside? && rd.out.Unmatched?) }

  /**
   History, which no step reads back: the hot set before any update, the
   parameters of every update begun (entry 0: those active at first), the
   number of pointer swaps, and per reader the versions of its matched reads.
   */
  datatype Log = Log(first: Hot, params: seq<RiskParameters>, swaps: nat, seen: seq<seq<nat>>)

  datatype State = State(mem: Memory, writer: Writer, readers: seq<Reader>, log: Log)

  /** The scheduler's choice. `Update` starts the writer; `Finish` ends a reader's func. */
  datatype Event =
    | Update(params: RiskParameters)
    | WriterStep
    | Begin(r: nat)
    | BeginCold(r: nat)
    | LoadVersion(r: nat)
    | ReadField(r: nat, i: nat)
    | Finish(r: nat)

  type Schedule = seq<Event>

  ghost predicate WellFormed(m: Memory) {
    && |m.hot| == FIELDS && |m.cold| == 2 && m.active < 2 && m.writeIdx < 2
    && (forall b :: 0 <= b < 2 ==> |m.cold[b].hot| == FIELDS)
  }

  function WithDark(m: Memory, c: ColdParams): Memory
    requires m.writeIdx < |m.cold|
  {
    m.(cold := m.cold[m.writeIdx := c])
  }

  /** One scalar access of the writer. */
  function WriterNext(m: Memory, w: Writer): (Memory, Writer)
    requires WellFormed(m)
  {
    var dark := m.cold[m.writeIdx];
    match w
    case Rest => (m, Rest)
    case SetParams(source, i) =>
      if i < PARAMS then (WithDark(m, dark.(params := CopyParam(dark.params, source, i))), SetParams(source, i + 1))
      else (m, Build(0))
    case Build(i) =>
      if i < FIELDS then (WithDark(m, dark.(hot := dark.hot[i := HotField(dark.params, i)])), Build(i + 1))
      else (m, Stamp)
    case Stamp => (WithDark(m, dark.(hotVersion := m.version + 1)), Open)
    case Open => (m.(version := m.version + 1), Copy(0))
    case Copy(i) =>
      if i < FIELDS then (m.(hot := m.hot[i := dark.hot[i]]), Copy(i + 1)) else (m, Close)
    case Close => (m.(version := m.version + 1), Swap)
    case Swap => (m.(active := m.writeIdx), Flip)
    case Flip => (m.(writeIdx := if m.writeIdx == 0 then 1 else 0), Back(0))
    case Back(i) =>
      if i < FIELDS then (WithDark(m, dark.(hot := dark.hot[i := m.hot[i]])), Back(i + 1)) else (m, Rest)
  }

  /** After a failed attempt: once more, or the fallback. */
  function Retry(attempt: nat, from: nat): Reader {
    if attempt + 1 < MAX_RETRIES then Load(attempt + 1, from) else Fallback(from, [])
  }

  /** One step of a reader. */
  function ReaderNext(m: Memory, log: Log, rd: Reader, e: Event): Reader
    requires WellFormed(m)
  {
    match (rd, e)
    case (Outside(_), Begin(_)) => Load(0, m.version)
    case (Outside(_), BeginCold(_)) => ColdRead(m.active, log.swaps, [])
    case (Load(attempt, from), LoadVersion(_)) =>
      if m.version % 2 == 1 then Retry(attempt, from) else Read(attempt, from, m.version, [])
    case (Read(attempt, from, v1, got), ReadField(_, i)) =>
      if i < FIELDS then Read(attempt, from, v1, got + [(i, m.hot[i])]) else rd
    case (Read(attempt, from, v1, got), Finish(_)) =>
      if m.version == v1 then Outside(Matched(v1, got)) else Retry(attempt, from)
    case (Fallback(from, got), ReadField(_, i)) =>
      if i < FIELDS then Fallback(from, got + [(i, m.hot[i])]) else rd
    case (Fallback(from, got), Finish(_)) => Outside(Unmatched(from, m.version, got))
    case (ColdRead(b, sw, got), ReadField(_, i)) =>
      if i < PARAMS && b < |m.cold| then ColdRead(b, sw, got + [(i, ParamAt(m.cold[b].params, i))]) else rd
    case (ColdRead(_, sw, got), Finish(_)) => Outside(ColdResult(sw, |log.params| - 1, got))
    case _ => rd
  }

  function ReaderOf(e: Event): nat
    requires !e.Update? && !e.WriterStep?
  {
    e.r
  }

  function Step(s: State, e: Event): State
    requires WellFormed(s.mem)
  {
    match e
    case Update(p) =>
      if s.writer.Rest? then s.(writer := SetParams(p, 0), log := s.log.(params := s.log.params + [p])) else s
    case WriterStep =>
      var (m, w) := WriterNext(s.mem, s.writer);
      s.(mem := m, writer := w, log := if s.writer.Swap? then s.log.(swaps := s.log.swaps + 1) else s.log)
    case _ =>
      var r := ReaderOf(e);
      if r >= |s.readers| || r >= |s.log.seen| then s else
      var rd := ReaderNext(s.mem, s.log, s.readers[r], e);
      var seen := if s.readers[r].Read? && rd.Outside? then s.log.seen[r := s.log.seen[r] + [s.readers[r].v1]]
        else s.log.seen;
      s.(readers := s.readers[r := rd], log := s.log.(seen := seen))
  }

  lemma StepWellFormed(s: State, e: Event)
    requires WellFormed(s.mem)
    ensures WellFormed(Step(s, e).mem)
  {
  }

  function Run(s: State, es: Schedule): (t: State)
    requires WellFormed(s.mem)
    ensures WellFormed(t.mem)
    decreases |es|
  {
    if es == [] then s
    else StepWellFormed(s, es[0]); Run(Step(s, es[0]), es[1..])
  }

  /** Fresh engine: all three hot copies agree, the first cold buffer is active. */
  ghost predicate Init(s: State) {
    && WellFormed(s.mem)
    && s.mem.version == 0 && s.mem.active == 0 && s.mem.writeIdx == 1
    && s.mem.cold[0].hot == s.mem.hot && s.mem.cold[1].hot == s.mem.hot
    && s.writer == Rest
    && s.log == Log(s.mem.hot, [s.mem.cold[0].params], 0, seq(|s.readers|, _ => []))
    && (forall r :: 0 <= r < |s.readers| ==> s.readers[r] == Outside(NoResult))
  }

  /** The k-th hot set: the initial one, or the conversion of the k-th update's parameters. */
  function SetAt(log: Log, k: nat): (hot: Hot)
    requires k < |log.params|
    ensures |log.first| == FIELDS ==> |hot| == FIELDS
  {
    if k == 0 then log.first else BuildHot(log.params[k])
  }
}
