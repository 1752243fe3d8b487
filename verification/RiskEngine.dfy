/**
 The risk engine's parameter store in place: the writer's updateParameters,
 publishParams and swapColdBuffers, and the reader's bounded optimistic loop
 with the writer acting between any two of its loads.
 */
module RiskEngine {
  import opened Decimal
  import opened RiskMachine
  import opened RiskProofs
  import opened RiskTheorems

  ghost predicate WriterOnly(es: Schedule) {
    forall i :: 0 <= i < |es| ==> es[i].Update? || es[i].WriterStep?
  }

  class ParameterStore {
    var version: nat                     // hot_params_.version
    const hotParams: array<int>          // the fields of hot_params_ before it
    const coldBuffers: array<ColdParams>
    var activeCold: nat                  // index of the buffer active_cold_ points to
    var writeIdx: nat
    var writer: Writer                   // where updateParameters stands when it is interleaved with readers
    ghost var log: Log

    ghost function Mem(): Memory
      reads this, hotParams, coldBuffers
    {
      Memory(version, hotParams[..], coldBuffers[..], activeCold, writeIdx)
    }

    ghost function Now(): State
      reads this, hotParams, coldBuffers
    {
      State(Mem(), writer, [], log)
    }

    ghost predicate Valid()
      reads this, hotParams, coldBuffers
    {
      WriterInv(Now())
    }

    constructor (defaults: RiskParameters, hot: Hot)
      requires |hot| == FIELDS
      ensures Valid() && writer.Rest? && fresh(hotParams) && fresh(coldBuffers)
      ensures Mem() == Memory(0, hot, [ColdParams(defaults, hot, 0), ColdParams(defaults, hot, 0)], 0, 1)
      ensures log == Log(hot, [defaults], 0, [])
    {
      hotParams := new int[FIELDS](i requires 0 <= i < FIELDS => hot[i]);
      coldBuffers := new ColdParams[2](_ => ColdParams(defaults, hot, 0));
      version, activeCold, writeIdx, writer := 0, 0, 1, Rest;
      log := Log(hot, [defaults], 0, []);
      new;
      assert hotParams[..] == hot;
      assert coldBuffers[..] == [ColdParams(defaults, hot, 0), ColdParams(defaults, hot, 0)];
    }

    // -------------------------------------------------------------------
    // The writer's calls, uninterrupted
    // -------------------------------------------------------------------

    method BuildHotIn(b: nat)
      requires b < coldBuffers.Length && |coldBuffers[b].hot| == FIELDS
      modifies coldBuffers
      ensures coldBuffers[..]
              == old(coldBuffers[..])[b := old(coldBuffers[b]).(hot := BuildHot(old(coldBuffers[b]).params))]
      ensures HotHolds(coldBuffers[b].hot, old(coldBuffers[b]).params)
    {
      var p := coldBuffers[b].params;
      var hot := coldBuffers[b].hot;
      hot := hot[0 := ToDecimal(p.maxOrderValue)];
      hot := hot[1 := ToDecimal(p.maxPositionValue)];
      hot := hot[2 := ToDecimal(p.maxTotalPositionValue)];
      hot := hot[3 := ToDecimal(p.minAvailableCapital)];
      hot := hot[4 := p.maxOrdersPerSecond];
      BuildHotConverts(p);
      assert hot == BuildHot(p);
      coldBuffers[b] := coldBuffers[b].(hot := hot);
    }

    method SwapColdBuffers()
      requires hotParams.Length == FIELDS && coldBuffers.Length == 2 && writeIdx < 2
      requires forall b :: 0 <= b < 2 ==> |coldBuffers[b].hot| == FIELDS
      modifies this`activeCold, this`writeIdx, coldBuffers
      ensures activeCold == old(writeIdx) && writeIdx == (if old(writeIdx) == 0 then 1 else 0)
      ensures coldBuffers[..] == old(coldBuffers[..])[writeIdx := old(coldBuffers[..])[writeIdx].(hot := hotParams[..])]
    {
      activeCold := writeIdx;
      writeIdx := if writeIdx == 0 then 1 else 0;
      ghost var before := coldBuffers[..];
      for i := 0 to FIELDS
        modifies coldBuffers
        invariant forall b :: 0 <= b < 2 && b != writeIdx ==> coldBuffers[b] == before[b]
        invariant coldBuffers[writeIdx] == before[writeIdx].(hot := coldBuffers[writeIdx].hot)
        invariant |coldBuffers[writeIdx].hot| == FIELDS
        invariant forall j :: 0 <= j < i ==> coldBuffers[writeIdx].hot[j] == hotParams[j]
      {
        var next := coldBuffers[writeIdx];
        coldBuffers[writeIdx] := next.(hot := next.hot[i := hotParams[i]]);
      }
      assert coldBuffers[writeIdx].hot == hotParams[..];
      assert coldBuffers[..] == before[writeIdx := before[writeIdx].(hot := hotParams[..])];
    }

    method PublishParams()
      requires WellFormed(Mem())
      modifies this`version, this`activeCold, this`writeIdx, hotParams, coldBuffers
      ensures Mem() == AfterUpdate(old(Mem()), old(coldBuffers[writeIdx]).params)
      ensures HotHolds(hotParams[..], old(coldBuffers[writeIdx]).params)
    {
      ghost var m := Mem();
      var dark := writeIdx;
      assert |m.cold[dark].hot| == FIELDS;
      BuildHotIn(dark);
      coldBuffers[dark] := coldBuffers[dark].(hotVersion := version + 1);
      version := version + 1;  // odd: writing
      ghost var d := ColdParams(m.cold[dark].params, BuildHot(m.cold[dark].params), m.version + 1);
      assert coldBuffers[..] == m.cold[dark := d];
      for i := 0 to FIELDS
        modifies hotParams
        invariant forall j :: 0 <= j < i ==> hotParams[j] == d.hot[j]
        invariant coldBuffers[..] == m.cold[dark := d]
      {
        hotParams[i] := coldBuffers[dark].hot[i];
      }
      assert hotParams[..] == d.hot;
      version := version + 1;  // even: done
      SwapColdBuffers();
      assert Mem().cold == AfterUpdate(m, m.cold[m.writeIdx].params).cold;
    }

    /** One whole update, as the readers see it once it is over. */
    method UpdateParameters(p: RiskParameters)
      requires Valid() && writer.Rest?
      modifies this, hotParams, coldBuffers
      ensures Valid() && writer.Rest?
      ensures Mem() == AfterUpdate(old(Mem()), p)
      ensures HotHolds(hotParams[..], p)
      ensures log == old(log).(params := old(log).params + [p], swaps := old(log).swaps + 1)
    {
      ghost var s := Now();
      hide DarkOk, HotOk, ColdOk;
      coldBuffers[writeIdx] := coldBuffers[writeIdx].(params := p);
      ghost var m := Mem();
      assert WellFormed(m);
      assert m == s.mem.(cold := s.mem.cold[s.mem.writeIdx := s.mem.cold[s.mem.writeIdx].(params := p)]);
      PublishParams();
      log := log.(params := log.params + [p], swaps := log.swaps + 1);
      assert Mem().cold == AfterUpdate(s.mem, p).cold;
      UpdateKeepsInv(s, p, log);
    }

    // -------------------------------------------------------------------
    // The reader, with the writer acting in between
    // -------------------------------------------------------------------

    /** One scalar access of the writer, in place. */
    method StepWriter()
      requires Valid()
      modifies this, hotParams, coldBuffers
      ensures Valid() && Now() == Step(old(Now()), WriterStep)
    {
      WriterStepKeepsWriterInv(Now());
      hide DarkOk, HotOk, ColdOk;
      if writer.SetParams? || writer.Build? || writer.Stamp? || writer.Back? {
        StepDark();
      } else {
        StepShared();
      }
    }

    /** The writer's steps in the buffer no pointer names. */
    method StepDark()
      requires WellFormed(Mem()) && (writer.SetParams? || writer.Build? || writer.Stamp? || writer.Back?)
      modifies this`writer, coldBuffers
      ensures Now() == Step(old(Now()), WriterStep)
    {
      ghost var s := Now();
      var dark := coldBuffers[writeIdx];
      match writer {
        case SetParams(source, i) =>
          if i < PARAMS {
            coldBuffers[writeIdx] := dark.(params := CopyParam(dark.params, source, i));
            writer := SetParams(source, i + 1);
          } else {
            writer := Build(0);
          }
        case Build(i) =>
          if i < FIELDS {
            coldBuffers[writeIdx] := dark.(hot := dark.hot[i := HotField(dark.params, i)]);
            writer := Build(i + 1);
          } else {
            writer := Stamp;
          }
        case Stamp =>
          coldBuffers[writeIdx] := dark.(hotVersion := version + 1);
          writer := Open;
        case Back(i) =>
          if i < FIELDS {
            coldBuffers[writeIdx] := dark.(hot := dark.hot[i := hotParams[i]]);
            writer := Back(i + 1);
          } else {
            writer := Rest;
          }
      }
      assert coldBuffers[..] == Step(s, WriterStep).mem.cold;
    }

    /** The writer's steps on hot_params_, its version, and the two indices. */
    method StepShared()
      requires WellFormed(Mem()) && !(writer.SetParams? || writer.Build? || writer.Stamp? || writer.Back?)
      modifies this, hotParams
      ensures Now() == Step(old(Now()), WriterStep)
    {
      ghost var s := Now();
      match writer {
        case Open =>
          version := version + 1;
          writer := Copy(0);
        case Copy(i) =>
          if i < FIELDS {
            hotParams[i] := coldBuffers[writeIdx].hot[i];
            writer := Copy(i + 1);
          } else {
            writer := Close;
          }
        case Close =>
          version := version + 1;
          writer := Swap;
        case Swap =>
          activeCold := writeIdx;
          log := log.(swaps := log.swaps + 1);
          writer := Flip;
        case Flip =>
          writeIdx := if writeIdx == 0 then 1 else 0;
          writer := Back(0);
        case Rest =>
      }
      assert hotParams[..] == Step(s, WriterStep).mem.hot;
    }

    /** What the writer does before one load of ours; nothing once the world is used up. */
    method Pause(world: seq<Schedule>, w: nat) returns (next: nat)
      requires Valid() && w <= |world|
      requires forall i :: 0 <= i < |world| ==> WriterOnly(world[i])
      modifies this, hotParams, coldBuffers
      ensures Valid() && Grown(old(Now()), Now()) && w <= next <= |world|
      ensures w < |world| ==> w < next
      ensures w == |world| ==> Now() == old(Now())
    {
      hide DarkOk, HotOk, ColdOk;
      next := w;
      if w < |world| {
        var es := world[w];
        for i := 0 to |es|
          invariant Valid() && Grown(old(Now()), Now())
        {
          match es[i]
          case Update(p) =>
            if writer.Rest? {
              UpdateKeepsWriterInv(Now(), p);
              writer := SetParams(p, 0);
              log := log.(params := log.params + [p]);
            }
          case WriterStep => StepWriter();
          case _ =>
        }
        next := w + 1;
      }
    }

    method ReadHotParamsOptimistic(func: seq<nat>, world: seq<Schedule>) returns (result: seq<int>, matched: bool)
      requires Valid()
      requires forall i :: 0 <= i < |func| ==> func[i] < FIELDS
      requires forall i :: 0 <= i < |world| ==> WriterOnly(world[i])
      modifies this, hotParams, coldBuffers
      ensures Valid() && version >= old(version) && |result| == |func|
      // matched: the fields of the set that hot_params_ holds as a whole at this moment
      ensures matched ==> version % 2 == 0 && version / 2 < |log.params| && hotParams[..] == SetAt(log, version / 2)
      ensures matched ==> forall n :: 0 <= n < |func| ==> result[n] == hotParams[func[n]]
      // fallback: each field of a set that hot_params_ held, whole or in part, during the call
      ensures !matched ==> forall n :: 0 <= n < |func| ==>
                FieldOfSome(log, old(version) / 2, Newest(version), func[n], result[n])
      // undisturbed: the first attempt succeeds
      ensures world == [] && old(version) % 2 == 0 ==> matched && Now() == old(Now())
      // a writer that acts in fewer gaps than there are attempts, and is not left in mid-write, forces no fallback
      ensures |world| < 100 && version % 2 == 0 ==> matched
    {
      hide DarkOk, HotOk, ColdOk;
      var w: nat := 0;
      for retry := 0 to MAX_RETRIES
        invariant Valid() && version >= old(version) && w <= |world|
        invariant world == [] ==> Now() == old(Now()) && (old(version) % 2 == 0 ==> retry == 0)
        invariant (retry <= w || w == |world|) && (retry > |world| ==> version % 2 == 1)
      {
        w := Pause(world, w);
        var v1 := version;
        if v1 % 2 == 1 { continue; }
        var same;
        w, result, same := Attempt(v1, func, world, w);
        if same { return result, true; }
      }
      ghost var from := version;
      w, result := ReadFields(func, world, w);
      ghost var hi := Newest(version);
      forall n | 0 <= n < |func| ensures FieldOfSome(log, old(version) / 2, hi, func[n], result[n]) {
        FieldStays(log, log, from / 2, hi, old(version) / 2, hi, func[n], result[n]);
      }
      matched := false;
    }

    /** func, the second version load, and the comparison. */
    method Attempt(v1: nat, func: seq<nat>, world: seq<Schedule>, w0: nat)
      returns (w: nat, result: seq<int>, same: bool)
      requires Valid() && w0 <= |world| && v1 == version && version % 2 == 0
      requires forall i :: 0 <= i < |func| ==> func[i] < FIELDS
      requires forall i :: 0 <= i < |world| ==> WriterOnly(world[i])
      modifies this, hotParams, coldBuffers
      ensures Valid() && version >= old(version) && w <= |world| && |result| == |func|
      ensures same <==> version == old(version)
      ensures same ==> version / 2 < |log.params| && hotParams[..] == SetAt(log, version / 2)
      ensures same ==> forall n :: 0 <= n < |func| ==> result[n] == hotParams[func[n]]
      ensures w0 <= w && (w0 == |world| ==> Now() == old(Now()))
    {
      hide DarkOk, HotOk, ColdOk;
      w, result := ReadFields(func, world, w0);
      ghost var log0, v0 := log, version;
      w := Pause(world, w);
      HotFieldsAreRecent(Now(), 0);
      same := version == v1;
      if same {
        assert SetAt(log, version / 2) == SetAt(log0, v0 / 2);
      }
    }

    /** func(hot_params_): the named fields, one load each. */
    method ReadFields(func: seq<nat>, world: seq<Schedule>, w0: nat) returns (w: nat, result: seq<int>)
      requires Valid() && w0 <= |world|
      requires forall i :: 0 <= i < |func| ==> func[i] < FIELDS
      requires forall i :: 0 <= i < |world| ==> WriterOnly(world[i])
      modifies this, hotParams, coldBuffers
      ensures Valid() && Grown(old(Now()), Now()) && w <= |world| && |result| == |func|
      ensures w0 <= w && (w0 == |world| ==> Now() == old(Now()))
      ensures version == old(version) && version % 2 == 0 ==>
                version / 2 < |log.params| && forall n :: 0 <= n < |func| ==>
                  result[n] == SetAt(log, version / 2)[func[n]]
      ensures forall n :: 0 <= n < |func| ==> FieldOfSome(log, old(version) / 2, Newest(version), func[n], result[n])
    {
      hide DarkOk, HotOk, ColdOk;
      w, result := w0, [];
      HotFieldsAreRecent(Now(), 0);
      for i := 0 to |func|
        invariant Valid() && Grown(old(Now()), Now()) && w <= |world| && |result| == i
        invariant w0 <= w && (w0 == |world| ==> Now() == old(Now()))
        invariant version == old(version) && version % 2 == 0 ==>
                    version / 2 < |log.params| && forall n :: 0 <= n < i ==>
                      result[n] == SetAt(log, version / 2)[func[n]]
        invariant forall n :: 0 <= n < i ==> FieldOfSome(log, old(version) / 2, Newest(version), func[n], result[n])
      {
        w, result := ReadOneMore(func, i, world, w, result, old(version));
      }
    }

    /** One load of func, after a gap. */
    method ReadOneMore(func: seq<nat>, i: nat, world: seq<Schedule>, w0: nat, soFar: seq<int>, ghost from: nat)
      returns (w: nat, result: seq<int>)
      requires Valid() && w0 <= |world| && from <= version
      requires i < |func| && |soFar| == i && (forall n :: 0 <= n < |func| ==> func[n] < FIELDS)
      requires forall n :: 0 <= n < |world| ==> WriterOnly(world[n])
      requires version == from && version % 2 == 0 ==>
                 version / 2 < |log.params| && forall n :: 0 <= n < i ==> soFar[n] == SetAt(log, version / 2)[func[n]]
      requires forall n :: 0 <= n < i ==> FieldOfSome(log, from / 2, Newest(version), func[n], soFar[n])
      modifies this, hotParams, coldBuffers
      ensures Valid() && Grown(old(Now()), Now()) && w <= |world| && |result| == i + 1
      ensures w0 <= w && (w0 == |world| ==> Now() == old(Now()))
      ensures version == from && version % 2 == 0 ==>
                version / 2 < |log.params| && forall n :: 0 <= n < i + 1 ==>
                  result[n] == SetAt(log, version / 2)[func[n]]
      ensures forall n :: 0 <= n < i + 1 ==> FieldOfSome(log, from / 2, Newest(version), func[n], result[n])
    {
      hide DarkOk, HotOk, ColdOk;
      ghost var log0, hi0 := log, Newest(version);
      w := Pause(world, w0);
      ghost var hi := Newest(version);
      forall n | 0 <= n < i ensures FieldOfSome(log, from / 2, hi, func[n], soFar[n]) {
        FieldStays(log0, log, from / 2, hi0, from / 2, hi, func[n], soFar[n]);
      }
      HotFieldsAreRecent(Now(), func[i]);
      FieldStays(log, log, version / 2, hi, from / 2, hi, func[i], hotParams[func[i]]);
      result := soFar + [hotParams[func[i]]];
    }
  }

  lemma UpdateKeepsInv(s: State, p: RiskParameters, log: Log)
    requires WriterInv(s) && s.writer.Rest?
    requires log == s.log.(params := s.log.params + [p], swaps := s.log.swaps + 1)
    ensures WriterInv(s.(mem := AfterUpdate(s.mem, p), log := log))
  {
  }
}
