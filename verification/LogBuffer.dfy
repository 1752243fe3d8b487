/**
 The in-memory log buffer: fixed-size records are copied one behind the other
 until the next one does not fit.
 */
module LogBuffers {

  type Byte = bv8

  /** The bytes of the records, one behind the other. */
  function Laid(records: seq<seq<Byte>>): seq<Byte> {
    if records == [] then [] else Laid(records[..|records| - 1]) + records[|records| - 1]
  }

  ghost predicate AllOfSize(records: seq<seq<Byte>>, size: nat) {
    forall i :: 0 <= i < |records| ==> |records[i]| == size
  }

  lemma LaidSize(records: seq<seq<Byte>>, size: nat)
    requires AllOfSize(records, size)
    ensures |Laid(records)| == |records| * size
  {
    if records != [] {
      LaidSize(records[..|records| - 1], size);
      Distribute(|records| - 1, size);
    }
  }

  lemma Distribute(i: int, size: int)
    ensures (i + 1) * size == i * size + size
  {
  }

  datatype Option<T> = None | Some(value: T)

  /** What the reader takes for record i of a buffer or of a mapped file's body; nothing if it is out of bounds. */
  function RecordAt(bytes: seq<Byte>, size: nat, i: nat): Option<seq<Byte>> {
    if i * size + size <= |bytes| then Some(bytes[i * size..i * size + size]) else None
  }

  lemma SliceOfFront(a: seq<Byte>, b: seq<Byte>, from: nat, to: nat)
    requires from <= to <= |a|
    ensures (a + b)[from..to] == a[from..to]
  {
  }

  /** Record i ends by the start of every later one, and past the end of every earlier one. */
  lemma EndsInOrder(i: nat, n: nat, size: nat)
    ensures i < n ==> i * size + size <= n * size
    ensures n <= i ==> n * size <= i * size
  {
    if i < n {
      ProductNotNegative(n - i - 1, size);
      assert (n - i - 1) * size == n * size - i * size - size;
    } else {
      ProductNotNegative(i - n, size);
      assert (i - n) * size == i * size - n * size;
    }
  }

  lemma ProductNotNegative(k: nat, size: nat)
    ensures k * size >= 0
  {
  }

  /** Records laid out are read back, each at its own index, whole and unmixed, and nothing past the last. */
  lemma {:induction false} RecordReadsBack(records: seq<seq<Byte>>, size: nat, i: nat)
    requires AllOfSize(records, size) && size > 0
    ensures RecordAt(Laid(records), size, i) == if i < |records| then Some(records[i]) else None
  {
    LaidSize(records, size);
    EndsInOrder(i, |records|, size);
    if i < |records| {
      LaidSize(records[..i], size);
      RecordFollowsEarlier(records, i);
    }
  }

  /** Record i begins where the records before it end. */
  lemma {:induction false} RecordFollowsEarlier(records: seq<seq<Byte>>, i: nat)
    requires i < |records|
    ensures var at, end := |Laid(records[..i])|, |Laid(records[..i])| + |records[i]|;
            end <= |Laid(records)| && Laid(records)[at..end] == records[i]
  {
    var n := |records| - 1;
    var front := records[..n];
    if i < n {
      RecordFollowsEarlier(front, i);
      assert front[..i] == records[..i];
      var at := |Laid(records[..i])|;
      SliceOfFront(Laid(front), records[n], at, at + |records[i]|);
    }
  }

  /** The records a buffer holds after one append. */
  function KeepOne(capacity: nat, records: seq<seq<Byte>>, record: seq<Byte>): seq<seq<Byte>> {
    if |Laid(records)| + |record| <= capacity then records + [record] else records
  }

  function Keep(capacity: nat, records: seq<seq<Byte>>, list: seq<seq<Byte>>): seq<seq<Byte>>
    decreases |list|
  {
    if list == [] then records else Keep(capacity, KeepOne(capacity, records, list[0]), list[1..])
  }

  /** Once a record of the buffer's one size is refused, all later ones are. */
  lemma {:induction false} FullStaysFull(capacity: nat, records: seq<seq<Byte>>, list: seq<seq<Byte>>, size: nat)
    requires AllOfSize(list, size) && |Laid(records)| + size > capacity
    ensures Keep(capacity, records, list) == records
    decreases |list|
  {
    if list != [] { FullStaysFull(capacity, records, list[1..], size); }
  }

  lemma LaidWithOneMore(records: seq<seq<Byte>>, record: seq<Byte>)
    ensures Laid(records + [record]) == Laid(records) + record
  {
    assert (records + [record])[..|records|] == records;
  }

  /** So a buffer keeps the longest run of appended records that fits, and refuses all after it. */
  lemma {:induction false} KeepsWhatFits(capacity: nat, records: seq<seq<Byte>>, list: seq<seq<Byte>>, size: nat)
      returns (taken: nat)
    requires AllOfSize(list, size) && |Laid(records)| <= capacity
    ensures taken <= |list| && Keep(capacity, records, list) == records + list[..taken]
    ensures |Laid(records + list[..taken])| <= capacity
    ensures taken < |list| ==> capacity < |Laid(records + list[..taken])| + size
    decreases |list|
  {
    hide Laid;
    taken := 0;
    assert records + list[..0] == records;
    if list != [] {
      LaidWithOneMore(records, list[0]);
      if |Laid(records)| + size <= capacity {
        taken := KeepsWhatFits(capacity, records + [list[0]], list[1..], size);
        assert records + list[..taken + 1] == records + [list[0]] + list[1..][..taken];
        taken := taken + 1;
      } else {
        FullStaysFull(capacity, records, list, size);
      }
    }
  }

  class LogBuffer {
    const data: array<Byte>
    var writePos: nat
    /** The records accepted since the last flush. */
    ghost var records: seq<seq<Byte>>

    ghost predicate Valid()
      reads this, data
    {
      writePos <= data.Length && data[..writePos] == Laid(records)
    }

    constructor (capacity: nat)
      ensures Valid() && records == [] && data.Length == capacity && fresh(data)
    {
      data := new Byte[capacity](_ => 0);
      writePos := 0;
      records := [];
    }

    /** False when the record does not fit: then nothing changes. */
    method Append(record: seq<Byte>) returns (ok: bool)
      requires Valid()
      modifies this, data
      ensures Valid()
      ensures ok <==> old(writePos) + |record| <= data.Length
      ensures records == KeepOne(data.Length, old(records), record)
      ensures writePos == old(writePos) + (if ok then |record| else 0)
      ensures forall i :: 0 <= i < data.Length && !(ok && old(writePos) <= i < old(writePos) + |record|) ==>
                data[i] == old(data[i])
    {
      if writePos + |record| > data.Length {
        return false;
      }
      forall i | 0 <= i < |record| {
        data[writePos + i] := record[i];
      }
      records := records + [record];
      writePos := writePos + |record|;
      assert records[..|records| - 1] == old(records);
      assert data[..writePos] == old(data[..writePos]) + record;
      ok := true;
    }
  }
}
