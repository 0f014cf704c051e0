/**
 The bounded writer of one connection. One record is being written frame by frame, the others wait
 in order behind it. A binding's sequence number is taken when its record is admitted.
 */
module ResourceOutput {
  import opened Prelude

  const RESOURCE_PENDING_BYTES: nat := 8 * 1024 * 1024
  const RESOURCE_ASSEMBLY_BYTES: nat := 16 * 1024 * 1024

  /** One view under one subscription epoch. */
  type BindingId = nat

  /** A record, the bindings it numbers, its size and its frame count. A coverage record numbers several. */
  datatype Record = Record(numbers: map<BindingId, nat>, bytes: nat, frames: nat)

  /** The n-th frame of the k-th admitted record. */
  datatype Written = Written(record: nat, frame: nat)

  function SumBytes(records: seq<Record>): nat {
    if records == [] then 0 else SumBytes(records[..|records| - 1]) + records[|records| - 1].bytes
  }

  lemma {:induction false} SumWithoutFirst(records: seq<Record>)
    requires records != []
    ensures SumBytes(records) == records[0].bytes + SumBytes(records[1..])
  {
    if |records| > 1 {
      var init := records[..|records| - 1];
      SumWithoutFirst(init);
      assert init[1..] == records[1..][..|records| - 2];
    }
  }

  /** The frames of whole records, one after the other. */
  function WholeRecords(records: seq<Record>): seq<Written> {
    if records == [] then []
    else WholeRecords(records[..|records| - 1]) + FirstFrames(|records| - 1, records[|records| - 1].frames)
  }

  function FirstFrames(record: nat, n: nat): seq<Written> {
    seq(n, i requires 0 <= i < n => Written(record, i))
  }

  /** The sequence numbers one binding was given, in admission order. */
  function NumbersOf(records: seq<Record>, b: BindingId): seq<nat> {
    if records == [] then []
    else
      var earlier, last := NumbersOf(records[..|records| - 1], b), records[|records| - 1];
      if b in last.numbers then earlier + [last.numbers[b]] else earlier
  }

  predicate Gapless(numbers: seq<nat>) {
    forall i :: 0 <= i < |numbers| ==> numbers[i] == i + 1
  }

  function LastNumber(sequences: map<BindingId, nat>, b: BindingId): nat {
    if b in sequences then sequences[b] else 0
  }

  /** The record carries the next number of each of its bindings. */
  predicate NumberedNext(sequences: map<BindingId, nat>, record: Record) {
    forall b :: b in record.numbers ==> record.numbers[b] == LastNumber(sequences, b) + 1
  }

  /** The record has its size, and numbers exactly the bindings it is for, each by one more than before. */
  predicate IsNext(record: Record, bindings: set<BindingId>, sequences: map<BindingId, nat>, bytes: nat, frames: nat) {
    && record.bytes == bytes && record.frames == frames && record.numbers.Keys == bindings
    && forall b :: b in bindings ==> record.numbers[b] == if b in sequences then sequences[b] + 1 else 1
  }

  ghost predicate Numbered(admitted: seq<Record>, sequences: map<BindingId, nat>) {
    forall b :: Gapless(NumbersOf(admitted, b)) && |NumbersOf(admitted, b)| == LastNumber(sequences, b)
  }

  function Waiting(active: Option<Record>, pending: seq<Record>): seq<Record> {
    if active.Some? then [active.value] + pending else []
  }

  ghost predicate Logged(admitted: seq<Record>, done: nat, wire: seq<Written>, active: Option<Record>, cursor: nat) {
    done <= |admitted| && wire == WholeRecords(admitted[..done]) + if active.Some? then FirstFrames(done, cursor) else []
  }

  class Output {
    var pending: seq<Record>
    var pendingBytes: nat
    var active: Option<Record>
    /** How many frames of the active record are on the wire. */
    var cursor: nat
    var closed: bool
    /** The sequence counter of each binding. */
    var sequences: map<BindingId, nat>

    ghost var admitted: seq<Record>
    ghost var done: nat
    ghost var wire: seq<Written>

    ghost predicate Valid()
      reads this
    {
      QueueValid() && LogValid() && NumbersValid()
    }

    /** Every binding's numbers run 1, 2, 3, ... in admission order, and its counter is the last of them. */
    ghost predicate NumbersValid()
      reads this
    {
      Numbered(admitted, sequences)
    }

    /** The bounded queue: its byte count is exact and within the limit. */
    ghost predicate QueueValid()
      reads this
    {
      && pendingBytes == SumBytes(pending) <= RESOURCE_PENDING_BYTES
      && (active.None? ==> pending == [])
      && (active.Some? ==> active.value.bytes <= RESOURCE_ASSEMBLY_BYTES && cursor <= active.value.frames)
    }

    /** The wire holds whole records in admission order, then the written part of the active one. */
    ghost predicate LogValid()
      reads this
    {
      Logged(admitted, done, wire, active, cursor) && (!closed ==> admitted[done..] == Waiting(active, pending))
    }

    function Count(b: BindingId): nat
      reads this
    {
      LastNumber(sequences, b)
    }

    constructor ()
      ensures Valid() && !closed && admitted == [] && wire == []
    {
      pending, pendingBytes, active, cursor, closed, sequences := [], 0, None, 0, false, map[];
      admitted, done, wire := [], 0, [];
    }

    /** The record a view's emit, or a coverage round, would send: each binding's next number. */
    function Next(bindings: set<BindingId>, bytes: nat, frames: nat): Record
      reads this
    {
      Record(map b | b in bindings :: Count(b) + 1, bytes, frames)
    }

    /** An idle writer takes any record; otherwise the waiting ones share the smaller budget. */
    predicate WithinLimits(bytes: nat)
      reads this
    {
      bytes <= RESOURCE_ASSEMBLY_BYTES && (active.None? || pendingBytes + bytes <= RESOURCE_PENDING_BYTES)
    }

    /** `send`: refused after a close; over either limit the connection is closed. */
    method Send(bindings: set<BindingId>, bytes: nat, frames: nat) returns (accepted: bool)
      requires Valid() && frames > 0
      modifies this
      ensures Valid() && old(wire) <= wire
      ensures accepted <==>
        !old(closed) && bytes <= RESOURCE_ASSEMBLY_BYTES && (old(active).Some? ==> old(pendingBytes) + bytes <= RESOURCE_PENDING_BYTES)
      ensures accepted ==> !closed && |admitted| == |old(admitted)| + 1 && old(admitted) <= admitted
      ensures accepted ==> IsNext(admitted[|old(admitted)|], bindings, old(sequences), bytes, frames)
      ensures !accepted ==> admitted == old(admitted) && sequences == old(sequences) && closed
    {
      if closed { return false; }
      if !WithinLimits(bytes) {
        Close();
        return false;
      }
      Admit(Next(bindings, bytes, frames));
      return true;
    }

    /** Number the record, log it, and make it active or let it wait. */
    method Admit(record: Record)
      requires Valid() && !closed && record.frames > 0 && record.bytes <= RESOURCE_ASSEMBLY_BYTES
      requires active.Some? ==> pendingBytes + record.bytes <= RESOURCE_PENDING_BYTES
      requires NumberedNext(sequences, record)
      modifies this
      ensures Valid() && !closed && wire == old(wire) && admitted == old(admitted) + [record]
    {
      if active.None? {
        Begin(record);
      } else {
        Enqueue(record);
      }
    }

    /** Nothing is being written, so the record is next. */
    method Begin(record: Record)
      requires Valid() && !closed && record.frames > 0 && record.bytes <= RESOURCE_ASSEMBLY_BYTES && active.None?
      requires NumberedNext(sequences, record)
      modifies this
      ensures Valid() && !closed && wire == old(wire) && admitted == old(admitted) + [record]
    {
      TailGrows(admitted, record, done);
      NumbersMoveOn(admitted, sequences, record);
      assert FirstFrames(done, 0) == [];
      admitted, sequences, active, cursor := admitted + [record], sequences + record.numbers, Some(record), 0;
    }

    /** The record waits behind the active one. */
    method Enqueue(record: Record)
      requires Valid() && !closed && active.Some? && pendingBytes + record.bytes <= RESOURCE_PENDING_BYTES
      requires NumberedNext(sequences, record)
      modifies this
      ensures Valid() && !closed && wire == old(wire) && admitted == old(admitted) + [record]
    {
      SumWithLast(pending, record);
      OneMoreWaits(admitted, done, wire, active, pending, cursor, record);
      NumbersMoveOn(admitted, sequences, record);
      admitted, sequences := admitted + [record], sequences + record.numbers;
      pending, pendingBytes := pending + [record], pendingBytes + record.bytes;
    }

    /** One step of the pump: the next frame of the active record. */
    method WriteFrame()
      requires Valid() && !closed && active.Some? && cursor < active.value.frames
      modifies this
      ensures Valid() && wire == old(wire) + [Written(done, old(cursor))] && admitted == old(admitted) && active == old(active) && !closed
    {
      assert FirstFrames(done, cursor + 1) == FirstFrames(done, cursor) + [Written(done, cursor)];
      wire := wire + [Written(done, cursor)];
      cursor := cursor + 1;
    }

    /** The active record is complete; the next one becomes active. */
    method Shift()
      requires Valid() && !closed && active.Some? && cursor == active.value.frames
      modifies this
      ensures Valid() && wire == old(wire) && admitted == old(admitted) && done == old(done) + 1 && !closed
    {
      OneMoreWhole(admitted, done, cursor);
      done, cursor := done + 1, 0;
      if pending == [] {
        active := None;
      } else {
        SumWithoutFirst(pending);
        active, pending, pendingBytes := Some(pending[0]), pending[1..], pendingBytes - pending[0].bytes;
      }
    }

    /** Everything waiting is rejected; what is on the wire stays as it is, and nothing follows it. */
    method Close()
      requires Valid()
      modifies this`closed, this`pending, this`pendingBytes
      ensures Valid() && closed && pending == [] && pendingBytes == 0
    {
      closed, pending, pendingBytes := true, [], 0;
    }
  }

  lemma {:induction false} SumWithLast(records: seq<Record>, record: Record)
    ensures SumBytes(records + [record]) == SumBytes(records) + record.bytes
  {
    assert (records + [record])[..|records|] == records;
  }

  /** When the active record is complete, the whole records are one more. */
  lemma OneMoreWhole(admitted: seq<Record>, done: nat, cursor: nat)
    requires done < |admitted| && cursor == admitted[done].frames
    ensures WholeRecords(admitted[..done + 1]) == WholeRecords(admitted[..done]) + FirstFrames(done, cursor)
    ensures admitted[done..][1..] == admitted[done + 1..] && FirstFrames(done + 1, 0) == []
  {
    assert admitted[..done + 1][..done] == admitted[..done];
  }

  lemma TailGrows(admitted: seq<Record>, record: Record, done: nat)
    requires done <= |admitted|
    ensures (admitted + [record])[..done] == admitted[..done] && (admitted + [record])[done..] == admitted[done..] + [record]
  {
  }

  lemma OneMoreWaits(admitted: seq<Record>, done: nat, wire: seq<Written>, active: Option<Record>, pending: seq<Record>, cursor: nat,
                     record: Record)
    requires Logged(admitted, done, wire, active, cursor) && active.Some? && admitted[done..] == Waiting(active, pending)
    ensures Logged(admitted + [record], done, wire, active, cursor)
    ensures (admitted + [record])[done..] == Waiting(active, pending + [record])
  {
    TailGrows(admitted, record, done);
    assert [active.value] + (pending + [record]) == [active.value] + pending + [record];
  }

  lemma {:induction false} NumbersAppend(admitted: seq<Record>, record: Record, b: BindingId)
    ensures NumbersOf(admitted + [record], b) == NumbersOf(admitted, b) + if b in record.numbers then [record.numbers[b]] else []
  {
    assert (admitted + [record])[..|admitted|] == admitted;
  }

  lemma {:induction false} AdmissionsStayGapless(admitted: seq<Record>, record: Record)
    requires forall b :: Gapless(NumbersOf(admitted, b))
    requires forall b :: b in record.numbers ==> record.numbers[b] == |NumbersOf(admitted, b)| + 1
    ensures forall b :: Gapless(NumbersOf(admitted + [record], b))
    ensures forall b :: |NumbersOf(admitted + [record], b)| == |NumbersOf(admitted, b)| + if b in record.numbers then 1 else 0
  {
    forall b
      ensures Gapless(NumbersOf(admitted + [record], b))
      ensures |NumbersOf(admitted + [record], b)| == |NumbersOf(admitted, b)| + if b in record.numbers then 1 else 0
    {
      NumbersAppend(admitted, record, b);
    }
  }

  lemma NumbersMoveOn(admitted: seq<Record>, sequences: map<BindingId, nat>, record: Record)
    requires Numbered(admitted, sequences)
    requires NumberedNext(sequences, record)
    ensures Numbered(admitted + [record], sequences + record.numbers)
  {
    AdmissionsStayGapless(admitted, record);
    forall b ensures Gapless(NumbersOf(admitted + [record], b))
      && |NumbersOf(admitted + [record], b)| == LastNumber(sequences + record.numbers, b)
    {
      assert |NumbersOf(admitted + [record], b)| == |NumbersOf(admitted, b)| + if b in record.numbers then 1 else 0;
    }
  }

  /** On the wire a record's frames are consecutive: once its first is written, nothing else comes before its last. */
  lemma {:induction false} NothingInterleaves(records: seq<Record>, i: nat, j: nat)
    requires i < j < |WholeRecords(records)| && WholeRecords(records)[i].record == WholeRecords(records)[j].record
    ensures var first := WholeRecords(records)[i];
      forall k :: i <= k <= j ==> WholeRecords(records)[k] == Written(first.record, first.frame + (k - i))
  {
    if records != [] {
      var init := records[..|records| - 1];
      var head, last := WholeRecords(init), FirstFrames(|records| - 1, records[|records| - 1].frames);
      assert WholeRecords(records) == head + last;
      EarlierRecords(init);
      if j < |head| {
        NothingInterleaves(init, i, j);
      }
    }
  }

  lemma {:induction false} EarlierRecords(records: seq<Record>)
    ensures forall k :: 0 <= k < |WholeRecords(records)| ==> WholeRecords(records)[k].record < |records|
  {
    if records != [] {
      EarlierRecords(records[..|records| - 1]);
    }
  }
}
