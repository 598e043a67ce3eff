/**
 * The single-threaded part of the read test: the seek check, the buffered
 * read loop, the offset-addressed read loop and the seek-then-read step.
 * Each test step returns 1 when the entry behaved as
 * expected, 0 when it did not and -1 when it was handed no entry.
 */
module ReadTest {
  import opened Adapter

  /** The size of the test's read buffer, and so of every read it issues. */
  const ChunkSize: nat := 4096

  /** INT64_MAX, the largest file size the driver accepts. */
  const Int64Max: nat := 0x7FFF_FFFF_FFFF_FFFF

  /** (size64_t) -1, the "undetermined" size the driver expects of a read it will not issue. */
  const Uint64Max: nat := 0xFFFF_FFFF_FFFF_FFFF

  // ---------------------------------------------------------------------------
  // The buffered read loop: its calls, the bytes they deliver, and where it stops
  // ---------------------------------------------------------------------------

  /** One read the loop issued: the size it asked for and what the entry returned. */
  datatype ReadCall = ReadCall(request: nat, count: int)

  /** The bytes a call contributes to the loop's total (a failed read contributes none). */
  function Counted(c: ReadCall): nat
  {
    if c.count < 0 then 0 else c.count
  }

  function Delivered(calls: seq<ReadCall>): nat
  {
    if calls == [] then 0 else Counted(calls[0]) + Delivered(calls[1..])
  }

  /**
   * The reads the loop issues from state `s` while `remaining` bytes are still
   * wanted: a request of at most one chunk, repeated while every read delivers
   * all it asked for.
   */
  function ReadPlan(s: EntryState, remaining: nat): seq<ReadCall>
    decreases remaining
  {
    if remaining == 0 then []
    else
      var request := Min(ChunkSize, remaining);
      var r := Read(s, request);
      if r.value < 0 || r.value != request then [ReadCall(request, r.value)]
      else [ReadCall(request, r.value)] + ReadPlan(r.next, remaining - request)
  }

  /**
   * The bytes a conforming entry owes a request of `size` bytes at its cursor:
   * all of them when they fit, the rest of the entry when they do not, and none
   * when the entry cannot be read.
   */
  function ReadLimit(s: EntryState, size: nat): (n: nat)
    ensures n <= size
    ensures !s.readFails && s.offset + size <= s.size ==> n == size
    ensures !s.readFails && s.size <= s.offset + size ==> n == Available(s)
    ensures s.readFails ==> n == 0
  {
    if s.readFails then 0 else Min(size, Available(s))
  }

  lemma DeliveredAppend(calls: seq<ReadCall>, c: ReadCall)
    ensures Delivered(calls + [c]) == Delivered(calls) + Counted(c)
  {
    if calls != [] {
      assert (calls + [c])[1..] == calls[1..] + [c];
      DeliveredAppend(calls[1..], c);
    }
  }

  /**
   * One turn of the loop: with `done` already issued and `remaining` bytes
   * still wanted, the next read either ends the plan or leaves the plan for
   * what is then still wanted.
   */
  lemma ReadPlanAdvance(plan: seq<ReadCall>, done: seq<ReadCall>, s: EntryState, remaining: nat)
    requires remaining > 0 && done + ReadPlan(s, remaining) == plan
    ensures var request := Min(ChunkSize, remaining);
            var r := Read(s, request);
            var call := ReadCall(request, r.value);
            Delivered(done + [call]) == Delivered(done) + Counted(call) &&
            (r.value < 0 || r.value != request ==> done + [call] == plan) &&
            (r.value >= 0 && r.value == request ==> (done + [call]) + ReadPlan(r.next, remaining - request) == plan)
  {
    var request := Min(ChunkSize, remaining);
    var r := Read(s, request);
    var call := ReadCall(request, r.value);
    DeliveredAppend(done, call);
    if r.value >= 0 && r.value == request {
      assert ReadPlan(s, remaining) == [call] + ReadPlan(r.next, remaining - request);
      assert (done + [call]) + ReadPlan(r.next, remaining - request) == done + ([call] + ReadPlan(r.next, remaining - request));
    }
  }

  /** The loop delivers exactly what the entry owes, and the cursor moves by that much. */
  lemma {:induction false} ReadPlanDelivers(s: EntryState, size: nat)
    ensures Delivered(ReadPlan(s, size)) == ReadLimit(s, size)
    decreases size
  {
    if size > 0 {
      var request := Min(ChunkSize, size);
      var r := Read(s, request);
      var plan := ReadPlan(s, size);
      if r.value < 0 || r.value != request {
        assert plan == [ReadCall(request, r.value)];
        assert Delivered(plan) == Counted(plan[0]) + Delivered([]);
      } else {
        assert plan[0] == ReadCall(request, r.value) && plan[1..] == ReadPlan(r.next, size - request);
        ReadPlanDelivers(r.next, size - request);
      }
    }
  }

  /**
   * Every request is one chunk, or the whole remainder when less than a chunk
   * is still wanted; no request is empty, and no read at all is issued for
   * a size of zero.
   */
  lemma {:induction false} ReadPlanRequests(s: EntryState, size: nat)
    ensures ReadPlan(s, size) == [] <==> size == 0
    ensures forall i :: 0 <= i < |ReadPlan(s, size)| ==>
              var plan := ReadPlan(s, size);
              plan[i].request == Min(ChunkSize, size - Delivered(plan[..i])) && 0 < plan[i].request <= ChunkSize
    decreases size
  {
    if size > 0 {
      var plan := ReadPlan(s, size);
      var request := Min(ChunkSize, size);
      var r := Read(s, request);
      assert plan[..0] == [];
      if !(r.value < 0 || r.value != request) {
        var rest := ReadPlan(r.next, size - request);
        assert plan == [ReadCall(request, r.value)] + rest;
        ReadPlanRequests(r.next, size - request);
        forall i | 1 <= i < |plan|
          ensures plan[i].request == Min(ChunkSize, size - Delivered(plan[..i]))
        {
          assert plan[..i] == [plan[0]] + rest[..i - 1];
          assert Delivered(plan[..i]) == request + Delivered(rest[..i - 1]);
        }
      }
    }
  }

  /**
   * Only the last read may fall short or fail; the loop stops after it because
   * it failed, because it was short, or because nothing more was wanted.
   */
  lemma {:induction false} ReadPlanStops(s: EntryState, size: nat)
    ensures forall i :: 0 <= i < |ReadPlan(s, size)| - 1 ==>
              ReadPlan(s, size)[i].count == ReadPlan(s, size)[i].request
    ensures ReadPlan(s, size) != [] ==>
              var last := ReadPlan(s, size)[|ReadPlan(s, size)| - 1];
              last.count < 0 || last.count != last.request || Delivered(ReadPlan(s, size)) == size
    decreases size
  {
    if size > 0 {
      var plan := ReadPlan(s, size);
      var request := Min(ChunkSize, size);
      var r := Read(s, request);
      if r.value < 0 || r.value != request {
        assert plan == [ReadCall(request, r.value)];
      } else {
        var rest := ReadPlan(r.next, size - request);
        assert plan == [ReadCall(request, r.value)] + rest;
        ReadPlanStops(r.next, size - request);
        ReadPlanDelivers(r.next, size - request);
        ReadPlanDelivers(s, size);
        if rest == [] {
          assert size - request == 0;
        }
      }
    }
  }

  /** The clipped read the driver's tail case relies on: 1024 bytes before the end, a chunk asked, 1024 delivered. */
  lemma TailReadIsClipped(s: EntryState)
    requires !s.readFails && s.size >= 1024 && s.offset == s.size - 1024
    ensures Delivered(ReadPlan(s, ChunkSize)) == 1024
    ensures |ReadPlan(s, ChunkSize)| == 1 && ReadPlan(s, ChunkSize)[0] == ReadCall(ChunkSize, 1024)
  {
  }

  // ---------------------------------------------------------------------------
  // The test steps
  // ---------------------------------------------------------------------------

  /** fsntfs_test_seek_offset: 1 exactly when the seek lands on the expected offset. */
  method TestSeekOffset(entry: FileEntry?, inputOffset: int, whence: Whence, expectedOffset: int)
    returns (result: int)
    modifies entry
    ensures entry == null ==> result == -1
    ensures entry != null ==>
              (result == 1 <==> Seek(old(entry.State()), inputOffset, whence).value == expectedOffset) &&
              (result == 0 || result == 1) &&
              entry.State() == Seek(old(entry.State()), inputOffset, whence).next
  {
    if entry == null {
      return -1;
    }
    var resultOffset := entry.SeekOffset(inputOffset, whence);
    result := if expectedOffset != resultOffset then 0 else 1;
  }

  /**
   * fsntfs_test_read_buffer: reads `inputSize` bytes at the cursor, a chunk at
   * a time, and passes exactly when the total is `expectedSize`. The ghost
   * `calls` are the reads it issued.
   */
  method TestReadBuffer(entry: FileEntry?, inputSize: nat, expectedSize: nat)
    returns (result: int, ghost calls: seq<ReadCall>)
    modifies entry
    ensures entry == null ==> result == -1 && calls == []
    ensures entry != null ==>
              calls == ReadPlan(old(entry.State()), inputSize) &&
              Delivered(calls) == ReadLimit(old(entry.State()), inputSize) &&
              (result == 1 <==> Delivered(calls) == expectedSize) &&
              (result == 0 || result == 1) &&
              entry.State() == old(entry.State()).(offset := old(entry.offset) + Delivered(calls))
  {
    calls := [];
    if entry == null {
      return -1, calls;
    }
    ghost var start := entry.State();
    ghost var plan := ReadPlan(start, inputSize);
    var remainingSize: nat := inputSize;
    var resultSize: nat := 0;
    while remainingSize > 0
      invariant resultSize + remainingSize == inputSize
      invariant resultSize == Delivered(calls)
      invariant entry.State() == start.(offset := start.offset + resultSize)
      invariant calls + ReadPlan(entry.State(), remainingSize) == plan
      decreases remainingSize
    {
      var readSize := ChunkSize;
      if remainingSize < readSize {
        readSize := remainingSize;
      }
      ReadPlanAdvance(plan, calls, entry.State(), remainingSize);
      var readCount := entry.ReadBuffer(readSize);
      calls := calls + [ReadCall(readSize, readCount)];
      if readCount < 0 {
        break;
      }
      remainingSize := remainingSize - readCount;
      resultSize := resultSize + readCount;
      if readCount != readSize {
        break;
      }
    }
    ReadPlanDelivers(start, inputSize);
    result := if expectedSize != resultSize then 0 else 1;
  }

  /**
   * The outcome of the offset-addressed read loop from state `s`: the bytes it
   * read and the state it leaves. No read is issued for a size of zero; a
   * negative offset or a failing volume stops it at the first read.
   */
  datatype AtOutcome = AtOutcome(delivered: nat, next: EntryState)

  function ReadAtLoop(s: EntryState, offset: int, size: nat): (o: AtOutcome)
    ensures o.delivered <= size
    ensures size == 0 || offset < 0 ==> o == AtOutcome(0, s)
    ensures size > 0 && offset >= 0 ==> o.next == s.(offset := offset + o.delivered)
    ensures offset >= 0 ==> o.delivered == ReadLimit(s.(offset := offset), size)
  {
    if size == 0 || offset < 0 then AtOutcome(0, s)
    else
      var n := ReadLimit(s.(offset := offset), size);
      AtOutcome(n, s.(offset := offset + n))
  }

  /**
   * fsntfs_test_read_buffer_at_offset: reads `inputSize` bytes from
   * `inputOffset` on, each read at an explicit offset that the loop advances
   * itself, then checks the entry's own cursor against `expectedOffset` and
   * only then the byte count against `expectedSize`.
   */
  method TestReadBufferAtOffset(entry: FileEntry?, inputOffset: int, inputSize: nat,
                                expectedOffset: int, expectedSize: nat)
    returns (result: int)
    modifies entry
    ensures entry == null ==> result == -1
    ensures entry != null ==>
              var o := ReadAtLoop(old(entry.State()), inputOffset, inputSize);
              (result == 1 <==> o.next.offset == expectedOffset && o.delivered == expectedSize) &&
              (result == 0 || result == 1) &&
              entry.State() == o.next
  {
    if entry == null {
      return -1;
    }
    ghost var start := entry.State();
    var offset := inputOffset;
    var remainingSize: nat := inputSize;
    var resultSize: nat := 0;
    while remainingSize > 0
      invariant resultSize + remainingSize == inputSize
      invariant offset == inputOffset + resultSize
      invariant resultSize == 0 ==> entry.State() == start
      invariant resultSize > 0 ==>
                  inputOffset >= 0 && !start.readFails &&
                  entry.State() == start.(offset := offset) &&
                  inputOffset + resultSize <= start.size
      decreases remainingSize
    {
      var readSize := ChunkSize;
      if remainingSize < readSize {
        readSize := remainingSize;
      }
      var readCount := entry.ReadBufferAtOffset(readSize, offset);
      if readCount < 0 {
        break;
      }
      offset := offset + readCount;
      remainingSize := remainingSize - readCount;
      resultSize := resultSize + readCount;
      if readCount != readSize {
        break;
      }
    }
    var resultOffset := entry.GetOffset();
    if expectedOffset != resultOffset {
      result := 0;
    } else if expectedSize != resultSize {
      result := 0;
    } else {
      result := 1;
    }
  }

  // ---------------------------------------------------------------------------
  // A step of the scenario driver: a seek followed by a read, or an offset read
  // ---------------------------------------------------------------------------

  /** One test case: its inputs and the offset and size it expects. */
  datatype Step =
    | SeekAndRead(offset: int, whence: Whence, size: nat, expectedOffset: int, expectedSize: nat)
    | ReadAtOffset(offset: int, size: nat, expectedOffset: int, expectedSize: nat)

  /** A test's result (1 pass, 0 fail, -1 error) and the state it leaves. */
  datatype Outcome = Outcome(result: int, next: EntryState)

  /**
   * What a step returns on an entry in state `s`. A seek-and-read step
   * reads only when the seek landed on the expected offset and the input
   * offset is not negative; a negative offset whose seek failed as expected
   * passes without a read.
   */
  function RunStep(step: Step, s: EntryState): (o: Outcome)
  {
    match step
    case SeekAndRead(offset, whence, size, expectedOffset, expectedSize) =>
      var k := Seek(s, offset, whence);
      if k.value != expectedOffset then Outcome(0, k.next)
      else if offset < 0 then Outcome(1, k.next)
      else
        var n := ReadLimit(k.next, size);
        Outcome(if n == expectedSize then 1 else 0, k.next.(offset := k.next.offset + n))
    case ReadAtOffset(offset, size, expectedOffset, expectedSize) =>
      var o := ReadAtLoop(s, offset, size);
      Outcome(if o.next.offset == expectedOffset && o.delivered == expectedSize then 1 else 0, o.next)
  }

  /**
   * fsntfs_test_seek_offset_and_read_buffer: the seek check, then, only when
   * it passed and `inputOffset` is not negative, the buffered read check. The
   * ghost `issued` are the reads it issued.
   */
  method TestSeekOffsetAndReadBuffer(entry: FileEntry?, inputOffset: int, whence: Whence, inputSize: nat,
                                     expectedOffset: int, expectedSize: nat)
    returns (result: int, ghost issued: seq<ReadCall>)
    modifies entry
    ensures entry == null ==> result == -1 && issued == []
    ensures entry != null ==>
              var k := Seek(old(entry.State()), inputOffset, whence);
              var o := RunStep(SeekAndRead(inputOffset, whence, inputSize, expectedOffset, expectedSize),
                               old(entry.State()));
              result == o.result && entry.State() == o.next &&
              (if k.value == expectedOffset && inputOffset >= 0 then issued == ReadPlan(k.next, inputSize)
               else issued == [])
  {
    issued := [];
    if entry == null {
      return -1, issued;
    }
    result := TestSeekOffset(entry, inputOffset, whence, expectedOffset);
    if result == 1 {
      if inputOffset >= 0 {
        result, issued := TestReadBuffer(entry, inputSize, expectedSize);
      }
    }
  }
}
