/**
 * The multi-threaded read test, run on one schedule its thread pool may
 * choose: the work items one after another, in queue order. Each work item
 * reads a chunk at the shared cursor three times, seeking back a chunk
 * between reads, so that it leaves the cursor one chunk further on. The
 * driver plans how many items to queue and where the cursor should end.
 */
module SerializedRead {
  import opened Adapter
  import opened ReadTest

  /** FSNTFS_TEST_READ_NUMBER_OF_THREADS, the thread count the program would use. */
  const DefaultThreads: nat := 4

  /** The work items queued per thread. */
  const ItemsPerThread: nat := 32

  /** The reads one work item makes. */
  const ReadsPerItem: nat := 3

  // ---------------------------------------------------------------------------
  // The plan: how many work items, and the offset the cursor should end at
  // ---------------------------------------------------------------------------

  datatype Plan = Plan(iterations: nat, expected: nat)

  /**
   * With more than one thread, 32 items per thread and a chunk each; when that
   * is more than the file holds, the whole file and as many items as it takes
   * to cover it, the last one possibly partial. With one thread or none, no
   * items and an expected offset of 0.
   */
  function IterationPlan(threads: int, fileSize: nat): (p: Plan)
    ensures threads <= 1 ==> p == Plan(0, 0)
    ensures threads > 1 ==> p.expected == Min(threads * ItemsPerThread * ChunkSize, fileSize)
    ensures threads > 1 && threads * ItemsPerThread * ChunkSize <= fileSize ==>
              p.iterations == threads * ItemsPerThread && p.expected == p.iterations * ChunkSize
    ensures threads > 1 && threads * ItemsPerThread * ChunkSize > fileSize ==>
              (p.iterations - 1) * ChunkSize < fileSize <= p.iterations * ChunkSize &&
              p.iterations <= threads * ItemsPerThread
  {
    if threads > 1 then
      var iterations := threads * ItemsPerThread;
      var expected := iterations * ChunkSize;
      if expected > fileSize then
        Plan(fileSize / ChunkSize + (if fileSize % ChunkSize != 0 then 1 else 0), fileSize)
      else
        Plan(iterations, expected)
    else
      Plan(0, 0)
  }

  // ---------------------------------------------------------------------------
  // One work item, and the queue of them
  // ---------------------------------------------------------------------------

  /**
   * A work item with `iterations` reads still to make, from state `s`: read a
   * chunk; unless this was the last read, seek back a chunk. As written, any
   * read that does not deliver a full chunk is an error (-1). When
   * `shortReadEnds` holds, a short read (but not a failed one) instead ends
   * the item successfully: the end of the entry was reached.
   */
  function WorkItem(s: EntryState, iterations: nat, shortReadEnds: bool): Outcome
    decreases iterations
  {
    if iterations == 0 then Outcome(1, s)
    else
      var r := Read(s, ChunkSize);
      if r.value != ChunkSize then
        Outcome(if shortReadEnds && r.value >= 0 then 1 else -1, r.next)
      else if iterations - 1 > 0 then
        var k := Seek(r.next, -(ChunkSize as int), Cur);
        if k.value == -1 then Outcome(-1, k.next) else WorkItem(k.next, iterations - 1, shortReadEnds)
      else
        Outcome(1, r.next)
  }

  /** `items` work items run one after another; the first that fails stops the run. */
  function RunQueue(s: EntryState, items: nat, shortReadEnds: bool): Outcome
    decreases items
  {
    if items == 0 then Outcome(1, s)
    else
      var o := WorkItem(s, ReadsPerItem, shortReadEnds);
      if o.result != 1 then o else RunQueue(o.next, items - 1, shortReadEnds)
  }

  /**
   * The whole test on the serialized schedule: rewind to 0, run the planned
   * items, and compare the final cursor with the planned offset.
   */
  function SerializedRun(s: EntryState, fileSize: nat, threads: int, shortReadEnds: bool): Outcome
  {
    var k := Seek(s, 0, Set);
    if k.value == -1 then Outcome(-1, k.next)
    else
      var plan := IterationPlan(threads, fileSize);
      var o := RunQueue(k.next, plan.iterations, shortReadEnds);
      if o.result != 1 then Outcome(-1, o.next)
      else Outcome(if o.next.offset == plan.expected then 1 else 0, o.next)
  }

  /**
   * A work item as written moves the cursor exactly one chunk on when a full
   * chunk lies ahead of it, and otherwise fails at its first read, which it
   * leaves as it was.
   */
  lemma {:induction false} WorkItemAdvancesOneChunk(s: EntryState, iterations: nat)
    requires iterations > 0
    ensures !s.readFails && s.offset + ChunkSize <= s.size ==>
              WorkItem(s, iterations, false) == Outcome(1, s.(offset := s.offset + ChunkSize))
    ensures !(!s.readFails && s.offset + ChunkSize <= s.size) ==>
              WorkItem(s, iterations, false) == Outcome(-1, Read(s, ChunkSize).next)
    decreases iterations
  {
    if !s.readFails && s.offset + ChunkSize <= s.size && iterations > 1 {
      var r := Read(s, ChunkSize);
      assert Seek(r.next, -(ChunkSize as int), Cur) == Reply(s.offset, s);
      WorkItemAdvancesOneChunk(s, iterations - 1);
    }
  }

  /**
   * With a short read ending the item, an item on a readable entry always
   * succeeds and moves the cursor a chunk on, or to the end when less than a
   * chunk is left.
   */
  lemma {:induction false} WorkItemToEnd(s: EntryState, iterations: nat)
    requires iterations > 0 && !s.readFails && s.offset <= s.size
    ensures WorkItem(s, iterations, true) == Outcome(1, s.(offset := Min(s.offset + ChunkSize, s.size)))
    decreases iterations
  {
    if s.offset + ChunkSize <= s.size && iterations > 1 {
      var r := Read(s, ChunkSize);
      assert Seek(r.next, -(ChunkSize as int), Cur) == Reply(s.offset, s);
      WorkItemToEnd(s, iterations - 1);
    }
  }

  /** As written, a queue of items succeeds exactly when every item finds a full chunk ahead of it. */
  lemma {:induction false} RunQueueAsWritten(s: EntryState, items: nat)
    requires !s.readFails && s.offset <= s.size
    ensures RunQueue(s, items, false).result == 1 <==> s.offset + items * ChunkSize <= s.size
    ensures RunQueue(s, items, false).result != 1 ==> RunQueue(s, items, false).result == -1
    ensures RunQueue(s, items, false).result == 1 ==>
              RunQueue(s, items, false).next == s.(offset := s.offset + items * ChunkSize)
    decreases items
  {
    if items > 0 {
      WorkItemAdvancesOneChunk(s, ReadsPerItem);
      assert items * ChunkSize == (items - 1) * ChunkSize + ChunkSize && (items - 1) * ChunkSize >= 0;
      if s.offset + ChunkSize <= s.size {
        RunQueueAsWritten(s.(offset := s.offset + ChunkSize), items - 1);
      }
    }
  }

  /** With a short read ending the item, a queue always succeeds and the cursor ends at the end or after its chunks. */
  lemma {:induction false} RunQueueToEnd(s: EntryState, items: nat)
    requires !s.readFails && s.offset <= s.size
    ensures RunQueue(s, items, true) == Outcome(1, s.(offset := Min(s.offset + items * ChunkSize, s.size)))
    decreases items
  {
    if items > 0 {
      WorkItemToEnd(s, ReadsPerItem);
      assert items * ChunkSize == (items - 1) * ChunkSize + ChunkSize;
      RunQueueToEnd(s.(offset := Min(s.offset + ChunkSize, s.size)), items - 1);
    }
  }

  /**
   * As written, the serialized test on a readable entry of the given size
   * passes exactly when no clamping was needed or the size is a whole number
   * of chunks; otherwise the last item's read is short and the test reports
   * -1. It never reports 0.
   */
  lemma SerializedRunAsWritten(s: EntryState, fileSize: nat, threads: int)
    requires !s.readFails && s.size == fileSize
    ensures var o := SerializedRun(s, fileSize, threads, false);
            (o.result == 1 <==>
               threads <= 1 || threads * ItemsPerThread * ChunkSize <= fileSize || fileSize % ChunkSize == 0) &&
            (o.result == 1 || o.result == -1)
  {
    var plan := IterationPlan(threads, fileSize);
    RunQueueAsWritten(s.(offset := 0), plan.iterations);
  }

  /** The smallest case that shows it: a 5000-byte entry and four threads plan two items, and the second one's read is short. */
  lemma SerializedRunFailsOnUnalignedTail(s: EntryState)
    requires !s.readFails && s.size == 5000
    ensures IterationPlan(DefaultThreads, 5000) == Plan(2, 5000)
    ensures SerializedRun(s, 5000, DefaultThreads, false).result == -1
  {
  }

  /**
   * With a short read ending the item, the serialized test on a readable entry
   * of the given size always passes and leaves the cursor at the planned offset.
   */
  lemma SerializedRunToEndPasses(s: EntryState, fileSize: nat, threads: int)
    requires !s.readFails && s.size == fileSize
    ensures SerializedRun(s, fileSize, threads, true) ==
              Outcome(1, s.(offset := IterationPlan(threads, fileSize).expected))
  {
    var plan := IterationPlan(threads, fileSize);
    RunQueueToEnd(s.(offset := 0), plan.iterations);
  }

  // ---------------------------------------------------------------------------
  // The methods
  // ---------------------------------------------------------------------------

  /**
   * fsntfs_test_read_callback_function: one work item on the shared entry, as
   * written; 1 on success, -1 on a missing entry or a read or seek that failed.
   */
  method ReadCallback(entry: FileEntry?) returns (result: int)
    modifies entry
    ensures entry == null ==> result == -1
    ensures entry != null ==>
              var o := WorkItem(old(entry.State()), ReadsPerItem, false);
              result == o.result && entry.State() == o.next
  {
    if entry == null {
      return -1;
    }
    ghost var goal := WorkItem(entry.State(), ReadsPerItem, false);
    var readSize := ChunkSize;
    var iterations := ReadsPerItem;
    while iterations > 0
      invariant 0 <= iterations <= ReadsPerItem
      invariant goal == WorkItem(entry.State(), iterations, false)
      decreases iterations
    {
      var readCount := entry.ReadBuffer(readSize);
      if readCount != readSize {
        return -1;
      }
      iterations := iterations - 1;
      if iterations > 0 {
        var r := entry.SeekOffset(-(readSize as int), Cur);
        if r == -1 {
          return -1;
        }
      }
    }
    return 1;
  }

  /**
   * fsntfs_test_read_from_file_entry_multi_thread with its thread pool
   * draining the queue one item at a time: -1 on a missing entry, a failed
   * rewind or a failed item; otherwise 1 exactly when the cursor ends at the
   * planned offset.
   */
  method TestReadFromFileEntrySerialized(entry: FileEntry?, fileSize: nat, threads: int) returns (result: int)
    modifies entry
    ensures entry == null ==> result == -1
    ensures entry != null ==>
              var o := SerializedRun(old(entry.State()), fileSize, threads, false);
              result == o.result && entry.State() == o.next
  {
    if entry == null {
      return -1;
    }
    ghost var start := entry.State();
    var r := entry.SeekOffset(0, Set);
    if r == -1 {
      return -1;
    }
    var plan := IterationPlan(threads, fileSize);
    ghost var goal := RunQueue(entry.State(), plan.iterations, false);
    var iteration := 0;
    while iteration < plan.iterations
      invariant 0 <= iteration <= plan.iterations
      invariant goal == RunQueue(entry.State(), plan.iterations - iteration, false)
    {
      var itemResult := ReadCallback(entry);
      if itemResult != 1 {
        return -1;
      }
      iteration := iteration + 1;
    }
    var resultOffset := entry.GetOffset();
    result := if plan.expected != resultOffset then 0 else 1;
  }
}
