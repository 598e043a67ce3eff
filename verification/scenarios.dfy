/**
 * The scenario driver of the read test: a fixed battery of cases derived from
 * the file size, each run twice, stopping at the first case that does not
 * pass.
 */
module Scenarios {
  import opened Adapter
  import opened ReadTest

  /** Case 0: the whole entry from offset 0. */
  function FullRead(fileSize: nat): Step
  {
    SeekAndRead(0, Set, fileSize, 0, fileSize)
  }

  /** Case 1: half the entry from a seventh of the way in. */
  function MidRead(fileSize: nat): Step
  {
    SeekAndRead(fileSize / 7, Set, fileSize / 2, fileSize / 7, fileSize / 2)
  }

  /**
   * Case 2: a chunk from 1024 bytes before the end. For an entry shorter than
   * 1024 bytes the unsigned subtraction wraps and the cast back to a signed
   * offset gives the negative value fileSize - 1024, whose seek must fail; the
   * expected size is then (size64_t) -1 and no read is made.
   */
  function TailRead(fileSize: nat): Step
  {
    if fileSize < 1024 then SeekAndRead(fileSize - 1024, Set, ChunkSize, -1, Uint64Max)
    else SeekAndRead(fileSize - 1024, Set, ChunkSize, fileSize - 1024, 1024)
  }

  /** Case 3: case 1 again, through offset-addressed reads. */
  function MidReadAt(fileSize: nat): Step
  {
    ReadAtOffset(fileSize / 7, fileSize / 2, fileSize / 7 + fileSize / 2, fileSize / 2)
  }

  /** The driver's cases in the order it runs them, each twice. */
  function Battery(fileSize: nat): (b: seq<Step>)
    ensures |b| == 8
    ensures forall i :: 0 <= i < 4 ==> b[2 * i] == b[2 * i + 1]
  {
    [FullRead(fileSize), FullRead(fileSize),
     MidRead(fileSize), MidRead(fileSize),
     TailRead(fileSize), TailRead(fileSize),
     MidReadAt(fileSize), MidReadAt(fileSize)]
  }

  /** Runs `steps` in order and returns the first result that is not 1, or 1. */
  function RunSteps(steps: seq<Step>, s: EntryState): Outcome
    decreases |steps|
  {
    if steps == [] then Outcome(1, s)
    else
      var o := RunStep(steps[0], s);
      if o.result != 1 then o else RunSteps(steps[1..], o.next)
  }

  /** Running a battery is running its first step, then the rest unless that step did not pass. */
  lemma RunStepsAdvance(goal: Outcome, todo: seq<Step>, s: EntryState)
    requires todo != [] && goal == RunSteps(todo, s)
    ensures RunStep(todo[0], s).result != 1 ==> goal == RunStep(todo[0], s)
    ensures RunStep(todo[0], s).result == 1 ==> goal == RunSteps(todo[1..], RunStep(todo[0], s).next)
  {
  }

  /**
   * fsntfs_test_read_from_file_entry: -1 for a missing entry or a file size
   * above INT64_MAX; otherwise the result of running the battery.
   */
  method TestReadFromFileEntry(entry: FileEntry?, fileSize: nat) returns (result: int)
    modifies entry
    ensures entry == null ==> result == -1
    ensures entry != null && fileSize > Int64Max ==> result == -1 && entry.State() == old(entry.State())
    ensures entry != null && fileSize <= Int64Max ==>
              var o := RunSteps(Battery(fileSize), old(entry.State()));
              result == o.result && entry.State() == o.next
  {
    if entry == null {
      return -1;
    }
    if fileSize > Int64Max {
      return -1;
    }
    ghost var todo := Battery(fileSize);
    ghost var goal := RunSteps(todo, entry.State());
    ghost var issued: seq<ReadCall>;

    // Case 0: full read
    RunStepsAdvance(goal, todo, entry.State());
    result, issued := TestSeekOffsetAndReadBuffer(entry, 0, Set, fileSize, 0, fileSize);
    if result != 1 {
      return result;
    }
    todo := todo[1..];
    RunStepsAdvance(goal, todo, entry.State());
    result, issued := TestSeekOffsetAndReadBuffer(entry, 0, Set, fileSize, 0, fileSize);
    if result != 1 {
      return result;
    }
    todo := todo[1..];

    // Case 1: read from an offset
    RunStepsAdvance(goal, todo, entry.State());
    result, issued := TestSeekOffsetAndReadBuffer(entry, fileSize / 7, Set, fileSize / 2, fileSize / 7, fileSize / 2);
    if result != 1 {
      return result;
    }
    todo := todo[1..];
    RunStepsAdvance(goal, todo, entry.State());
    result, issued := TestSeekOffsetAndReadBuffer(entry, fileSize / 7, Set, fileSize / 2, fileSize / 7, fileSize / 2);
    if result != 1 {
      return result;
    }
    todo := todo[1..];

    // Case 2: read beyond the end
    if fileSize < 1024 {
      RunStepsAdvance(goal, todo, entry.State());
      result, issued := TestSeekOffsetAndReadBuffer(entry, fileSize - 1024, Set, ChunkSize, -1, Uint64Max);
      if result != 1 {
        return result;
      }
      todo := todo[1..];
      RunStepsAdvance(goal, todo, entry.State());
      result, issued := TestSeekOffsetAndReadBuffer(entry, fileSize - 1024, Set, ChunkSize, -1, Uint64Max);
      if result != 1 {
        return result;
      }
      todo := todo[1..];
    } else {
      RunStepsAdvance(goal, todo, entry.State());
      result, issued := TestSeekOffsetAndReadBuffer(entry, fileSize - 1024, Set, ChunkSize, fileSize - 1024, 1024);
      if result != 1 {
        return result;
      }
      todo := todo[1..];
      RunStepsAdvance(goal, todo, entry.State());
      result, issued := TestSeekOffsetAndReadBuffer(entry, fileSize - 1024, Set, ChunkSize, fileSize - 1024, 1024);
      if result != 1 {
        return result;
      }
      todo := todo[1..];
    }

    // Case 3: offset-addressed read
    RunStepsAdvance(goal, todo, entry.State());
    result := TestReadBufferAtOffset(entry, fileSize / 7, fileSize / 2, fileSize / 7 + fileSize / 2, fileSize / 2);
    if result != 1 {
      return result;
    }
    todo := todo[1..];
    RunStepsAdvance(goal, todo, entry.State());
    result := TestReadBufferAtOffset(entry, fileSize / 7, fileSize / 2, fileSize / 7 + fileSize / 2, fileSize / 2);
    if result != 1 {
      return result;
    }
    return 1;
  }

  // ---------------------------------------------------------------------------
  // What the battery establishes
  // ---------------------------------------------------------------------------

  /**
   * A step whose outcome does not depend on where the cursor was: an absolute
   * seek, or an offset read that issues at least one read.
   */
  predicate Absolute(step: Step)
  {
    match step
    case SeekAndRead(_, whence, _, _, _) => whence == Set
    case ReadAtOffset(offset, size, _, _) => offset >= 0 && size > 0
  }

  /**
   * An absolute step gives the same result on two entries that differ only in
   * their cursor, so running a case twice in a row repeats its result.
   */
  lemma AbsoluteStepIgnoresCursor(step: Step, s: EntryState, t: EntryState)
    requires Absolute(step) && s.size == t.size && s.readFails == t.readFails
    ensures RunStep(step, s).result == RunStep(step, t).result
  {
  }

  /** Every case of the battery repeats its result when run twice in a row. */
  lemma BatteryRepeatable(fileSize: nat, s: EntryState, i: nat)
    requires i < 8
    ensures var step := Battery(fileSize)[i];
            RunStep(step, RunStep(step, s).next).result == RunStep(step, s).result
  {
  }

  /**
   * On an entry that behaves as modelled and whose size is the file size
   * given, every case passes and the cursor ends after the offset read.
   */
  lemma {:induction false} BatteryPasses(s: EntryState, fileSize: nat)
    requires !s.readFails && s.size == fileSize && fileSize <= Int64Max
    ensures RunSteps(Battery(fileSize), s) == Outcome(1, s.(offset := fileSize / 7 + fileSize / 2))
  {
    var full := s.(offset := fileSize);
    assert RunStep(FullRead(fileSize), s) == Outcome(1, full);
    assert RunStep(FullRead(fileSize), full) == Outcome(1, full);
    var mid := s.(offset := fileSize / 7 + fileSize / 2);
    assert RunStep(MidRead(fileSize), full) == Outcome(1, mid);
    assert RunStep(MidRead(fileSize), mid) == Outcome(1, mid);
    var tail := if fileSize < 1024 then mid else full;
    assert RunStep(TailRead(fileSize), mid) == Outcome(1, tail);
    assert RunStep(TailRead(fileSize), tail) == Outcome(1, tail);
    assert RunStep(MidReadAt(fileSize), tail) == Outcome(1, mid);
    assert RunStep(MidReadAt(fileSize), mid) == Outcome(1, mid);
    var b := Battery(fileSize);
    assert RunSteps(b[7..], mid) == Outcome(1, mid);
    assert RunSteps(b[6..], tail) == Outcome(1, mid) by { assert b[6..][1..] == b[7..]; }
    assert RunSteps(b[5..], tail) == Outcome(1, mid) by { assert b[5..][1..] == b[6..]; }
    assert RunSteps(b[4..], mid) == Outcome(1, mid) by { assert b[4..][1..] == b[5..]; }
    assert RunSteps(b[3..], mid) == Outcome(1, mid) by { assert b[3..][1..] == b[4..]; }
    assert RunSteps(b[2..], full) == Outcome(1, mid) by { assert b[2..][1..] == b[3..]; }
    assert RunSteps(b[1..], full) == Outcome(1, mid) by { assert b[1..][1..] == b[2..]; }
  }

  /** On an entry that cannot be read, the first full read delivers nothing and the driver reports 0. */
  lemma BatteryFailsOnUnreadableEntry(s: EntryState, fileSize: nat)
    requires s.readFails && 0 < fileSize <= Int64Max
    ensures RunSteps(Battery(fileSize), s) == Outcome(0, s.(offset := 0))
  {
  }

  /**
   * The worked example of a 5000-byte entry: the full read delivers 5000 bytes
   * and the tail read from offset 3976 delivers the last 1024, both leaving the
   * cursor at 5000.
   */
  lemma FiveThousandByteEntry(s: EntryState)
    requires !s.readFails && s.size == 5000
    ensures RunStep(FullRead(5000), s) == Outcome(1, s.(offset := 5000))
    ensures TailRead(5000) == SeekAndRead(3976, Set, ChunkSize, 3976, 1024)
    ensures RunStep(TailRead(5000), s) == Outcome(1, s.(offset := 5000))
  {
  }
}
