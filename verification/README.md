# libfsntfs read test, modelled in Dafny

This project models the read test program of libfsntfs,
`tests/fsntfs_test_read.c`. The program opens an NTFS volume, looks up the
`$UpCase` file entry and exercises the entry's seek and read calls. Each
check compares exact byte counts and cursor positions with values derived
from the file size.

The library behind the file entry is not modelled. It appears only as an
abstract seekable resource, `Adapter.FileEntry`. The entry has a fixed
`size` and a mutable cursor `offset`, and it behaves the way the test's
expectations assume:

- a seek whose target is negative returns -1 and leaves the cursor where it was;
- `read(n)` delivers `min(n, size - offset)` bytes (none at or past the end) and advances the cursor by that much;
- `read_at(n, off)` is a seek to `off` followed by `read(n)`;
- `get_offset` returns the cursor.

An entry whose backing volume cannot be read (`readFails`) answers every data
read with -1. A plain read then leaves the cursor where it was; an offset read
has already moved the cursor to its offset when its read fails. The flag is
fixed for the whole entry, so its reads all fail or none does. This makes the
test's failed-read branches reachable on a first read, but not after earlier
reads succeeded (see Left out). The pure
functions `Seek`, `Read` and `ReadAt` on the value `EntryState` give these
semantics. The class methods are proved against them.

The model has four modules:

- `Adapter` (adapter.dfy): the file entry, as above.
- `ReadTest` (read_test.dfy): the seek check, the buffered read loop, the
  offset-addressed read loop and the seek-then-read step. The buffered loop
  records a ghost trace of the reads it issues, and `ReadPlan` is that trace
  as a function. Lemmas about `ReadPlan` give the closed form of the loop.
- `Scenarios` (scenarios.dfy): the driver. `Battery` lists its cases as data,
  and `RunSteps` runs them, stopping at the first result that is not 1. The
  driver method keeps the C code's straight-line shape and is proved equal
  to `RunSteps(Battery(fileSize), …)`.
- `SerializedRead` (serialized_read.dfy): the multi-threaded test on one
  schedule its thread pool may choose, where the work items run one after
  another in queue order. It covers the iteration plan, the work item (three
  reads with a rewind between them) and the final cursor check.

Each test step returns 1 (pass), 0 (fail) or -1 (error), as in the C code.
Handles are `FileEntry?`, so the `file_entry == NULL` branches, which return
-1, are modelled too.

Two facts about the code that the model follows:

- The driver does not carry on after a failing case. It returns the first
  result that is not 1.
- After clamping, the multi-threaded test expects the cursor to end exactly
  at the file size, not at a chunk boundary (see Findings).

## Model

| member | source | states |
|---|---|---|
| `Adapter.Seek` | tests/fsntfs_test_read.c:59-63 | the seek the test expects: the target is the offset relative to start, cursor or end; a negative target gives -1 and no change; otherwise the cursor moves to the target, which is returned |
| `Adapter.Read` | tests/fsntfs_test_read.c:121-125 | a read delivers min(n, bytes left) and never more than asked, and moves the cursor by exactly that; a failing volume gives -1 and no change |
| `Adapter.ReadAt` | tests/fsntfs_test_read.c:204-209 | an offset read with a negative offset gives -1 and no change; otherwise it sets the cursor to the offset and then reads as `Read` does |
| `Adapter.FileEntry.SeekOffset` | tests/fsntfs_test_read.c:59-63 | the entry's seek returns and does what `Seek` says |
| `Adapter.FileEntry.ReadBuffer` | tests/fsntfs_test_read.c:121-125 | the entry's read returns and does what `Read` says |
| `Adapter.FileEntry.ReadBufferAtOffset` | tests/fsntfs_test_read.c:204-209 | the entry's offset read returns and does what `ReadAt` says |
| `Adapter.FileEntry.GetOffset` | tests/fsntfs_test_read.c:224-227 | get_offset returns the cursor and changes nothing |
| `ReadTest.ReadPlan` | tests/fsntfs_test_read.c:113-138 | definition without a contract: the reads the buffered loop issues, a request of min(4096, remaining) repeated while each read delivers all it asked; its properties are stated by `ReadPlanDelivers`, `ReadPlanRequests` and `ReadPlanStops`, and `TestReadBuffer` is proved to issue exactly these reads |
| `ReadTest.ReadLimit` | tests/fsntfs_test_read.c:113-138 | the bytes a read loop must deliver: never more than asked; all of them when they fit before the end; exactly the rest of the entry when they do not; none on a failing volume |
| `ReadTest.ReadPlanDelivers` | tests/fsntfs_test_read.c:113-138 | over all its reads, the buffered loop delivers exactly `ReadLimit`, i.e. min(size, size of entry - cursor) on a readable entry |
| `ReadTest.ReadPlanRequests` | tests/fsntfs_test_read.c:111-120 | no read is issued for a size of 0, and only then; read i asks for min(4096, size - bytes delivered by reads 0..i-1), which is never 0 |
| `ReadTest.ReadPlanStops` | tests/fsntfs_test_read.c:127-137 | every read but the last delivered all it asked for; the last one failed, was short, or completed the requested size |
| `ReadTest.TailReadIsClipped` | tests/fsntfs_test_read.c:509-515 | 1024 bytes before the end of a readable entry, a 4096-byte request is a single read that delivers exactly 1024 |
| `ReadTest.TestSeekOffset` | tests/fsntfs_test_read.c:45-88 | returns -1 for a missing entry; otherwise 1 exactly when the seek result equals the expected offset and 0 when not (never -1), leaving the entry as the seek left it |
| `ReadTest.TestReadBuffer` | tests/fsntfs_test_read.c:93-162 | issues exactly the reads of `ReadPlan`, keeps bytes read + bytes remaining = size requested, delivers `ReadLimit` bytes, moves the cursor by that count, and returns 1 exactly when the count is the expected size (0 otherwise, -1 only for a missing entry) |
| `ReadTest.ReadAtLoop` | tests/fsntfs_test_read.c:196-223 | the offset-read loop delivers `ReadLimit` from the input offset; with no read (size 0) or a negative offset it delivers nothing and leaves the entry alone; otherwise the cursor ends at input offset + bytes read |
| `ReadTest.TestReadBufferAtOffset` | tests/fsntfs_test_read.c:167-277 | advances its own offset by the bytes each read delivers (offset = input offset + bytes read), then returns 1 exactly when the entry's own cursor equals the expected offset and the count equals the expected size, checking the cursor first; -1 for a missing entry |
| `ReadTest.TestSeekOffsetAndReadBuffer` | tests/fsntfs_test_read.c:282-353 | returns `RunStep` of its inputs; it issues reads (exactly `ReadPlan` after the seek) only when the seek matched and the input offset is not negative, so a negative offset whose seek fails as expected passes with no read |
| `ReadTest.RunStep` | tests/fsntfs_test_read.c:282-353 | definition without a contract: the seek check, then the buffered read check only when the seek matched and the input offset is not negative, or the offset-read check; `TestSeekOffsetAndReadBuffer` is proved equal to it, and `AbsoluteStepIgnoresCursor`, `BatteryRepeatable`, `BatteryPasses` and `FiveThousandByteEntry` state its properties |
| `Scenarios.Battery` | tests/fsntfs_test_read.c:376-583 | the driver's eight cases, each of the four (full, mid, tail, offset read) run twice in a row with the same parameters |
| `Scenarios.FullRead` | tests/fsntfs_test_read.c:382-388 | definition without a contract: case 0, the whole entry from offset 0 with SEEK_SET, expecting offset 0 and the file size; `BatteryPasses` and `FiveThousandByteEntry` state that it passes |
| `Scenarios.MidRead` | tests/fsntfs_test_read.c:424-430 | definition without a contract: case 1, half the entry from a seventh of the way in with SEEK_SET, expecting offset size/7 and size/2; `BatteryPasses` states that it passes |
| `Scenarios.TailRead` | tests/fsntfs_test_read.c:463-544 | definition without a contract: the case 1024 bytes before the end; under 1024 bytes the wrapped `(off64_t)(file_size - 1024)` is negative, so the seek is expected to fail (-1) and the size is (size64_t) -1; `BatteryPasses` and `FiveThousandByteEntry` state that both forms pass |
| `Scenarios.MidReadAt` | tests/fsntfs_test_read.c:551-556 | definition without a contract: case 3, an offset read of size/2 at size/7, expecting the cursor at size/7 + size/2 and size/2 bytes; `BatteryPasses` states that it passes |
| `Scenarios.RunSteps` | tests/fsntfs_test_read.c:382-584 | definition without a contract: the driver runs its cases in order and returns the first result that is not 1; `TestReadFromFileEntry` is proved equal to it, and `BatteryPasses` and `BatteryFailsOnUnreadableEntry` state its outcome |
| `Scenarios.TestReadFromFileEntry` | tests/fsntfs_test_read.c:358-585 | -1 for a missing entry or a file size above INT64_MAX (entry untouched); otherwise the result and final state of running the battery and stopping at the first result that is not 1 |
| `Scenarios.AbsoluteStepIgnoresCursor` | tests/fsntfs_test_read.c:382-388 | a case that seeks from the start, or an offset read that reads, gives the same result wherever the cursor was |
| `Scenarios.BatteryRepeatable` | tests/fsntfs_test_read.c:398-416 | running any case of the battery a second time right after the first gives the same result |
| `Scenarios.BatteryPasses` | tests/fsntfs_test_read.c:376-584 | on a readable entry of the given size (at most INT64_MAX) every case passes, including the clipped tail read and the failed negative seek of an entry under 1024 bytes, and the cursor ends at size/7 + size/2 |
| `Scenarios.BatteryFailsOnUnreadableEntry` | tests/fsntfs_test_read.c:382-397 | on a non-empty entry that cannot be read, the first full read delivers nothing and the driver returns 0 |
| `Scenarios.FiveThousandByteEntry` | tests/fsntfs_test_read.c:505-515 | on a 5000-byte entry the full read passes with the cursor at 5000, and the tail case is offset 3976, 4096 asked, 1024 expected, passing with the cursor at 5000 |
| `SerializedRead.IterationPlan` | tests/fsntfs_test_read.c:717-733 | with more than one thread, 32 items per thread and an expected offset of min(items × 4096, file size); when clamped, the number of items is the ceiling of size/4096 (the smallest count whose chunks cover the file); with at most one thread, no items and 0 |
| `SerializedRead.WorkItem` | tests/fsntfs_test_read.c:618-657 | definition without a contract: the callback's loop of three chunk reads with a rewind of one chunk between them, as written (a short read is -1) or corrected (a short read ends the item); `WorkItemAdvancesOneChunk` and `WorkItemToEnd` state its properties, and `ReadCallback` is proved equal to it |
| `SerializedRead.WorkItemAdvancesOneChunk` | tests/fsntfs_test_read.c:618-657 | a work item succeeds and moves the cursor exactly 4096 on when a full chunk lies ahead; otherwise it fails (-1) at its first read |
| `SerializedRead.RunQueue` | tests/fsntfs_test_read.c:752-783 | definition without a contract: the queued items run one after another, the first failure stopping the run; `RunQueueAsWritten` and `RunQueueToEnd` state its properties |
| `SerializedRead.RunQueueAsWritten` | tests/fsntfs_test_read.c:752-770 | items run one after another all succeed exactly when offset + items × 4096 fits in the entry, leaving the cursor there; otherwise the run reports -1 |
| `SerializedRead.SerializedRun` | tests/fsntfs_test_read.c:702-830 | definition without a contract: rewind to 0, run the planned items, compare the final cursor with the planned offset; `SerializedRunAsWritten`, `SerializedRunFailsOnUnalignedTail` and `SerializedRunToEndPasses` state its properties, and `TestReadFromFileEntrySerialized` is proved equal to it |
| `SerializedRead.SerializedRunAsWritten` | tests/fsntfs_test_read.c:677-830 | on a readable entry the serialized test passes exactly when there is at most one thread, no clamping, or a chunk-aligned size; otherwise it reports -1, never 0 |
| `SerializedRead.SerializedRunFailsOnUnalignedTail` | tests/fsntfs_test_read.c:723-733 | a 5000-byte entry and 4 threads plan 2 items with expected offset 5000, and the serialized test reports -1 |
| `SerializedRead.WorkItemToEnd` | tests/fsntfs_test_read.c:626-636 | when a short read ends the item, an item on a readable entry always succeeds and moves the cursor to min(cursor + 4096, size) |
| `SerializedRead.RunQueueToEnd` | tests/fsntfs_test_read.c:752-770 | when a short read ends the item, a queue always succeeds and the cursor ends at min(cursor + items × 4096, size) |
| `SerializedRead.SerializedRunToEndPasses` | tests/fsntfs_test_read.c:723-733 | when a short read ends the item, the serialized test passes on every readable entry and leaves the cursor at the planned offset |
| `SerializedRead.ReadCallback` | tests/fsntfs_test_read.c:592-671 | the work item as written: -1 for a missing entry, otherwise the result and final state of `WorkItem` with three reads |
| `SerializedRead.TestReadFromFileEntrySerialized` | tests/fsntfs_test_read.c:677-849 | -1 for a missing entry; otherwise rewinds to 0, runs the planned items in order, and returns the result and final state of `SerializedRun` as written |

## Left out

- `main` (tests/fsntfs_test_read.c:853-1032): opening the volume, looking up `$UpCase`, reading its size, freeing and closing. This is I/O glue around the modelled functions.
- The libfsntfs implementation of the file entry. It is a foreign library, represented only by the assumptions listed above. Which I/O errors it can raise is not modelled; `readFails` stands for an entry on which every read fails.
- The thread pool (libcthreads create, push and join, :734-783 and :842-847) and every concurrent interleaving. Only the schedule that runs the queued items one after another is modelled. A failing item is taken to make the join report failure, so the test returns -1. Whether the pool still runs the remaining items after a failure is not modelled; the model stops at the first failed item. The multi-threaded test is also commented out in `main` (:958-972).
- Pool creation, push and join failures (:734-783) are not modelled, because they belong to the thread library.
- Printing to stdout and stderr, the whence name shown in the log (:297-318), and the libcerror backtraces and frees. These are diagnostics only.
- `get_offset` failing (:224-230 and :785-798): the entry's `GetOffset` always succeeds, so neither the offset-read test's branch that sets the result to -1 (which a later match in the C code would overwrite with 1 anyway) nor the multi-threaded test's branch that jumps to its error exit and returns -1 is modelled.
- Adapter.Read: an entry's reads all fail or none does (`readFails` is fixed for the entry), so a read that fails after earlier reads of the same loop succeeded is not modelled, nor the partial count the buffered loop (:127-132) and the offset-read loop (:211-217) keep when they stop on such a failure. `ReadPlanDelivers` gives exactly `ReadLimit` only under this all-or-nothing failure.
- Whence values other than SEEK_SET, SEEK_CUR and SEEK_END: `Whence` has only those three.
- Adapter.Seek: does not model 64-bit overflow of the seek target (`off64_t`), because the sizes and offsets the test uses are at most INT64_MAX and the targets it computes stay in range.
- SerializedRead.IterationPlan: does not model the C `int` overflow of `number_of_threads * 32` for thread counts above 2^26, because the program would use 4 threads.
- The 4096-byte stack buffer the data is read into: the model counts bytes and does not look at their values, as the test does not.

## Findings

| source | as written | input that shows it | evidently intended | confidence | as-written member | corrected member |
|---|---|---|---|---|---|---|
| tests/fsntfs_test_read.c:723-733 | When the planned reads exceed the file, the test queues ceil(size/4096) work items. It expects the cursor to end at the file size. But each item (:626-636) treats any read shorter than 4096 bytes as an error. | A 5000-byte entry and 4 threads, with items run one after another: 2 items are queued. The second item reads 904 bytes at offset 4096 and fails. The test returns -1 only if the pool's join reports the failed item, as assumed under Left out; the cursor is then at 5000, equal to the expected offset, so if the join passed the failure over the test would return 1 and only print a backtrace. | The last, partial chunk reaches the end of the file. It should end its item successfully, so that the cursor ends at the file size as expected. | medium, not executed | `SerializedRead.SerializedRunFailsOnUnalignedTail` | `SerializedRead.SerializedRunToEndPasses` |
