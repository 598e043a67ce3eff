/**
 * The file entry the read test drives: a seekable resource of fixed size
 * with a mutable read cursor. Its implementation lives in the library under
 * test and is not part of this model; what is modelled here is only the
 * behaviour the test's expectations rely on:
 *  - a seek whose target is negative fails with -1 and leaves the cursor alone;
 *  - a read of n bytes delivers min(n, size - cursor) bytes (none at or past
 *    the end) and advances the cursor by what it delivered;
 *  - a read at an explicit offset is a seek to that offset followed by a read;
 *  - the cursor can be queried.
 * An entry whose backing volume cannot be read (`readFails`) answers every
 * data read with -1. A plain read then leaves the cursor where it was; a read
 * at an offset has already moved the cursor to that offset when its read fails.
 * The flag holds for the whole entry: its reads all fail or none does, so a
 * read that fails after earlier reads succeeded is not modelled.
 */
module Adapter {

  /** The origin a seek offset is relative to (SEEK_SET, SEEK_CUR, SEEK_END). */
  datatype Whence = Set | Cur | End

  /**
   * The observable state of an open file entry. `readFails` makes every data
   * read of the entry fail, from the first one on.
   */
  datatype EntryState = EntryState(size: nat, offset: nat, readFails: bool)

  /** What a call returns, and the state it leaves behind. */
  datatype Reply = Reply(value: int, next: EntryState)

  function Min(a: int, b: int): int
  {
    if a <= b then a else b
  }

  /** The bytes that lie between the cursor and the end of the entry. */
  function Available(s: EntryState): (n: nat)
    ensures s.offset < s.size ==> n == s.size - s.offset
    ensures s.size <= s.offset ==> n == 0
  {
    if s.offset < s.size then s.size - s.offset else 0
  }

  /** The position a seek asks for, before it is checked. */
  function SeekTarget(s: EntryState, offset: int, whence: Whence): int
  {
    match whence
    case Set => offset
    case Cur => s.offset + offset
    case End => s.size + offset
  }

  /** Seek: the new offset, or -1 (and no change) when the target is negative. */
  function Seek(s: EntryState, offset: int, whence: Whence): (r: Reply)
    ensures r.value == -1 || r.value >= 0
    ensures r.value == -1 <==> SeekTarget(s, offset, whence) < 0
    ensures r.value == -1 ==> r.next == s
    ensures r.value >= 0 ==> r.next == s.(offset := r.value) && r.value == SeekTarget(s, offset, whence)
  {
    var target := SeekTarget(s, offset, whence);
    if target < 0 then Reply(-1, s) else Reply(target, s.(offset := target))
  }

  /** Read at the cursor: clipped at the end of the entry, -1 on a failing volume. */
  function Read(s: EntryState, n: nat): (r: Reply)
    ensures s.readFails ==> r == Reply(-1, s)
    ensures !s.readFails ==> 0 <= r.value <= n && r.value <= Available(s)
    ensures !s.readFails ==> r.value == Min(n, Available(s))
    ensures !s.readFails ==> r.next == s.(offset := s.offset + r.value)
  {
    if s.readFails then Reply(-1, s)
    else
      var count := Min(n, Available(s));
      Reply(count, s.(offset := s.offset + count))
  }

  /** Read at an explicit offset: a seek to that offset, then a read. */
  function ReadAt(s: EntryState, n: nat, offset: int): (r: Reply)
    ensures offset < 0 ==> r == Reply(-1, s)
    ensures offset >= 0 && s.readFails ==> r == Reply(-1, s.(offset := offset))
    ensures offset >= 0 && !s.readFails ==>
              r.value == Min(n, Available(s.(offset := offset))) &&
              r.next == s.(offset := offset + r.value)
  {
    var k := Seek(s, offset, Set);
    if k.value == -1 then Reply(-1, k.next) else Read(k.next, n)
  }

  /** An open file entry of the library under test. */
  class FileEntry {
    const size: nat
    const readFails: bool
    var offset: nat

    function State(): EntryState
      reads this
    {
      EntryState(size, offset, readFails)
    }

    /** An entry opened with its cursor at the start. */
    constructor (size: nat, readFails: bool)
      ensures State() == EntryState(size, 0, readFails)
    {
      this.size := size;
      this.readFails := readFails;
      this.offset := 0;
    }

    method SeekOffset(offset: int, whence: Whence) returns (r: int)
      modifies this
      ensures r == Seek(old(State()), offset, whence).value
      ensures State() == Seek(old(State()), offset, whence).next
    {
      var target := match whence
        case Set => offset
        case Cur => this.offset + offset
        case End => size + offset;
      if target < 0 {
        r := -1;
      } else {
        this.offset := target;
        r := target;
      }
    }

    method ReadBuffer(n: nat) returns (count: int)
      modifies this
      ensures count == Read(old(State()), n).value
      ensures State() == Read(old(State()), n).next
    {
      if readFails {
        count := -1;
      } else {
        count := if offset < size then Min(n, size - offset) else 0;
        offset := offset + count;
      }
    }

    method ReadBufferAtOffset(n: nat, at: int) returns (count: int)
      modifies this
      ensures count == ReadAt(old(State()), n, at).value
      ensures State() == ReadAt(old(State()), n, at).next
    {
      var r := SeekOffset(at, Set);
      if r == -1 {
        count := -1;
      } else {
        count := ReadBuffer(n);
      }
    }

    method GetOffset() returns (r: nat)
      ensures r == offset && r == State().offset
    {
      r := offset;
    }
  }
}
