/** Positioned I/O over a file pointer that the system moves: save, transfer, restore. */
module Windows {
  import opened Common
  import opened Splicing
  import opened Transfers
  import opened WriteSlices
  import opened Executors

  /**
   * How a positioned call went: it ended before the transfer, or the transfer moved
   * `moved` bytes and the pointer was put back or not.
   */
  datatype Course = NotStarted | Ran(moved: nat, restored: bool)

  /**
   * The faults on record before and after a positioned call of `len` bytes at `offset` that
   * got as far as its transfer: one for the transfer unless it moved everything or ran past
   * the last offset, then one for the restore unless the pointer was put back. The result is
   * the transfer's error, if it met one, and otherwise the restore's.
   */
  ghost predicate Accounts(before: seq<Error>, after: seq<Error>, offset: nat, len: nat, moved: nat, restored: bool,
                           r: Result<()>)
  {
    var faulty := moved < len && offset + moved <= U64_MAX;
    && before <= after
    && |after| == |before| + (if faulty then 1 else 0) + (if restored then 0 else 1)
    && (faulty ==> r == Err(after[|before|]))
    && (!restored ==> after[|after| - 1].Os?)
    && (moved == len && !restored ==> r == Err(after[|before|]))
    && (moved == len && restored ==> r.Ok?)
    && (moved < len && offset + moved > U64_MAX ==> r == Err(OffsetOverflow))
  }

  /** Given the faults on record before and after a call: it met none, or reports the first one it met. */
  ghost predicate ReportsFirst(r: Result<()>, before: seq<Error>, after: seq<Error>) {
    if r.Ok? then after == before
    else r.error.OffsetOverflow? || before + [r.error] <= after
  }

  /** A buffer whose first `m` bytes are those of the file at `offset`. */
  ghost function Filled(buf: seq<Byte>, file: seq<Byte>, offset: nat, m: nat): seq<Byte>
    requires m <= |buf| && (m > 0 ==> offset + m <= |file|)
  {
    if m == 0 then buf else file[offset..offset + m] + buf[m..]
  }

  lemma FilledFurther(buf: seq<Byte>, file: seq<Byte>, offset: nat, m: nat, n: nat)
    requires m + n <= |buf| && offset + m + n <= |file|
    ensures |Filled(buf, file, offset, m)| == |buf|
    ensures n > 0 ==>
              var mid := Filled(buf, file, offset, m);
              mid[..m] + file[offset + m..offset + m + n] + mid[m + n..] == Filled(buf, file, offset, m + n)
  {
  }

  lemma NothingFilled(buf: seq<Byte>, file: seq<Byte>, offset: nat)
    ensures Filled(buf, file, offset, 0) == buf
  {
  }

  class File {
    var content: seq<Byte>
    var cursor: nat
    /** What has gone wrong at the system, in order: failed calls, and transfers that moved nothing. */
    ghost var faults: seq<Error>

    constructor (content: seq<Byte>)
      ensures this.content == content && cursor == 0 && faults == []
    {
      this.content, cursor, faults := content, 0, [];
    }

    method StreamPosition() returns (r: Result<nat>)
      modifies `faults
      ensures r.Ok? ==> r.value == cursor
      ensures r.Err? ==> r.error.Os?
      ensures faults == old(faults) + if r.Err? then [r.error] else []
    {
      r := Ok(cursor);
      var failed: bool := *;
      if failed {
        var code: int := *;
        r := Err(Os(code));
        faults := faults + [r.error];
      }
    }

    method SeekTo(offset: nat) returns (r: Result<nat>)
      modifies `cursor, `faults
      ensures r.Ok? ==> cursor == r.value == offset
      ensures r.Err? ==> r.error.Os? && cursor == old(cursor)
      ensures faults == old(faults) + if r.Err? then [r.error] else []
    {
      var failed: bool := *;
      if failed {
        var code: int := *;
        faults := faults + [Os(code)];
        return Err(Os(code));
      }
      cursor := offset;
      r := Ok(offset);
    }

    /**
     * The system's seek_read into `buf[from..]`: some bytes from `offset` on, none at the
     * end of the file, or an error. The pointer ends up after the bytes read, or anywhere
     * after an error.
     */
    method SeekRead(buf: array<Byte>, from: nat, offset: nat) returns (r: Result<nat>)
      requires from < buf.Length
      modifies buf, `cursor, `faults
      ensures faults == old(faults) + if r.Err? then [r.error] else if r.value == 0 then [UnexpectedEof] else []
      ensures r.Ok? ==> r.value <= buf.Length - from && (r.value > 0 ==> offset + r.value <= |content|)
      ensures r.Ok? && r.value > 0 ==>
                buf[..] == old(buf[..from]) + content[offset..offset + r.value] + old(buf[from + r.value..])
      ensures r.Ok? && r.value == 0 ==> buf[..] == old(buf[..])
      ensures r.Err? ==> r.error.Os? && buf[..] == old(buf[..])
    {
      var anywhere: nat := *;
      cursor := anywhere;
      var failed: bool := *;
      if failed {
        var code: int := *;
        faults := faults + [Os(code)];
        return Err(Os(code));
      }
      var n: nat :| n <= buf.Length - from && (n > 0 ==> offset + n <= |content|);
      for i := 0 to n
        invariant faults == old(faults)
        invariant forall k :: 0 <= k < buf.Length ==>
                    buf[k] == if from <= k < from + i then content[offset + k - from] else old(buf[k])
      {
        buf[from + i] := content[offset + i];
      }
      cursor := offset + n;
      faults := faults + if n == 0 then [UnexpectedEof] else [];
      r := Ok(n);
    }

    /** The system's seek_write: some bytes placed at `offset`, or an error and none. */
    method SeekWrite(data: seq<Byte>, offset: nat) returns (r: Result<nat>)
      modifies this
      ensures r.Ok? ==> r.value <= |data| && content == Splice(old(content), offset, data[..r.value], 0)
      ensures r.Err? ==> r.error.Os? && content == old(content)
      ensures faults == old(faults) + if r.Err? then [r.error] else if r.value == 0 then [WriteZero] else []
    {
      var anywhere: nat := *;
      cursor := anywhere;
      var failed: bool := *;
      if failed {
        var code: int := *;
        faults := faults + [Os(code)];
        return Err(Os(code));
      }
      var n: nat :| n <= |data|;
      content := Splice(content, offset, data[..n], 0);
      cursor := offset + n;
      faults := faults + if n == 0 then [WriteZero] else [];
      r := Ok(n);
    }

    /** Reads until `buf` is full. On an error exactly the first `moved` bytes have been filled in. */
    method SeekReadExact(offset: nat, buf: array<Byte>) returns (r: Result<()>, ghost moved: nat)
      modifies buf, `cursor, `faults
      ensures faults == old(faults) + if r.Err? && r != Err(OffsetOverflow) then [r.error] else []
      ensures moved <= buf.Length && (moved > 0 ==> offset + moved <= |content|)
      ensures buf[..] == Filled(old(buf[..]), content, offset, moved)
      ensures r.Ok? <==> moved == buf.Length
      ensures r == Err(OffsetOverflow) <==> moved < buf.Length && offset + moved > U64_MAX
    {
      hide Filled;
      var read := 0;
      moved := 0;
      assert buf[..] == Filled(buf[..], content, offset, 0) by {
        NothingFilled(buf[..], content, offset);
      }
      while read < buf.Length
        invariant read == moved <= buf.Length && (moved > 0 ==> offset + moved <= |content|)
        invariant buf[..] == Filled(old(buf[..]), content, offset, moved)
        invariant faults == old(faults)
      {
        if offset + read > U64_MAX {
          return Err(OffsetOverflow), moved;
        }
        var n := SeekRead(buf, read, offset + read);
        if n.Err? {
          return Err(n.error), moved;
        }
        if n.value == 0 {
          return Err(UnexpectedEof), moved;
        }
        FilledFurther(old(buf[..]), content, offset, read, n.value);
        read := read + n.value;
        moved := read;
      }
      r := Ok(());
    }

    /** Writes until all of `data` is placed. On an error exactly its first `moved` bytes have been. */
    method SeekWriteExact(offset: nat, data: seq<Byte>) returns (r: Result<()>, ghost moved: nat)
      modifies this
      ensures faults == old(faults) + if r.Err? && r != Err(OffsetOverflow) then [r.error] else []
      ensures moved <= |data| && content == Splice(old(content), offset, data[..moved], 0)
      ensures r.Ok? <==> moved == |data|
      ensures r == Err(OffsetOverflow) <==> moved < |data| && offset + moved > U64_MAX
    {
      hide Splice;
      var written := 0;
      moved := 0;
      SpliceOfNothing(content, offset, data[..0], 0);
      while written < |data|
        invariant written == moved <= |data|
        invariant content == Splice(old(content), offset, data[..moved], 0) && faults == old(faults)
      {
        if offset + written > U64_MAX {
          return Err(OffsetOverflow), moved;
        }
        SpliceOfNothing(content, offset + written, data[written..][..0], 0);
        var n := SeekWrite(data[written..], offset + written);
        if n.Err? {
          return Err(n.error), moved;
        }
        if n.value == 0 {
          return Err(WriteZero), moved;
        }
        SpliceAppends(old(content), offset, data[..written], data[written..][..n.value], 0);
        SlicesJoin(data, written, n.value);
        assert data[written..][..n.value] == data[written..written + n.value];
        written := written + n.value;
        moved := written;
      }
      r := Ok(());
    }

    /**
     * A positioned read that puts the pointer back where it was. The result is the first
     * thing that went wrong, so a failed transfer is reported even if the restore fails too.
     */
    method ReadExactAt(offset: nat, buf: array<Byte>) returns (r: Result<()>, ghost course: Course)
      modifies buf, `cursor, `faults
      ensures ReportsFirst(r, old(faults), faults)
      ensures course.Ran? ==>
                Accounts(old(faults), faults, offset, buf.Length, course.moved, course.restored, r)
      ensures course.NotStarted? ==> r.Err? && r.error.Os? && buf[..] == old(buf[..]) && cursor == old(cursor)
      ensures course.NotStarted? ==> faults == old(faults) + [r.error]
      ensures course.Ran? ==> course.moved <= buf.Length
      ensures course.Ran? && course.moved > 0 ==> offset + course.moved <= |content|
      ensures course.Ran? ==> buf[..] == Filled(old(buf[..]), content, offset, course.moved)
      ensures course.Ran? && course.restored ==> cursor == old(cursor)
      ensures r.Ok? <==> course == Ran(buf.Length, true)
      ensures r == Err(OffsetOverflow) <==> course.Ran? && course.moved < buf.Length && offset + course.moved > U64_MAX
      ensures r.Ok? ==> cursor == old(cursor)
      ensures r.Ok? && buf.Length > 0 ==>
                offset + buf.Length <= |content| && buf[..] == content[offset..offset + buf.Length]
    {
      var original := StreamPosition();
      if original.Err? {
        return Err(original.error), NotStarted;
      }
      ghost var moved;
      r, moved := SeekReadExact(offset, buf);
      var restore := SeekTo(original.value);
      course := Ran(moved, restore.Ok?);
      if r.Ok? && restore.Err? {
        r := Err(restore.error);
      }
    }

    /** A positioned write that puts the pointer back where it was, reporting in the same way. */
    method WriteAllAt(offset: nat, data: seq<Byte>) returns (r: Result<()>, ghost course: Course)
      modifies this
      ensures ReportsFirst(r, old(faults), faults)
      ensures course.Ran? ==> Accounts(old(faults), faults, offset, |data|, course.moved, course.restored, r)
      ensures course.NotStarted? ==> r.Err? && r.error.Os? && content == old(content) && cursor == old(cursor)
      ensures course.NotStarted? ==> faults == old(faults) + [r.error]
      ensures course.Ran? ==> course.moved <= |data| && content == Splice(old(content), offset, data[..course.moved], 0)
      ensures course.Ran? && course.restored ==> cursor == old(cursor)
      ensures r.Ok? <==> course == Ran(|data|, true)
      ensures r == Err(OffsetOverflow) <==> course.Ran? && course.moved < |data| && offset + course.moved > U64_MAX
      ensures r.Ok? ==> content == Splice(old(content), offset, data, 0) && cursor == old(cursor)
    {
      var original := StreamPosition();
      if original.Err? {
        return Err(original.error), NotStarted;
      }
      ghost var moved;
      r, moved := SeekWriteExact(offset, data);
      var restore := SeekTo(original.value);
      course := Ran(moved, restore.Ok?);
      assert data[..|data|] == data;
      if r.Ok? && restore.Err? {
        r := Err(restore.error);
      }
    }

    /** Writes the slices one after the other and stops at the first error. `course` is that of the last one written. */
    method WriteSlicesAt(writes: seq<WriteSlice>) returns (r: Result<()>, ghost done: seq<nat>, ghost course: Course)
      modifies this
      ensures WithinJobs(SliceJobs(writes), done)
      ensures content == Progressed(World(old(content), []), SliceJobs(writes), done, |writes|).file
      ensures r.Ok? ==> content == ApplySlices(old(content), writes) && cursor == old(cursor)
      ensures r.Err? ==> exists k :: 0 <= k < |writes| && FailedAt(writes, done, k, r, course, old(faults), faults)
      ensures r.Err? && (course.Ran? ==> course.restored) ==> cursor == old(cursor)
      ensures Accepted(writes) ==> r != Err(OffsetOverflow)
      ensures r.Err? && r != Err(OffsetOverflow) ==> |faults| > |old(faults)|
      ensures ReportsFirst(r, old(faults), faults)
    {
      hide Splice, Progressed, ApplySlices;
      ghost var jobs, w := SliceJobs(writes), World(content, []);
      done, course := seq(|writes|, _ => 0), NotStarted;
      NothingProgressed(w, jobs, done, 0);
      for i := 0 to |writes|
        invariant StoppedAt(jobs, done, i) && (i < |writes| ==> done[i] == 0)
        invariant content == Progressed(w, jobs, done, i).file && cursor == old(cursor) && faults == old(faults)
      {
        ghost var before := done;
        r, course := WriteAllAt(writes[i].offset, writes[i].data);
        ghost var moved := if course.Ran? then course.moved else 0;
        SpliceOfNothing(Progressed(w, jobs, before, i).file, writes[i].offset, writes[i].data[..0], 0);
        done := done[i := moved];
        NextSliceWritten(w, writes, before, i, moved);
        if r.Err? {
          assert Accepted(writes) ==> !EndsPastU64(writes[i]);
          UntouchedJobsAddNothing(w, jobs, done, i + 1);
          assert FailedAt(writes, done, i, r, course, old(faults), faults);
          return;
        }
      }
      r := Ok(());
      ProgressedInFull(w, jobs, done, |writes|);
      PerformedSlices(w, writes, |writes|);
      assert writes[..|writes|] == writes;
    }
  }

  /**
   * Slice `k` failed with the result `r`: the slices before it are complete and met no fault,
   * those after it are untouched, and of it as much is written as its course says, with its
   * faults accounted for.
   */
  ghost predicate FailedAt(writes: seq<WriteSlice>, done: seq<nat>, k: nat, r: Result<()>, course: Course,
                           before: seq<Error>, after: seq<Error>)
  {
    && k < |writes|
    && StoppedAt(SliceJobs(writes), done, k)
    && match course
       case NotStarted => done[k] == 0 && r.Err? && after == before + [r.error]
       case Ran(moved, restored) =>
         && done[k] == moved
         && Accounts(before, after, writes[k].offset, |writes[k].data|, moved, restored, r)
  }
}
