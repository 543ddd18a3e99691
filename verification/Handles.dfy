/** Scripts of cursor operations on any number of handles that share a file and a cursor. */
module Handles {
  import opened Common
  import opened Splicing
  import opened Transfers
  import opened Schedules
  import opened Rings
  import opened Chunks
  import opened Overflows
  import opened Leftovers
  import opened Settling
  import opened Cursors
  import opened Uring

  /** A handle and its clones: one file, one cursor. */
  ghost predicate Share(files: seq<File>, disk: Disk, position: Position) {
    forall i :: 0 <= i < |files| ==> files[i].Valid() && files[i].disk == disk && files[i].position == position
  }

  datatype ReadOp =
    | CursorRead(handle: nat, len: nat)
    | PositionedRead(handle: nat, offset: nat, len: nat)

  /** The operations of a script that ask for a ring: those that are not empty. */
  ghost function ReadRequests(script: seq<ReadOp>): nat {
    if |script| == 0 then 0
    else ReadRequests(script[..|script| - 1]) + if script[|script| - 1].len > 0 then 1 else 0
  }

  /**
   * Runs a script of cursor reads, on whichever handles, with positioned reads in between.
   * The bytes that the cursor reads return are one contiguous range of the file that ends
   * at the shared position, whether or not single operations fail. The script is cut
   * short only after an operation that leaves the ring with entries in it.
   */
  method RunReads(files: seq<File>, disk: Disk, position: Position, cache: RingCache, mem: Memory,
                  script: seq<ReadOp>)
    returns (returned: seq<seq<Byte>>)
    requires Share(files, disk, position) && cache.Quiescent() && position.at <= U64_MAX
    requires forall k :: 0 <= k < |script| ==> script[k].handle < |files| && script[k].len <= ISIZE_MAX
    modifies cache, cache.ring, disk`content, mem, position
    ensures disk.content == old(disk.content) && position.at <= U64_MAX
    ensures |returned| <= |script| && (|returned| < |script| ==> !cache.Quiescent())
    ensures |cache.requests| == |old(cache.requests)| + ReadRequests(script[..|returned|])
    ensures forall k :: 0 <= k < |returned| && script[k].PositionedRead? ==> returned[k] == []
    ensures ReadStep(disk.content, old(position.at), position.at, Concat(returned))
  {
    hide Concat;
    returned := [];
    var clean := true;
    ghost var at := [position.at];
    while |returned| < |script| && clean
      invariant |returned| <= |script| && (clean <==> cache.Quiescent())
      invariant cache.ring == old(cache.ring) || fresh(cache.ring)
      invariant disk.content == old(disk.content) && position.at <= U64_MAX
      invariant |cache.requests| == |old(cache.requests)| + ReadRequests(script[..|returned|])
      invariant ReadRun(disk.content, at, returned) && at[0] == old(position.at) && at[|returned|] == position.at
      invariant forall k :: 0 <= k < |returned| && script[k].PositionedRead? ==> returned[k] == []
      decreases |script| - |returned|
    {
      var op := script[|returned|];
      assert script[..|returned| + 1] == script[..|returned|] + [op];
      var bytes, r := ReadOnce(files, disk, position, cache, mem, op);
      clean := Clean(op, r);
      returned, at := returned + [bytes], at + [position.at];
    }
    ReadsAreContiguous(disk.content, at, returned);
  }

  /** After this result of an operation the ring is quiescent. */
  predicate Clean(op: ReadOp, r: Result<nat>) {
    match op
    case CursorRead(_, _) => r.Ok? || r.error.Os? || r.error.RingInit?
    case PositionedRead(_, offset, _) => r.Ok? || !r.error.OffsetOverflow? || offset > U64_MAX
  }

  /**
   * One operation of a script, and how many bytes it read. A cursor read returns them; what
   * happened at the ring is one submission at the old position, whose answer is the result.
   */
  method ReadOnce(files: seq<File>, disk: Disk, position: Position, cache: RingCache, mem: Memory, op: ReadOp)
    returns (bytes: seq<Byte>, r: Result<nat>)
    requires Share(files, disk, position) && cache.Quiescent() && position.at <= U64_MAX
    requires op.handle < |files| && op.len <= ISIZE_MAX
    modifies cache, cache.ring, disk`content, mem, position
    ensures disk.content == old(disk.content) && position.at <= U64_MAX
    ensures ReadStep(disk.content, old(position.at), position.at, bytes)
    ensures bytes == [] || (op.CursorRead? && r == Ok(|bytes|))
    ensures cache.requests
         == old(cache.requests) + if op.len > 0 then [Request(files[op.handle].ringDepth, !Refused(r))] else []
    ensures op.CursorRead? && op.len > 0 && !Refused(r) ==>
              && cache.ring != null
              && AnsweredBy(cache.ring.log, ReadInto(old(position.at), |old(mem.bufs)|, 0, Min(op.len, 0xFFFF_FFFF)), r)
              && (r.Ok? ==> |bytes| == r.value)
    ensures op.PositionedRead? && r.Ok? ==> r.value == op.len
    ensures Clean(op, r) <==> cache.Quiescent()
    ensures cache.ring == old(cache.ring) || fresh(cache.ring)
  {
    match op {
      case CursorRead(handle, len) =>
        bytes, r := ReadAtCursor(files[handle], cache, mem, len);
      case PositionedRead(handle, offset, len) =>
        bytes := [];
        r := ReadAtOffset(files[handle], cache, mem, offset, len);
        NothingRead(disk.content, position.at);
    }
  }

  /** A cursor read into a new buffer. */
  method ReadAtCursor(file: File, cache: RingCache, mem: Memory, len: nat) returns (bytes: seq<Byte>, r: Result<nat>)
    requires file.Valid() && cache.Quiescent() && file.position.at <= U64_MAX
    modifies cache, cache.ring, file.disk`content, mem, file.position
    ensures file.disk.content == old(file.disk.content) && file.position.at <= U64_MAX
    ensures ReadStep(file.disk.content, old(file.position.at), file.position.at, bytes)
    ensures if r.Ok? then |bytes| == r.value else bytes == []
    ensures cache.requests
         == old(cache.requests) + if len > 0 then [Request(file.ringDepth, !Refused(r))] else []
    ensures len > 0 && !Refused(r) ==>
              && cache.ring != null
              && AnsweredBy(cache.ring.log,
                            ReadInto(old(file.position.at), |old(mem.bufs)|, 0, Min(len, 0xFFFF_FFFF)), r)
    ensures cache.Quiescent() <==> r.Ok? || r.error.Os? || r.error.RingInit?
    ensures cache.ring == old(cache.ring) || fresh(cache.ring)
  {
    hide AnsweredBy, ReadStep, Initialised;
    var buf := mem.Allocate(len);
    r := file.Read(cache, mem, buf);
    bytes := [];
    if r.Ok? {
      bytes := Frozen(mem.bufs[buf][..r.value]);
    } else {
      NothingRead(file.disk.content, file.position.at);
    }
  }

  /** A positioned read, of which only the number of bytes is kept. */
  method ReadAtOffset(file: File, cache: RingCache, mem: Memory, offset: nat, len: nat) returns (r: Result<nat>)
    requires file.Valid() && cache.Quiescent() && len <= ISIZE_MAX
    modifies cache, cache.ring, file.disk`content, mem
    ensures file.disk.content == old(file.disk.content)
    ensures r.Ok? ==> r.value == len
    ensures cache.requests
         == old(cache.requests) + if len > 0 then [Request(file.ringDepth, !Refused(r))] else []
    ensures !cache.Quiescent() <==> r == Err(OffsetOverflow) && offset <= U64_MAX
    ensures cache.ring == old(cache.ring) || fresh(cache.ring)
  {
    hide Settles, CutBy, SometimesStrands, AlwaysStrands, FailsFirst, FailsWith, Produces;
    var read, _ := file.ReadAt(cache, mem, offset, len);
    r := if read.Ok? then Ok(|read.value|) else Err(read.error);
  }

  lemma NothingRead(file: seq<Byte>, at: nat)
    ensures ReadStep(file, at, at, [])
  {
  }

  datatype WriteOp = CursorWrite(handle: nat, data: seq<Byte>)

  ghost function WriteRequests(script: seq<WriteOp>): nat {
    if |script| == 0 then 0
    else WriteRequests(script[..|script| - 1]) + if |script[|script| - 1].data| > 0 then 1 else 0
  }

  /**
   * Runs a script of cursor writes, on whichever handles. The file is the old one with
   * everything that was counted as written placed at the first position, in order; only
   * an operation that leaves the ring with entries in it, which ends the script, may have
   * placed bytes after that which nobody counted.
   */
  method RunWrites(files: seq<File>, disk: Disk, position: Position, cache: RingCache, mem: Memory,
                   script: seq<WriteOp>)
    returns (written: seq<seq<Byte>>, ghost stray: seq<Byte>)
    requires Share(files, disk, position) && cache.Quiescent() && position.at <= U64_MAX
    requires forall k :: 0 <= k < |script| ==> script[k].handle < |files|
    modifies cache, cache.ring, disk`content, mem, position
    ensures |written| <= |script| && (|written| < |script| ==> !cache.Quiescent())
    ensures |cache.requests| == |old(cache.requests)| + WriteRequests(script[..|written|])
    ensures forall k :: 0 <= k < |written| ==> written[k] <= script[k].data
    ensures position.at == old(position.at) + |Concat(written)| <= U64_MAX
    ensures disk.content == Splice(old(disk.content), old(position.at), Concat(written) + stray, 0)
    ensures stray != [] ==> !cache.Quiescent()
  {
    hide Concat, Splice;
    written, stray := [], [];
    var clean := true;
    ghost var contents, at := [disk.content], [position.at];
    SpliceOfNothing(disk.content, position.at, stray, 0);
    while |written| < |script| && clean
      invariant |written| <= |script| && (clean <==> cache.Quiescent()) && (clean ==> stray == [])
      invariant cache.ring == old(cache.ring) || fresh(cache.ring)
      invariant |cache.requests| == |old(cache.requests)| + WriteRequests(script[..|written|])
      invariant WriteRun(contents, at, written) && contents[0] == old(disk.content) && at[0] == old(position.at)
      invariant at[|written|] == position.at <= U64_MAX
      invariant disk.content == Splice(contents[|written|], position.at, stray, 0)
      invariant forall k :: 0 <= k < |written| ==> written[k] <= script[k].data
      decreases |script| - |written|
    {
      var op := script[|written|];
      assert script[..|written| + 1] == script[..|written|] + [op];
      SpliceOfNothing(contents[|written|], position.at, stray, 0);
      ghost var counted;
      var r;
      r, counted, stray := WriteOnce(files, disk, position, cache, mem, op);
      clean := r.Ok? || r.error.Os? || r.error.RingInit? || r.error.WriteZero?;
      written, at := written + [op.data[..if r.Ok? then r.value else 0]], at + [position.at];
      contents := contents + [counted];
    }
    WritesAreContiguous(contents, at, written);
    SpliceAppends(old(disk.content), old(position.at), Concat(written), stray, 0);
  }

  /**
   * One write of a script: how many bytes it counted as written, and the file with them;
   * `stray` are bytes placed after them which nobody counted. What happened at the ring is
   * one submission at the old position, whose answer is the result.
   */
  method WriteOnce(files: seq<File>, disk: Disk, position: Position, cache: RingCache, mem: Memory, op: WriteOp)
    returns (r: Result<nat>, ghost counted: seq<Byte>, ghost stray: seq<Byte>)
    requires Share(files, disk, position) && cache.Quiescent() && position.at <= U64_MAX && op.handle < |files|
    modifies cache, cache.ring, disk`content, mem, position
    ensures r.Ok? ==> r.value <= |op.data|
    ensures position.at <= U64_MAX
    ensures WriteStep(old(disk.content), counted, old(position.at), position.at,
                      op.data[..if r.Ok? then r.value else 0])
    ensures disk.content == Splice(counted, position.at, stray, 0)
    ensures cache.requests
         == old(cache.requests) + if |op.data| > 0 then [Request(files[op.handle].ringDepth, !Refused(r))] else []
    ensures |op.data| > 0 && !Refused(r) ==>
              && cache.ring != null
              && AnsweredBy(cache.ring.log, WriteFrom(old(position.at), op.data[..Min(|op.data|, 0xFFFF_FFFF)]),
                            if r == Err(WriteZero) then Ok(0) else r)
    ensures cache.Quiescent() <==> r.Ok? || r.error.Os? || r.error.RingInit? || r.error.WriteZero?
    ensures cache.Quiescent() ==> stray == []
    ensures cache.ring == old(cache.ring) || fresh(cache.ring)
  {
    hide Splice, AnsweredBy;
    ghost var moved;
    r, moved := files[op.handle].Write(cache, mem, op.data);
    if r.Ok? {
      counted, stray := disk.content, [];
    } else {
      counted, stray := old(disk.content), op.data[..moved];
    }
    SpliceOfNothing(counted, position.at, [], 0);
    SpliceOfNothing(old(disk.content), old(position.at), op.data[..0], 0);
  }
}
