/** What a cursor shared by clones guarantees over a whole run of operations. */
module Cursors {
  import opened Common
  import opened Splicing

  datatype SeekFrom = Start(offset: nat) | Current(delta: int) | End(delta: int)

  /**
   * One operation as the cursor sees it: a cursor read returns the bytes between the old
   * and the new position. A failed read and a positioned operation return none and leave
   * the position alone.
   */
  ghost predicate ReadStep(file: seq<Byte>, before: nat, after: nat, bytes: seq<Byte>) {
    && after == before + |bytes|
    && (|bytes| > 0 ==> after <= |file| && bytes == file[before..after])
  }

  /** `at[k]` is the shared position before operation `k`, whichever handle runs it. */
  ghost predicate ReadRun(file: seq<Byte>, at: seq<nat>, returned: seq<seq<Byte>>) {
    |at| == |returned| + 1 && forall k :: 0 <= k < |returned| ==> ReadStep(file, at[k], at[k + 1], returned[k])
  }

  function Concat(parts: seq<seq<Byte>>): seq<Byte> {
    if |parts| == 0 then [] else Concat(parts[..|parts| - 1]) + parts[|parts| - 1]
  }

  /** However the operations interleave, the bytes returned are one contiguous range that ends at the position. */
  lemma {:induction false} ReadsAreContiguous(file: seq<Byte>, at: seq<nat>, returned: seq<seq<Byte>>)
    requires ReadRun(file, at, returned)
    ensures ReadStep(file, at[0], at[|returned|], Concat(returned))
  {
    var n := |returned|;
    if n > 0 {
      ReadsAreContiguous(file, at[..n], returned[..n - 1]);
      assert ReadStep(file, at[n - 1], at[n], returned[n - 1]);
    }
  }

  /** A cursor write places its bytes at the old position and moves past them. */
  ghost predicate WriteStep(file: seq<Byte>, file': seq<Byte>, before: nat, after: nat, bytes: seq<Byte>) {
    after == before + |bytes| && file' == Splice(file, before, bytes, 0)
  }

  ghost predicate WriteRun(files: seq<seq<Byte>>, at: seq<nat>, written: seq<seq<Byte>>) {
    && |files| == |at| == |written| + 1
    && forall k :: 0 <= k < |written| ==> WriteStep(files[k], files[k + 1], at[k], at[k + 1], written[k])
  }

  /** A run of cursor writes is one write of everything at the first position. */
  lemma {:induction false} WritesAreContiguous(files: seq<seq<Byte>>, at: seq<nat>, written: seq<seq<Byte>>)
    requires WriteRun(files, at, written)
    ensures WriteStep(files[0], files[|written|], at[0], at[|written|], Concat(written))
  {
    var n := |written|;
    if n > 0 {
      WritesAreContiguous(files[..n], at[..n], written[..n - 1]);
      assert WriteStep(files[n - 1], files[n], at[n - 1], at[n], written[n - 1]);
      SpliceAppends(files[0], at[0], Concat(written[..n - 1]), written[n - 1], 0);
    }
  }
}
