/** One accepted batch, every executor. */
module Agreement {
  import Common
  import opened Schedules
  import opened Rings
  import opened WriteSlices
  import opened Executors
  import Uring
  import Windows

  /**
   * Writes one accepted batch to four files with equal contents, once with each executor.
   * Where the executors succeed they leave the same file, and it is the one that any
   * reordering of the batch describes. Where one does not, something has gone wrong: no ring
   * could be made, a failure is among the events at the ring, or a fault is on record.
   */
  method WriteEverywhere(writes: seq<WriteSlice>, ghost reordered: seq<WriteSlice>, parallelism: nat, uring: Uring.File,
                         cache: RingCache, mem: Memory, tokio: Disk, linux: Disk, windows: Windows.File)
    returns (viaUring: bool, viaTokio: bool, viaLinux: bool, viaWindows: bool)
    requires uring.Valid() && cache.Quiescent()
    requires Accepted(writes) && forall i :: 0 <= i < |writes| ==> writes[i].offset <= Common.U64_MAX
    requires multiset(reordered) == multiset(writes)
    requires uring.disk != tokio && tokio != linux && linux != uring.disk
    requires uring.disk.content == tokio.content == linux.content == windows.content
    modifies cache, cache.ring, mem, uring.disk, tokio, linux, windows
    ensures viaUring ==> uring.disk.content == ApplySlices(old(uring.disk.content), reordered)
    ensures viaTokio ==> tokio.content == ApplySlices(old(uring.disk.content), reordered)
    ensures viaLinux ==> linux.content == ApplySlices(old(uring.disk.content), reordered)
    ensures viaWindows ==> windows.content == ApplySlices(old(uring.disk.content), reordered)
    ensures !viaUring ==>
              || cache.requests == old(cache.requests) + [Request(uring.ringDepth, false)]
              || (cache.ring != null && exists k, error :: FailsFirst(cache.ring.log, k, error))
    ensures !viaTokio ==> |tokio.faults| > |old(tokio.faults)|
    ensures !viaLinux ==> |linux.faults| > |old(linux.faults)|
    ensures !viaWindows ==> |windows.faults| > |old(windows.faults)|
  {
    hide *;
    OrderDoesNotMatter(uring.disk.content, writes, reordered);
    var u, _ := uring.SubmitWriteSlicesAt(cache, mem, writes);
    if u.Err? {
      FailureShown(uring, cache, u);
    }
    var t, _, _, _ := WriteSlicesInWaves(tokio, writes, parallelism);
    var l, _ := WriteSlicesInOrder(linux, writes);
    var w, _, _ := windows.WriteSlicesAt(writes);
    viaUring, viaTokio, viaLinux, viaWindows := u.Ok?, t.Ok?, l.Ok?, w.Ok?;
  }

  lemma FailureShown(uring: Uring.File, cache: RingCache, r: Common.Result<()>)
    requires r.Err? && uring.FailureIsOnRecord(cache, r) && !r.error.OffsetOverflow?
    ensures Refused(r) || (cache.ring != null && exists k, error :: FailsFirst(cache.ring.log, k, error))
  {
  }
}
