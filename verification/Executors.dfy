/** The other executors of a write batch: the sequential loop on Linux and Tokio's waves of threads. */
module Executors {
  import opened Common
  import opened Splicing
  import opened Transfers
  import opened Scheduler
  import opened Rings
  import opened WriteSlices

  /** What a positioned write may report: an error of the system, or a write of no bytes. */
  predicate Fault(error: Error) {
    error.Os? || error.WriteZero?
  }

  method AnyFault() returns (error: Error)
    ensures Fault(error)
  {
    var code: int, stuck: bool := *, *;
    error := if stuck then WriteZero else Os(code);
  }

  /**
   * The standard library's positioned write of a whole slice: success means all of it, an
   * error any prefix that is not all of it; the error is the system's, or that a write of no bytes was reported,
   * and it is on record.
   */
  method WriteAllAt(disk: Disk, offset: nat, data: seq<Byte>) returns (r: Result<()>, ghost moved: nat)
    modifies disk
    ensures moved <= |data| && disk.content == Splice(old(disk.content), offset, data[..moved], 0)
    ensures r.Ok? <==> moved == |data|
    ensures r.Ok? ==> disk.faults == old(disk.faults)
    ensures r.Err? ==> Fault(r.error) && disk.faults == old(disk.faults) + [r.error]
  {
    var n: nat :| n <= |data|;
    moved := n;
    disk.content := Splice(disk.content, offset, data[..n], 0);
    if n < |data| {
      var error := AnyFault();
      r := Err(error);
      disk.faults := disk.faults + [r.error];
    } else {
      r := Ok(());
    }
  }

  /** Jobs before `k` are complete and jobs after it untouched. */
  ghost predicate StoppedAt(jobs: seq<Transfer>, done: seq<nat>, k: nat) {
    && WithinJobs(jobs, done)
    && (forall i :: 0 <= i < k && i < |jobs| ==> done[i] == jobs[i].Len())
    && (forall i :: k < i < |jobs| ==> done[i] == 0)
  }

  /** Writes the slices one after the other and stops at the first error. */
  method WriteSlicesInOrder(disk: Disk, writes: seq<WriteSlice>) returns (r: Result<()>, ghost done: seq<nat>)
    modifies disk
    ensures WithinJobs(SliceJobs(writes), done)
    ensures disk.content == Progressed(World(old(disk.content), []), SliceJobs(writes), done, |writes|).file
    ensures r.Ok? ==> disk.content == ApplySlices(old(disk.content), writes)
    ensures r.Err? ==>
              exists k :: 0 <= k < |writes| && StoppedAt(SliceJobs(writes), done, k) && done[k] < |writes[k].data|
    ensures disk.faults == (old(disk.faults) + if r.Err? then [r.error] else []) && (r.Err? ==> Fault(r.error))
  {
    hide Splice, Progressed, ApplySlices;
    ghost var jobs, w := SliceJobs(writes), World(disk.content, []);
    done := seq(|writes|, _ => 0);
    NothingProgressed(w, jobs, done, 0);
    for i := 0 to |writes|
      invariant StoppedAt(jobs, done, i) && (i < |writes| ==> done[i] == 0)
      invariant disk.content == Progressed(w, jobs, done, i).file && disk.faults == old(disk.faults)
    {
      ghost var before := done;
      ghost var moved;
      r, moved := WriteAllAt(disk, writes[i].offset, writes[i].data);
      done := done[i := moved];
      NextSliceWritten(w, writes, before, i, moved);
      if r.Err? {
        UntouchedJobsAddNothing(w, jobs, done, i + 1);
        assert StoppedAt(jobs, done, i);
        return;
      }
    }
    r := Ok(());
    ProgressedInFull(w, jobs, done, |writes|);
    PerformedSlices(w, writes, |writes|);
    assert writes[..|writes|] == writes;
  }

  lemma NextSliceWritten(w: World, writes: seq<WriteSlice>, done: seq<nat>, i: nat, moved: nat)
    requires WithinJobs(SliceJobs(writes), done) && i < |writes| && moved <= |writes[i].data|
    ensures WithinJobs(SliceJobs(writes), done[i := moved])
    ensures Progressed(w, SliceJobs(writes), done[i := moved], i + 1).file
         == Splice(Progressed(w, SliceJobs(writes), done, i).file, writes[i].offset, writes[i].data[..moved], 0)
  {
    ProgressIgnoresLaterJobs(w, SliceJobs(writes), done, done[i := moved], i);
  }

  lemma {:induction false} UntouchedJobsAddNothing(w: World, jobs: seq<Transfer>, done: seq<nat>, k: nat)
    requires WithinJobs(jobs, done) && k <= |jobs|
    requires forall i :: k <= i < |jobs| ==> done[i] == 0
    ensures Progressed(w, jobs, done, |jobs|) == Progressed(w, jobs, done, k)
    decreases |jobs| - k
  {
    if k < |jobs| {
      UntouchedJobsAddNothing(w, jobs, done, k + 1);
      EmptyTransferDoesNothing(Progressed(w, jobs, done, k), Piece(jobs[k], 0, 0));
    }
  }

  // ---------------------------------------------------------------------------
  // Tokio
  // ---------------------------------------------------------------------------

  /** A thread that is still writing, or its result. */
  datatype Worker = Running | Finished(result: Result<()>)

  predicate Succeeded(worker: Worker) {
    worker.Finished? && worker.result.Ok?
  }

  predicate Failed(worker: Worker) {
    worker.Finished? && worker.result.Err?
  }

  ghost function RunningWorkers(workers: seq<Worker>): nat {
    if |workers| == 0 then 0
    else RunningWorkers(workers[..|workers| - 1]) + if workers[|workers| - 1].Running? then 1 else 0
  }

  lemma {:induction false} OneFewerRunning(workers: seq<Worker>, k: nat, result: Result<()>)
    requires k < |workers| && workers[k].Running?
    ensures RunningWorkers(workers[k := Finished(result)]) == RunningWorkers(workers) - 1
  {
    var n := |workers| - 1;
    var next := workers[k := Finished(result)];
    if k < n {
      OneFewerRunning(workers[..n], k, result);
      assert next[..n] == workers[..n][k := Finished(result)];
    } else {
      assert next[..n] == workers[..n];
    }
  }

  /** What the threads of one wave have written: slices outside `[lo, hi)` are as they were. */
  ghost predicate WaveState(w: World, jobs: seq<Transfer>, before: seq<nat>, done: seq<nat>, lo: nat, hi: nat,
                            file: seq<Byte>) {
    && WithinJobs(jobs, before)
    && WithinJobs(jobs, done)
    && (forall i :: 0 <= i < |jobs| && !(lo <= i < hi) ==> done[i] == before[i])
    && file == Progressed(w, jobs, done, |jobs|).file
  }

  /** A thread writes some more of slice `i`, of which `done[i]` bytes are on disk. */
  method WriteSome(disk: Disk, writes: seq<WriteSlice>, i: nat, ghost w: World, done: seq<nat>)
    returns (done': seq<nat>)
    requires Accepted(writes) && WithinJobs(SliceJobs(writes), done)
    requires i < |writes| && done[i] < |writes[i].data|
    requires disk.content == Progressed(w, SliceJobs(writes), done, |writes|).file
    modifies disk`content
    ensures |done'| == |done| && done[i] < done'[i] <= |writes[i].data| && done' == done[i := done'[i]]
    ensures disk.content == Progressed(w, SliceJobs(writes), done', |writes|).file
    ensures Sum(done') > Sum(done)
  {
    hide Splice, Progressed, Sum, Accepted;
    var n: nat :| 0 < n <= |writes[i].data| - done[i];
    SliceAdvances(w, writes, done, i, n);
    disk.content := Splice(disk.content, writes[i].offset + done[i], writes[i].data[done[i]..done[i] + n], 0);
    done' := done[i := done[i] + n];
    SumUpdate(done, i, done[i] + n);
  }

  /** One more write of slice `i`, whatever the other threads have written. */
  lemma SliceAdvances(w: World, writes: seq<WriteSlice>, done: seq<nat>, i: nat, n: nat)
    requires Accepted(writes) && WithinJobs(SliceJobs(writes), done)
    requires i < |writes| && done[i] + n <= |writes[i].data|
    ensures WithinJobs(SliceJobs(writes), done[i := done[i] + n])
    ensures Splice(Progressed(w, SliceJobs(writes), done, |writes|).file,
                   writes[i].offset + done[i], writes[i].data[done[i]..done[i] + n], 0)
         == Progressed(w, SliceJobs(writes), done[i := done[i] + n], |writes|).file
  {
    AcceptedSlicesAreIndependent(writes);
    JobAdvances(w, SliceJobs(writes), done, i, n, |writes|);
  }

  lemma DoneIsBounded(jobs: seq<Transfer>, done: seq<nat>)
    requires WithinJobs(jobs, done)
    ensures Sum(done) <= Total(jobs)
  {
    SumIsMonotone(done, Lens(jobs));
  }

  /** `r` is the result of the first thread in list order that failed, or Ok if none did. */
  ghost predicate FirstFailure(workers: seq<Worker>, r: Result<()>) {
    if r.Ok? then forall k :: 0 <= k < |workers| ==> Succeeded(workers[k])
    else exists k :: 0 <= k < |workers| && workers[k] == Finished(r) && forall j :: 0 <= j < k ==> Succeeded(workers[j])
  }

  /** Joins the threads in list order: the first error found is the answer. */
  method JoinInOrder(workers: seq<Worker>) returns (r: Result<()>)
    requires Running !in workers
    ensures FirstFailure(workers, r)
  {
    for k := 0 to |workers|
      invariant forall j :: 0 <= j < k ==> Succeeded(workers[j])
    {
      assert workers[k] != Running;
      if workers[k].result.Err? {
        return workers[k].result;
      }
    }
    r := Ok(());
  }

  /** A thread that has ended wrote all of its slice, or less and met a fault. */
  ghost predicate Bears(write: WriteSlice, worker: Worker, done: nat, faults: seq<Error>) {
    && (Succeeded(worker) ==> done == |write.data|)
    && (Failed(worker) ==> worker.result.error in faults && done != |write.data|)
  }

  /**
   * The threads of a wave that starts at slice `lo` agree with what has been written and
   * what has gone wrong.
   */
  ghost predicate Tally(writes: seq<WriteSlice>, lo: nat, workers: seq<Worker>, done: seq<nat>, faults: seq<Error>) {
    && |done| == |writes|
    && lo + |workers| <= |writes|
    && (forall k :: 0 <= k < |workers| ==> Bears(writes[lo + k], workers[k], done[lo + k], faults))
    && (forall k :: 0 <= k < |faults| ==> Fault(faults[k]))
    && (faults == [] || exists k :: 0 <= k < |workers| && Failed(workers[k]))
  }

  lemma ThreadsBegin(writes: seq<WriteSlice>, lo: nat, hi: nat, done: seq<nat>)
    requires lo <= hi <= |writes| == |done|
    ensures Tally(writes, lo, seq(hi - lo, _ => Running), done, [])
  {
  }

  /** Thread `k` ends, with a success that its slice bears out or with a fault. */
  lemma ThreadEnds(writes: seq<WriteSlice>, lo: nat, workers: seq<Worker>, done: seq<nat>, faults: seq<Error>,
                   k: nat, result: Result<()>)
    requires Tally(writes, lo, workers, done, faults) && k < |workers| && workers[k].Running?
    requires result.Ok? <==> done[lo + k] == |writes[lo + k].data|
    requires result.Err? ==> Fault(result.error)
    ensures var next := workers[k := Finished(result)];
            && Tally(writes, lo, next, done, if result.Err? then faults + [result.error] else faults)
            && RunningWorkers(next) == RunningWorkers(workers) - 1
  {
    hide RunningWorkers;
    var next := workers[k := Finished(result)];
    var faults' := if result.Err? then faults + [result.error] else faults;
    OneFewerRunning(workers, k, result);
    forall j | 0 <= j < |next|
      ensures Bears(writes[lo + j], next[j], done[lo + j], faults')
    {
      assert Bears(writes[lo + j], workers[j], done[lo + j], faults);
      assert result.Err? ==> result.error == faults'[|faults|];
    }
    if result.Err? {
      assert Failed(next[k]);
    } else if faults != [] {
      var j :| 0 <= j < |workers| && Failed(workers[j]);
      assert Failed(next[j]);
    }
  }

  /** Thread `k` gets further. */
  lemma ThreadWrites(writes: seq<WriteSlice>, lo: nat, workers: seq<Worker>, done: seq<nat>, faults: seq<Error>,
                     k: nat, now: nat)
    requires Tally(writes, lo, workers, done, faults) && k < |workers| && workers[k].Running?
    ensures Tally(writes, lo, workers, done[lo + k := now], faults)
  {
  }

  /** The joined result says whether every thread succeeded, and otherwise names a fault. */
  lemma WaveEnds(writes: seq<WriteSlice>, lo: nat, workers: seq<Worker>, done: seq<nat>, faults: seq<Error>,
                 r: Result<()>)
    requires Tally(writes, lo, workers, done, faults) && FirstFailure(workers, r)
    ensures r.Ok? ==> forall i :: lo <= i < lo + |workers| ==> done[i] == |writes[i].data|
    ensures if r.Ok? then faults == [] else r.error in faults && Fault(r.error)
  {
    if r.Ok? {
      forall i | lo <= i < lo + |workers|
        ensures done[i] == |writes[i].data|
      {
        assert Succeeded(workers[i - lo]);
      }
    } else {
      var k :| 0 <= k < |workers| && workers[k] == Finished(r);
      assert Failed(workers[k]);
    }
  }

  /**
   * One wave: a thread for each slice of `[lo, hi)`, all at once. Any thread may take the
   * next step; a step writes some more of its slice, ends the thread when the slice is
   * complete, or ends it with an error. The wave is over when every thread has ended, and
   * its error is that of the first thread in list order that has one.
   */
  method RunWave(disk: Disk, writes: seq<WriteSlice>, lo: nat, hi: nat, ghost w: World, before: seq<nat>)
    returns (r: Result<()>, done: seq<nat>, workers: seq<Worker>, ghost faults: seq<Error>)
    requires Accepted(writes) && lo <= hi <= |writes|
    requires WaveState(w, SliceJobs(writes), before, before, lo, hi, disk.content)
    requires forall i :: lo <= i < hi ==> before[i] == 0
    modifies disk
    ensures WaveState(w, SliceJobs(writes), before, done, lo, hi, disk.content)
    ensures |workers| == hi - lo && Running !in workers && Tally(writes, lo, workers, done, faults)
    ensures FirstFailure(workers, r)
    ensures r.Ok? ==> forall i :: lo <= i < hi ==> done[i] == |writes[i].data|
    ensures disk.faults == old(disk.faults) + faults
    ensures if r.Ok? then faults == [] else r.error in faults && Fault(r.error)
  {
    hide Sum, Total, Progressed, Tally, RunningWorkers, FirstFailure;
    ThreadsBegin(writes, lo, hi, before);
    ghost var jobs := SliceJobs(writes);
    done, faults := before, [];
    workers := seq(hi - lo, _ => Running);
    while Running in workers
      invariant |workers| == hi - lo && Tally(writes, lo, workers, done, faults)
      invariant WaveState(w, jobs, before, done, lo, hi, disk.content)
      invariant disk.faults == old(disk.faults) + faults
      decreases Total(jobs) - Sum(done), RunningWorkers(workers)
    {
      DoneIsBounded(jobs, done);
      var k :| 0 <= k < |workers| && workers[k].Running?;
      var failed: bool := *;
      if failed && done[lo + k] < |writes[lo + k].data| {
        var error := AnyFault();
        ThreadEnds(writes, lo, workers, done, faults, k, Err(error));
        workers := workers[k := Finished(Err(error))];
        disk.faults, faults := disk.faults + [error], faults + [error];
      } else if done[lo + k] == |writes[lo + k].data| {
        ThreadEnds(writes, lo, workers, done, faults, k, Ok(()));
        workers := workers[k := Finished(Ok(()))];
      } else {
        ghost var last := done;
        done := WriteSome(disk, writes, lo + k, w, done);
        ThreadWrites(writes, lo, workers, last, faults, k, done[lo + k]);
        DoneIsBounded(jobs, done);
      }
    }
    r := JoinInOrder(workers);
    WaveEnds(writes, lo, workers, done, faults, r);
  }

  /**
   * A wave of `width` threads may start at slice `lo` of `n`: no more threads than
   * `parallelism`, or a single one; and unless `parallelism` is more than all slices, waves
   * start at its multiples and have exactly that many threads, except the last one.
   */
  ghost predicate IsWave(parallelism: nat, n: nat, lo: nat, width: nat) {
    && 0 < width && lo + width <= n
    && (width <= parallelism || width == 1)
    && (1 <= parallelism <= n ==> lo % parallelism == 0 && (width == parallelism || lo + width == n))
    && (parallelism > n ==> lo == 0 && width == n)
  }

  lemma FirstWave(parallelism: nat, n: nat)
    requires n > 0
    ensures IsWave(parallelism, n, 0, Min(Max(Min(parallelism, n), 1), n))
  {
  }

  lemma NextWave(parallelism: nat, n: nat, lo: nat, width: nat)
    requires IsWave(parallelism, n, lo, width) && lo + width < n
    ensures var threads := Max(Min(parallelism, n), 1);
            IsWave(parallelism, n, lo + width, Min(lo + width + threads, n) - (lo + width))
  {
    if parallelism > 0 {
      NextMultiple(lo, parallelism);
    }
  }

  lemma NextMultiple(n: nat, d: nat)
    requires d > 0 && n % d == 0
    ensures (n + d) % d == 0
  {
    assert n + d == (n / d + 1) * d;
    MultipleLeavesNothing(n / d + 1, d);
  }

  /**
   * The wave that starts at slice `lo` failed with `r`, the error of its first thread in list
   * order that failed: every slice before it is complete, as are exactly those of its threads
   * that succeeded, and every slice after it is untouched.
   */
  ghost predicate WaveFailed(writes: seq<WriteSlice>, done: seq<nat>, lo: nat, workers: seq<Worker>, r: Result<()>) {
    && |done| == |writes| && lo + |workers| <= |writes|
    && Running !in workers
    && (exists k :: FailedFirst(workers, k, r))
    && (forall k :: 0 <= k < |workers| ==> (Succeeded(workers[k]) <==> done[lo + k] == |writes[lo + k].data|))
    && (forall i :: 0 <= i < lo ==> done[i] == |writes[i].data|)
    && (forall i :: lo + |workers| <= i < |writes| ==> done[i] == 0)
  }

  /** Thread `k` failed with the result `r`, and all threads before it succeeded. */
  ghost predicate FailedFirst(workers: seq<Worker>, k: nat, r: Result<()>) {
    && k < |workers|
    && workers[k] == Finished(r)
    && r.Err?
    && forall j :: 0 <= j < k ==> Succeeded(workers[j])
  }

  lemma WaveFails(writes: seq<WriteSlice>, lo: nat, workers: seq<Worker>, done: seq<nat>, faults: seq<Error>,
                  r: Result<()>)
    requires Tally(writes, lo, workers, done, faults) && FirstFailure(workers, r) && r.Err?
    requires Running !in workers
    requires forall i :: 0 <= i < lo ==> done[i] == |writes[i].data|
    requires forall i :: lo + |workers| <= i < |writes| ==> done[i] == 0
    ensures WaveFailed(writes, done, lo, workers, r)
  {
    var k :| 0 <= k < |workers| && workers[k] == Finished(r) && forall j :: 0 <= j < k ==> Succeeded(workers[j]);
    assert FailedFirst(workers, k, r);
  }

  /**
   * Runs the slices in waves of at most `parallelism` threads, at least one; a failed wave is
   * the last one. `lo` is where it starts, and `workers` are its threads.
   */
  method WriteSlicesInWaves(disk: Disk, writes: seq<WriteSlice>, parallelism: nat)
    returns (r: Result<()>, done: seq<nat>, lo: nat, workers: seq<Worker>)
    requires Accepted(writes)
    modifies disk
    ensures WithinJobs(SliceJobs(writes), done)
    ensures disk.content == Progressed(World(old(disk.content), []), SliceJobs(writes), done, |writes|).file
    ensures r.Ok? ==> disk.content == ApplySlices(old(disk.content), writes)
    ensures r.Ok? ==> disk.faults == old(disk.faults)
    ensures r.Err? ==>
              Fault(r.error) && old(disk.faults) <= disk.faults && r.error in disk.faults[|old(disk.faults)|..]
    ensures r.Err? ==> IsWave(parallelism, |writes|, lo, |workers|) && WaveFailed(writes, done, lo, workers, r)
  {
    hide Sum, Total, Progressed, Tally, FirstFailure, Accepted, ApplySlices, IsWave, WaveFailed;
    ghost var jobs, w := SliceJobs(writes), World(disk.content, []);
    done := seq(|writes|, _ => 0);
    NothingProgressed(w, jobs, done, |jobs|);
    workers, lo := [], 0;
    if |writes| == 0 {
      NoSlicesChangeNothing(disk.content, writes);
      r := Ok(());
      return;
    }
    var threads := Max(Min(parallelism, |writes|), 1);
    FirstWave(parallelism, |writes|);
    while lo < |writes|
      invariant lo <= |writes| && disk.faults == old(disk.faults)
      invariant lo < |writes| ==> IsWave(parallelism, |writes|, lo, Min(lo + threads, |writes|) - lo)
      invariant WaveState(w, jobs, done, done, 0, 0, disk.content)
      invariant forall i :: 0 <= i < lo ==> done[i] == |writes[i].data|
      invariant forall i :: lo <= i < |writes| ==> done[i] == 0
    {
      var hi := Min(lo + threads, |writes|);
      ghost var faults;
      r, done, workers, faults := RunWave(disk, writes, lo, hi, w, done);
      if r.Err? {
        WaveFails(writes, lo, workers, done, faults, r);
        return;
      }
      if hi < |writes| {
        NextWave(parallelism, |writes|, lo, hi - lo);
      }
      lo := hi;
    }
    r := Ok(());
    ProgressedInFull(w, jobs, done, |writes|);
    PerformedSlices(w, writes, |writes|);
    assert writes[..|writes|] == writes;
  }
}
