/**
 * What one positioned read or write does to the file and to the caller's memory, and
 * what a batch of them has done when only a prefix of each has been carried out.
 */
module Transfers {
  import opened Common
  import opened Splicing

  /** A byte of a buffer that may not have been written yet. */
  datatype Cell = Uninit | Init(value: Byte)

  /** The file and every buffer that a call may read into. */
  datatype World = World(file: seq<Byte>, bufs: seq<seq<Cell>>)

  /**
   * A contiguous transfer between the file at `offset` and memory. A raw buffer pointer
   * is a buffer index and a position inside that buffer.
   */
  datatype Transfer =
    | ReadInto(offset: nat, buf: nat, pos: nat, len: nat)
    | WriteFrom(offset: nat, data: seq<Byte>)
  {
    function Len(): nat {
      if WriteFrom? then |data| else len
    }
  }

  /** The `n` cells that a read at `offset` brings in. */
  function Fetch(file: seq<Byte>, offset: nat, n: nat): seq<Cell> {
    seq(n, i requires 0 <= i => if offset + i < |file| then Init(file[offset + i]) else Uninit)
  }

  /** The sub-transfer of `n` bytes that starts `from` bytes into `t`. */
  function Piece(t: Transfer, from: nat, n: nat): (piece: Transfer)
    requires from + n <= t.Len()
    ensures piece.Len() == n && piece.offset == t.offset + from && piece.ReadInto? == t.ReadInto?
  {
    match t
    case WriteFrom(offset, data) => WriteFrom(offset + from, data[from..from + n])
    case ReadInto(offset, buf, pos, _) => ReadInto(offset + from, buf, pos + from, n)
  }

  function Perform(w: World, t: Transfer): World {
    match t
    case WriteFrom(offset, data) => w.(file := Splice(w.file, offset, data, 0))
    case ReadInto(offset, buf, pos, len) =>
      if buf < |w.bufs|
      then w.(bufs := w.bufs[buf := Splice(w.bufs[buf], pos, Fetch(w.file, offset, len), Uninit)])
      else w
  }

  /** Two transfers of one kind whose destinations share no byte. */
  predicate Independent(x: Transfer, y: Transfer) {
    || x.Len() == 0
    || y.Len() == 0
    || (x.WriteFrom? && y.WriteFrom? && Apart(x.offset, x.Len(), y.offset, y.Len()))
    || (x.ReadInto? && y.ReadInto? && (x.buf != y.buf || Apart(x.pos, x.Len(), y.pos, y.Len())))
  }

  lemma EmptyTransferDoesNothing(w: World, t: Transfer)
    requires t.Len() == 0
    ensures Perform(w, t) == w
  {
    if t.ReadInto? && t.buf < |w.bufs| {
      assert w.bufs[t.buf := w.bufs[t.buf]] == w.bufs;
    }
  }

  lemma IndependentTransfersCommute(w: World, x: Transfer, y: Transfer)
    requires Independent(x, y)
    ensures Perform(Perform(w, x), y) == Perform(Perform(w, y), x)
  {
    if x.Len() == 0 {
      EmptyTransferDoesNothing(w, x);
      EmptyTransferDoesNothing(Perform(w, y), x);
    } else if y.Len() == 0 {
      EmptyTransferDoesNothing(w, y);
      EmptyTransferDoesNothing(Perform(w, x), y);
    } else if x.WriteFrom? {
      SpliceCommutes(w.file, x.offset, x.data, y.offset, y.data, 0);
    } else if x.buf < |w.bufs| && y.buf < |w.bufs| {
      var fx, fy := Fetch(w.file, x.offset, x.len), Fetch(w.file, y.offset, y.len);
      if x.buf == y.buf {
        SpliceCommutes(w.bufs[x.buf], x.pos, fx, y.pos, fy, Uninit);
      }
      assert Perform(Perform(w, x), y).bufs == Perform(Perform(w, y), x).bufs;
    }
  }

  lemma SlicesJoin<T>(s: seq<T>, m: nat, n: nat)
    requires m + n <= |s|
    ensures s[..m] + s[m..m + n] == s[..m + n]
  {
  }

  lemma FetchesJoin(file: seq<Byte>, offset: nat, m: nat, n: nat)
    ensures Fetch(file, offset, m) + Fetch(file, offset + m, n) == Fetch(file, offset, m + n)
  {
  }

  /** Resuming a transfer where it stopped has the effect of one longer transfer. */
  lemma TransferResumes(w: World, t: Transfer, from: nat, n: nat)
    requires from + n <= t.Len()
    ensures Perform(Perform(w, Piece(t, 0, from)), Piece(t, from, n)) == Perform(w, Piece(t, 0, from + n))
  {
    hide Splice, Fetch;
    match t
    case WriteFrom(offset, data) =>
      SpliceAppends(w.file, offset, data[..from], data[from..from + n], 0);
      SlicesJoin(data, from, n);
    case ReadInto(offset, buf, pos, _) =>
      if buf < |w.bufs| {
        var first, second := Fetch(w.file, offset, from), Fetch(w.file, offset + from, n);
        assert |first| == from by {
          FetchLength(w.file, offset, from);
        }
        SpliceAppends(w.bufs[buf], pos, first, second, Uninit);
        FetchesJoin(w.file, offset, from, n);
      }
  }

  lemma FetchLength(file: seq<Byte>, offset: nat, n: nat)
    ensures |Fetch(file, offset, n)| == n
  {
  }

  lemma PieceOfPiece(t: Transfer, from: nat, n: nat, m: nat)
    requires from + n <= t.Len() && m <= n
    ensures Piece(Piece(t, from, n), 0, m) == Piece(t, from, m)
  {
  }

  lemma WholePiece(t: Transfer)
    ensures Piece(t, 0, t.Len()) == t
  {
  }

  // ---------------------------------------------------------------------------
  // Batches
  // ---------------------------------------------------------------------------

  ghost predicate PairwiseIndependent(jobs: seq<Transfer>) {
    forall i, j :: 0 <= i < j < |jobs| ==> Independent(jobs[i], jobs[j])
  }

  ghost predicate AllReads(jobs: seq<Transfer>) {
    forall i :: 0 <= i < |jobs| ==> jobs[i].ReadInto?
  }

  ghost predicate AllWrites(jobs: seq<Transfer>) {
    forall i :: 0 <= i < |jobs| ==> jobs[i].WriteFrom?
  }

  /** How far each job has got, never past its end. */
  ghost predicate WithinJobs(jobs: seq<Transfer>, done: seq<nat>) {
    |done| == |jobs| && forall i :: 0 <= i < |jobs| ==> done[i] <= jobs[i].Len()
  }

  /** The first `k` jobs in list order, each carried out for exactly its first `done[i]` bytes. */
  ghost function Progressed(w: World, jobs: seq<Transfer>, done: seq<nat>, k: nat): World
    requires WithinJobs(jobs, done) && k <= |jobs|
  {
    if k == 0 then w
    else Perform(Progressed(w, jobs, done, k - 1), Piece(jobs[k - 1], 0, done[k - 1]))
  }

  function Lens(jobs: seq<Transfer>): seq<nat> {
    seq(|jobs|, i requires 0 <= i < |jobs| => jobs[i].Len())
  }

  /** Every job in list order, each carried out in full: the sequential specification. */
  ghost function Performed(w: World, jobs: seq<Transfer>, k: nat): World
    requires k <= |jobs|
  {
    if k == 0 then w else Perform(Performed(w, jobs, k - 1), jobs[k - 1])
  }

  lemma {:induction false} ProgressedInFull(w: World, jobs: seq<Transfer>, done: seq<nat>, k: nat)
    requires WithinJobs(jobs, done) && k <= |jobs|
    requires forall i :: 0 <= i < k ==> done[i] == jobs[i].Len()
    ensures Progressed(w, jobs, done, k) == Performed(w, jobs, k)
  {
    if k > 0 {
      ProgressedInFull(w, jobs, done, k - 1);
      WholePiece(jobs[k - 1]);
    }
  }

  lemma {:induction false} NothingProgressed(w: World, jobs: seq<Transfer>, done: seq<nat>, k: nat)
    requires WithinJobs(jobs, done) && k <= |jobs|
    requires forall i :: 0 <= i < k ==> done[i] == 0
    ensures Progressed(w, jobs, done, k) == w
  {
    if k > 0 {
      NothingProgressed(w, jobs, done, k - 1);
      EmptyTransferDoesNothing(w, Piece(jobs[k - 1], 0, 0));
    }
  }

  lemma {:induction false} ProgressIgnoresLaterJobs(w: World, jobs: seq<Transfer>, done: seq<nat>, other: seq<nat>,
                                                    k: nat)
    requires WithinJobs(jobs, done) && WithinJobs(jobs, other) && k <= |jobs|
    requires forall i :: 0 <= i < k ==> done[i] == other[i]
    ensures Progressed(w, jobs, done, k) == Progressed(w, jobs, other, k)
  {
    if k > 0 {
      ProgressIgnoresLaterJobs(w, jobs, done, other, k - 1);
    }
  }

  /**
   * The step every executor takes: moving `n` more bytes of job `i`, whatever the other
   * jobs have done meanwhile, is the same as having carried job `i` further in list order.
   */
  lemma {:induction false} JobAdvances(w: World, jobs: seq<Transfer>, done: seq<nat>, i: nat, n: nat, k: nat)
    requires WithinJobs(jobs, done) && PairwiseIndependent(jobs)
    requires i < k <= |jobs| && done[i] + n <= jobs[i].Len()
    ensures Perform(Progressed(w, jobs, done, k), Piece(jobs[i], done[i], n))
         == Progressed(w, jobs, done[i := done[i] + n], k)
  {
    hide Perform;
    var next := done[i := done[i] + n];
    var before := Progressed(w, jobs, done, k - 1);
    if i == k - 1 {
      TransferResumes(before, jobs[i], done[i], n);
      ProgressIgnoresLaterJobs(w, jobs, done, next, k - 1);
    } else {
      var last := Piece(jobs[k - 1], 0, done[k - 1]);
      assert Independent(jobs[i], jobs[k - 1]);
      IndependentTransfersCommute(before, last, Piece(jobs[i], done[i], n));
      JobAdvances(w, jobs, done, i, n, k - 1);
    }
  }

  /** Reads leave the file alone and writes leave the buffers alone. */
  lemma {:induction false} ProgressFrame(w: World, jobs: seq<Transfer>, done: seq<nat>, k: nat)
    requires WithinJobs(jobs, done) && k <= |jobs|
    ensures AllReads(jobs) ==> Progressed(w, jobs, done, k).file == w.file
    ensures AllWrites(jobs) ==> Progressed(w, jobs, done, k).bufs == w.bufs
  {
    if k > 0 {
      ProgressFrame(w, jobs, done, k - 1);
    }
  }

  /** Position `p` of the file has been written by the first `done[i]` bytes of write job `i`. */
  ghost predicate Covers(jobs: seq<Transfer>, done: seq<nat>, i: nat, p: nat)
    requires |done| == |jobs|
  {
    i < |jobs| && jobs[i].WriteFrom? && jobs[i].offset <= p < jobs[i].offset + done[i]
  }

  ghost predicate Uncovered(jobs: seq<Transfer>, done: seq<nat>, k: nat, p: nat)
    requires |done| == |jobs|
  {
    forall i :: 0 <= i < k ==> !Covers(jobs, done, i, p)
  }

  /** The file ends where the old file or the furthest prefix ends. */
  lemma {:induction false} ProgressedEnds(w: World, jobs: seq<Transfer>, done: seq<nat>, k: nat)
    requires WithinJobs(jobs, done) && AllWrites(jobs) && k <= |jobs|
    ensures |Progressed(w, jobs, done, k).file| >= |w.file|
    ensures forall i :: 0 <= i < k && done[i] > 0 ==> jobs[i].offset + done[i] <= |Progressed(w, jobs, done, k).file|
    ensures |Progressed(w, jobs, done, k).file| == |w.file|
         || exists i :: 0 <= i < k && done[i] > 0 && jobs[i].offset + done[i] == |Progressed(w, jobs, done, k).file|
  {
    if k > 0 {
      ProgressedEnds(w, jobs, done, k - 1);
      var before, after := Progressed(w, jobs, done, k - 1).file, Progressed(w, jobs, done, k).file;
      var job, n := jobs[k - 1], done[k - 1];
      assert after == Splice(before, job.offset, job.data[..n], 0);
      if n > 0 && |after| != |before| {
        assert job.offset + done[k - 1] == |after|;
      }
    }
  }

  /** A position covered by a prefix holds that prefix's byte. */
  lemma {:induction false} CoveredByte(w: World, jobs: seq<Transfer>, done: seq<nat>, k: nat, i: nat, p: nat)
    requires WithinJobs(jobs, done) && PairwiseIndependent(jobs) && AllWrites(jobs)
    requires i < k <= |jobs| && Covers(jobs, done, i, p)
    ensures p < |Progressed(w, jobs, done, k).file|
    ensures Progressed(w, jobs, done, k).file[p] == jobs[i].data[p - jobs[i].offset]
  {
    var before, after := Progressed(w, jobs, done, k - 1).file, Progressed(w, jobs, done, k).file;
    assert after == Splice(before, jobs[k - 1].offset, jobs[k - 1].data[..done[k - 1]], 0);
    if i < k - 1 {
      CoveredByte(w, jobs, done, k - 1, i, p);
      assert Independent(jobs[i], jobs[k - 1]);
    }
  }

  /** Any other position holds the old byte, or zero if the old file did not reach it. */
  lemma {:induction false} UncoveredByte(w: World, jobs: seq<Transfer>, done: seq<nat>, k: nat, p: nat)
    requires WithinJobs(jobs, done) && AllWrites(jobs) && k <= |jobs| && Uncovered(jobs, done, k, p)
    ensures |Progressed(w, jobs, done, k).file| >= |w.file|
    ensures p < |Progressed(w, jobs, done, k).file| ==>
              Progressed(w, jobs, done, k).file[p] == if p < |w.file| then w.file[p] else 0
  {
    if k > 0 {
      var before, after := Progressed(w, jobs, done, k - 1).file, Progressed(w, jobs, done, k).file;
      assert after == Splice(before, jobs[k - 1].offset, jobs[k - 1].data[..done[k - 1]], 0);
      assert !Covers(jobs, done, k - 1, p);
      UncoveredByte(w, jobs, done, k - 1, p);
    }
  }

  /**
   * A byte-by-byte reading of `Progressed` for independent writes: a position covered by
   * a prefix holds that prefix's byte; any other position holds the old byte, or zero if
   * the old file did not reach it; and the file ends where the old file or the furthest
   * prefix ends.
   */
  lemma {:induction false} ProgressedByteByByte(w: World, jobs: seq<Transfer>, done: seq<nat>, k: nat)
    requires WithinJobs(jobs, done) && PairwiseIndependent(jobs) && AllWrites(jobs) && k <= |jobs|
    ensures var file := Progressed(w, jobs, done, k).file;
            && |file| >= |w.file|
            && (forall i :: 0 <= i < k && done[i] > 0 ==> jobs[i].offset + done[i] <= |file|)
            && (|file| == |w.file| || exists i :: 0 <= i < k && done[i] > 0 && jobs[i].offset + done[i] == |file|)
            && (forall i, p: nat | 0 <= i < k && Covers(jobs, done, i, p) ::
                  p < |file| && file[p] == jobs[i].data[p - jobs[i].offset])
            && (forall p | 0 <= p < |file| && Uncovered(jobs, done, k, p) ::
                  file[p] == if p < |w.file| then w.file[p] else 0)
  {
    hide Progressed, Uncovered;
    var file := Progressed(w, jobs, done, k).file;
    ProgressedEnds(w, jobs, done, k);
    forall i, p: nat | 0 <= i < k && Covers(jobs, done, i, p)
      ensures p < |file| && file[p] == jobs[i].data[p - jobs[i].offset]
    {
      CoveredByte(w, jobs, done, k, i, p);
    }
    forall p | 0 <= p < |file| && Uncovered(jobs, done, k, p)
      ensures file[p] == if p < |w.file| then w.file[p] else 0
    {
      UncoveredByte(w, jobs, done, k, p);
    }
  }

  /** Cell `q` of buffer `b` has been filled by the first `done[i]` bytes of read job `i`. */
  ghost predicate Fills(jobs: seq<Transfer>, done: seq<nat>, i: nat, b: nat, q: nat)
    requires |done| == |jobs|
  {
    i < |jobs| && jobs[i].ReadInto? && jobs[i].buf == b && jobs[i].pos <= q < jobs[i].pos + done[i]
  }

  /** A cell that no prefix fills is as it was. */
  lemma {:induction false} UnfilledCell(w: World, jobs: seq<Transfer>, done: seq<nat>, k: nat, b: nat, q: nat)
    requires WithinJobs(jobs, done) && AllReads(jobs) && k <= |jobs| && b < |w.bufs| && q < |w.bufs[b]|
    requires forall i :: 0 <= i < k ==> !Fills(jobs, done, i, b, q)
    ensures var after := Progressed(w, jobs, done, k);
            b < |after.bufs| && q < |after.bufs[b]| && after.bufs[b][q] == w.bufs[b][q]
  {
    if k > 0 {
      UnfilledCell(w, jobs, done, k - 1, b, q);
      assert !Fills(jobs, done, k - 1, b, q);
    }
  }

  lemma {:induction false} SameNumberOfBuffers(w: World, jobs: seq<Transfer>, done: seq<nat>, k: nat)
    requires WithinJobs(jobs, done) && k <= |jobs|
    ensures |Progressed(w, jobs, done, k).bufs| == |w.bufs|
  {
    if k > 0 {
      SameNumberOfBuffers(w, jobs, done, k - 1);
    }
  }
}
