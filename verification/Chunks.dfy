/** How one large transfer is cut into chunks. */
module Chunks {
  import opened Common
  import opened Transfers
  import opened Scheduler

  /** Rust's usize::div_ceil. */
  function DivCeil(a: nat, b: nat): nat
    requires b > 0
  {
    if a % b == 0 then a / b else a / b + 1
  }

  /** The chunk size in use: never more than the whole transfer. */
  function ChunkSize(total: nat, limit: nat): nat {
    Min(limit, total)
  }

  function ChunkCount(total: nat, size: nat): nat {
    if size == 0 then 0 else DivCeil(total, size)
  }

  function ChunkStart(total: nat, size: nat, i: nat): nat {
    Min(total, i * size)
  }

  function ChunkEnd(total: nat, size: nat, i: nat): nat {
    Min(total, i * size + size)
  }

  lemma ChunkCountBounds(total: nat, size: nat)
    requires 0 < size <= total
    ensures ChunkCount(total, size) >= 1
    ensures (ChunkCount(total, size) - 1) * size < total <= ChunkCount(total, size) * size
  {
    var q, r := total / size, total % size;
    assert total == q * size + r;
    assert (q + 1) * size == q * size + size;
    if r == 0 {
      assert (q - 1) * size == q * size - size;
    }
  }

  /**
   * The chunk plan is an exact partition of `[0, total)`: the first chunk starts at zero,
   * each next one starts where the one before ends, the last one ends at the total, and
   * every chunk is nonempty, at most `size` long and of exactly that length unless it is
   * the last. Its bounds are computed as `i * size` and `i * size + size` without overflow.
   */
  lemma ChunksPartition(total: nat, size: nat, i: nat)
    requires 0 < size <= total <= ISIZE_MAX && i < ChunkCount(total, size)
    ensures ChunkStart(total, size, i) == i * size < ChunkEnd(total, size, i) <= total
    ensures i * size + size <= USIZE_MAX
    ensures i == 0 ==> ChunkStart(total, size, i) == 0
    ensures i + 1 < ChunkCount(total, size) ==>
              ChunkEnd(total, size, i) == ChunkStart(total, size, i + 1) == i * size + size
    ensures i + 1 == ChunkCount(total, size) ==> ChunkEnd(total, size, i) == total
    ensures ChunkEnd(total, size, i) - ChunkStart(total, size, i) <= size
  {
    var n := ChunkCount(total, size);
    ChunkCountBounds(total, size);
    Scales(i, n - 1, size);
    assert (i + 1) * size == i * size + size;
    if i + 1 < n {
      Scales(i + 1, n - 1, size);
    }
  }

  lemma Scales(a: nat, b: nat, c: nat)
    requires a <= b
    ensures a * c <= b * c
  {
    assert b * c == a * c + (b - a) * c;
  }

  /** The jobs of a chunked transfer: consecutive pieces of it. */
  function Chunked(whole: Transfer, size: nat): (jobs: seq<Transfer>)
    ensures |jobs| == ChunkCount(whole.Len(), size)
  {
    var total := whole.Len();
    seq(ChunkCount(total, size), i requires 0 <= i =>
      Piece(whole, ChunkStart(total, size, i), ChunkEnd(total, size, i) - ChunkStart(total, size, i)))
  }

  lemma ChunkedIsSound(p: Plan, whole: Transfer, size: nat)
    requires p.jobs == Chunked(whole, size)
    ensures Sound(p)
  {
    var total := whole.Len();
    forall i, j | 0 <= i < j < |p.jobs|
      ensures Independent(p.jobs[i], p.jobs[j])
    {
      Scales(i + 1, j, size);
      assert (i + 1) * size == i * size + size;
      assert ChunkEnd(total, size, i) <= ChunkStart(total, size, j);
    }
    if whole.ReadInto? {
      assert AllReads(p.jobs);
    } else {
      assert AllWrites(p.jobs);
    }
  }

  /** `job` is the piece of `whole` between two neighbouring cuts. */
  predicate Cut(whole: Transfer, job: Transfer, cuts: seq<nat>, i: nat) {
    i + 1 < |cuts| && cuts[i] <= cuts[i + 1] <= whole.Len() && job == Piece(whole, cuts[i], cuts[i + 1] - cuts[i])
  }

  /** Consecutive pieces of a transfer, cut at `cuts`, carried out one after the other. */
  lemma {:induction false} PiecesAddUp(w: World, whole: Transfer, jobs: seq<Transfer>, cuts: seq<nat>, k: nat)
    requires |cuts| == |jobs| + 1 && cuts[0] == 0 && k <= |jobs|
    requires forall i :: 0 <= i < |jobs| ==> Cut(whole, jobs[i], cuts, i)
    ensures k > 0 ==> cuts[k] <= whole.Len()
    ensures Performed(w, jobs, k) == Perform(w, Piece(whole, 0, cuts[k]))
  {
    hide Perform, Piece;
    if k == 0 {
      EmptyTransferDoesNothing(w, Piece(whole, 0, 0));
    } else {
      PiecesAddUp(w, whole, jobs, cuts, k - 1);
      assert Cut(whole, jobs[k - 1], cuts, k - 1);
      TransferResumes(w, whole, cuts[k - 1], cuts[k] - cuts[k - 1]);
    }
  }

  lemma ChunksAreCut(whole: Transfer, size: nat, cuts: seq<nat>)
    requires |cuts| == |Chunked(whole, size)| + 1
    requires forall i :: 0 <= i < |cuts| ==> cuts[i] == ChunkStart(whole.Len(), size, i)
    ensures forall i :: 0 <= i < |Chunked(whole, size)| ==> Cut(whole, Chunked(whole, size)[i], cuts, i)
  {
    hide Piece;
    var total := whole.Len();
    forall i | 0 <= i < |Chunked(whole, size)|
      ensures Cut(whole, Chunked(whole, size)[i], cuts, i)
    {
      assert (i + 1) * size == i * size + size;
      assert cuts[i + 1] == ChunkStart(total, size, i + 1) == ChunkEnd(total, size, i);
      assert cuts[i] == ChunkStart(total, size, i);
    }
  }

  /** All chunks together are the whole transfer. */
  lemma AllChunksAreTheWhole(w: World, whole: Transfer, size: nat)
    requires 0 < size <= whole.Len()
    ensures Performed(w, Chunked(whole, size), |Chunked(whole, size)|) == Perform(w, whole)
  {
    hide Piece, Perform, Performed;
    var total, jobs := whole.Len(), Chunked(whole, size);
    var cuts := seq(|jobs| + 1, i requires 0 <= i => ChunkStart(total, size, i));
    ChunksAreCut(whole, size, cuts);
    PiecesAddUp(w, whole, jobs, cuts, |jobs|);
    ChunkCountBounds(total, size);
    WholePiece(whole);
  }

  // ---------------------------------------------------------------------------
  // The chunks of a file with a given chunk size
  // ---------------------------------------------------------------------------

  /** As many chunks of `limit` bytes as it takes, the last one possibly short. */
  lemma ChunksByLimit(total: nat, limit: nat)
    requires total > 0 && limit > 0
    ensures var n := ChunkCount(total, ChunkSize(total, limit));
            n >= 1 && (n - 1) * limit < total <= n * limit
    ensures forall i :: 0 <= i < ChunkCount(total, ChunkSize(total, limit)) ==>
              && ChunkStart(total, ChunkSize(total, limit), i) == i * limit
              && ChunkEnd(total, ChunkSize(total, limit), i) == Min(total, i * limit + limit)
  {
    var size := ChunkSize(total, limit);
    ChunkCountBounds(total, size);
    var n := ChunkCount(total, size);
    if limit > total {
      assert n == 1;
    }
    forall i | 0 <= i < n
      ensures ChunkStart(total, size, i) == i * limit
      ensures ChunkEnd(total, size, i) == Min(total, i * limit + limit)
    {
      Scales(i, n - 1, size);
      if limit > total {
        assert i == 0;
      }
    }
  }

  /**
   * The entry pushed at `k` belongs to the chunk that its user data names: it asks for the
   * bytes of that chunk after those reported before, all of them or as many as 32 bits can
   * count.
   */
  ghost predicate PushesChunk(whole: Transfer, limit: nat, log: seq<Event>, k: nat) {
    && k < |log| && log[k].Pushed?
    && var e := log[k].entry;
      var from := e.userData * limit + BytesReported(log[..k], e.userData);
      var end := Min(whole.Len(), e.userData * limit + limit);
      && from < end
      && whole.offset + from <= U64_MAX
      && e.span.Len() == Min(end - from, 0xFFFF_FFFF)
      && e.span == Piece(whole, from, e.span.Len())
  }

  lemma PieceOfChunk(whole: Transfer, start: nat, n: nat, from: nat, m: nat)
    requires start + n <= whole.Len() && from + m <= n
    ensures Piece(Piece(whole, start, n), from, m) == Piece(whole, start + from, m)
  {
  }

  /** What is pushed for the chunks of a transfer. */
  lemma ChunksArePushed(whole: Transfer, limit: nat, log: seq<Event>)
    requires whole.Len() > 0 && limit > 0
    requires PushesAskForRest(Chunked(whole, ChunkSize(whole.Len(), limit)), log)
    ensures forall k :: 0 <= k < |log| && log[k].Pushed? ==> PushesChunk(whole, limit, log, k)
  {
    hide BytesReported, ChunkSize, ChunkStart, ChunkEnd, ChunkCount;
    var total, size := whole.Len(), ChunkSize(whole.Len(), limit);
    var jobs := Chunked(whole, size);
    ChunksByLimit(total, limit);
    forall k | 0 <= k < |log| && log[k].Pushed?
      ensures PushesChunk(whole, limit, log, k)
    {
      var e := log[k].entry;
      var i, moved := e.userData, BytesReported(log[..k], e.userData);
      assert AsksForRest(jobs, log, k);
      var start, end := ChunkStart(total, size, i), ChunkEnd(total, size, i);
      assert jobs[i] == Piece(whole, start, end - start);
      PieceOfChunk(whole, start, end - start, moved, e.span.Len());
    }
  }

  lemma ChunkSizeFits(total: nat, limit: nat)
    requires total > 0 && limit > 0
    ensures 0 < ChunkSize(total, limit) <= total
  {
  }

  lemma NoChunks(whole: Transfer, limit: nat)
    requires whole.Len() == 0
    ensures |Chunked(whole, ChunkSize(whole.Len(), limit))| == 0
  {
  }

  lemma ChunksReadInto(whole: Transfer, size: nat)
    requires whole.ReadInto?
    ensures AllReads(Chunked(whole, size))
    ensures forall i :: 0 <= i < |Chunked(whole, size)| ==> Chunked(whole, size)[i].buf == whole.buf
  {
  }

  lemma ChunksWriteFrom(whole: Transfer, size: nat)
    requires whole.WriteFrom?
    ensures AllWrites(Chunked(whole, size))
  {
  }
}
