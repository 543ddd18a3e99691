/** What the promise of the submission loop means for each kind of call. */
module Settling {
  import opened Common
  import opened Splicing
  import opened Transfers
  import opened Scheduler
  import opened Schedules
  import opened Chunks

  /** What reading `len` bytes at `offset` yields: the bytes, if the file has them all. */
  function ReadSpec(file: seq<Byte>, offset: nat, len: nat): Option<seq<Byte>> {
    if len == 0 then Some([])
    else if offset + len <= |file| then Some(file[offset..offset + len])
    else None
  }

  /** A buffer may be handed out as bytes only when every cell has been written. */
  predicate Initialised(cells: seq<Cell>) {
    forall i :: 0 <= i < |cells| ==> cells[i].Init?
  }

  function Frozen(cells: seq<Cell>): (bytes: seq<Byte>)
    requires Initialised(cells)
  {
    seq(|cells|, i requires 0 <= i < |cells| => cells[i].value)
  }

  /** A buffer that holds what `Fetch` brings in from inside the file. */
  lemma FetchedBytes(file: seq<Byte>, offset: nat, len: nat)
    requires len > 0 ==> offset + len <= |file|
    ensures Initialised(Fetch(file, offset, len))
    ensures ReadSpec(file, offset, len) == Some(Frozen(Fetch(file, offset, len)))
  {
    if len > 0 {
      assert Frozen(Fetch(file, offset, len)) == file[offset..offset + len];
    } else {
      assert Frozen(Fetch(file, offset, len)) == [];
    }
  }

  lemma BatchKeepsOtherBuffers(p: Plan, r: Report, w: World, base: nat)
    requires Settles(p, r, w) && AllReads(p.jobs)
    requires forall i :: 0 <= i < |p.jobs| ==> p.jobs[i].buf >= base
    ensures w.file == p.start.file
    ensures |w.bufs| == |p.start.bufs|
    ensures forall b :: 0 <= b < |w.bufs| && b < base ==> w.bufs[b] == p.start.bufs[b]
  {
    ProgressFrame(p.start, p.jobs, r.done, |p.jobs|);
    UntouchedBuffers(p.start, p.jobs, r.done, |p.jobs|);
  }

  /** A region of a batch read. */
  datatype Region = Region(offset: nat, len: nat)

  /** One read per region, into buffers `base`, `base + 1`, and so on. */
  function BatchJobs(regions: seq<Region>, base: nat): seq<Transfer> {
    seq(|regions|, i requires 0 <= i < |regions| => ReadInto(regions[i].offset, base + i, 0, regions[i].len))
  }

  function Unwritten(regions: seq<Region>): seq<seq<Cell>> {
    seq(|regions|, i requires 0 <= i < |regions| => seq(regions[i].len, _ => Uninit))
  }

  /** Reading every region leaves in each buffer exactly what its region holds, and changes nothing else. */
  lemma {:induction false} BatchFillsBuffers(w: World, regions: seq<Region>, base: nat, k: nat)
    requires base + |regions| == |w.bufs| && k <= |regions|
    requires forall i :: 0 <= i < |regions| ==> |w.bufs[base + i]| == regions[i].len
    ensures var after := Performed(w, BatchJobs(regions, base), k);
            && after.file == w.file
            && |after.bufs| == |w.bufs|
            && (forall i :: 0 <= i < k ==> after.bufs[base + i] == Fetch(w.file, regions[i].offset, regions[i].len))
            && (forall b :: 0 <= b < |w.bufs| && !(base <= b < base + k) ==> after.bufs[b] == w.bufs[b])
  {
    if k > 0 {
      BatchFillsBuffers(w, regions, base, k - 1);
      var before := Performed(w, BatchJobs(regions, base), k - 1);
      var region := regions[k - 1];
      SpliceReplaces(before.bufs[base + k - 1], Fetch(w.file, region.offset, region.len), Uninit);
    }
  }

  /** The buffer is fully written, with the bytes of the region. */
  ghost predicate HoldsRegion(file: seq<Byte>, region: Region, cells: seq<Cell>) {
    Initialised(cells) && ReadSpec(file, region.offset, region.len) == Some(Frozen(cells))
  }

  /** The buffers from `base` on as bytes. */
  function FrozenFrom(bufs: seq<seq<Cell>>, base: nat): (r: seq<seq<Byte>>)
    requires base <= |bufs| && forall b :: base <= b < |bufs| ==> Initialised(bufs[b])
  {
    seq(|bufs| - base, i requires 0 <= i < |bufs| - base => Frozen(bufs[base + i]))
  }

  /** What a buffer that holds a region is as bytes. */
  lemma RegionBytes(file: seq<Byte>, region: Region, cells: seq<Cell>)
    requires HoldsRegion(file, region, cells)
    ensures Initialised(cells)
    ensures |Frozen(cells)| == region.len
    ensures region.len > 0 ==>
              region.offset + region.len <= |file| && Frozen(cells) == file[region.offset..region.offset + region.len]
  {
  }

  /** After a batch read that returned Ok, every buffer is fully written with its region's bytes. */
  lemma BatchIsInitialised(p: Plan, r: Report, w: World, regions: seq<Region>, base: nat)
    requires Settles(p, r, w) && r.result.Ok?
    requires p.jobs == BatchJobs(regions, base) && base + |regions| == |p.start.bufs|
    requires forall i :: 0 <= i < |regions| ==> |p.start.bufs[base + i]| == regions[i].len
    ensures |w.bufs| == |p.start.bufs|
    ensures forall i :: 0 <= i < |regions| ==> HoldsRegion(p.start.file, regions[i], w.bufs[base + i])
  {
    BatchFillsBuffers(p.start, regions, base, |regions|);
    forall i | 0 <= i < |regions|
      ensures HoldsRegion(p.start.file, regions[i], w.bufs[base + i])
    {
      assert r.done[i] == p.jobs[i].Len() == regions[i].len;
      FetchedBytes(p.start.file, regions[i].offset, regions[i].len);
    }
  }

  /** So the buffers as bytes are, region by region, those of the file. */
  lemma BatchIsRead(file: seq<Byte>, bufs: seq<seq<Cell>>, regions: seq<Region>, base: nat)
    requires base + |regions| == |bufs|
    requires forall i :: 0 <= i < |regions| ==> HoldsRegion(file, regions[i], bufs[base + i])
    ensures forall b :: base <= b < |bufs| ==> Initialised(bufs[b])
    ensures |FrozenFrom(bufs, base)| == |regions|
    ensures forall i :: 0 <= i < |regions| ==>
              var read := FrozenFrom(bufs, base)[i];
              && |read| == regions[i].len
              && (|read| > 0 ==>
                    && regions[i].offset + |read| <= |file|
                    && read == file[regions[i].offset..regions[i].offset + |read|])
  {
    hide HoldsRegion, Initialised, Frozen;
    forall b | base <= b < |bufs|
      ensures Initialised(bufs[b])
    {
      assert HoldsRegion(file, regions[b - base], bufs[base + (b - base)]);
      RegionBytes(file, regions[b - base], bufs[b]);
    }
    forall i | 0 <= i < |regions|
      ensures var read := FrozenFrom(bufs, base)[i];
              && |read| == regions[i].len
              && (|read| > 0 ==>
                    && regions[i].offset + |read| <= |file|
                    && read == file[regions[i].offset..regions[i].offset + |read|])
    {
      RegionBytes(file, regions[i], bufs[base + i]);
    }
  }

  lemma WritesSettle(p: Plan, r: Report, w: World)
    requires Settles(p, r, w) && AllWrites(p.jobs)
    ensures w.bufs == p.start.bufs
    ensures r.result.Ok? ==> w == Performed(p.start, p.jobs, |p.jobs|)
  {
    ProgressFrame(p.start, p.jobs, r.done, |p.jobs|);
  }

  lemma ReadsSettle(p: Plan, r: Report, w: World, buf: nat)
    requires Settles(p, r, w) && AllReads(p.jobs)
    requires forall i :: 0 <= i < |p.jobs| ==> p.jobs[i].buf == buf
    ensures w.file == p.start.file
    ensures |w.bufs| == |p.start.bufs|
    ensures forall b :: 0 <= b < |w.bufs| && b != buf ==> w.bufs[b] == p.start.bufs[b]
    ensures r.result.Ok? ==> w == Performed(p.start, p.jobs, |p.jobs|)
  {
    ProgressFrame(p.start, p.jobs, r.done, |p.jobs|);
    UntouchedBuffers(p.start, p.jobs, r.done, |p.jobs|);
  }

  lemma {:induction false} UntouchedBuffers(w: World, jobs: seq<Transfer>, done: seq<nat>, k: nat)
    requires WithinJobs(jobs, done) && k <= |jobs| && AllReads(jobs)
    ensures |Progressed(w, jobs, done, k).bufs| == |w.bufs|
    ensures forall b :: 0 <= b < |w.bufs| && (forall i :: 0 <= i < k ==> jobs[i].buf != b) ==>
              Progressed(w, jobs, done, k).bufs[b] == w.bufs[b]
  {
    if k > 0 {
      UntouchedBuffers(w, jobs, done, k - 1);
    }
  }

  /** A complete chunked read reached its last byte, so that byte lies inside the file. */
  lemma LastByteWasRead(p: Plan, r: Report, w: World, whole: Transfer, size: nat)
    requires Settles(p, r, w) && r.result.Ok? && whole.ReadInto?
    requires p.jobs == Chunked(whole, size) && 0 < size <= whole.Len() <= ISIZE_MAX
    ensures whole.offset + whole.Len() <= |p.start.file|
  {
    var last := |p.jobs| - 1;
    ChunkCountBounds(whole.Len(), size);
    ChunksPartition(whole.Len(), size, last);
    assert r.done[last] == p.jobs[last].Len() > 0;
  }

  /**
   * How a transfer of at least one byte was cut: into as many chunks of `limit` bytes as it
   * takes, the last one possibly short; and every entry pushed belongs to its chunk.
   */
  ghost predicate CutBy(whole: Transfer, limit: nat, r: Report) {
    && (|r.done| - 1) * limit < whole.Len() <= |r.done| * limit
    && forall k :: 0 <= k < |r.log| && r.log[k].Pushed? ==> PushesChunk(whole, limit, r.log, k)
  }

  lemma ChunksSettle(p: Plan, whole: Transfer, limit: nat, r: Report, w: World)
    requires Settles(p, r, w) && whole.Len() > 0 && limit > 0
    requires p.jobs == Chunked(whole, ChunkSize(whole.Len(), limit))
    ensures CutBy(whole, limit, r)
  {
    ChunksByLimit(whole.Len(), limit);
    ChunksArePushed(whole, limit, r.log);
  }

  /** The result of a loop that got a ring is the first failure at the ring, or there is none. */
  lemma SettledFailure(p: Plan, r: Report, w: World)
    requires Settles(p, r, w) && (r.result == Err(OffsetOverflow) ==> FirstError(r.log).None?)
    ensures r.result.Err? && !r.result.error.RingInit? && !r.result.error.OffsetOverflow? ==>
              exists k :: FailsFirst(r.log, k, r.result.error)
    ensures r.result.Ok? || r.result.error.OffsetOverflow? ==>
              forall k, e :: 0 <= k < |r.log| ==> !FailsWith(r.log[k], e)
  {
    FirstErrorIsFirst(r.log);
  }
}
