/** The io_uring file: positioned transfers, and the cursor emulated on top of them. */
module Uring {
  import opened Common
  import opened Splicing
  import opened Transfers
  import opened Scheduler
  import opened Schedules
  import opened Rings
  import opened Chunks
  import opened Overflows
  import opened Leftovers
  import opened Batches
  import opened Settling
  import opened WriteSlices
  import opened Cursors

  class File {
    const ringDepth: nat
    const chunkSize: nat
    const disk: Disk
    /** Where cursor reads and writes take place; clones share it. */
    const position: Position

    /** What `OpenOptions::open` makes sure of. */
    predicate Valid() {
      1 <= ringDepth <= U32_MAX && 1 <= chunkSize
    }

    constructor (ringDepth: nat, chunkSize: nat, disk: Disk, position: Position)
      ensures this.ringDepth == ringDepth && this.chunkSize == chunkSize
      ensures this.disk == disk && this.position == position
    {
      this.ringDepth, this.chunkSize, this.disk, this.position := ringDepth, chunkSize, disk, position;
    }

    /** Opens with the given options: a file that is handed out has a usable depth and chunk size. */
    static method Open(ringDepth: nat, chunkSize: nat, append: bool, disk: Disk) returns (r: Result<File>)
      requires ringDepth <= U32_MAX
      modifies disk`faults
      ensures disk.faults == old(disk.faults) + if r.Err? && r.error.Os? then [r.error] else []
      ensures r.Ok? ==> fresh(r.value) && fresh(r.value.position) && r.value.position.at == 0
      ensures r.Ok? ==> r.value.Valid() && r.value.disk == disk && !append
      ensures r.Ok? ==> r.value.ringDepth == ringDepth && r.value.chunkSize == chunkSize
      ensures r == Err(InvalidInput) <==> ringDepth == 0 || chunkSize == 0
      ensures r == Err(Unsupported) <==> ringDepth > 0 && chunkSize > 0 && append
      ensures r.Err? ==> r.error.InvalidInput? || r.error.Unsupported? || r.error.Os?
    {
      if ringDepth == 0 {
        return Err(InvalidInput);
      }
      if chunkSize == 0 {
        return Err(InvalidInput);
      }
      if append {
        return Err(Unsupported);
      }
      var isOpen: bool := *;
      if !isOpen {
        var code: int := *;
        disk.faults := disk.faults + [Os(code)];
        return Err(Os(code));
      }
      var position := new Position();
      var file := new File(ringDepth, chunkSize, disk, position);
      r := Ok(file);
    }

    /** A second handle on the same file with the same cursor. */
    method TryClone() returns (r: Result<File>)
      requires Valid()
      modifies disk`faults
      ensures disk.faults == old(disk.faults) + if r.Err? then [r.error] else []
      ensures r.Ok? ==> fresh(r.value) && r.value.Valid()
      ensures r.Ok? ==> r.value.disk == disk && r.value.position == position
      ensures r.Ok? ==> r.value.ringDepth == ringDepth && r.value.chunkSize == chunkSize
      ensures r.Err? ==> r.error.Os?
    {
      var cloned: bool := *;
      if !cloned {
        var code: int := *;
        disk.faults := disk.faults + [Os(code)];
        return Err(Os(code));
      }
      var file := new File(ringDepth, chunkSize, disk, position);
      r := Ok(file);
    }

    /** Reads `len` bytes at `offset` into a new buffer, which is handed out only when it is full. */
    method ReadAt(cache: RingCache, mem: Memory, offset: nat, len: nat)
      returns (r: Result<seq<Byte>>, ghost report: Report)
      requires Valid() && cache.Quiescent() && len <= ISIZE_MAX
      modifies cache, cache.ring, disk`content, mem
      ensures disk.content == old(disk.content)
      ensures r.Ok? ==> |r.value| == len
      ensures r.Ok? && len > 0 ==>
                offset + len <= |disk.content| && r.value == disk.content[offset..offset + len]
      ensures len == 0 ==> r == Ok([]) && mem.bufs == old(mem.bufs) && cache.requests == old(cache.requests)
      ensures len > 0 ==>
                && (r.Ok? <==> report.result.Ok?)
                && (r.Err? ==> report.result == Err(r.error))
                && cache.requests == old(cache.requests) + [Request(ringDepth, !Refused(r))]
                && FailureIsOnRecord(cache, r)
                && var whole := ReadInto(offset, |old(mem.bufs)|, 0, len);
                  var start := World(old(disk.content), old(mem.bufs) + [seq(len, _ => Uninit)]);
                  && Settles(ChunkPlan(start, whole), report, WorldOf(disk, mem))
                  && (Refused(r) || Happened(cache, ChunkPlan(start, whole), report, WorldOf(disk, mem)))
                  && CutBy(whole, chunkSize, report)
                  && (Refused(r) ==> WorldOf(disk, mem) == start)
                  && (!cache.Quiescent() ==> SometimesStrands(ringDepth, whole, chunkSize, |disk.content|))
                  && (AlwaysStrands(ringDepth, whole, chunkSize) ==> !cache.Quiescent() || Refused(r))
      ensures Refused(r) ==> NoRing(cache, old(cache.ring), old(cache.Capacity()))
      ensures !cache.Quiescent() <==> r == Err(OffsetOverflow) && offset <= U64_MAX
      ensures r == Err(OffsetOverflow) ==> offset + len > U64_MAX + 1
      ensures cache.ring == old(cache.ring) || fresh(cache.ring)
    {
      hide Settles, Produces, Happened, FailsFirst, FailsWith, CutBy, ChunkPlan, SometimesStrands, AlwaysStrands;
      if len == 0 {
        r, report := Ok([]), Report(Ok(()), [], [], []);
        return;
      }
      var buf := mem.Allocate(len);
      var filled: Result<()>;
      filled, report := SubmitReadExactAt(cache, mem, offset, buf);
      r := if filled.Ok? then Ok(Frozen(mem.bufs[buf])) else Err(filled.error);
    }

    /**
     * Reads every region with one batch. The buffers are allocated unwritten; on success
     * every cell of every buffer has been written, and region by region the answer is the
     * one `ReadAt` gives. The regions may overlap.
     */
    method ReadAtBatch(cache: RingCache, mem: Memory, regions: seq<Region>)
      returns (r: Result<seq<seq<Byte>>>, ghost report: Report)
      requires Valid() && cache.Quiescent()
      requires forall i :: 0 <= i < |regions| ==> regions[i].offset <= U64_MAX
      modifies cache, cache.ring, disk`content, mem
      ensures disk.content == old(disk.content)
      ensures old(mem.bufs) <= mem.bufs
      ensures r.Ok? ==> |r.value| == |regions|
      ensures r.Ok? ==> forall i :: 0 <= i < |regions| ==>
                && |r.value[i]| == regions[i].len
                && (regions[i].len > 0 ==>
                      && regions[i].offset + regions[i].len <= |disk.content|
                      && r.value[i] == disk.content[regions[i].offset..regions[i].offset + regions[i].len])
      ensures r.Ok? <==> report.result.Ok?
      ensures r.Err? ==> report.result == Err(r.error) && r.error != OffsetOverflow
      ensures Settles(Plan(World(old(disk.content), old(mem.bufs) + Unwritten(regions)),
                           BatchJobs(regions, |old(mem.bufs)|), ringDepth),
                      report, WorldOf(disk, mem))
      ensures |regions| > 0 ==>
                || Refused(r)
                || Happened(cache, Plan(World(old(disk.content), old(mem.bufs) + Unwritten(regions)),
                                        BatchJobs(regions, |old(mem.bufs)|), ringDepth),
                            report, WorldOf(disk, mem))
      ensures |regions| == 0 ==> r == Ok([]) && mem.bufs == old(mem.bufs) && cache.requests == old(cache.requests)
      ensures |regions| > 0 ==> cache.requests == old(cache.requests) + [Request(ringDepth, !Refused(r))]
      ensures |regions| > 0 ==> FailureIsOnRecord(cache, r)
      ensures Refused(r) ==>
                && NoRing(cache, old(cache.ring), old(cache.Capacity()))
                && mem.bufs == old(mem.bufs) + Unwritten(regions)
      ensures cache.Quiescent()
      ensures cache.ring == old(cache.ring) || fresh(cache.ring)
    {
      hide Settles, HoldsRegion, Perform, Produces, Initialised, FrozenFrom;
      var base := AllocateAll(mem, regions);
      var jobs := BatchJobs(regions, base);
      ghost var plan := Plan(WorldOf(disk, mem), jobs, ringDepth);
      if |regions| == 0 {
        r := Ok([]);
        report := Report(Ok(()), seq(|jobs|, _ => 0), [], []);
        SettlesWithoutRing(plan, Ok(()));
        assert mem.bufs == old(mem.bufs);
        return;
      }
      assert Sound(plan);
      var done: Result<()>;
      done, report := SubmitAll(cache, mem, jobs);
      BatchKeepsOtherBuffers(plan, report, WorldOf(disk, mem), base);
      if done.Err? {
        r := Err(done.error);
      } else {
        BatchIsInitialised(plan, report, WorldOf(disk, mem), regions, base);
        BatchIsRead(disk.content, mem.bufs, regions, base);
        r := Ok(FrozenFrom(mem.bufs, base));
      }
    }

    /** One unwritten buffer per region, one after the other. */
    static method AllocateAll(mem: Memory, regions: seq<Region>) returns (base: nat)
      modifies mem
      ensures base == |old(mem.bufs)| && mem.bufs == old(mem.bufs) + Unwritten(regions)
    {
      base := |mem.bufs|;
      for i := 0 to |regions|
        invariant mem.bufs == old(mem.bufs) + Unwritten(regions[..i])
      {
        var buf := mem.Allocate(regions[i].len);
        assert Unwritten(regions[..i + 1]) == Unwritten(regions[..i]) + [seq(regions[i].len, _ => Uninit)];
      }
      assert regions[..|regions|] == regions;
    }

    /** Writes the slices of an accepted batch, each as one job. */
    method SubmitWriteSlicesAt(cache: RingCache, mem: Memory, writes: seq<WriteSlice>)
      returns (r: Result<()>, ghost report: Report)
      requires Valid() && cache.Quiescent()
      requires Accepted(writes) && forall i :: 0 <= i < |writes| ==> writes[i].offset <= U64_MAX
      modifies cache, cache.ring, disk`content, mem
      ensures report.result == r
      ensures Settles(Plan(old(WorldOf(disk, mem)), SliceJobs(writes), ringDepth), report, WorldOf(disk, mem))
      ensures |writes| > 0 ==>
                || Refused(r)
                || Happened(cache, Plan(old(WorldOf(disk, mem)), SliceJobs(writes), ringDepth),
                            report, WorldOf(disk, mem))
      ensures |writes| == 0 ==> r.Ok? && disk.content == old(disk.content) && cache.requests == old(cache.requests)
      ensures |writes| > 0 ==> cache.requests == old(cache.requests) + [Request(ringDepth, !Refused(r))]
      ensures |writes| > 0 ==> FailureIsOnRecord(cache, r)
      ensures Refused(r) ==>
                NoRing(cache, old(cache.ring), old(cache.Capacity())) && disk.content == old(disk.content)
      ensures mem.bufs == old(mem.bufs)
      ensures r.Ok? ==> disk.content == ApplySlices(old(disk.content), writes)
      ensures r != Err(OffsetOverflow) && cache.Quiescent()
      ensures cache.ring == old(cache.ring) || fresh(cache.ring)
    {
      hide Settles, Produces, ApplySlices, Performed, Accepted;
      ghost var plan := Plan(WorldOf(disk, mem), SliceJobs(writes), ringDepth);
      if |writes| == 0 {
        r := Ok(());
        report := Report(r, seq(|plan.jobs|, _ => 0), [], []);
        SettlesWithoutRing(plan, r);
        NoSlicesChangeNothing(disk.content, writes);
        return;
      }
      AcceptedSlicesAreIndependent(writes);
      r, report := SubmitAll(cache, mem, SliceJobs(writes));
      WritesSettle(plan, report, WorldOf(disk, mem));
      PerformedSlices(plan.start, writes, |writes|);
      assert writes[..|writes|] == writes;
    }

    /**
     * The report is of a run of the loop at the thread's ring: its events are those on
     * record there, and what the run leaves in the ring is what the ring holds.
     */
    ghost predicate Happened(cache: RingCache, p: Plan, report: Report, w: World)
      reads cache, cache.ring
    {
      && cache.ring != null
      && report.log == cache.ring.log
      && Produces(p, report, cache.ring.Held(), w)
      && (cache.Quiescent() <==> cache.ring.Held() == multiset{})
    }

    /**
     * An error of a loop is that of the first event at the ring that is a failure, unless no
     * ring could be made or an offset overflowed; and Ok means that no event is one.
     */
    ghost predicate FailureIsOnRecord<T>(cache: RingCache, r: Result<T>)
      reads cache, cache.ring
    {
      && (r.Err? && !r.error.RingInit? && !r.error.OffsetOverflow? ==>
            cache.ring != null && exists k :: FailsFirst(cache.ring.log, k, r.error))
      && (r.Ok? || r.error.OffsetOverflow? ==>
            cache.ring != null && forall k, e :: 0 <= k < |cache.ring.log| ==> !FailsWith(cache.ring.log[k], e))
    }

    /** A new ring was needed and could not be made. */
    ghost predicate NoRing(cache: RingCache, ring: Ring?, capacity: nat)
      reads cache
    {
      cache.ring == ring && capacity < ringDepth
    }

    /** Runs a list of jobs on the thread's ring. */
    method SubmitAll(cache: RingCache, mem: Memory, jobs: seq<Transfer>) returns (r: Result<()>, ghost report: Report)
      requires Valid() && cache.Quiescent()
      requires Sound(Plan(WorldOf(disk, mem), jobs, ringDepth))
      modifies cache, cache.ring, disk`content, mem
      ensures report.result == r
      ensures Settles(Plan(old(WorldOf(disk, mem)), jobs, ringDepth), report, WorldOf(disk, mem))
      ensures Refused(r) || Happened(cache, Plan(old(WorldOf(disk, mem)), jobs, ringDepth), report, WorldOf(disk, mem))
      ensures cache.requests == old(cache.requests) + [Request(ringDepth, !Refused(r))]
      ensures FailureIsOnRecord(cache, r)
      ensures r != Err(OffsetOverflow) ==> cache.Quiescent()
      ensures r == Err(OffsetOverflow) ==> exists i :: 0 <= i < |jobs| && jobs[i].offset > U64_MAX
      ensures Refused(r) ==>
                && NoRing(cache, old(cache.ring), old(cache.Capacity()))
                && report.log == []
                && WorldOf(disk, mem) == old(WorldOf(disk, mem))
      ensures cache.ring == old(cache.ring) || fresh(cache.ring)
    {
      hide Settles, Produces, Sound;
      ghost var start := WorldOf(disk, mem);
      ghost var plan := Plan(start, jobs, ringDepth);
      var acquired := cache.WithRing(ringDepth);
      if acquired.Err? {
        r := Err(acquired.error);
        report := Report(r, seq(|jobs|, _ => 0), [], []);
        SettlesWithoutRing(plan, r);
        return;
      }
      var batch := new Batch(jobs, ringDepth, start);
      r, report := batch.Drive(acquired.value, disk, mem);
      SettledFailure(plan, report, WorldOf(disk, mem));
      if r == Err(OffsetOverflow) {
        OverflowNeedsAnOffset(plan, report, acquired.value.Held(), WorldOf(disk, mem));
      }
    }

    /** The plan of a chunked transfer by this file. */
    ghost function ChunkPlan(start: World, whole: Transfer): Plan {
      Plan(start, Chunked(whole, ChunkSize(whole.Len(), chunkSize)), ringDepth)
    }

    /** The two conditions are exact, over everything that the kernel may do. */
    lemma StrandsExactly(start: World, whole: Transfer)
      requires Valid() && 0 < whole.Len() <= ISIZE_MAX && whole.offset <= U64_MAX
      ensures var p := ChunkPlan(start, whole);
              && ((exists turns :: Strands(p, turns)) <==> SometimesStrands(ringDepth, whole, chunkSize, |start.file|))
              && ((forall turns :: Ends(p, turns) ==> Strands(p, turns)) <==>
                    AlwaysStrands(ringDepth, whole, chunkSize))
    {
      hide MayStrand, MustStrand, Strands, Ends, Chunked, ChunkSize, SometimesStrands, AlwaysStrands;
      ChunkSizeFits(whole.Len(), chunkSize);
      ChunkedTransferStrandsExactly(ChunkPlan(start, whole), whole, ChunkSize(whole.Len(), chunkSize));
      StrandConditions(ringDepth, whole, chunkSize, |start.file|);
    }

    /** Writes all of `data` at `offset`. */
    method SubmitWriteExactAt(cache: RingCache, mem: Memory, offset: nat, data: seq<Byte>)
      returns (r: Result<()>, ghost report: Report)
      requires Valid() && cache.Quiescent() && |data| <= ISIZE_MAX
      modifies cache, cache.ring, disk`content, mem
      ensures report.result == r
      ensures Settles(ChunkPlan(old(WorldOf(disk, mem)), WriteFrom(offset, data)), report, WorldOf(disk, mem))
      ensures |data| > 0 ==>
                || Refused(r)
                || Happened(cache, ChunkPlan(old(WorldOf(disk, mem)), WriteFrom(offset, data)),
                            report, WorldOf(disk, mem))
      ensures |data| > 0 ==> CutBy(WriteFrom(offset, data), chunkSize, report)
      ensures |data| == 0 ==> r.Ok? && cache.requests == old(cache.requests)
      ensures |data| > 0 ==> cache.requests == old(cache.requests) + [Request(ringDepth, !Refused(r))]
      ensures |data| > 0 ==> FailureIsOnRecord(cache, r)
      ensures Refused(r) ==>
                NoRing(cache, old(cache.ring), old(cache.Capacity())) && disk.content == old(disk.content)
      ensures mem.bufs == old(mem.bufs)
      ensures r.Ok? ==> disk.content == Splice(old(disk.content), offset, data, 0)
      ensures !cache.Quiescent() <==> r == Err(OffsetOverflow) && offset <= U64_MAX
      ensures !cache.Quiescent() ==>
                SometimesStrands(ringDepth, WriteFrom(offset, data), chunkSize, |old(disk.content)|)
      ensures AlwaysStrands(ringDepth, WriteFrom(offset, data), chunkSize) ==> !cache.Quiescent() || Refused(r)
      ensures r == Err(OffsetOverflow) ==> offset + |data| > U64_MAX + 1
      ensures cache.ring == old(cache.ring) || fresh(cache.ring)
    {
      hide Settles, Produces, MayStrand, MustStrand, CutBy, SometimesStrands, AlwaysStrands, ChunkSize, Chunked, Sound;
      ghost var whole := WriteFrom(offset, data);
      ghost var plan := ChunkPlan(WorldOf(disk, mem), whole);
      if |data| == 0 {
        r := Ok(());
        report := Report(r, seq(|plan.jobs|, _ => 0), [], []);
        NoChunks(whole, chunkSize);
        NothingStrands(ringDepth, whole, chunkSize);
        SettlesWithoutRing(plan, r);
        return;
      }
      var size := ChunkSize(|data|, chunkSize);
      ChunkSizeFits(|data|, chunkSize);
      ChunkedIsSound(plan, whole, size);
      r, report := SubmitAll(cache, mem, Chunked(WriteFrom(offset, data), size));
      AllChunksAreTheWhole(plan.start, whole, size);
      ChunksWriteFrom(whole, size);
      WritesSettle(plan, report, WorldOf(disk, mem));
      ChunksSettle(plan, whole, chunkSize, report, WorldOf(disk, mem));
      if !Refused(r) {
        ChunkedReport(plan, whole, size, report, cache.ring.Held(), WorldOf(disk, mem));
      }
      StrandConditions(ringDepth, whole, chunkSize, |plan.start.file|);
    }

    /** Fills the whole buffer `buf` from `offset`. */
    method SubmitReadExactAt(cache: RingCache, mem: Memory, offset: nat, buf: nat)
      returns (r: Result<()>, ghost report: Report)
      requires Valid() && cache.Quiescent() && buf < |mem.bufs| && |mem.bufs[buf]| <= ISIZE_MAX
      modifies cache, cache.ring, disk`content, mem
      ensures report.result == r
      ensures disk.content == old(disk.content)
      ensures |mem.bufs| == |old(mem.bufs)|
      ensures forall b :: 0 <= b < |mem.bufs| && b != buf ==> mem.bufs[b] == old(mem.bufs)[b]
      ensures var len := |old(mem.bufs)[buf]|; var whole := ReadInto(offset, buf, 0, len);
              && Settles(ChunkPlan(old(WorldOf(disk, mem)), whole), report, WorldOf(disk, mem))
              && (len > 0 ==>
                    || Refused(r)
                    || Happened(cache, ChunkPlan(old(WorldOf(disk, mem)), whole), report, WorldOf(disk, mem)))
              && (len > 0 ==> CutBy(whole, chunkSize, report))
              && (!cache.Quiescent() ==> SometimesStrands(ringDepth, whole, chunkSize, |disk.content|))
              && (AlwaysStrands(ringDepth, whole, chunkSize) ==> !cache.Quiescent() || Refused(r))
      ensures |old(mem.bufs)[buf]| == 0 ==> r.Ok? && cache.requests == old(cache.requests)
      ensures |old(mem.bufs)[buf]| > 0 ==>
                && cache.requests == old(cache.requests) + [Request(ringDepth, !Refused(r))]
                && FailureIsOnRecord(cache, r)
      ensures Refused(r) ==> NoRing(cache, old(cache.ring), old(cache.Capacity())) && mem.bufs == old(mem.bufs)
      ensures r.Ok? ==> Initialised(mem.bufs[buf]) && |Frozen(mem.bufs[buf])| == |old(mem.bufs)[buf]|
      ensures r.Ok? && |old(mem.bufs)[buf]| > 0 ==>
                var len := |old(mem.bufs)[buf]|;
                offset + len <= |disk.content| && Frozen(mem.bufs[buf]) == disk.content[offset..offset + len]
      ensures !cache.Quiescent() <==> r == Err(OffsetOverflow) && offset <= U64_MAX
      ensures r == Err(OffsetOverflow) ==> offset + |old(mem.bufs)[buf]| > U64_MAX + 1
      ensures cache.ring == old(cache.ring) || fresh(cache.ring)
    {
      hide Settles, Produces, MayStrand, MustStrand, CutBy, SometimesStrands, AlwaysStrands, ChunkSize, Chunked, Sound;
      ghost var len := |mem.bufs[buf]|;
      ghost var whole := ReadInto(offset, buf, 0, |mem.bufs[buf]|);
      ghost var plan := ChunkPlan(WorldOf(disk, mem), whole);
      if |mem.bufs[buf]| == 0 {
        r := Ok(());
        report := Report(r, seq(|plan.jobs|, _ => 0), [], []);
        NoChunks(whole, chunkSize);
        NothingStrands(ringDepth, whole, chunkSize);
        SettlesWithoutRing(plan, r);
        return;
      }
      var size := ChunkSize(|mem.bufs[buf]|, chunkSize);
      ChunkSizeFits(|mem.bufs[buf]|, chunkSize);
      ChunkedIsSound(plan, whole, size);
      r, report := SubmitAll(cache, mem, Chunked(ReadInto(offset, buf, 0, |mem.bufs[buf]|), size));
      ChunksReadInto(whole, size);
      ReadsSettle(plan, report, WorldOf(disk, mem), buf);
      ChunksSettle(plan, whole, chunkSize, report, WorldOf(disk, mem));
      if !Refused(r) {
        ChunkedReport(plan, whole, size, report, cache.ring.Held(), WorldOf(disk, mem));
      }
      StrandConditions(ringDepth, whole, chunkSize, |plan.start.file|);
      if r.Ok? {
        AllChunksAreTheWhole(plan.start, whole, size);
        LastByteWasRead(plan, report, WorldOf(disk, mem), whole, size);
        SpliceReplaces(plan.start.bufs[buf], Fetch(disk.content, offset, len), Uninit);
        FetchedBytes(disk.content, offset, len);
      }
    }

    /** The cursor operation went as the kernel's turn determines, in its result and in what it left. */
    ghost predicate LoneHappened(ring: Ring, before: World, span: Transfer, turn: Turn, r: Result<nat>, after: World)
      reads ring
    {
      && MayAnswerLone(before, span, turn)
      && LoneCall(before, span, turn) == Lone(r, ring.Held(), ring.cq, after)
    }

    /**
     * One submission of one entry for the cursor: the kernel's count, or its error. `moved`
     * bytes were transferred. If the wait fails, or ends without an answer, bytes may have
     * moved all the same, and the entry may still be in the ring.
     */
    method SubmitOne(cache: RingCache, mem: Memory, span: Transfer)
      returns (r: Result<nat>, ghost moved: nat, ghost turn: Turn)
      requires Valid() && cache.Quiescent() && 0 < span.Len() <= MAX_IO_LEN
      modifies cache, cache.ring, disk`content, mem
      ensures moved <= span.Len() && WorldOf(disk, mem) == Perform(old(WorldOf(disk, mem)), Piece(span, 0, moved))
      ensures moved > 0 ==> Legal(old(WorldOf(disk, mem)), Cqe(Entry(0, span), moved))
      ensures r.Ok? ==> moved == r.value
      ensures r.Err? && (r.error.Os? || r.error.RingInit?) ==> moved == 0
      ensures cache.Quiescent() <==> r.Ok? || r.error.Os? || r.error.RingInit?
      ensures r.Err? ==> r.error.Os? || r.error.RingInit? || r.error.Submit? || r.error.NoCqe?
      ensures cache.ring == old(cache.ring) || fresh(cache.ring)
      ensures cache.requests == old(cache.requests) + [Request(ringDepth, !Refused(r))]
      ensures !Refused(r) ==>
                && cache.ring != null
                && AnsweredBy(cache.ring.log, span, r)
                && LoneHappened(cache.ring, old(WorldOf(disk, mem)), span, turn, r, WorldOf(disk, mem))
      ensures r.Err? && r.error.Os? ==> r.error.code > 0
      ensures Refused(r) ==> NoRing(cache, old(cache.ring), old(cache.Capacity()))
    {
      hide LoneCall, MayAnswerLone, Perform, Piece, Legal, AnsweredBy, OneShot;
      moved, turn := 0, FailedWait(0);
      EmptyTransferDoesNothing(WorldOf(disk, mem), Piece(span, 0, 0));
      var acquired := cache.WithRing(ringDepth);
      if acquired.Err? {
        r := Err(acquired.error);
        return;
      }
      ghost var before := WorldOf(disk, mem);
      r, turn := Exchange(acquired.value, mem, span);
      moved := LoneCallMoves(before, span, turn);
      LoneCallIsAnswered(before, span, turn);
      assert acquired.value.log == OneShot(span, r);
    }

    /** Pushes one entry on an idle ring, waits, and takes one answer. */
    method Exchange(ring: Ring, mem: Memory, span: Transfer) returns (r: Result<nat>, ghost turn: Turn)
      requires ring.Quiescent() && 1 <= ring.capacity && span.Len() > 0
      modifies ring, disk`content, mem
      ensures LoneHappened(ring, old(WorldOf(disk, mem)), span, turn, r, WorldOf(disk, mem))
      ensures ring.log == old(ring.log) + OneShot(span, r)
    {
      hide LoneHappened, OneAnswered;
      turn := FailedWait(0);
      var pushed := ring.Push(Entry(0, span));
      if !pushed {
        r := Err(SqFull);
        return;
      }
      r, turn := AwaitOne(ring, mem, span);
    }

    /** Waits for the answer to the lone entry that a ring holds, and takes it. */
    method AwaitOne(ring: Ring, mem: Memory, span: Transfer) returns (r: Result<nat>, ghost turn: Turn)
      requires ring.sq == [Entry(0, span)] && ring.live == [] && ring.cq == []
      requires 1 <= ring.capacity && span.Len() > 0
      modifies ring, disk`content, mem
      ensures LoneHappened(ring, old(WorldOf(disk, mem)), span, turn, r, WorldOf(disk, mem))
      ensures ring.log == old(ring.log) + OneAnswered(span, r)
    {
      hide Lawful, Run, EntriesOf, LoneCall, MayAnswerLone, OneAnswered, LoneResult;
      var waited, delivered := ring.SubmitAndWait(disk, mem);
      turn := Turn(if waited.Err? then Some(waited.error) else None, delivered);
      LoneTurn(old(WorldOf(disk, mem)), span, ring.Held(), turn);
      LoneEvents(old(WorldOf(disk, mem)), span, turn);
      r := TakeOldest(ring, waited);
    }

    /** What a wait and the oldest answer come to. */
    static method TakeOldest(ring: Ring, waited: Result<()>) returns (r: Result<nat>)
      modifies ring`cq, ring`log
      ensures waited.Err? ==> r == Err(waited.error) && ring.cq == old(ring.cq) && ring.log == old(ring.log)
      ensures waited.Ok? && old(ring.cq) == [] ==>
                r == Err(NoCqe) && ring.cq == old(ring.cq) && ring.log == old(ring.log)
      ensures waited.Ok? && old(ring.cq) != [] ==>
                && r == LoneResult(old(ring.cq)[0])
                && ring.cq == old(ring.cq)[1..]
                && ring.log == old(ring.log) + [Reaped(old(ring.cq)[0])]
    {
      if waited.Err? {
        return Err(waited.error);
      }
      var c := ring.NextCompletion();
      if c.None? {
        r := Err(NoCqe);
      } else if c.value.result < 0 {
        r := Err(Os(-c.value.result));
      } else {
        r := Ok(c.value.result);
      }
    }

    /** A cursor read into the front of buffer `buf`. Only success moves the cursor. */
    method Read(cache: RingCache, mem: Memory, buf: nat) returns (r: Result<nat>)
      requires Valid() && cache.Quiescent() && buf < |mem.bufs| && position.at <= U64_MAX
      modifies cache, cache.ring, disk`content, mem, position
      ensures disk.content == old(disk.content) && position.at <= U64_MAX
      ensures |mem.bufs| == |old(mem.bufs)| && |mem.bufs[buf]| == |old(mem.bufs)[buf]|
      ensures r.Ok? ==>
                && r.value <= |mem.bufs[buf]|
                && Initialised(mem.bufs[buf][..r.value])
                && mem.bufs[buf][r.value..] == old(mem.bufs)[buf][r.value..]
                && ReadStep(disk.content, old(position.at), position.at, Frozen(mem.bufs[buf][..r.value]))
      ensures forall b :: 0 <= b < |mem.bufs| && b != buf ==> mem.bufs[b] == old(mem.bufs)[b]
      ensures r.Err? ==> position.at == old(position.at) && r.error != PositionOverflow
      ensures r.Err? ==> r.error.Os? || r.error.RingInit? || r.error.Submit? || r.error.NoCqe?
      ensures cache.Quiescent() <==> r.Ok? || r.error.Os? || r.error.RingInit?
      ensures cache.ring == old(cache.ring) || fresh(cache.ring)
      ensures r.Err? && (r.error.Os? || r.error.RingInit?) ==> mem.bufs == old(mem.bufs)
      ensures r.Err? && r.error.Os? ==> r.error.code > 0
      ensures |mem.bufs[buf]| == 0 ==> r == Ok(0) && mem.bufs == old(mem.bufs) && cache.requests == old(cache.requests)
      ensures |mem.bufs[buf]| > 0 ==>
                && cache.requests == old(cache.requests) + [Request(ringDepth, !Refused(r))]
                && var span := ReadInto(old(position.at), buf, 0, Min(|mem.bufs[buf]|, 0xFFFF_FFFF));
                  !Refused(r) ==> cache.ring != null && AnsweredBy(cache.ring.log, span, r)
      ensures Refused(r) ==> NoRing(cache, old(cache.ring), old(cache.Capacity()))
    {
      hide LoneHappened, AnsweredBy, Frozen, Initialised, Perform, Piece, ReadStep, Legal;
      ghost var before := WorldOf(disk, mem);
      if |mem.bufs[buf]| == 0 {
        EmptyTransferDoesNothing(before, Piece(ReadInto(position.at, buf, 0, 0), 0, 0));
        FrontFilled(before, before, position.at, buf, 0, 0);
        return Ok(0);
      }
      var len := Min(|mem.bufs[buf]|, MAX_IO_LEN);
      ghost var moved, turn;
      r, moved, turn := SubmitOne(cache, mem, ReadInto(position.at, buf, 0, len));
      LegalRead(before, position.at, buf, len, moved);
      FrontFilled(before, WorldOf(disk, mem), position.at, buf, len, moved);
      if r.Err? {
        assert moved == 0 ==> mem.bufs == old(mem.bufs);
        return;
      }
      if position.at + r.value > U64_MAX {
        return Err(PositionOverflow);
      }
      position.at := position.at + r.value;
    }

    /** A cursor write of the front of `data`. Only success moves the cursor. */
    method Write(cache: RingCache, mem: Memory, data: seq<Byte>) returns (r: Result<nat>, ghost moved: nat)
      requires Valid() && cache.Quiescent() && position.at <= U64_MAX
      modifies cache, cache.ring, disk`content, mem, position
      ensures mem.bufs == old(mem.bufs) && position.at <= U64_MAX
      ensures moved <= |data| && disk.content == Splice(old(disk.content), old(position.at), data[..moved], 0)
      ensures r.Ok? ==> moved == r.value && (|data| > 0 ==> moved > 0)
      ensures r.Ok? ==> WriteStep(old(disk.content), disk.content, old(position.at), position.at, data[..r.value])
      ensures r.Err? ==> position.at == old(position.at) && r.error != PositionOverflow
      ensures r.Err? ==> r.error.Os? || r.error.RingInit? || r.error.WriteZero? || r.error.Submit? || r.error.NoCqe?
      ensures cache.Quiescent() <==> r.Ok? || r.error.Os? || r.error.RingInit? || r.error.WriteZero?
      ensures r.Err? && cache.Quiescent() ==> moved == 0
      ensures cache.ring == old(cache.ring) || fresh(cache.ring)
      ensures r.Err? && r.error.Os? ==> r.error.code > 0
      ensures |data| == 0 ==> r == Ok(0) && cache.requests == old(cache.requests)
      ensures |data| > 0 ==>
                && cache.requests == old(cache.requests) + [Request(ringDepth, !Refused(r))]
                && var span := WriteFrom(old(position.at), data[..Min(|data|, 0xFFFF_FFFF)]);
                  !Refused(r) ==>
                    && cache.ring != null
                    && AnsweredBy(cache.ring.log, span, if r == Err(WriteZero) then Ok(0) else r)
                    && r != Ok(0)
      ensures Refused(r) ==> NoRing(cache, old(cache.ring), old(cache.Capacity()))
    {
      moved := 0;
      if |data| == 0 {
        r := Ok(0);
        return;
      }
      hide LoneHappened, AnsweredBy, Perform, Piece, Legal, Splice;
      var len := Min(|data|, MAX_IO_LEN);
      ghost var before := WorldOf(disk, mem);
      ghost var turn;
      r, moved, turn := SubmitOne(cache, mem, WriteFrom(position.at, data[..len]));
      FrontWritten(before, position.at, data, len, moved);
      if r.Err? {
        return;
      }
      if r.value == 0 && |data| > 0 {
        r := Err(WriteZero);
        return;
      }
      if position.at + r.value > U64_MAX {
        r := Err(PositionOverflow);
        return;
      }
      position.at := position.at + r.value;
    }

    /** Moves the cursor to the exact integer target if that is a 64-bit offset, and otherwise not at all. */
    method Seek(pos: SeekFrom) returns (r: Result<nat>)
      requires pos.Start? ==> pos.offset <= U64_MAX
      modifies position, disk`faults
      ensures r.Ok? ==> position.at == r.value <= U64_MAX
      ensures r.Err? ==> position.at == old(position.at)
      ensures pos.Start? ==> r == Ok(pos.offset)
      ensures pos.Current? ==>
                r == if 0 <= old(position.at) + pos.delta <= U64_MAX then Ok(old(position.at) + pos.delta)
                     else Err(NegativePosition)
      ensures pos.End? && !(r.Err? && r.error.Os?) ==>
                r == if 0 <= |disk.content| + pos.delta <= U64_MAX then Ok(|disk.content| + pos.delta)
                     else Err(NegativePosition)
      ensures disk.faults == old(disk.faults) + if r.Err? && r.error.Os? then [r.error] else []
    {
      var base: int;
      match pos {
        case Start(offset) =>
          position.at := offset;
          return Ok(offset);
        case Current(_) =>
          base := position.at;
        case End(_) =>
          var known: bool := *;
          if !known {
            var code: int := *;
            disk.faults := disk.faults + [Os(code)];
            return Err(Os(code));
          }
          base := |disk.content|;
      }
      var next := base + pos.delta;
      if !(0 <= next <= U64_MAX) {
        return Err(NegativePosition);
      }
      position.at := next;
      r := Ok(next);
    }
  }

  /** A write of the front of some data. */
  lemma FrontWritten(w: World, offset: nat, data: seq<Byte>, len: nat, n: nat)
    requires n <= len <= |data|
    requires n > 0 ==> Legal(w, Cqe(Entry(0, WriteFrom(offset, data[..len])), n))
    ensures Perform(w, Piece(WriteFrom(offset, data[..len]), 0, n))
         == World(Splice(w.file, offset, data[..n], 0), w.bufs)
    ensures n > 0 ==> offset + n <= U64_MAX
  {
    assert data[..len][0..n] == data[..n];
  }

  lemma LegalRead(w: World, offset: nat, buf: nat, len: nat, n: nat)
    requires n > 0 ==> Legal(w, Cqe(Entry(0, ReadInto(offset, buf, 0, len)), n))
    ensures n > 0 ==> n <= len && offset + n <= U64_MAX && offset + n <= |w.file|
  {
  }

  /** A read into the front of a buffer, from inside the file, fills that much of it and changes nothing else. */
  lemma FrontFilled(w: World, w': World, offset: nat, buf: nat, len: nat, n: nat)
    requires buf < |w.bufs| && n <= len <= |w.bufs[buf]| && (n > 0 ==> offset + n <= |w.file|)
    requires w' == Perform(w, Piece(ReadInto(offset, buf, 0, len), 0, n))
    ensures w'.file == w.file && |w'.bufs| == |w.bufs|
    ensures forall b :: 0 <= b < |w.bufs| && b != buf ==> w'.bufs[b] == w.bufs[b]
    ensures |w'.bufs[buf]| == |w.bufs[buf]| && w'.bufs[buf][n..] == w.bufs[buf][n..]
    ensures Initialised(w'.bufs[buf][..n])
    ensures ReadStep(w.file, offset, offset + n, Frozen(w'.bufs[buf][..n]))
  {
    var before, after := w.bufs[buf], w'.bufs[buf];
    assert after == Splice(before, 0, Fetch(w.file, offset, n), Uninit);
    if n > 0 {
      assert after[..n] == Fetch(w.file, offset, n);
      assert Frozen(after[..n]) == w.file[offset..offset + n];
    }
  }
}
