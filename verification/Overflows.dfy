/**
 * Transfers that run past the last 64-bit offset. The loop gives up on such an offset
 * without draining: this module says when it does, and that it then leaves entries behind.
 */
module Overflows {
  import opened Common
  import opened Splicing
  import opened Transfers
  import opened Scheduler
  import opened Schedules
  import opened Chunks

  // ---------------------------------------------------------------------------
  // Jobs that follow each other
  // ---------------------------------------------------------------------------

  /** Job `i` is not empty, and the next one starts where it ends. */
  ghost predicate Linked(jobs: seq<Transfer>, i: nat) {
    && i < |jobs|
    && jobs[i].Len() > 0
    && (i + 1 < |jobs| ==> jobs[i].offset + jobs[i].Len() == jobs[i + 1].offset)
  }

  /** Consecutive pieces of one transfer that starts at a 64-bit offset. */
  ghost predicate Consecutive(jobs: seq<Transfer>) {
    && |jobs| > 0
    && jobs[0].offset <= U64_MAX
    && forall i :: 0 <= i < |jobs| ==> Linked(jobs, i)
  }

  lemma {:induction false} OffsetsGrow(jobs: seq<Transfer>, i: nat, j: nat)
    requires Consecutive(jobs) && i < j < |jobs|
    ensures jobs[i].offset + jobs[i].Len() <= jobs[j].offset
  {
    assert Linked(jobs, j - 1);
    if i + 1 < j {
      OffsetsGrow(jobs, i, j - 1);
    }
  }

  /** Job `m` is the first to start past the last 64-bit offset. */
  ghost predicate FirstPastTheEnd(jobs: seq<Transfer>, m: nat) {
    m < |jobs| && jobs[m].offset > U64_MAX && forall i :: 0 <= i < m ==> jobs[i].offset <= U64_MAX
  }

  /**
   * The first pass of a call over nonempty jobs gives up on an offset exactly when a job
   * among the first `depth` starts past the last offset; the entries of all the jobs
   * before it are then left in the ring, whatever the kernel would have done.
   */
  lemma {:induction false} FirstPassStrands(p: Plan, s: Sched, idx: nat)
    requires idx <= |p.jobs| && forall i :: 0 <= i < |p.jobs| ==> p.jobs[i].Len() > 0
    requires s.done == seq(|p.jobs|, _ => 0) && |s.state| == |p.jobs| && s.pending.None? && s.inFlight == idx
    requires forall i :: idx <= i < |p.jobs| ==> s.state[i].Idle?
    requires forall i :: 0 <= i < idx ==> p.jobs[i].offset <= U64_MAX
    ensures Pass(p, s, idx).overflow <==> exists m :: 0 <= m < p.depth && FirstPastTheEnd(p.jobs, m)
    ensures forall m :: 0 <= m < p.depth && FirstPastTheEnd(p.jobs, m) ==> |Pass(p, s, idx).pushed| == m - idx
    decreases |p.jobs| - idx
  {
    if idx < |p.jobs| && idx < p.depth {
      if p.jobs[idx].offset > U64_MAX {
        assert FirstPastTheEnd(p.jobs, idx);
      } else {
        FirstPassStrands(p, AfterSubmit(s, idx), idx + 1);
      }
    }
  }

  // ---------------------------------------------------------------------------
  // The overflow exit strands entries
  // ---------------------------------------------------------------------------

  /** A run of the call that ends in an overflow. */
  ghost predicate Overruns(p: Plan, turns: seq<Turn>) {
    && Schedule(p, turns)
    && Sized(p, Reached(p, turns).sched)
    && Pass(p, Reached(p, turns).sched, 0).overflow
  }

  /** A run that leaves entries in the ring when the call returns. */
  ghost predicate Strands(p: Plan, turns: seq<Turn>) {
    Ends(p, turns) && Submitted(p, Reached(p, turns)).held != multiset{}
  }

  /** All of job `i` can be transferred: it ends within 64-bit offsets, and a read inside the file. */
  ghost predicate Completable(p: Plan, i: nat) {
    && i < |p.jobs|
    && p.jobs[i].offset + p.jobs[i].Len() <= U64_MAX
    && (p.jobs[i].ReadInto? ==> p.jobs[i].offset + p.jobs[i].Len() <= |p.start.file|)
  }

  /**
   * The kernel can bring the call to give up at job `m`, the first that starts past the
   * end: the ring holds more than one entry, and the jobs that do not fit into the ring
   * together with job `m` can be completed before it.
   */
  ghost predicate CanGiveUpAt(p: Plan, m: nat) {
    && FirstPastTheEnd(p.jobs, m)
    && p.depth > 1
    && (m >= p.depth ==> Completable(p, m - p.depth))
  }

  lemma CompletableBefore(p: Plan, i: nat, j: nat)
    requires Consecutive(p.jobs) && i <= j && Completable(p, j)
    requires AllReads(p.jobs) || AllWrites(p.jobs)
    ensures Completable(p, i)
  {
    if i < j {
      OffsetsGrow(p.jobs, i, j);
    }
  }

  lemma {:induction false} InFlightAtLeast(state: seq<SubmissionState>, lo: nat, hi: nat)
    requires lo <= hi <= |state|
    requires forall i :: lo <= i < hi ==> state[i].InFlight?
    ensures InFlightJobs(state) >= hi - lo
  {
    if |state| > 0 {
      var n := |state| - 1;
      if hi == |state| && lo < hi {
        InFlightAtLeast(state[..n], lo, n);
      } else if hi < |state| {
        InFlightAtLeast(state[..n], lo, hi);
      }
    }
  }

  lemma {:induction false} InFlightAtMost(state: seq<SubmissionState>, lo: nat, hi: nat)
    requires forall i :: 0 <= i < |state| && state[i].InFlight? ==> lo <= i < hi
    ensures InFlightJobs(state) <= if lo <= hi then hi - lo else 0
  {
    if |state| > 0 {
      var n := |state| - 1;
      InFlightAtMost(state[..n], lo, Min(hi, n));
    }
  }

  /** At the exit the job before the one given up on is in flight, and so are all that cannot be completed. */
  lemma InFlightAtTheExit(p: Plan, a: Point, m: nat)
    requires Consistent(p, a) && Consecutive(p.jobs) && StoppedAt(p, a.sched, m)
    requires forall i :: 0 <= i < m ==> !a.sched.state[i].Idle?
    ensures 0 < m && FirstPastTheEnd(p.jobs, m)
    ensures forall i :: 0 <= i < m && !Completable(p, i) ==> a.sched.state[i].InFlight?
    ensures !Completable(p, m - 1)
  {
    forall i | 0 <= i < m
      ensures p.jobs[i].offset <= U64_MAX && (!Completable(p, i) ==> a.sched.state[i].InFlight?)
    {
      assert Linked(p.jobs, i);
    }
    assert m > 0 ==> Linked(p.jobs, m - 1);
  }

  /** The jobs in flight at the exit fit into the ring, so those before them can be completed. */
  lemma ExitNeedsCompletion(p: Plan, a: Point, m: nat)
    requires Consistent(p, a) && Consecutive(p.jobs) && StoppedAt(p, a.sched, m)
    requires forall i :: 0 <= i < m ==> !a.sched.state[i].Idle?
    ensures 0 < m && CanGiveUpAt(p, m) && |a.held| > 0
  {
    hide Inv, Completable, Consecutive;
    InFlightAtTheExit(p, a, m);
    CountInFlight(p, a);
    InFlightAtLeast(a.sched.state, m - 1, m);
    if m >= p.depth && !Completable(p, m - p.depth) {
      forall i | m - p.depth <= i < m
        ensures !Completable(p, i)
      {
        if Completable(p, i) {
          JobsAreOfOneKind(p, a);
          CompletableBefore(p, m - p.depth, i);
        }
      }
      InFlightAtLeast(a.sched.state, m - p.depth, m);
    }
  }

  lemma CountInFlight(p: Plan, a: Point)
    requires Consistent(p, a)
    ensures a.sched.inFlight == InFlightJobs(a.sched.state) == |a.held| && |a.sched.state| == |p.jobs|
  {
    hide Expected;
    InFlightEntries(p, a.sched, a.held, [], a.log, a.world);
  }

  /**
   * Where a call over consecutive jobs gives up: at the first job that starts past the
   * end, with the job before it in flight. So the exit always strands entries, and cannot
   * be taken with a depth of one.
   */
  lemma OverflowStrands(p: Plan, turns: seq<Turn>) returns (m: nat)
    requires Sound(p) && Consecutive(p.jobs) && Overruns(p, turns)
    ensures 0 < m && CanGiveUpAt(p, m)
    ensures Strands(p, turns)
  {
    hide Pass, Inv, Consecutive, CanGiveUpAt, Consistent;
    EveryRunIsConsistent(p, turns);
    m := PassOverflows(p, Reached(p, turns).sched, 0);
    ExitNeedsCompletion(p, Submitted(p, Reached(p, turns)), m);
  }

  lemma JobsAreOfOneKind(p: Plan, a: Point)
    requires Consistent(p, a)
    ensures AllReads(p.jobs) || AllWrites(p.jobs)
  {
  }

  /** No other exit of the loop reports an offset overflow. */
  lemma OverflowIsTheOnlySuch(p: Plan, turns: seq<Turn>)
    requires Sound(p) && Ends(p, turns) && Outcome(Pass(p, Reached(p, turns).sched, 0)) == Err(OffsetOverflow)
    ensures Overruns(p, turns)
  {
    hide Pass, Inv;
    EveryRunIsConsistent(p, turns);
    ErrorIsRecordable(p, Reached(p, turns));
    PassShape(p, Reached(p, turns).sched, 0);
  }

  /** Whatever the jobs, only one that starts past the last offset makes the call give up. */
  lemma OverflowNeedsAnOffset(p: Plan, r: Report, held: multiset<Entry>, w: World)
    requires Sound(p) && Produces(p, r, held, w) && r.result == Err(OffsetOverflow)
    ensures exists i :: 0 <= i < |p.jobs| && p.jobs[i].offset > U64_MAX
  {
    hide Pass, Inv;
    OverflowIsTheOnlySuch(p, r.turns);
    var end := Submitted(p, Reached(p, r.turns));
    EveryRunIsConsistent(p, r.turns);
    var m := PassOverflows(p, Reached(p, r.turns).sched, 0);
    InvBounds(p, end.sched, end.held, [], end.log, end.world);
  }

  // ---------------------------------------------------------------------------
  // A run that gets there
  // ---------------------------------------------------------------------------

  /** The kernel answers what job `i` asked for in full. */
  ghost function FullAnswer(p: Plan, s: Sched, i: nat): Cqe
    requires Sized(p, s) && i < |p.jobs|
  {
    var entry := EntryFor(p.jobs, i, s.done[i]);
    Cqe(entry, entry.span.Len())
  }

  /** After a pass that did not give up, one of the jobs that must be completed first is in flight. */
  lemma EarlyJobInFlight(p: Plan, a: Point, m: nat) returns (i: nat)
    requires Consistent(p, a) && Sized(p, a.sched) && Consecutive(p.jobs) && CanGiveUpAt(p, m) && a.sched.pending.None?
    requires !Pass(p, a.sched, 0).overflow
    ensures i + p.depth <= m && i < |Pass(p, a.sched, 0).sched.state|
    ensures Pass(p, a.sched, 0).sched.state[i].InFlight?
  {
    hide Pass, Lawful, Run, Expected;
    var end := Submitted(p, a);
    PassKeepsInv(p, a, 0);
    PassShape(p, a.sched, 0);
    if early :| 0 <= early && early + p.depth <= m && end.sched.state[early].InFlight? {
      i := early;
    } else {
      InFlightEntries(p, end.sched, end.held, [], end.log, end.world);
      forall k | 0 <= k < |p.jobs| && end.sched.state[k].InFlight?
        ensures m - p.depth < k < m
      {
        if m <= k {
          PastTheEndStaysIdle(p, end.sched, end.held, end.log, end.world, m, k);
        }
      }
      InFlightAtMost(end.sched.state, if m < p.depth then 0 else m - p.depth + 1, m);
      PastTheEndStaysIdle(p, end.sched, end.held, end.log, end.world, m, m);
      assert false;
    }
  }

  lemma PastTheEndStaysIdle(p: Plan, s: Sched, held: multiset<Entry>, log: seq<Event>, w: World, m: nat, k: nat)
    requires Inv(p, s, held, [], log, w) && Consecutive(p.jobs) && FirstPastTheEnd(p.jobs, m) && m <= k < |p.jobs|
    ensures s.state[k].Idle?
  {
    if m < k {
      OffsetsGrow(p.jobs, m, k);
    }
    assert Linked(p.jobs, k);
  }

  /** The kernel may answer a completable job in full, alone. */
  lemma FullAnswerIsAllowed(p: Plan, a: Point, i: nat)
    requires Consistent(p, a) && Sized(p, a.sched) && Completable(p, i) && a.sched.state[i].InFlight?
    ensures MayAnswer(p, a, Turn(None, [FullAnswer(p, a.sched, i)]))
    ensures Answers(p, a.sched, FullAnswer(p, a.sched, i)) && FullAnswer(p, a.sched, i).result > 0
  {
    var c := FullAnswer(p, a.sched, i);
    ExpectedEntry(p.jobs, a.sched.done, a.sched.state, |p.jobs|, c.entry);
    assert EntriesOf([c]) == [c.entry];
    assert EntriesOf([]) == [];
    ProgressFrame(p.start, p.jobs, a.sched.done, |p.jobs|);
    assert Lawful(Effect(a.world, c), []);
    assert a.held[c.entry] == 1;
  }

  /** From any error-free point of a run, answering early jobs in full leads to the overflow exit. */
  lemma {:induction false} ReachOverflow(p: Plan, turns: seq<Turn>, m: nat) returns (more: seq<Turn>)
    requires Sound(p) && Consecutive(p.jobs) && CanGiveUpAt(p, m)
    requires Schedule(p, turns) && Reached(p, turns).sched.pending.None?
    ensures Overruns(p, more)
    decreases Total(p.jobs) - Sum(Reached(p, turns).sched.done)
  {
    hide Pass, Inv, Lawful, Run;
    var a := Reached(p, turns);
    EveryRunIsConsistent(p, turns);
    if Pass(p, a.sched, 0).overflow {
      more := turns;
    } else {
      var end := Submitted(p, a);
      var i := EarlyJobInFlight(p, a, m);
      PassShape(p, a.sched, 0);
      CompletableBefore(p, i, m - p.depth);
      FullAnswerIsAllowed(p, end, i);
      var c := FullAnswer(p, end.sched, i);
      var turn := Turn(None, [c]);
      ReapAdds(p, end.sched, c);
      OneMoreTurn(p, turns, turn);
      TurnOfOneAnswer(p, end, None, c);
      InvBounds(p, end.sched, end.held, [], end.log, end.world);
      EveryRunIsConsistent(p, turns + [turn]);
      var b := Reached(p, turns + [turn]);
      InvBounds(p, b.sched, b.held, [], b.log, b.world);
      more := ReachOverflow(p, turns + [turn], m);
    }
  }

  /** Only the overflow exit leaves entries in the ring. */
  lemma EndedByOverflow(p: Plan, turns: seq<Turn>)
    requires Sound(p) && Strands(p, turns)
    ensures Overruns(p, turns)
  {
    hide Pass, Inv;
    EveryRunIsConsistent(p, turns);
    var end := Submitted(p, Reached(p, turns));
    InvBounds(p, end.sched, end.held, [], end.log, end.world);
  }

  /** Some turns of the kernel make the call leave entries in the ring exactly when it can be brought to give up. */
  lemma StrandsExactly(p: Plan)
    requires Sound(p) && Consecutive(p.jobs) && p.depth >= 1
    ensures (exists turns :: Strands(p, turns)) <==> (exists m :: CanGiveUpAt(p, m))
  {
    hide Pass, Inv;
    if turns :| Strands(p, turns) {
      EndedByOverflow(p, turns);
      var m := OverflowStrands(p, turns);
    }
    if m :| CanGiveUpAt(p, m) {
      var turns := ReachOverflow(p, [], m);
      var _ := OverflowStrands(p, turns);
    }
  }

  // ---------------------------------------------------------------------------
  // A run that does not
  // ---------------------------------------------------------------------------

  function Refusals(entries: seq<Entry>): seq<Cqe> {
    seq(|entries|, i requires 0 <= i < |entries| => Cqe(entries[i], -1))
  }

  lemma {:induction false} RefusalsAreLawful(w: World, entries: seq<Entry>)
    ensures Lawful(w, Refusals(entries)) && EntriesOf(Refusals(entries)) == entries
  {
    if |entries| > 0 {
      RefusalsAreLawful(w, entries[1..]);
      assert Refusals(entries)[1..] == Refusals(entries[1..]);
    }
  }

  lemma {:induction false} ErrorsStay(p: Plan, s: Sched, cqes: seq<Cqe>)
    requires |s.done| == |s.state| == |p.jobs| && ForJobs(p, cqes) && s.pending.Some?
    ensures ReapEach(p, s, cqes).pending == s.pending
    decreases |cqes|
  {
    if |cqes| > 0 {
      ErrorsStay(p, AfterReap(p, s, cqes[0]), cqes[1..]);
    }
  }

  /** The kernel may refuse everything it holds, in one turn; then it holds nothing. */
  lemma RefusingAllIsAllowed(p: Plan, a: Point, entries: seq<Entry>)
    requires Consistent(p, a) && Sized(p, a.sched) && a.held == multiset(entries) && |entries| > 0
    ensures MayAnswer(p, a, Turn(None, Refusals(entries)))
    ensures Settled(p, a, Turn(None, Refusals(entries))).held == multiset{}
    ensures Settled(p, a, Turn(None, Refusals(entries))).sched.pending.Some?
  {
    hide Lawful, Run;
    RefusalsAreLawful(a.world, entries);
    var cqes := Refusals(entries);
    AnswersAreForJobs(p, a.sched, multiset{}, cqes);
    ErrorsStay(p, AfterReap(p, a.sched, cqes[0]), cqes[1..]);
  }

  /** An error on record ends the call as soon as nothing is in flight. */
  lemma ErrorEnds(p: Plan, a: Point)
    requires Consistent(p, a) && Sized(p, a.sched) && a.held == multiset{} && a.sched.pending.Some?
    ensures Stops(p, a) && Submitted(p, a).held == multiset{}
  {
    assert Pass(p, a.sched, 0) == PassResult(a.sched, [], false);
  }

  /** If the first pass does not give up, a kernel that refuses every entry makes the call end with an idle ring. */
  lemma RefusingLeavesNothing(p: Plan) returns (turns: seq<Turn>)
    requires Sound(p) && Consecutive(p.jobs) && p.depth >= 1 && !Pass(p, Start(p).sched, 0).overflow
    ensures Ends(p, turns) && !Strands(p, turns)
  {
    hide Pass, Inv, MayAnswer, Settled, Linked;
    var end, pass := Submitted(p, Start(p)), Pass(p, Start(p).sched, 0);
    EveryRunIsConsistent(p, []);
    PassShape(p, Start(p).sched, 0);
    SomethingIsSubmitted(p, end);
    RefusingAllIsAllowed(p, end, pass.pushed);
    var turn := Turn(None, Refusals(pass.pushed));
    OneMoreTurn(p, [], turn);
    turns := [] + [turn];
    EveryRunIsConsistent(p, turns);
    ErrorEnds(p, Reached(p, turns));
  }

  /** The first pass of a call submits something unless it gives up. */
  lemma SomethingIsSubmitted(p: Plan, a: Point)
    requires Consistent(p, a) && Consecutive(p.jobs) && p.depth >= 1
    requires Sized(p, a.sched) && a.sched.done[0] == 0
    requires a.sched.inFlight < p.depth ==> forall i :: 0 <= i < |p.jobs| ==> !a.sched.state[i].Idle?
    ensures a.sched.inFlight == |a.held| > 0
  {
    hide Expected;
    assert Linked(p.jobs, 0);
    InFlightEntries(p, a.sched, a.held, [], a.log, a.world);
    if a.sched.state[0].InFlight? {
      InFlightAtLeast(a.sched.state, 0, 1);
    }
  }

  // ---------------------------------------------------------------------------
  // Chunked transfers
  // ---------------------------------------------------------------------------

  /** The first chunk that starts past the last 64-bit offset, if there are that many. */
  function FirstChunkPast(offset: nat, size: nat): nat
    requires size > 0
  {
    if offset > U64_MAX then 0 else (U64_MAX - offset) / size + 1
  }

  /** Some chunk of `whole` starts past the last 64-bit offset. */
  predicate RunsPastTheEnd(whole: Transfer, size: nat) {
    size > 0 && FirstChunkPast(whole.offset, size) < ChunkCount(whole.Len(), size)
  }

  /**
   * Some kernel can make the chunked transfer leave entries in the ring: a chunk starts past
   * the end, the ring holds two entries, and a read finds inside the file the chunks that
   * have to be complete before that chunk gets its turn.
   */
  predicate MayStrand(depth: nat, whole: Transfer, size: nat, fileLen: nat) {
    && depth > 1
    && whole.offset <= U64_MAX
    && RunsPastTheEnd(whole, size)
    && var m := FirstChunkPast(whole.offset, size);
      whole.WriteFrom? || m < depth || whole.offset + (m - depth + 1) * size <= fileLen
  }

  /** Every kernel does: a chunk that the ring has room for at once starts past the end. */
  predicate MustStrand(depth: nat, whole: Transfer, size: nat) {
    && whole.offset <= U64_MAX
    && RunsPastTheEnd(whole, size)
    && FirstChunkPast(whole.offset, size) < depth
  }

  /**
   * The transfer may leave entries in the ring: with `m` the first chunk of `limit` bytes that
   * starts past the last 64-bit offset, there is a chunk `m`; the ring has room for two
   * entries; and a read finds inside the file the chunks which have to be complete before
   * chunk `m` gets its turn.
   */
  ghost predicate SometimesStrands(depth: nat, whole: Transfer, limit: nat, fileLen: nat) {
    && limit > 0 && whole.offset <= U64_MAX && depth > 1
    && var m := (U64_MAX - whole.offset) / limit + 1;
      && m * limit < whole.Len()
      && (whole.WriteFrom? || m < depth || whole.offset + (m - depth + 1) * limit <= fileLen)
  }

  /** It must: the ring has room for chunk `m` at once. */
  ghost predicate AlwaysStrands(depth: nat, whole: Transfer, limit: nat) {
    && limit > 0 && whole.offset <= U64_MAX
    && var m := (U64_MAX - whole.offset) / limit + 1;
      m < depth && m * limit < whole.Len()
  }

  /** The chunk size in use and the file's own lead to the same first chunk past the end, if there is one. */
  lemma SameChunkPast(offset: nat, total: nat, limit: nat)
    requires total > 0 && limit > 0 && offset <= U64_MAX
    ensures var m, size := (U64_MAX - offset) / limit + 1, ChunkSize(total, limit);
            && (FirstChunkPast(offset, size) < ChunkCount(total, size) <==> m * limit < total)
            && (m * limit < total ==> size == limit)
  {
    var m, size := (U64_MAX - offset) / limit + 1, ChunkSize(total, limit);
    var n := ChunkCount(total, size);
    ChunksByLimit(total, limit);
    Scales(1, m, limit);
    if limit > total {
      assert n == 1;
      assert FirstChunkPast(offset, size) >= 1;
    } else if m < n {
      Scales(m, n - 1, limit);
    } else {
      Scales(n, m, limit);
    }
  }

  lemma StrandConditions(depth: nat, whole: Transfer, limit: nat, fileLen: nat)
    requires whole.Len() > 0 && limit > 0
    ensures MayStrand(depth, whole, ChunkSize(whole.Len(), limit), fileLen)
       <==> SometimesStrands(depth, whole, limit, fileLen)
    ensures MustStrand(depth, whole, ChunkSize(whole.Len(), limit)) <==> AlwaysStrands(depth, whole, limit)
  {
    hide ChunkCount, ChunkSize;
    if whole.offset <= U64_MAX {
      ChunkSizeFits(whole.Len(), limit);
      SameChunkPast(whole.offset, whole.Len(), limit);
    }
  }

  lemma NothingStrands(depth: nat, whole: Transfer, limit: nat)
    requires whole.Len() == 0
    ensures !AlwaysStrands(depth, whole, limit)
  {
  }

  lemma PastFrom(offset: nat, size: nat, i: nat)
    requires size > 0
    ensures offset + i * size > U64_MAX <==> i >= FirstChunkPast(offset, size)
  {
    if offset <= U64_MAX {
      var q := (U64_MAX - offset) / size;
      assert U64_MAX - offset == q * size + (U64_MAX - offset) % size;
      assert (q + 1) * size == q * size + size;
      if i <= q {
        Scales(i, q, size);
      } else {
        Scales(q + 1, i, size);
      }
    }
  }

  lemma ChunkOffsets(whole: Transfer, size: nat)
    requires 0 < size <= whole.Len() <= ISIZE_MAX
    ensures forall i :: 0 <= i < |Chunked(whole, size)| ==>
              Chunked(whole, size)[i].offset == whole.offset + i * size && Chunked(whole, size)[i].Len() > 0
    ensures |Chunked(whole, size)| > 0
  {
    ChunkCountBounds(whole.Len(), size);
    forall i | 0 <= i < |Chunked(whole, size)|
      ensures Chunked(whole, size)[i].offset == whole.offset + i * size && Chunked(whole, size)[i].Len() > 0
    {
      ChunksPartition(whole.Len(), size, i);
    }
  }

  lemma ChunksAreConsecutive(whole: Transfer, size: nat)
    requires 0 < size <= whole.Len() <= ISIZE_MAX && whole.offset <= U64_MAX
    ensures Consecutive(Chunked(whole, size))
  {
    var jobs := Chunked(whole, size);
    ChunkOffsets(whole, size);
    forall i | 0 <= i < |jobs|
      ensures Linked(jobs, i)
    {
      ChunksPartition(whole.Len(), size, i);
    }
  }

  lemma FirstChunkPastIsFirst(whole: Transfer, size: nat, m: nat)
    requires 0 < size <= whole.Len() <= ISIZE_MAX
    ensures FirstPastTheEnd(Chunked(whole, size), m) <==>
              m == FirstChunkPast(whole.offset, size) && RunsPastTheEnd(whole, size)
  {
    var jobs := Chunked(whole, size);
    ChunkOffsets(whole, size);
    forall i | 0 <= i < |jobs|
      ensures jobs[i].offset > U64_MAX <==> i >= FirstChunkPast(whole.offset, size)
    {
      PastFrom(whole.offset, size, i);
    }
    if m < |jobs| && m > FirstChunkPast(whole.offset, size) {
      assert jobs[FirstChunkPast(whole.offset, size)].offset > U64_MAX;
    }
  }

  /** Before the first chunk past the end but one, a chunk can be written, and read if it lies inside the file. */
  lemma ChunkIsCompletable(p: Plan, whole: Transfer, size: nat, m: nat, i: nat)
    requires 0 < size <= whole.Len() <= ISIZE_MAX && whole.offset <= U64_MAX
    requires p.jobs == Chunked(whole, size) && FirstPastTheEnd(p.jobs, m) && i + 1 < m
    ensures Completable(p, i) <==> whole.WriteFrom? || whole.offset + (i + 1) * size <= |p.start.file|
  {
    ChunksAreConsecutive(whole, size);
    ChunkOffsets(whole, size);
    assert Linked(p.jobs, i);
    assert p.jobs[i].WriteFrom? == whole.WriteFrom?;
  }

  lemma ChunksCanGiveUp(p: Plan, whole: Transfer, size: nat)
    requires 0 < size <= whole.Len() <= ISIZE_MAX && whole.offset <= U64_MAX
    requires p.jobs == Chunked(whole, size)
    ensures (exists m :: CanGiveUpAt(p, m)) <==> MayStrand(p.depth, whole, size, |p.start.file|)
  {
    hide Chunked, FirstPastTheEnd, Completable;
    var m := FirstChunkPast(whole.offset, size);
    FirstChunkPastIsFirst(whole, size, m);
    if RunsPastTheEnd(whole, size) && 1 < p.depth <= m {
      ChunkIsCompletable(p, whole, size, m, m - p.depth);
    }
    assert CanGiveUpAt(p, m) <==> MayStrand(p.depth, whole, size, |p.start.file|);
    if k :| CanGiveUpAt(p, k) {
      FirstChunkPastIsFirst(whole, size, k);
    }
  }

  lemma FirstPassOfChunks(p: Plan, whole: Transfer, size: nat)
    requires 0 < size <= whole.Len() <= ISIZE_MAX && whole.offset <= U64_MAX
    requires p.jobs == Chunked(whole, size)
    ensures Pass(p, Start(p).sched, 0).overflow <==> MustStrand(p.depth, whole, size)
  {
    hide Chunked, FirstPastTheEnd, Pass;
    var m := FirstChunkPast(whole.offset, size);
    ChunkOffsets(whole, size);
    FirstPassStrands(p, Start(p).sched, 0);
    FirstChunkPastIsFirst(whole, size, m);
    if k :| 0 <= k < p.depth && FirstPastTheEnd(p.jobs, k) {
      FirstChunkPastIsFirst(whole, size, k);
    }
  }

  /**
   * Exactly when a chunked transfer may leave entries in the ring, over everything the
   * kernel may do, and exactly when it must.
   */
  lemma ChunkedTransferStrandsExactly(p: Plan, whole: Transfer, size: nat)
    requires 0 < size <= whole.Len() <= ISIZE_MAX && whole.offset <= U64_MAX && p.depth >= 1
    requires p.jobs == Chunked(whole, size)
    ensures (exists turns :: Strands(p, turns)) <==> MayStrand(p.depth, whole, size, |p.start.file|)
    ensures (forall turns :: Ends(p, turns) ==> Strands(p, turns)) <==> MustStrand(p.depth, whole, size)
  {
    hide MayStrand, MustStrand, CanGiveUpAt, Strands, Ends, Pass;
    ChunkedIsSound(p, whole, size);
    ChunksAreConsecutive(whole, size);
    ChunksCanGiveUp(p, whole, size);
    StrandsExactly(p);
    FirstPassOfChunks(p, whole, size);
    StrandsAlways(p);
  }

  lemma {:induction false} FirstPassDecides(p: Plan, turns: seq<Turn>)
    requires Stops(p, Start(p)) && Schedule(p, turns)
    ensures turns == []
    decreases |turns|
  {
    if |turns| > 0 {
      FirstPassDecides(p, turns[..|turns| - 1]);
    }
  }

  /** The call leaves entries behind under every kernel exactly when its first pass gives up. */
  lemma StrandsAlways(p: Plan)
    requires Sound(p) && Consecutive(p.jobs) && p.depth >= 1
    ensures (forall turns :: Ends(p, turns) ==> Strands(p, turns)) <==> Pass(p, Start(p).sched, 0).overflow
  {
    hide Pass;
    if Pass(p, Start(p).sched, 0).overflow {
      forall turns | Ends(p, turns)
        ensures Strands(p, turns)
      {
        FirstPassDecides(p, turns);
        var _ := OverflowStrands(p, turns);
      }
    } else {
      var turns := RefusingLeavesNothing(p);
    }
  }

  // ---------------------------------------------------------------------------
  // Kernels with signed offsets
  // ---------------------------------------------------------------------------

  /** The kernel moves no byte past the last signed 64-bit offset. */
  ghost predicate SignedOffsets(turns: seq<Turn>) {
    forall t :: 0 <= t < |turns| ==> SignedAnswers(turns[t].answers)
  }

  ghost predicate SignedAnswers(cqes: seq<Cqe>) {
    forall k :: 0 <= k < |cqes| && cqes[k].result > 0 ==> cqes[k].entry.span.offset + cqes[k].result <= I64_MAX
  }

  /** Every answer is a refusal if every job starts past the last signed offset. */
  lemma NothingMoves(p: Plan, a: Point, turn: Turn, k: nat)
    requires Consistent(p, a) && MayAnswer(p, a, turn) && SignedAnswers(turn.answers) && k < |turn.answers|
    requires forall i :: 0 <= i < |p.jobs| ==> p.jobs[i].offset >= I64_MAX
    ensures turn.answers[k].result <= 0
  {
    var e := turn.answers[k].entry;
    assert EntriesOf(turn.answers)[k] in multiset(EntriesOf(turn.answers));
    ExpectedEntry(p.jobs, a.sched.done, a.sched.state, |p.jobs|, e);
  }

  /** A second pass right after a first one that did not give up does not give up either. */
  lemma PassAgain(p: Plan, s: Sched)
    requires Sized(p, s) && !Pass(p, s, 0).overflow
    ensures Sized(p, Pass(p, s, 0).sched) && !Pass(p, Pass(p, s, 0).sched, 0).overflow
  {
    hide Pass;
    var next := Pass(p, s, 0).sched;
    PassShape(p, s, 0);
    PassShape(p, next, 0);
    if Pass(p, next, 0).overflow {
      var m := PassOverflows(p, next, 0);
      PassStops(p, next, 0);
    }
  }

  /** A refusal puts an error on record, which stays. */
  lemma RefusalIsRecorded(p: Plan, a: Point, turn: Turn)
    requires MayAnswer(p, a, turn) && |turn.answers| > 0 && turn.answers[0].result <= 0
    ensures Settled(p, a, turn).sched.pending.Some?
  {
    hide Lawful, Run;
    ErrorsStay(p, AfterReap(p, Waited(a.sched, turn.failure), turn.answers[0]), turn.answers[1..]);
  }

  lemma FailureIsRecorded(p: Plan, a: Point, turn: Turn)
    requires MayAnswer(p, a, turn) && |turn.answers| == 0
    ensures Settled(p, a, turn).sched == a.sched || Settled(p, a, turn).sched.pending.Some?
  {
  }

  /** After a turn of such a kernel the next pass does not give up. */
  lemma RefusedTurn(p: Plan, a: Point, turn: Turn)
    requires Sound(p) && Consistent(p, a) && Allowed(p, a, turn) && SignedAnswers(turn.answers)
    requires forall i :: 0 <= i < |p.jobs| ==> p.jobs[i].offset >= I64_MAX
    ensures Sized(p, Advance(p, a, turn).sched) && !Pass(p, Advance(p, a, turn).sched, 0).overflow
  {
    hide Pass, Inv, MayAnswer, Settled, SignedAnswers;
    var mid, b := Submitted(p, a), Advance(p, a, turn);
    PassKeepsInv(p, a, 0);
    TurnKeepsInv(p, mid, turn);
    InvBounds(p, b.sched, b.held, [], b.log, b.world);
    if |turn.answers| > 0 {
      NothingMoves(p, mid, turn, 0);
      RefusalIsRecorded(p, mid, turn);
    } else {
      FailureIsRecorded(p, mid, turn);
      PassAgain(p, a.sched);
    }
    PassShape(p, b.sched, 0);
  }

  /** Under such a kernel the call gives up in its first pass or not at all. */
  lemma SignedKernelGivesUpAtOnce(p: Plan, turns: seq<Turn>)
    requires Sound(p) && SignedOffsets(turns) && Overruns(p, turns)
    requires forall i :: 0 <= i < |p.jobs| ==> p.jobs[i].offset >= I64_MAX
    ensures turns == []
  {
    hide Pass, Inv, Sound, Allowed, Advance;
    if |turns| > 0 {
      var n := |turns| - 1;
      EveryRunIsConsistent(p, turns[..n]);
      RefusedTurn(p, Reached(p, turns[..n]), turns[n]);
    }
  }

  /** The chunks of a transfer that runs past the end start past the last signed offset. */
  lemma ChunksPastTheSignedOffsets(whole: Transfer, size: nat)
    requires 0 < size <= whole.Len() <= ISIZE_MAX && RunsPastTheEnd(whole, size)
    ensures forall i :: 0 <= i < |Chunked(whole, size)| ==> Chunked(whole, size)[i].offset >= I64_MAX
  {
    PastTheEndEndsPast(whole, size);
    ChunkOffsets(whole, size);
  }

  /**
   * A kernel whose offsets are signed, as Linux's are, strands the entries of a chunked
   * transfer only where every kernel does.
   */
  lemma SignedKernelsStrandExactly(p: Plan, whole: Transfer, size: nat)
    requires 0 < size <= whole.Len() <= ISIZE_MAX && whole.offset <= U64_MAX && p.depth >= 1
    requires p.jobs == Chunked(whole, size)
    ensures (exists turns :: SignedOffsets(turns) && Strands(p, turns)) <==> MustStrand(p.depth, whole, size)
  {
    hide Pass, MustStrand, Chunked, Sound, Consecutive, Strands, RunsPastTheEnd;
    ChunkedIsSound(p, whole, size);
    ChunksAreConsecutive(whole, size);
    FirstPassOfChunks(p, whole, size);
    if turns :| SignedOffsets(turns) && Strands(p, turns) {
      EndedByOverflow(p, turns);
      var m := OverflowStrands(p, turns);
      FirstChunkPastIsFirst(whole, size, m);
      ChunksPastTheSignedOffsets(whole, size);
      SignedKernelGivesUpAtOnce(p, turns);
    }
    if MustStrand(p.depth, whole, size) {
      var _ := OverflowStrands(p, []);
      assert SignedOffsets([]);
    }
  }

  /** What a finished chunked transfer says about the ring it leaves. */
  lemma ChunkedReport(p: Plan, whole: Transfer, size: nat, r: Report, held: multiset<Entry>, w: World)
    requires 0 < size <= whole.Len() <= ISIZE_MAX && p.depth >= 1
    requires p.jobs == Chunked(whole, size) && Produces(p, r, held, w)
    ensures held != multiset{} <==> r.result == Err(OffsetOverflow) && whole.offset <= U64_MAX
    ensures held != multiset{} ==> MayStrand(p.depth, whole, size, |p.start.file|)
    ensures MustStrand(p.depth, whole, size) ==> held != multiset{}
    ensures r.result == Err(OffsetOverflow) ==> RunsPastTheEnd(whole, size) && whole.offset + whole.Len() > U64_MAX + 1
  {
    hide Settles, Outcome, MayStrand, MustStrand, RunsPastTheEnd, Pass, Chunked, Sound;
    ChunkedIsSound(p, whole, size);
    EveryRunSettles(p, r, held, w);
    if whole.offset <= U64_MAX {
      ChunksAreConsecutive(whole, size);
      ChunkedTransferStrandsExactly(p, whole, size);
      if r.result == Err(OffsetOverflow) {
        OverflowIsTheOnlySuch(p, r.turns);
        var _ := OverflowStrands(p, r.turns);
      }
    } else {
      StartsPastTheEnd(p, whole, size, r.turns);
    }
    if r.result == Err(OffsetOverflow) {
      OverflowIsTheOnlySuch(p, r.turns);
      MayStrandRunsPast(p.depth, whole, size, |p.start.file|);
      PastTheEndEndsPast(whole, size);
    }
  }

  /** A transfer that itself starts past the end, which no caller can ask for, submits nothing. */
  lemma StartsPastTheEnd(p: Plan, whole: Transfer, size: nat, turns: seq<Turn>)
    requires 0 < size <= whole.Len() <= ISIZE_MAX && p.jobs == Chunked(whole, size)
    requires whole.offset > U64_MAX && p.depth >= 1 && Ends(p, turns)
    ensures Submitted(p, Reached(p, turns)).held == multiset{}
    ensures RunsPastTheEnd(whole, size) && !MustStrand(p.depth, whole, size)
  {
    hide Pass, Chunked;
    ChunkOffsets(whole, size);
    FirstJobPastTheEnd(p);
    FirstPassDecides(p, turns);
  }

  lemma FirstJobPastTheEnd(p: Plan)
    requires |p.jobs| > 0 && p.jobs[0].Len() > 0 && p.jobs[0].offset > U64_MAX && p.depth >= 1
    ensures Pass(p, Start(p).sched, 0) == PassResult(Start(p).sched, [], true)
  {
  }

  lemma MayStrandRunsPast(depth: nat, whole: Transfer, size: nat, fileLen: nat)
    ensures MayStrand(depth, whole, size, fileLen) ==> RunsPastTheEnd(whole, size)
  {
  }

  lemma PastTheEndEndsPast(whole: Transfer, size: nat)
    requires 0 < size <= whole.Len() <= ISIZE_MAX && RunsPastTheEnd(whole, size)
    ensures whole.offset + whole.Len() > U64_MAX + 1
  {
    var m := FirstChunkPast(whole.offset, size);
    ChunksPartition(whole.Len(), size, m);
    PastFrom(whole.offset, size, m);
  }

  // ---------------------------------------------------------------------------
  // What a stranded entry may still do
  // ---------------------------------------------------------------------------

  /** The entry asks for cells of the buffer that `whole` fills, and they are as they were before the call. */
  ghost predicate PointsIntoUnfilled(start: World, whole: Transfer, w: World, e: Entry) {
    && e.span.ReadInto? && whole.ReadInto?
    && e.span.buf == whole.buf < |start.bufs| == |w.bufs|
    && whole.pos <= e.span.pos < e.span.pos + e.span.len <= whole.pos + whole.len
    && forall q :: e.span.pos <= q < e.span.pos + e.span.len ==>
         q < |start.bufs[whole.buf]| && q < |w.bufs[whole.buf]| && w.bufs[whole.buf][q] == start.bufs[whole.buf][q]
  }

  /** Any answer that reports bytes writes them to those cells. */
  ghost predicate StillWrites(w: World, e: Entry) {
    forall n :: 0 < n && Legal(w, Cqe(e, n)) && e.span.ReadInto? ==>
      && e.span.buf < |w.bufs|
      && var after := Effect(w, Cqe(e, n)).bufs[e.span.buf];
        && e.span.pos + n <= |after|
        && after[e.span.pos..e.span.pos + n] == Fetch(w.file, e.span.offset, n)
  }

  /** An entry that is held asks for bytes past those counted, so for cells that no job has filled. */
  lemma HeldEntryIsUnfilled(p: Plan, a: Point, e: Entry, q: nat)
    requires Consistent(p, a) && AllReads(p.jobs) && e in a.held
    requires e.span.ReadInto? && e.span.pos <= q < e.span.pos + e.span.len
    requires e.span.buf < |p.start.bufs| && q < |p.start.bufs[e.span.buf]|
    ensures e.span.buf < |a.world.bufs| && q < |a.world.bufs[e.span.buf]|
    ensures a.world.bufs[e.span.buf][q] == p.start.bufs[e.span.buf][q]
  {
    hide Expected;
    InFlightEntries(p, a.sched, a.held, [], a.log, a.world);
    assert AsksForTheRest(p, a.sched, e) by {
      assert e in a.held + multiset(EntriesOf([]));
    }
    forall i | 0 <= i < |p.jobs|
      ensures !Fills(p.jobs, a.sched.done, i, e.span.buf, q)
    {
      if i < e.userData {
        assert Independent(p.jobs[i], p.jobs[e.userData]);
      } else if i > e.userData {
        assert Independent(p.jobs[e.userData], p.jobs[i]);
      }
    }
    UnfilledCell(p.start, p.jobs, a.sched.done, |p.jobs|, e.span.buf, q);
  }

  /** Where in its buffer a chunk of a read lies. */
  lemma ChunkIsInside(whole: Transfer, size: nat, i: nat)
    requires 0 < size <= whole.Len() <= ISIZE_MAX && i < |Chunked(whole, size)| && whole.ReadInto?
    ensures var job := Chunked(whole, size)[i];
            job.ReadInto? && job.buf == whole.buf && whole.pos <= job.pos && job.pos + job.len <= whole.pos + whole.len
  {
    ChunksPartition(whole.Len(), size, i);
  }

  lemma UntouchedLengths(p: Plan, a: Point)
    requires Consistent(p, a) && AllReads(p.jobs)
    ensures |a.world.bufs| == |p.start.bufs|
  {
    SameNumberOfBuffers(p.start, p.jobs, a.sched.done, |p.jobs|);
  }

  lemma HeldEntryIsInside(p: Plan, a: Point, whole: Transfer, size: nat, e: Entry)
    requires Consistent(p, a) && p.jobs == Chunked(whole, size) && e in a.held
    requires 0 < size <= whole.Len() <= ISIZE_MAX && whole.ReadInto?
    ensures e.span.ReadInto? && e.span.buf == whole.buf
    ensures whole.pos <= e.span.pos < e.span.pos + e.span.len <= whole.pos + whole.len
  {
    hide Expected, Chunked;
    InFlightEntries(p, a.sched, a.held, [], a.log, a.world);
    assert AsksForTheRest(p, a.sched, e) by {
      assert e in a.held + multiset(EntriesOf([]));
    }
    ChunkIsInside(whole, size, e.userData);
  }

  lemma AnswerFills(w: World, e: Entry)
    requires e.span.ReadInto? ==> e.span.buf < |w.bufs|
    ensures StillWrites(w, e)
  {
    hide Splice, Fetch;
    forall n | 0 < n && Legal(w, Cqe(e, n)) && e.span.ReadInto?
      ensures var after := Effect(w, Cqe(e, n)).bufs[e.span.buf];
              e.span.pos + n <= |after| && after[e.span.pos..e.span.pos + n] == Fetch(w.file, e.span.offset, n)
    {
      FetchLength(w.file, e.span.offset, n);
      SplicedRange(w.bufs[e.span.buf], e.span.pos, Fetch(w.file, e.span.offset, n), Uninit);
    }
  }

  lemma OneStrandedRead(p: Plan, a: Point, whole: Transfer, size: nat, e: Entry)
    requires Consistent(p, a) && p.jobs == Chunked(whole, size) && e in a.held
    requires 0 < size <= whole.Len() <= ISIZE_MAX && whole.ReadInto?
    requires whole.buf < |p.start.bufs| && whole.pos + whole.len <= |p.start.bufs[whole.buf]|
    ensures PointsIntoUnfilled(p.start, whole, a.world, e) && StillWrites(a.world, e)
  {
    hide Inv, Consistent, Chunked, StillWrites;
    ChunksReadInto(whole, size);
    UntouchedLengths(p, a);
    HeldEntryIsInside(p, a, whole, size, e);
    forall q | e.span.pos <= q < e.span.pos + e.span.len
      ensures q < |p.start.bufs[whole.buf]| && q < |a.world.bufs[whole.buf]|
      ensures a.world.bufs[whole.buf][q] == p.start.bufs[whole.buf][q]
    {
      HeldEntryIsUnfilled(p, a, e, q);
    }
    HeldEntryIsUnfilled(p, a, e, e.span.pos + e.span.len - 1);
    AnswerFills(a.world, e);
  }

  /**
   * What a chunked read leaves in the ring still points into the caller's buffer: each
   * entry at cells that nothing has filled, and the kernel may fill them at any time after
   * the call has returned and the buffer has been given up.
   */
  lemma StrandedReadsStillWrite(p: Plan, whole: Transfer, size: nat, r: Report, held: multiset<Entry>, w: World)
    requires 0 < size <= whole.Len() <= ISIZE_MAX && whole.ReadInto?
    requires p.jobs == Chunked(whole, size) && Produces(p, r, held, w)
    requires whole.buf < |p.start.bufs| && whole.pos + whole.len <= |p.start.bufs[whole.buf]|
    ensures forall e :: e in held ==> PointsIntoUnfilled(p.start, whole, w, e) && StillWrites(w, e)
  {
    hide Pass, Inv, Consistent, Chunked, PointsIntoUnfilled, StillWrites;
    ChunkedIsSound(p, whole, size);
    EveryRunIsConsistent(p, r.turns);
    forall e | e in held
      ensures PointsIntoUnfilled(p.start, whole, w, e) && StillWrites(w, e)
    {
      OneStrandedRead(p, Submitted(p, Reached(p, r.turns)), whole, size, e);
    }
  }

  // ---------------------------------------------------------------------------
  // At real inputs
  // ---------------------------------------------------------------------------

  /** Two one-byte chunks at the last offset, in a ring of two: the entry of the first is left behind. */
  lemma TwoBytesAtTheLastOffset(file: seq<Byte>)
    ensures var first: Transfer := WriteFrom(U64_MAX, [1]);
            var p := Plan(World(file, []), Chunked(WriteFrom(U64_MAX, [1, 2]), 1), 2);
            && Ends(p, [])
            && Strands(p, [])
            && Submitted(p, Start(p)).held == multiset{Entry(0, first)}
            && Outcome(Pass(p, Start(p).sched, 0)) == Err(OffsetOverflow)
  {
    var whole: Transfer := WriteFrom(U64_MAX, [1, 2]);
    var p := Plan(World(file, []), Chunked(whole, 1), 2);
    ChunkOffsets(whole, 1);
    assert |p.jobs| == ChunkCount(2, 1) == 2;
    assert p.jobs[0] == WriteFrom(U64_MAX, [1]);
    var s, first := Start(p).sched, EntryFor(p.jobs, 0, 0);
    assert first == Entry(0, WriteFrom(U64_MAX, [1]));
    assert Pass(p, AfterSubmit(s, 0), 1) == PassResult(AfterSubmit(s, 0), [], true);
    assert Pass(p, s, 0) == PassResult(AfterSubmit(s, 0), [first], true);
    assert Submitted(p, Start(p)).held == multiset([first]) == multiset{first};
    assert first in multiset{first};
  }

  /** One byte earlier and one byte longer, and the kernel decides. */
  lemma ThreeBytesBeforeTheLastOffset(file: seq<Byte>)
    ensures var p := Plan(World(file, []), Chunked(WriteFrom(U64_MAX - 1, [1, 2, 3]), 1), 2);
            && (exists turns :: Strands(p, turns))
            && (exists turns :: Ends(p, turns) && !Strands(p, turns))
  {
    var whole: Transfer := WriteFrom(U64_MAX - 1, [1, 2, 3]);
    var p := Plan(World(file, []), Chunked(whole, 1), 2);
    ChunkedTransferStrandsExactly(p, whole, 1);
  }
}
