/**
 * The loop that `read_at_batch`, `submit_read_exact_at`, `submit_write_exact_at` and
 * `submit_write_slices_at` all run: submit what is idle, wait, process the completions,
 * until nothing is in flight.
 */
module Batches {
  import opened Common
  import opened Transfers
  import opened Scheduler
  import opened Schedules
  import opened Rings

  /** How the pass goes on after a job; `Full` would mean that the submission queue has no slot. */
  datatype Step = Next | Overflow | Full

  /** The jobs and the local variables of one call. */
  class Batch {
    const jobs: seq<Transfer>
    const depth: nat
    var done: seq<nat>
    var state: seq<SubmissionState>
    var inFlight: int
    var pending: Option<Error>
    ghost const start: World

    constructor (jobs: seq<Transfer>, depth: nat, ghost start: World)
      requires Sound(Plan(start, jobs, depth))
      ensures this.jobs == jobs && this.depth == depth && this.start == start
      ensures Ready() && Now() == Initial(|jobs|) && Inv(ThePlan(), Now(), multiset{}, [], [], start)
    {
      this.jobs, this.depth, this.start := jobs, depth, start;
      done, state := seq(|jobs|, _ => 0), seq(|jobs|, _ => Idle);
      inFlight := 0;
      pending := None;
      new;
      assert Now() == Initial(|jobs|);
      InvStarts(ThePlan());
    }

    ghost function ThePlan(): Plan {
      Plan(start, jobs, depth)
    }

    ghost function Now(): Sched
      reads this
    {
      Sched(done, state, inFlight, pending)
    }

    ghost predicate Ready()
      reads this
    {
      WithinJobs(jobs, done) && |state| == |jobs| && 0 <= inFlight
    }

    /** The call as a point of a run: its variables, and what there is at the ring and in the world. */
    ghost function At(ring: Ring, w: World): Point
      reads this, ring
    {
      Point(Now(), ring.Held(), ring.log, w)
    }

    /** Marks a job that has no bytes left. */
    method MarkDone(idx: nat, ghost held: multiset<Entry>, ghost log: seq<Event>, ghost w: World)
      requires Ready() && Inv(ThePlan(), Now(), held, [], log, w)
      requires idx < |jobs| && state[idx].Idle? && done[idx] == jobs[idx].Len()
      modifies this`state
      ensures Ready() && Inv(ThePlan(), Now(), held, [], log, w)
      ensures state == old(state)[idx := Done]
    {
      InvSkips(ThePlan(), Now(), held, [], log, w, idx);
      state := state[idx := Done];
    }

    /** Submits the rest of an idle job. The queue has room for it: it holds fewer than `depth` entries. */
    method Submit(ring: Ring, idx: nat, ghost w: World) returns (pushed: bool)
      requires Ready() && depth <= ring.capacity && Consistent(ThePlan(), At(ring, w))
      requires idx < |jobs| && state[idx].Idle? && done[idx] < jobs[idx].Len()
      requires jobs[idx].offset + done[idx] <= U64_MAX
      requires pending.None? && inFlight < depth
      modifies this`inFlight, this`state, ring`sq, ring`log
      ensures Ready() && Consistent(ThePlan(), At(ring, w))
      ensures pushed && Now() == AfterSubmit(old(Now()), idx)
      ensures ring.Held() == old(ring.Held()) + multiset{EntryFor(jobs, idx, done[idx])}
      ensures ring.log == old(ring.log) + [Pushed(EntryFor(jobs, idx, done[idx]))]
    {
      var remaining := jobs[idx].Len() - done[idx];
      var entry := Entry(idx, Piece(jobs[idx], done[idx], Min(remaining, MAX_IO_LEN)));
      assert entry == EntryFor(jobs, idx, done[idx]);
      assert |ring.sq| <= |ring.Held()|;
      InvSubmits(ThePlan(), Now(), ring.Held(), ring.log, w, idx);
      pushed := ring.Push(entry);
      state := state[idx := InFlight];
      inFlight := inFlight + 1;
    }

    /** The pass looks at one job: skips it, marks it done, submits the rest of it, or gives up. */
    method Visit(ring: Ring, idx: nat, ghost w: World) returns (step: Step, ghost pushes: seq<Entry>)
      requires Ready() && depth <= ring.capacity && Consistent(ThePlan(), At(ring, w))
      requires idx < |jobs| && pending.None? && inFlight < depth
      modifies this`inFlight, this`state, ring`sq, ring`log
      ensures Ready() && Consistent(ThePlan(), At(ring, w))
      ensures step.Next? ==> Between(ThePlan(), old(At(ring, w)), idx, At(ring, w), idx + 1, pushes)
      ensures step.Overflow? ==>
                At(ring, w) == old(At(ring, w)) && Pass(ThePlan(), Now(), idx) == PassResult(Now(), [], true)
      ensures !step.Full?
    {
      hide Inv, EntryFor;
      pushes := [];
      step := Next;
      NothingPushed(At(ring, w));
      if state[idx] != Idle {
        return;
      }
      if done[idx] == jobs[idx].Len() {
        MarkDone(idx, ring.Held(), ring.log, w);
        return;
      }
      if jobs[idx].offset + done[idx] > U64_MAX {
        step := Overflow;
        return;
      }
      pushes := [EntryFor(jobs, idx, done[idx])];
      var pushed := Submit(ring, idx, w);
      if !pushed {
        step := Full;
      }
    }

    /**
     * One pass over the jobs: submits every idle job that has bytes left while there is
     * room and no error. `overflow` means that it gave up on an entry whose offset does
     * not fit 64 bits.
     */
    method SubmitIdle(ring: Ring, ghost w: World) returns (overflow: bool)
      requires Ready() && depth <= ring.capacity && Consistent(ThePlan(), At(ring, w))
      modifies this`inFlight, this`pending, this`state, ring`sq, ring`log
      ensures Ready() && Consistent(ThePlan(), At(ring, w))
      ensures At(ring, w) == Submitted(ThePlan(), old(At(ring, w)))
      ensures overflow == Pass(ThePlan(), old(Now()), 0).overflow
    {
      hide Inv, Consistent, Pass, Between, SubmittedFrom;
      ghost var top, pushes, at := At(ring, w), [], 0;
      BetweenStarts(ThePlan(), top, 0);
      var error := pending;
      for idx := 0 to |jobs|
        invariant at == idx && error == pending
        invariant Ready() && Consistent(ThePlan(), At(ring, w))
        invariant Between(ThePlan(), top, 0, At(ring, w), idx, pushes)
      {
        if error.Some? || inFlight >= depth {
          break;
        }
        ghost var here, more := At(ring, w), [];
        var step;
        step, more := Visit(ring, idx, w);
        if step.Overflow? {
          BetweenEnds(ThePlan(), top, At(ring, w), idx, pushes);
          return true;
        }
        if step.Full? {
          error := GetOrInsert(error, SqFull);
          break;
        }
        BetweenGoesOn(ThePlan(), top, 0, here, idx, pushes, At(ring, w), idx + 1, more);
        pushes, at := pushes + more, idx + 1;
      }
      PassStops(ThePlan(), Now(), at);
      BetweenEnds(ThePlan(), top, At(ring, w), at, pushes);
      pending := error;
      overflow := false;
    }

    /** Hands the entries over, waits, and collects what has arrived; a failure is recorded, and loses nothing. */
    method Wait(ring: Ring, disk: Disk, mem: Memory) returns (cqes: seq<Cqe>, ghost failure: Option<Error>)
      requires Ready() && ring.cq == [] && 0 < inFlight && depth <= ring.capacity
      requires Consistent(ThePlan(), At(ring, WorldOf(disk, mem)))
      modifies this`pending, ring, disk`content, mem
      ensures Ready() && ring.cq == []
      ensures ring.log == old(ring.log) + WaitEvents(failure) + ReapEvents(cqes)
      ensures Inv(ThePlan(), Now(), ring.Held(), cqes, old(ring.log) + WaitEvents(failure), WorldOf(disk, mem))
      ensures MayAnswer(ThePlan(), old(At(ring, WorldOf(disk, mem))), Turn(failure, cqes))
      ensures Now() == Waited(old(Now()), failure)
      ensures ring.Held() == old(ring.Held()) - multiset(EntriesOf(cqes))
      ensures WorldOf(disk, mem) == Run(old(WorldOf(disk, mem)), cqes)
      ensures ring.patience <= old(ring.patience)
      ensures |cqes| == 0 ==> ring.patience < old(ring.patience)
    {
      ghost var before := At(ring, WorldOf(disk, mem));
      hide Inv, Consistent, MayAnswer, Run, Lawful, EntriesOf, ReapEvents;
      assert |ring.sq| + |ring.live| == inFlight <= depth by {
        InvCountsHeld(ThePlan(), before);
      }
      var waited, delivered := ring.SubmitAndWait(disk, mem);
      failure := if waited.Err? then Some(waited.error) else None;
      TurnIsTaken(ThePlan(), before, Turn(failure, delivered), ring.Held());
      if waited.Err? {
        pending := GetOrInsert(pending, waited.error);
      }
      cqes := ring.Completion();
      assert cqes == delivered;
    }

    /** Processes one completion: counts its bytes, or records why there are none. */
    method Reap(ghost held: multiset<Entry>, cqes: seq<Cqe>, k: nat, ghost log: seq<Event>, ghost w: World)
      requires k < |cqes| && Ready()
      requires Inv(ThePlan(), Now(), held, cqes[k..], log, w)
      modifies this`inFlight, this`pending, this`done, this`state
      ensures Ready() && Inv(ThePlan(), Now(), held, cqes[k + 1..], log + [Reaped(cqes[k])], w)
      ensures cqes[k].entry.userData < |jobs| && Now() == AfterReap(ThePlan(), old(Now()), cqes[k])
      ensures inFlight == old(inFlight) - 1
      ensures old(pending).Some? ==> pending == old(pending)
      ensures Sum(done) >= old(Sum(done))
      ensures pending.None? ==> Sum(done) > old(Sum(done))
    {
      ghost var before := Now();
      hide Inv;
      var c := cqes[k];
      assert cqes[k..][0] == c && cqes[k..][1..] == cqes[k + 1..];
      InvReaps(ThePlan(), before, held, cqes[k..], log, w);
      inFlight := inFlight - 1;
      var idx := c.entry.userData;
      state := state[idx := Idle];
      if c.result < 0 {
        pending := GetOrInsert(pending, Os(-c.result));
      } else if c.result == 0 {
        pending := GetOrInsert(pending, if jobs[idx].ReadInto? then UnexpectedEof else WriteZero);
      } else {
        done := done[idx := done[idx] + c.result];
        if done[idx] >= jobs[idx].Len() {
          state := state[idx := Done];
        }
      }
      assert Now() == AfterReap(ThePlan(), before, c);
    }

    /** Processes the collected completions in the order in which they arrived. */
    method ReapAll(ring: Ring, cqes: seq<Cqe>, ghost log: seq<Event>, ghost w: World)
      requires Ready() && Inv(ThePlan(), Now(), ring.Held(), cqes, log, w) && ForJobs(ThePlan(), cqes)
      requires ring.log == log + ReapEvents(cqes)
      modifies this`inFlight, this`pending, this`done, this`state
      ensures Ready() && Consistent(ThePlan(), At(ring, w))
      ensures Now() == ReapEach(ThePlan(), old(Now()), cqes)
      ensures inFlight == old(inFlight) - |cqes|
      ensures old(pending).Some? ==> pending == old(pending)
      ensures Sum(done) >= old(Sum(done))
      ensures |cqes| > 0 && pending.None? ==> Sum(done) > old(Sum(done))
    {
      hide Inv, Sum, AfterReap;
      ghost var held := ring.Held();
      assert cqes[0..] == cqes && log + ReapEvents(cqes[..0]) == log;
      for k := 0 to |cqes|
        invariant Ready() && Inv(ThePlan(), Now(), held, cqes[k..], log + ReapEvents(cqes[..k]), w)
        invariant ReapEach(ThePlan(), Now(), cqes[k..]) == ReapEach(ThePlan(), old(Now()), cqes)
        invariant inFlight == old(inFlight) - k
        invariant old(pending).Some? ==> pending == old(pending)
        invariant Sum(done) >= old(Sum(done))
        invariant k > 0 && pending.None? ==> Sum(done) > old(Sum(done))
      {
        assert cqes[k..][0] == cqes[k] && cqes[k..][1..] == cqes[k + 1..];
        Reap(held, cqes, k, log + ReapEvents(cqes[..k]), w);
        assert log + ReapEvents(cqes[..k]) + [Reaped(cqes[k])] == log + ReapEvents(cqes[..k + 1]);
      }
      assert cqes[|cqes|..] == [] && cqes[..|cqes|] == cqes;
    }

    /**
     * Waits and processes what arrived: one turn of the kernel. Either bytes moved, or the
     * first error was recorded, or fewer entries are in flight, or the kernel used up some
     * patience.
     */
    method Settle(ring: Ring, disk: Disk, mem: Memory) returns (ghost turn: Turn)
      requires Ready() && ring.cq == [] && 0 < inFlight && depth <= ring.capacity
      requires Consistent(ThePlan(), At(ring, WorldOf(disk, mem)))
      modifies this`inFlight, this`pending, this`done, this`state, ring, disk`content, mem
      ensures Ready() && ring.cq == []
      ensures Consistent(ThePlan(), At(ring, WorldOf(disk, mem)))
      ensures MayAnswer(ThePlan(), old(At(ring, WorldOf(disk, mem))), turn)
      ensures At(ring, WorldOf(disk, mem)) == Settled(ThePlan(), old(At(ring, WorldOf(disk, mem))), turn)
      ensures old(pending).Some? ==> pending == old(pending)
      ensures old(Sum(done)) <= Sum(done) <= Total(jobs)
      ensures ring.patience <= old(ring.patience) && inFlight <= old(inFlight)
      ensures || ring.patience < old(ring.patience)
              || (inFlight < old(inFlight) && (pending.None? ==> Sum(done) > old(Sum(done))))
    {
      hide Inv, Total, Sum, Lawful, Run;
      var cqes;
      ghost var failure;
      cqes, failure := Wait(ring, disk, mem);
      turn := Turn(failure, cqes);
      ReapAll(ring, cqes, old(ring.log) + WaitEvents(failure), WorldOf(disk, mem));
      InvBounds(ThePlan(), Now(), ring.Held(), [], ring.log, WorldOf(disk, mem));
    }

    /** Between two rounds of the loop, after these turns of the kernel. */
    ghost predicate Running(ring: Ring, w: World, turns: seq<Turn>)
      reads this, ring
    {
      && Ready()
      && ring.cq == []
      && Sum(done) <= Total(jobs)
      && Schedule(ThePlan(), turns)
      && Reached(ThePlan(), turns) == At(ring, w)
      && Consistent(ThePlan(), At(ring, w))
    }

    /** One round: a submission pass, and then either the end of the call or a turn of the kernel. */
    method Round(ring: Ring, disk: Disk, mem: Memory, ghost turns: seq<Turn>)
      returns (end: Option<Result<()>>, ghost turns': seq<Turn>)
      requires 1 <= depth <= ring.capacity && Running(ring, WorldOf(disk, mem), turns)
      modifies this, ring, disk`content, mem
      ensures end.None? ==> Running(ring, WorldOf(disk, mem), turns')
      ensures end.None? ==>
                && (old(pending).Some? ==> pending.Some?)
                && old(Sum(done)) <= Sum(done) <= Total(jobs)
                && ring.patience <= old(ring.patience)
                && (|| ring.patience < old(ring.patience)
                    || (if pending.None? then Sum(done) > old(Sum(done))
                        else old(pending).None? || inFlight < old(inFlight)))
      ensures end.Some? ==>
                && ring.cq == []
                && Produces(ThePlan(), Report(end.value, done, ring.log, turns'), ring.Held(), WorldOf(disk, mem))
    {
      hide Inv, Total, Sum, Pass, Settled, MayAnswer, Schedule, Reached;
      turns' := turns;
      end := None;
      PassShape(ThePlan(), Now(), 0);
      var overflow := SubmitIdle(ring, WorldOf(disk, mem));
      if overflow {
        end := Some(Err(OffsetOverflow));
        return;
      }
      if inFlight == 0 {
        end := Some(if pending.Some? then Err(pending.value) else Ok(()));
        return;
      }
      ghost var turn := Settle(ring, disk, mem);
      OneMoreTurn(ThePlan(), turns, turn);
      turns' := turns + [turn];
    }

    /**
     * The whole loop: it terminates, and what it does is the run that the kernel's turns
     * determine. It keeps the promise, and ends with nothing in flight unless it gave up.
     */
    method Drive(ring: Ring, disk: Disk, mem: Memory) returns (r: Result<()>, ghost report: Report)
      requires Ready() && depth >= 1 && depth <= ring.capacity && ring.Quiescent() && ring.log == []
      requires Now() == Initial(|jobs|) && WorldOf(disk, mem) == start && Sound(ThePlan())
      modifies this, ring, disk`content, mem
      ensures report.result == r && report.log == ring.log
      ensures Produces(ThePlan(), report, ring.Held(), WorldOf(disk, mem))
      ensures Settles(ThePlan(), report, WorldOf(disk, mem))
      ensures r.Err? ==> r.error.OffsetOverflow? || Recordable(r.error)
      ensures r == Err(OffsetOverflow) ==> FirstError(ring.log).None?
      ensures ring.Quiescent() <==> ring.Held() == multiset{}
      ensures r != Err(OffsetOverflow) ==> ring.Quiescent()
    {
      hide Inv, Settles, Total, Sum, Pass, Produces;
      assert ring.Held() == multiset{};
      InvStarts(ThePlan());
      InvBounds(ThePlan(), Now(), multiset{}, [], [], WorldOf(disk, mem));
      ghost var turns := [];
      var end := None;
      while end.None?
        invariant end.None? ==> Running(ring, WorldOf(disk, mem), turns)
        invariant end.Some? ==>
                    && ring.cq == []
                    && Produces(ThePlan(), Report(end.value, done, ring.log, turns), ring.Held(), WorldOf(disk, mem))
        decreases end.None?, pending.None?, if end.None? then Total(jobs) - Sum(done) else 0, ring.patience, inFlight
      {
        end, turns := Round(ring, disk, mem, turns);
      }
      r, report := end.value, Report(end.value, done, ring.log, turns);
      EveryRunSettles(ThePlan(), report, ring.Held(), WorldOf(disk, mem));
    }
  }
}
