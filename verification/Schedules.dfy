/**
 * Whole runs of the submission loop: submission passes, the turns the kernel takes between
 * them, and where a run ends. A run is a function of the kernel's decisions, so that
 * "whatever the kernel does" is a quantifier over sequences of turns.
 */
module Schedules {
  import opened Common
  import opened Transfers
  import opened Scheduler

  // ---------------------------------------------------------------------------
  // Submission passes
  // ---------------------------------------------------------------------------

  /** The loop variables after a pass, the entries it pushed in order, and whether it stopped at an overflow. */
  datatype PassResult = PassResult(sched: Sched, pushed: seq<Entry>, overflow: bool)

  /**
   * A submission pass from job `idx` on: jobs in index order, each idle job with bytes
   * left submitted once, until there is an error, no room, or an offset past 64 bits.
   */
  ghost function Pass(p: Plan, s: Sched, idx: nat): PassResult
    requires WithinJobs(p.jobs, s.done) && |s.state| == |p.jobs| && idx <= |p.jobs|
    decreases |p.jobs| - idx
  {
    if idx == |p.jobs| || s.pending.Some? || s.inFlight >= p.depth then PassResult(s, [], false)
    else if !s.state[idx].Idle? then Pass(p, s, idx + 1)
    else if s.done[idx] == p.jobs[idx].Len() then Pass(p, s.(state := s.state[idx := Done]), idx + 1)
    else if p.jobs[idx].offset + s.done[idx] > U64_MAX then PassResult(s, [], true)
    else
      var rest := Pass(p, AfterSubmit(s, idx), idx + 1);
      rest.(pushed := [EntryFor(p.jobs, idx, s.done[idx])] + rest.pushed)
  }

  ghost predicate Sized(p: Plan, s: Sched) {
    WithinJobs(p.jobs, s.done) && |s.state| == |p.jobs|
  }

  /**
   * What a pass from `idx` on leaves: progress and the error are as before, and so are the
   * jobs before `idx`. If it was not cut short, no job it looked at is idle.
   */
  lemma {:induction false} PassShape(p: Plan, s: Sched, idx: nat)
    requires Sized(p, s) && idx <= |p.jobs|
    ensures var pass := Pass(p, s, idx);
            && Sized(p, pass.sched) && pass.sched.done == s.done && pass.sched.pending == s.pending
            && (s.pending.Some? ==> pass == PassResult(s, [], false))
            && (forall i :: 0 <= i < idx ==> pass.sched.state[i] == s.state[i])
            && (!pass.overflow && s.pending.None? && pass.sched.inFlight < p.depth ==>
                  forall i :: idx <= i < |p.jobs| ==> !pass.sched.state[i].Idle?)
    decreases |p.jobs| - idx
  {
    if idx < |p.jobs| && s.pending.None? && s.inFlight < p.depth {
      if !s.state[idx].Idle? {
        PassShape(p, s, idx + 1);
      } else if s.done[idx] == p.jobs[idx].Len() {
        PassShape(p, s.(state := s.state[idx := Done]), idx + 1);
      } else if p.jobs[idx].offset + s.done[idx] <= U64_MAX {
        PassShape(p, AfterSubmit(s, idx), idx + 1);
      }
    }
  }

  /** The pass gave up at job `m`, whose next entry would start past the last offset. */
  ghost predicate StoppedAt(p: Plan, s: Sched, m: nat) {
    && Sized(p, s)
    && m < |p.jobs|
    && s.state[m].Idle?
    && s.done[m] < p.jobs[m].Len()
    && p.jobs[m].offset + s.done[m] > U64_MAX
    && s.pending.None?
    && s.inFlight < p.depth
  }

  /** A pass that stops at an overflow leaves no job idle before the one it stops at. */
  lemma {:induction false} PassOverflows(p: Plan, s: Sched, idx: nat) returns (m: nat)
    requires Sized(p, s) && idx <= |p.jobs| && Pass(p, s, idx).overflow
    ensures idx <= m && StoppedAt(p, Pass(p, s, idx).sched, m) && s.state[m].Idle?
    ensures forall i :: idx <= i < m ==> !Pass(p, s, idx).sched.state[i].Idle?
    decreases |p.jobs| - idx
  {
    m := idx;
    if !s.state[idx].Idle? {
      m := PassOverflows(p, s, idx + 1);
      PassShape(p, s, idx + 1);
    } else if s.done[idx] == p.jobs[idx].Len() {
      var next := s.(state := s.state[idx := Done]);
      m := PassOverflows(p, next, idx + 1);
      PassShape(p, next, idx + 1);
    } else if p.jobs[idx].offset + s.done[idx] <= U64_MAX {
      var next := AfterSubmit(s, idx);
      m := PassOverflows(p, next, idx + 1);
      PassShape(p, next, idx + 1);
    }
  }

  // ---------------------------------------------------------------------------
  // Turns of the kernel
  // ---------------------------------------------------------------------------

  /**
   * What the kernel decides during one wait: whether the wait fails, and which of the
   * entries it holds it answers, in which order and with which results.
   */
  datatype Turn = Turn(failure: Option<Error>, answers: seq<Cqe>)

  /** A call between two of its steps: the variables, what the kernel holds, the events so far, and the world. */
  datatype Point = Point(sched: Sched, held: multiset<Entry>, log: seq<Event>, world: World)

  /** The scheduler's invariant with every completion processed. */
  ghost predicate Consistent(p: Plan, a: Point) {
    Inv(p, a.sched, a.held, [], a.log, a.world)
  }

  lemma InvCountsHeld(p: Plan, a: Point)
    requires Consistent(p, a)
    ensures a.sched.inFlight == |a.held| <= p.depth
  {
  }

  ghost function Start(p: Plan): Point {
    Point(Initial(|p.jobs|), multiset{}, [], p.start)
  }

  function PushEvents(entries: seq<Entry>): seq<Event> {
    seq(|entries|, i requires 0 <= i < |entries| => Pushed(entries[i]))
  }

  function WaitEvents(failure: Option<Error>): seq<Event> {
    if failure.Some? then [WaitFailed(failure.value)] else []
  }

  /** After a submission pass from job `idx` on. */
  ghost function SubmittedFrom(p: Plan, a: Point, idx: nat): Point
    requires Sized(p, a.sched) && idx <= |p.jobs|
  {
    var pass := Pass(p, a.sched, idx);
    Point(pass.sched, a.held + multiset(pass.pushed), a.log + PushEvents(pass.pushed), a.world)
  }

  ghost function Submitted(p: Plan, a: Point): Point
    requires Sized(p, a.sched)
  {
    SubmittedFrom(p, a, 0)
  }

  /** The variables after a wait. */
  function Waited(s: Sched, failure: Option<Error>): Sched {
    if failure.Some? then s.(pending := GetOrInsert(s.pending, failure.value)) else s
  }

  /** Every completion belongs to a job of the call. */
  ghost predicate ForJobs(p: Plan, cqes: seq<Cqe>) {
    forall k :: 0 <= k < |cqes| ==> cqes[k].entry.userData < |p.jobs|
  }

  /** The variables after the loop over the completions. */
  ghost function ReapEach(p: Plan, s: Sched, cqes: seq<Cqe>): Sched
    requires |s.done| == |s.state| == |p.jobs| && ForJobs(p, cqes)
    decreases |cqes|
  {
    if |cqes| == 0 then s else ReapEach(p, AfterReap(p, s, cqes[0]), cqes[1..])
  }

  /** The kernel may take `turn` while the program waits at `a`. */
  ghost predicate MayAnswer(p: Plan, a: Point, turn: Turn) {
    && Sized(p, a.sched)
    && ForJobs(p, turn.answers)
    && multiset(EntriesOf(turn.answers)) <= a.held
    && Lawful(a.world, turn.answers)
    && (turn.failure.Some? ==> turn.failure.value.Submit?)
  }

  /** Where a wait and the processing of what arrived leave the call. */
  ghost function Settled(p: Plan, a: Point, turn: Turn): Point
    requires MayAnswer(p, a, turn)
  {
    Point(ReapEach(p, Waited(a.sched, turn.failure), turn.answers),
          a.held - multiset(EntriesOf(turn.answers)),
          a.log + WaitEvents(turn.failure) + ReapEvents(turn.answers),
          Run(a.world, turn.answers))
  }

  /** A call at the top of its loop stops after the next pass. */
  ghost predicate Stops(p: Plan, a: Point) {
    Sized(p, a.sched) && (Pass(p, a.sched, 0).overflow || Pass(p, a.sched, 0).sched.inFlight == 0)
  }

  /** One round of the loop under `turn`. */
  ghost predicate Allowed(p: Plan, a: Point, turn: Turn) {
    Sized(p, a.sched) && !Stops(p, a) && MayAnswer(p, Submitted(p, a), turn)
  }

  ghost function Advance(p: Plan, a: Point, turn: Turn): Point
    requires Allowed(p, a, turn)
  {
    Settled(p, Submitted(p, a), turn)
  }

  /** The kernel may take these turns, one in each round of a call. */
  ghost predicate Schedule(p: Plan, turns: seq<Turn>)
    decreases |turns|, 0
  {
    |turns| == 0
    || (Schedule(p, turns[..|turns| - 1])
        && Allowed(p, Reached(p, turns[..|turns| - 1]), turns[|turns| - 1]))
  }

  /** Where a call is after these rounds. */
  ghost function Reached(p: Plan, turns: seq<Turn>): Point
    requires Schedule(p, turns)
    decreases |turns|, 1
  {
    if |turns| == 0 then Start(p)
    else Advance(p, Reached(p, turns[..|turns| - 1]), turns[|turns| - 1])
  }

  lemma OneMoreTurn(p: Plan, turns: seq<Turn>, turn: Turn)
    requires Schedule(p, turns) && Allowed(p, Reached(p, turns), turn)
    ensures Schedule(p, turns + [turn])
    ensures Reached(p, turns + [turn]) == Advance(p, Reached(p, turns), turn)
  {
    assert (turns + [turn])[..|turns|] == turns;
  }

  /**
   * A pass that is at job `i` in `a` gets to job `j` in `b` by pushing `pushes`, and goes on
   * from there as it would have from `a`.
   */
  ghost predicate Between(p: Plan, a: Point, i: nat, b: Point, j: nat, pushes: seq<Entry>) {
    && Sized(p, a.sched) && Sized(p, b.sched) && i <= |p.jobs| && j <= |p.jobs|
    && b.held == a.held + multiset(pushes)
    && b.log == a.log + PushEvents(pushes)
    && b.world == a.world
    && var rest := Pass(p, b.sched, j); Pass(p, a.sched, i) == rest.(pushed := pushes + rest.pushed)
  }

  lemma BetweenStarts(p: Plan, a: Point, i: nat)
    requires Sized(p, a.sched) && i <= |p.jobs|
    ensures Between(p, a, i, a, i, [])
  {
    hide Pass;
    assert [] + Pass(p, a.sched, i).pushed == Pass(p, a.sched, i).pushed;
  }

  lemma BetweenGoesOn(p: Plan, a: Point, i: nat, b: Point, j: nat, pushes: seq<Entry>, c: Point, k: nat,
                      more: seq<Entry>)
    requires Between(p, a, i, b, j, pushes) && Between(p, b, j, c, k, more)
    ensures Between(p, a, i, c, k, pushes + more)
  {
    hide Pass;
    var rest := Pass(p, c.sched, k);
    assert pushes + (more + rest.pushed) == pushes + more + rest.pushed;
    assert PushEvents(pushes + more) == PushEvents(pushes) + PushEvents(more);
  }

  /** A pass that pushes nothing more is over. */
  lemma BetweenEnds(p: Plan, a: Point, b: Point, j: nat, pushes: seq<Entry>)
    requires Between(p, a, 0, b, j, pushes)
    requires Pass(p, b.sched, j).sched == b.sched && Pass(p, b.sched, j).pushed == []
    ensures b == Submitted(p, a) && Pass(p, a.sched, 0).overflow == Pass(p, b.sched, j).overflow
  {
    hide Pass;
    assert pushes + [] == pushes;
  }

  lemma PassStops(p: Plan, s: Sched, idx: nat)
    requires Sized(p, s) && idx <= |p.jobs|
    requires idx == |p.jobs| || s.pending.Some? || s.inFlight >= p.depth
    ensures Pass(p, s, idx) == PassResult(s, [], false)
  {
  }

  // ---------------------------------------------------------------------------
  // The invariant along a run
  // ---------------------------------------------------------------------------

  /** A submission pass keeps the invariant. */
  lemma {:induction false} PassKeepsInv(p: Plan, a: Point, idx: nat)
    requires Consistent(p, a) && idx <= |p.jobs|
    ensures Consistent(p, SubmittedFrom(p, a, idx))
    decreases |p.jobs| - idx
  {
    hide Inv;
    var s := a.sched;
    assert Sized(p, s) by {
      InvBounds(p, s, a.held, [], a.log, a.world);
    }
    var pass := Pass(p, s, idx);
    if idx == |p.jobs| || s.pending.Some? || s.inFlight >= p.depth {
      NothingPushed(a);
    } else if !s.state[idx].Idle? {
      PassKeepsInv(p, a, idx + 1);
    } else if s.done[idx] == p.jobs[idx].Len() {
      InvSkips(p, s, a.held, [], a.log, a.world, idx);
      PassKeepsInv(p, a.(sched := s.(state := s.state[idx := Done])), idx + 1);
    } else if p.jobs[idx].offset + s.done[idx] > U64_MAX {
      NothingPushed(a);
    } else {
      var entry := EntryFor(p.jobs, idx, s.done[idx]);
      var next := Point(AfterSubmit(s, idx),
                        a.held + multiset{entry}, a.log + [Pushed(entry)], a.world);
      InvSubmits(p, s, a.held, a.log, a.world, idx);
      PassKeepsInv(p, next, idx + 1);
      PushedOneMore(a, entry, Pass(p, next.sched, idx + 1).pushed);
    }
  }

  lemma NothingPushed(a: Point)
    ensures a.held + multiset([]) == a.held && a.log + PushEvents([]) == a.log
  {
  }

  lemma PushedOneMore(a: Point, entry: Entry, rest: seq<Entry>)
    ensures a.held + multiset([entry] + rest) == a.held + multiset{entry} + multiset(rest)
    ensures a.log + PushEvents([entry] + rest) == a.log + [Pushed(entry)] + PushEvents(rest)
  {
    assert PushEvents([entry] + rest) == [Pushed(entry)] + PushEvents(rest);
  }

  lemma AnswersAreForJobs(p: Plan, s: Sched, held: multiset<Entry>, cqes: seq<Cqe>)
    requires Tracked(p, s, held, cqes)
    ensures ForJobs(p, cqes)
  {
    forall k | 0 <= k < |cqes|
      ensures cqes[k].entry.userData < |p.jobs|
    {
      assert EntriesOf(cqes)[k] in multiset(EntriesOf(cqes));
      ExpectedEntry(p.jobs, s.done, s.state, |p.jobs|, cqes[k].entry);
    }
  }

  /** Processing all that arrived keeps the invariant. */
  lemma {:induction false} InvReapsEach(p: Plan, s: Sched, held: multiset<Entry>, cqes: seq<Cqe>, log: seq<Event>,
                                        w: World)
    requires Inv(p, s, held, cqes, log, w) && ForJobs(p, cqes)
    ensures |s.done| == |s.state| == |p.jobs|
    ensures Inv(p, ReapEach(p, s, cqes), held, [], log + ReapEvents(cqes), w)
    decreases |cqes|
  {
    hide Inv;
    InvBounds(p, s, held, cqes, log, w);
    if |cqes| == 0 {
      assert cqes == [] && log + ReapEvents(cqes) == log;
    } else {
      InvReaps(p, s, held, cqes, log, w);
      InvReapsEach(p, AfterReap(p, s, cqes[0]), held, cqes[1..], log + [Reaped(cqes[0])], w);
      assert log + ReapEvents(cqes) == log + [Reaped(cqes[0])] + ReapEvents(cqes[1..]);
    }
  }

  /** What a wait leaves, before its completions are processed. */
  lemma TurnIsTaken(p: Plan, a: Point, turn: Turn, held: multiset<Entry>)
    requires Consistent(p, a) && Lawful(a.world, turn.answers) && held + multiset(EntriesOf(turn.answers)) == a.held
    requires turn.failure.Some? ==> turn.failure.value.Submit?
    ensures MayAnswer(p, a, turn) && held == a.held - multiset(EntriesOf(turn.answers))
    ensures Inv(p, Waited(a.sched, turn.failure), held, turn.answers, a.log + WaitEvents(turn.failure),
                Run(a.world, turn.answers))
  {
    hide Inv, Lawful, Run, EntriesOf;
    var w := Run(a.world, turn.answers);
    InvBounds(p, a.sched, a.held, [], a.log, a.world);
    InvDelivers(p, a.sched, a.held, held, turn.answers, a.log, a.world, w);
    InvIsForJobs(p, a.sched, held, turn.answers, a.log, w);
    if turn.failure.Some? {
      InvWaitFails(p, a.sched, held, turn.answers, a.log, w, turn.failure.value);
    } else {
      assert a.log + WaitEvents(None) == a.log;
    }
  }

  lemma InvIsForJobs(p: Plan, s: Sched, held: multiset<Entry>, cqes: seq<Cqe>, log: seq<Event>, w: World)
    requires Inv(p, s, held, cqes, log, w)
    ensures ForJobs(p, cqes)
  {
    AnswersAreForJobs(p, s, held, cqes);
  }

  /** Any turn of the kernel keeps the invariant. */
  lemma TurnKeepsInv(p: Plan, a: Point, turn: Turn)
    requires Consistent(p, a) && MayAnswer(p, a, turn)
    ensures Consistent(p, Settled(p, a, turn))
  {
    hide Inv, Lawful, Run;
    var b := Settled(p, a, turn);
    TurnIsTaken(p, a, turn, b.held);
    InvReapsEach(p, Waited(a.sched, turn.failure), b.held, turn.answers, a.log + WaitEvents(turn.failure), b.world);
  }

  /** Safety over whole runs: whatever turns the kernel takes, the invariant holds after each of them. */
  lemma {:induction false} EveryRunIsConsistent(p: Plan, turns: seq<Turn>)
    requires Sound(p) && Schedule(p, turns)
    ensures Consistent(p, Reached(p, turns)) && Sized(p, Reached(p, turns).sched)
    ensures Consistent(p, Submitted(p, Reached(p, turns)))
    decreases |turns|
  {
    hide Inv, Pass, Lawful, Run;
    if |turns| == 0 {
      InvStarts(p);
    } else {
      var before := Reached(p, turns[..|turns| - 1]);
      EveryRunIsConsistent(p, turns[..|turns| - 1]);
      TurnKeepsInv(p, Submitted(p, before), turns[|turns| - 1]);
    }
    var a := Reached(p, turns);
    InvBounds(p, a.sched, a.held, [], a.log, a.world);
    PassKeepsInv(p, a, 0);
  }

  // ---------------------------------------------------------------------------
  // The contract of a loop
  // ---------------------------------------------------------------------------

  /** What a call returned, with the progress it counted, the events it caused and the kernel's turns. */
  datatype Report = Report(result: Result<()>, done: seq<nat>, log: seq<Event>, turns: seq<Turn>)

  /** The call ends after these turns, in an overflow or with nothing in flight. */
  ghost predicate Ends(p: Plan, turns: seq<Turn>) {
    Schedule(p, turns) && Stops(p, Reached(p, turns))
  }

  /** The result of a call whose last pass ended like this. */
  function Outcome(pass: PassResult): Result<()> {
    if pass.overflow then Err(OffsetOverflow)
    else if pass.sched.pending.Some? then Err(pass.sched.pending.value)
    else Ok(())
  }

  /** `r` is what the call reports under the turns it names, and leaves `held` in the ring and `w` behind. */
  ghost predicate Produces(p: Plan, r: Report, held: multiset<Entry>, w: World) {
    && Ends(p, r.turns)
    && var end := Submitted(p, Reached(p, r.turns));
      && r.result == Outcome(Pass(p, Reached(p, r.turns).sched, 0))
      && r.done == end.sched.done
      && r.log == end.log
      && held == end.held
      && w == end.world
  }

  /** The event is a failure, reported as `error`. */
  ghost predicate FailsWith(event: Event, error: Error) {
    match event
    case Pushed(_) => false
    case WaitFailed(e) => error == e
    case Reaped(c) =>
      || (c.result < 0 && error == Os(-c.result))
      || (c.result == 0 && c.entry.span.ReadInto? && error == UnexpectedEof)
      || (c.result == 0 && c.entry.span.WriteFrom? && error == WriteZero)
  }

  /** Event `k` is a failure with this error, and no event before it is a failure. */
  ghost predicate FailsFirst(log: seq<Event>, k: nat, error: Error) {
    && k < |log|
    && FailsWith(log[k], error)
    && forall j, e :: 0 <= j < k ==> !FailsWith(log[j], e)
  }

  /** The recorded error is that of the first event that is a failure; without one, no event is. */
  lemma {:induction false} FirstErrorIsFirst(log: seq<Event>)
    ensures FirstError(log).None? ==> forall j, e :: 0 <= j < |log| ==> !FailsWith(log[j], e)
    ensures FirstError(log).Some? ==> exists k :: FailsFirst(log, k, FirstError(log).value)
  {
    if |log| > 0 {
      var n := |log| - 1;
      FirstErrorIsFirst(log[..n]);
      assert forall j :: 0 <= j < n ==> log[..n][j] == log[j];
      if FirstError(log[..n]).Some? {
        var k :| FailsFirst(log[..n], k, FirstError(log[..n]).value);
        assert FailsFirst(log, k, FirstError(log).value);
      } else if ErrorOf(log[n]).Some? {
        assert FailsFirst(log, n, FirstError(log).value);
      }
    }
  }

  /**
   * The promise of every loop, whatever the kernel did:
   * the file and the buffers hold exactly a prefix of every job, and those prefixes are
   * what completions reported; Ok means that every job is complete and nothing failed; an
   * error that the loop recorded is the first one, nothing was submitted after it, and the
   * submission queue was never full; and submissions are at most the bytes moved plus the depth.
   */
  ghost predicate Settles(p: Plan, r: Report, w: World) {
    && WithinJobs(p.jobs, r.done)
    && w == Progressed(p.start, p.jobs, r.done, |p.jobs|)
    && (forall i :: 0 <= i < |p.jobs| ==> r.done[i] == BytesReported(r.log, i))
    && Fits(p, r.done)
    && NoPushAfterError(r.log)
    && PushesAskForRest(p.jobs, r.log)
    && Submissions(r.log) <= Sum(r.done) + p.depth <= Total(p.jobs) + p.depth
    && (r.result.Ok? ==>
          && FirstError(r.log).None?
          && (forall j, e :: 0 <= j < |r.log| ==> !FailsWith(r.log[j], e))
          && (forall i :: 0 <= i < |p.jobs| ==> r.done[i] == p.jobs[i].Len())
          && w == Performed(p.start, p.jobs, |p.jobs|))
    && (r.result.Err? && !r.result.error.RingInit? && !r.result.error.OffsetOverflow? ==>
          && Recordable(r.result.error)
          && FirstError(r.log) == Some(r.result.error)
          && exists k :: FailsFirst(r.log, k, r.result.error))
  }

  lemma SettlesFrom(p: Plan, s: Sched, held: multiset<Entry>, log: seq<Event>, w: World, result: Result<()>,
                    turns: seq<Turn>)
    requires Inv(p, s, held, [], log, w)
    requires result.Ok? ==> s.inFlight == 0 && s.pending.None? && forall i :: 0 <= i < |p.jobs| ==> !s.state[i].Idle?
    requires result.Err? ==> s.pending == Some(result.error) || result.error.OffsetOverflow?
    ensures Settles(p, Report(result, s.done, log, turns), w)
  {
    SumIsMonotone(s.done, Lens(p.jobs));
    FirstErrorIsFirst(log);
    if result.Ok? {
      NothingInFlightMeansComplete(p, s, held, log, w);
    }
  }

  /** A call that never got a ring has done nothing. */
  lemma SettlesWithoutRing(p: Plan, result: Result<()>)
    requires result.Err? ==> result.error.RingInit?
    requires result.Ok? ==> |p.jobs| == 0
    ensures Settles(p, Report(result, seq(|p.jobs|, _ => 0), [], []), p.start)
  {
    var done := seq(|p.jobs|, _ => 0);
    NothingProgressed(p.start, p.jobs, done, |p.jobs|);
    SumOfZeros(done);
  }

  lemma ErrorIsRecordable(p: Plan, a: Point)
    requires Consistent(p, a)
    ensures a.sched.pending.Some? ==> Recordable(a.sched.pending.value)
    ensures a.sched.pending == FirstError(a.log)
  {
  }

  /** Every run keeps the promise, whatever turns the kernel takes. */
  lemma EveryRunSettles(p: Plan, r: Report, held: multiset<Entry>, w: World)
    requires Sound(p) && p.depth >= 1 && Produces(p, r, held, w)
    ensures Settles(p, r, w)
    ensures r.result != Err(OffsetOverflow) ==> held == multiset{}
    ensures r.result == Err(OffsetOverflow) ==> FirstError(r.log).None?
    ensures r.result.Err? ==> r.result.error.OffsetOverflow? || Recordable(r.result.error)
  {
    hide Pass, Settles, Inv, Schedule;
    var a := Reached(p, r.turns);
    var end := Submitted(p, a);
    EveryRunIsConsistent(p, r.turns);
    InvCountsHeld(p, end);
    PassShape(p, a.sched, 0);
    ErrorIsRecordable(p, end);
    SettlesFrom(p, end.sched, end.held, end.log, end.world, r.result, r.turns);
  }

  // ---------------------------------------------------------------------------
  // When a call succeeds
  // ---------------------------------------------------------------------------

  /** Job `i` has bytes left and is not under way. */
  ghost predicate Short(p: Plan, s: Sched, i: nat) {
    Sized(p, s) && i < |p.jobs| && s.state[i].Idle? && s.done[i] < p.jobs[i].Len()
  }

  /** If a completion caused the error on record, some job is short. */
  ghost predicate Blames(p: Plan, s: Sched) {
    s.pending.Some? && !s.pending.value.Submit? ==> exists i :: 0 <= i < |p.jobs| && Short(p, s, i)
  }

  lemma ReapBlames(p: Plan, s: Sched, c: Cqe)
    requires Answers(p, s, c) && Blames(p, s)
    ensures Blames(p, AfterReap(p, s, c))
  {
    var after, j := AfterReap(p, s, c), c.entry.userData;
    ReapShapes(p, s, c);
    if c.result <= 0 {
      assert Short(p, after, j);
    } else if s.pending.Some? && !s.pending.value.Submit? {
      var i :| 0 <= i < |p.jobs| && Short(p, s, i);
      assert Short(p, after, i);
    }
  }

  lemma {:induction false} ReapEachBlames(p: Plan, s: Sched, held: multiset<Entry>, cqes: seq<Cqe>, log: seq<Event>,
                                          w: World)
    requires Inv(p, s, held, cqes, log, w) && ForJobs(p, cqes) && Blames(p, s)
    ensures |s.done| == |s.state| == |p.jobs|
    ensures Blames(p, ReapEach(p, s, cqes))
    decreases |cqes|
  {
    hide Inv, Blames;
    InvBounds(p, s, held, cqes, log, w);
    if |cqes| > 0 {
      InvReaps(p, s, held, cqes, log, w);
      ReapBlames(p, s, cqes[0]);
      ReapEachBlames(p, AfterReap(p, s, cqes[0]), held, cqes[1..], log + [Reaped(cqes[0])], w);
    }
  }

  lemma TurnBlames(p: Plan, a: Point, turn: Turn)
    requires Consistent(p, a) && MayAnswer(p, a, turn) && Blames(p, a.sched)
    ensures Blames(p, Settled(p, a, turn).sched)
  {
    hide Inv, Lawful, Run;
    var b, s := Settled(p, a, turn), Waited(a.sched, turn.failure);
    TurnIsTaken(p, a, turn, b.held);
    if a.sched.pending.Some? && !a.sched.pending.value.Submit? {
      var i :| 0 <= i < |p.jobs| && Short(p, a.sched, i);
      assert Short(p, s, i);
    }
    ReapEachBlames(p, s, b.held, turn.answers, a.log + WaitEvents(turn.failure), b.world);
  }

  lemma PassBlames(p: Plan, s: Sched)
    requires Sized(p, s) && Blames(p, s)
    ensures Blames(p, Pass(p, s, 0).sched)
  {
    PassShape(p, s, 0);
  }

  lemma {:induction false} EveryRunBlames(p: Plan, turns: seq<Turn>)
    requires Sound(p) && Schedule(p, turns)
    ensures Sized(p, Reached(p, turns).sched) && Blames(p, Submitted(p, Reached(p, turns)).sched)
    decreases |turns|
  {
    hide Inv, Pass, Lawful, Run, Blames;
    EveryRunIsConsistent(p, turns);
    if |turns| == 0 {
      assert Blames(p, Start(p).sched) by {
        NothingBlamed(p);
      }
    } else {
      var before := Reached(p, turns[..|turns| - 1]);
      EveryRunIsConsistent(p, turns[..|turns| - 1]);
      EveryRunBlames(p, turns[..|turns| - 1]);
      TurnBlames(p, Submitted(p, before), turns[|turns| - 1]);
    }
    PassBlames(p, Reached(p, turns).sched);
  }

  lemma NothingBlamed(p: Plan)
    ensures Blames(p, Start(p).sched)
  {
  }

  ghost predicate NoWaitFailed(log: seq<Event>) {
    forall k :: 0 <= k < |log| ==> !log[k].WaitFailed?
  }

  lemma {:induction false} FirstErrorFromWait(log: seq<Event>)
    ensures FirstError(log).None? ==> NoWaitFailed(log)
    ensures FirstError(log).Some? && FirstError(log).value.Submit? ==> !NoWaitFailed(log)
  {
    if |log| > 0 {
      var n := |log| - 1;
      FirstErrorFromWait(log[..n]);
      assert forall k :: 0 <= k < n ==> log[k] == log[..n][k];
      assert NoWaitFailed(log) <==> NoWaitFailed(log[..n]) && !log[n].WaitFailed?;
    }
  }

  /**
   * A call that does not overflow returns Ok exactly when every byte has moved and no wait
   * has failed. So the only errors that may come although every byte has moved are those
   * of a failed wait.
   */
  lemma OkExactlyWhenCompleteAndNoWaitFailed(p: Plan, r: Report, held: multiset<Entry>, w: World)
    requires Sound(p) && p.depth >= 1 && Produces(p, r, held, w) && r.result != Err(OffsetOverflow)
    ensures WithinJobs(p.jobs, r.done)
    ensures r.result.Ok? <==> NoWaitFailed(r.log) && forall i :: 0 <= i < |p.jobs| ==> r.done[i] == p.jobs[i].Len()
  {
    hide Pass;
    EveryRunSettles(p, r, held, w);
    EveryRunBlames(p, r.turns);
    PassShape(p, Reached(p, r.turns).sched, 0);
    FirstErrorFromWait(r.log);
  }

  /** The first pass over a single job submits it. */
  lemma OneJobIsSubmitted(p: Plan)
    requires |p.jobs| == 1 && p.jobs[0].Len() > 0 && p.jobs[0].offset <= U64_MAX && p.depth >= 1
    ensures Pass(p, Start(p).sched, 0)
         == PassResult(AfterSubmit(Start(p).sched, 0), [EntryFor(p.jobs, 0, 0)], false)
    ensures var entry := EntryFor(p.jobs, 0, 0);
            Submitted(p, Start(p)) == Point(AfterSubmit(Start(p).sched, 0), multiset{entry}, [Pushed(entry)], p.start)
  {
    hide EntryFor;
    var s := Start(p).sched;
    assert Pass(p, AfterSubmit(s, 0), 1) == PassResult(AfterSubmit(s, 0), [], false);
    assert multiset([EntryFor(p.jobs, 0, 0)]) == multiset{EntryFor(p.jobs, 0, 0)};
  }

  /** A turn with one answer. */
  lemma TurnOfOneAnswer(p: Plan, a: Point, failure: Option<Error>, c: Cqe)
    requires MayAnswer(p, a, Turn(failure, [c]))
    ensures |a.sched.done| == |a.sched.state| == |p.jobs| && c.entry.userData < |p.jobs|
    ensures Settled(p, a, Turn(failure, [c]))
         == Point(AfterReap(p, Waited(a.sched, failure), c), a.held - multiset{c.entry},
                  a.log + WaitEvents(failure) + [Reaped(c)], Effect(a.world, c))
  {
    hide Effect;
    assert [c][0] == c && [c][1..] == [];
    assert EntriesOf([c]) == [c.entry] && ReapEvents([c]) == [Reaped(c)];
    assert Run(Effect(a.world, c), []) == Effect(a.world, c);
    assert ReapEach(p, AfterReap(p, Waited(a.sched, failure), c), []) == AfterReap(p, Waited(a.sched, failure), c);
  }

  /** One byte, written, and the wait for it reported as failed: an error although nothing is missing. */
  lemma ErrorAlthoughEveryByteMoved(file: seq<Byte>, code: int)
    ensures var job: Transfer := WriteFrom(0, [7]);
            var p := Plan(World(file, []), [job], 1);
            var log := [Pushed(Entry(0, job)), WaitFailed(Submit(code)), Reaped(Cqe(Entry(0, job), 1))];
            exists turns ::
              Produces(p, Report(Err(Submit(code)), [1], log, turns), multiset{}, Perform(p.start, job))
  {
    hide Lawful, Settled;
    var job: Transfer := WriteFrom(0, [7]);
    var p, c := Plan(World(file, []), [job], 1), Cqe(Entry(0, job), 1);
    var mid, turn := Submitted(p, Start(p)), Turn(Some(Submit(code)), [c]);
    OneJobIsSubmitted(p);
    assert EntryFor(p.jobs, 0, 0) == c.entry;
    assert MayAnswer(p, mid, turn) by {
      OneLawfulAnswer(mid.world, c);
      assert EntriesOf([c]) == [c.entry];
    }
    TurnOfOneAnswer(p, mid, turn.failure, c);
    WholePiece(job);
    OneMoreTurn(p, [], turn);
    assert [] + [turn] == [turn];
    var b := Reached(p, [turn]);
    assert Pass(p, b.sched, 0) == PassResult(b.sched, [], false) && b.sched.done == [1];
    NothingPushed(b);
    assert b.log == [Pushed(c.entry), WaitFailed(Submit(code)), Reaped(c)];
    assert Produces(p, Report(Err(Submit(code)), [1], b.log, [turn]), multiset{}, Perform(p.start, job));
  }

  lemma OneLawfulAnswer(w: World, c: Cqe)
    requires Legal(w, c)
    ensures Lawful(w, [c])
  {
    assert Lawful(Effect(w, c), []);
  }
}
