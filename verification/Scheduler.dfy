/**
 * The submission scheduler that the four io_uring loops run, as a state machine on
 * values: jobs, progress, job states, the in-flight counter and the sticky error on one
 * side; queued entries, unprocessed completions and the file on the other.
 */
module Scheduler {
  import opened Common
  import opened Transfers

  datatype SubmissionState = Idle | InFlight | Done

  /** A ring entry: which job it belongs to, and the piece of that job it asks for. */
  datatype Entry = Entry(userData: nat, span: Transfer)

  /**
   * A completion. The loops read only `entry.userData` and `result`; the rest of the
   * entry says which request the kernel answered.
   */
  datatype Cqe = Cqe(entry: Entry, result: int)

  /** What happens at the ring while one call uses it, in order. */
  datatype Event =
    | Pushed(entry: Entry)
    | WaitFailed(error: Error)
    | Reaped(cqe: Cqe)

  // ---------------------------------------------------------------------------
  // The kernel's side
  // ---------------------------------------------------------------------------

  /**
   * A completion the kernel may report in `w`: a positive result is at most the length
   * asked for, ends within 64-bit offsets, and for a read lies inside the file.
   */
  predicate Legal(w: World, c: Cqe) {
    && c.result <= c.entry.span.Len()
    && (c.result > 0 ==>
          && c.entry.span.offset + c.result <= U64_MAX
          && (c.entry.span.ReadInto? ==> c.entry.span.offset + c.result <= |w.file|))
  }

  /** A positive result transfers exactly that many leading bytes; any other, nothing. */
  function Effect(w: World, c: Cqe): World {
    if 0 < c.result <= c.entry.span.Len() then Perform(w, Piece(c.entry.span, 0, c.result)) else w
  }

  ghost predicate Lawful(w: World, cqes: seq<Cqe>)
    decreases |cqes|
  {
    |cqes| == 0 || (Legal(w, cqes[0]) && Lawful(Effect(w, cqes[0]), cqes[1..]))
  }

  ghost function Run(w: World, cqes: seq<Cqe>): World
    decreases |cqes|
  {
    if |cqes| == 0 then w else Run(Effect(w, cqes[0]), cqes[1..])
  }

  function EntriesOf(cqes: seq<Cqe>): seq<Entry> {
    seq(|cqes|, i requires 0 <= i < |cqes| => cqes[i].entry)
  }

  function ReapEvents(cqes: seq<Cqe>): seq<Event> {
    seq(|cqes|, i requires 0 <= i < |cqes| => Reaped(cqes[i]))
  }

  lemma {:induction false} RunOneMore(w: World, cqes: seq<Cqe>, c: Cqe)
    requires Lawful(w, cqes) && Legal(Run(w, cqes), c)
    ensures Lawful(w, cqes + [c])
    ensures Run(w, cqes + [c]) == Effect(Run(w, cqes), c)
    decreases |cqes|
  {
    if |cqes| == 0 {
      assert cqes + [c] == [c];
      assert Lawful(Effect(w, c), []) && Run(Effect(w, c), []) == Effect(w, c);
    } else {
      RunOneMore(Effect(w, cqes[0]), cqes[1..], c);
      assert (cqes + [c])[1..] == cqes[1..] + [c];
    }
  }

  // ---------------------------------------------------------------------------
  // What the event log says
  // ---------------------------------------------------------------------------

  /** The error a completion with no progress is recorded as. */
  function ReapError(c: Cqe): Option<Error> {
    if c.result < 0 then Some(Os(-c.result))
    else if c.result == 0 then Some(if c.entry.span.ReadInto? then UnexpectedEof else WriteZero)
    else None
  }

  function ErrorOf(event: Event): Option<Error> {
    match event
    case Pushed(_) => None
    case WaitFailed(error) => Some(error)
    case Reaped(c) => ReapError(c)
  }

  /** The errors a loop may record. */
  predicate Recordable(error: Error) {
    error.Submit? || error.Os? || error.UnexpectedEof? || error.WriteZero?
  }

  ghost function FirstError(log: seq<Event>): Option<Error> {
    if |log| == 0 then None
    else
      var earlier := FirstError(log[..|log| - 1]);
      if earlier.Some? then earlier else ErrorOf(log[|log| - 1])
  }

  /** Bytes of job `i` that completions have reported. */
  ghost function BytesReported(log: seq<Event>, i: nat): nat {
    if |log| == 0 then 0
    else
      var last := log[|log| - 1];
      BytesReported(log[..|log| - 1], i)
      + if last.Reaped? && last.cqe.entry.userData == i && last.cqe.result > 0 then last.cqe.result else 0
  }

  ghost function Submissions(log: seq<Event>): nat {
    if |log| == 0 then 0
    else Submissions(log[..|log| - 1]) + if log[|log| - 1].Pushed? then 1 else 0
  }

  /** Nothing is submitted once an error is on record. */
  ghost predicate NoPushAfterError(log: seq<Event>) {
    forall k :: 0 <= k < |log| && log[k].Pushed? ==> FirstError(log[..k]).None?
  }

  lemma LogGrows(log: seq<Event>, event: Event)
    ensures FirstError(log + [event]) == if FirstError(log).Some? then FirstError(log) else ErrorOf(event)
    ensures Submissions(log + [event]) == Submissions(log) + if event.Pushed? then 1 else 0
    ensures forall i: nat :: BytesReported(log + [event], i) == BytesReported(log, i)
              + if event.Reaped? && event.cqe.entry.userData == i && event.cqe.result > 0 then event.cqe.result else 0
    ensures NoPushAfterError(log) && (event.Pushed? ==> FirstError(log).None?) ==> NoPushAfterError(log + [event])
  {
    var longer := log + [event];
    assert longer[..|longer| - 1] == log;
    assert forall k :: 0 <= k <= |log| ==> longer[..k] == log[..k];
    assert log[..|log|] == log;
  }

  /** What happens at the ring when one entry is submitted alone, with the result `r`. */
  ghost function OneShot(span: Transfer, r: Result<nat>): seq<Event> {
    [Pushed(Entry(0, span))] + OneAnswered(span, r)
  }

  ghost function OneAnswered(span: Transfer, r: Result<nat>): seq<Event> {
    match r
    case Ok(n) => [Reaped(Cqe(Entry(0, span), n))]
    case Err(Os(code)) => [Reaped(Cqe(Entry(0, span), -code))]
    case Err(Submit(code)) => [WaitFailed(Submit(code))]
    case Err(_) => []
  }

  // ---------------------------------------------------------------------------
  // Sums of progress
  // ---------------------------------------------------------------------------

  ghost function Sum(s: seq<nat>): nat {
    if |s| == 0 then 0 else Sum(s[..|s| - 1]) + s[|s| - 1]
  }

  ghost function Total(jobs: seq<Transfer>): nat {
    Sum(Lens(jobs))
  }

  lemma {:induction false} SumUpdate(s: seq<nat>, i: nat, v: nat)
    requires i < |s|
    ensures Sum(s[i := v]) == Sum(s) - s[i] + v
  {
    var t := s[i := v];
    if i == |s| - 1 {
      assert t[..|s| - 1] == s[..|s| - 1];
    } else {
      SumUpdate(s[..|s| - 1], i, v);
      assert t[..|s| - 1] == s[..|s| - 1][i := v];
    }
  }

  lemma {:induction false} SumIsMonotone(s: seq<nat>, t: seq<nat>)
    requires |s| == |t| && forall i :: 0 <= i < |s| ==> s[i] <= t[i]
    ensures Sum(s) <= Sum(t)
  {
    if |s| > 0 {
      SumIsMonotone(s[..|s| - 1], t[..|t| - 1]);
    }
  }

  lemma {:induction false} SumOfZeros(s: seq<nat>)
    requires forall i :: 0 <= i < |s| ==> s[i] == 0
    ensures Sum(s) == 0
  {
    if |s| > 0 {
      SumOfZeros(s[..|s| - 1]);
    }
  }

  // ---------------------------------------------------------------------------
  // The scheduler's invariant
  // ---------------------------------------------------------------------------

  /** The fixed part of one call: the world it found, its jobs and the depth it may use. */
  datatype Plan = Plan(start: World, jobs: seq<Transfer>, depth: nat)

  /** The variables of a loop. */
  datatype Sched = Sched(done: seq<nat>, state: seq<SubmissionState>, inFlight: int, pending: Option<Error>)

  /** The entry the loop submits for job `i`: the rest of the job, cut to what a ring entry can hold. */
  function EntryFor(jobs: seq<Transfer>, i: nat, done: nat): Entry
    requires i < |jobs| && done <= jobs[i].Len()
  {
    Entry(i, Piece(jobs[i], done, Min(jobs[i].Len() - done, MAX_IO_LEN)))
  }

  /** Progress, and what each state says about it. */
  ghost predicate Shape(jobs: seq<Transfer>, done: seq<nat>, state: seq<SubmissionState>) {
    && WithinJobs(jobs, done)
    && |state| == |jobs|
    && forall i :: 0 <= i < |jobs| ==>
         && (state[i].Done? ==> done[i] == jobs[i].Len())
         && (state[i].InFlight? ==> done[i] < jobs[i].Len() && jobs[i].offset + done[i] <= U64_MAX)
  }

  /** One entry for each of the first `k` jobs that is in flight, and nothing else. */
  ghost function Expected(jobs: seq<Transfer>, done: seq<nat>, state: seq<SubmissionState>, k: nat): multiset<Entry>
    requires WithinJobs(jobs, done) && |state| == |jobs| && k <= |jobs|
  {
    if k == 0 then multiset{}
    else Expected(jobs, done, state, k - 1)
         + if state[k - 1].InFlight? then multiset{EntryFor(jobs, k - 1, done[k - 1])} else multiset{}
  }

  ghost function InFlightJobs(state: seq<SubmissionState>): nat {
    if |state| == 0 then 0
    else InFlightJobs(state[..|state| - 1]) + if state[|state| - 1].InFlight? then 1 else 0
  }

  /** The world in which every job has moved exactly the bytes it counts as done. */
  ghost function Here(p: Plan, done: seq<nat>): World
    requires WithinJobs(p.jobs, done)
  {
    Progressed(p.start, p.jobs, done, |p.jobs|)
  }

  /** Bytes counted as moved lie within 64-bit offsets, and bytes read inside the file. */
  ghost predicate Fits(p: Plan, done: seq<nat>)
    requires WithinJobs(p.jobs, done)
  {
    forall i :: 0 <= i < |p.jobs| && done[i] > 0 ==>
      && p.jobs[i].offset + done[i] <= U64_MAX
      && (p.jobs[i].ReadInto? ==> p.jobs[i].offset + done[i] <= |p.start.file|)
  }

  /** Jobs of one kind that may be carried out in any order. */
  ghost predicate Sound(p: Plan) {
    PairwiseIndependent(p.jobs) && (AllReads(p.jobs) || AllWrites(p.jobs))
  }

  /** The kernel owes exactly one answer to each job in flight. */
  ghost predicate Tracked(p: Plan, s: Sched, held: multiset<Entry>, cqes: seq<Cqe>) {
    && Shape(p.jobs, s.done, s.state)
    && held + multiset(EntriesOf(cqes)) == Expected(p.jobs, s.done, s.state, |p.jobs|)
    && s.inFlight == |held| + |cqes|
  }

  /** The file and the buffers are ahead of the counters by the completions not yet processed. */
  ghost predicate Moved(p: Plan, done: seq<nat>, cqes: seq<Cqe>, w: World) {
    && WithinJobs(p.jobs, done)
    && Fits(p, done)
    && Lawful(Here(p, done), cqes)
    && w == Run(Here(p, done), cqes)
  }

  /**
   * The entry pushed at `k` asks for the bytes of its job that follow those reported before,
   * all of them or as many as 32 bits can count, at a 64-bit offset.
   */
  ghost predicate AsksForRest(jobs: seq<Transfer>, log: seq<Event>, k: nat) {
    && k < |log| && log[k].Pushed?
    && var e := log[k].entry;
      && e.userData < |jobs|
      && var moved := BytesReported(log[..k], e.userData);
        && moved < jobs[e.userData].Len()
        && jobs[e.userData].offset + moved <= U64_MAX
        && e.span.Len() == Min(jobs[e.userData].Len() - moved, 0xFFFF_FFFF)
        && e.span == Piece(jobs[e.userData], moved, e.span.Len())
  }

  ghost predicate PushesAskForRest(jobs: seq<Transfer>, log: seq<Event>) {
    forall k :: 0 <= k < |log| && log[k].Pushed? ==> AsksForRest(jobs, log, k)
  }

  lemma PushesGrow(jobs: seq<Transfer>, log: seq<Event>, event: Event)
    requires PushesAskForRest(jobs, log)
    requires event.Pushed? ==> AsksForRest(jobs, log + [event], |log|)
    ensures PushesAskForRest(jobs, log + [event])
  {
    hide BytesReported;
    var longer := log + [event];
    forall k | 0 <= k < |longer| && longer[k].Pushed?
      ensures AsksForRest(jobs, longer, k)
    {
      if k < |log| {
        assert AsksForRest(jobs, log, k);
        assert longer[..k] == log[..k];
      }
    }
  }

  /** The counters agree with the log, and submissions are bounded by bytes moved. */
  ghost predicate Recorded(p: Plan, s: Sched, log: seq<Event>) {
    && s.pending == FirstError(log)
    && (s.pending.Some? ==> Recordable(s.pending.value))
    && NoPushAfterError(log)
    && PushesAskForRest(p.jobs, log)
    && (forall i :: 0 <= i < |s.done| ==> s.done[i] == BytesReported(log, i))
    && s.inFlight <= p.depth
    && Submissions(log) <= Sum(s.done) + if s.pending.None? then s.inFlight else p.depth
  }

  /**
   * The invariant. `held` is what the ring holds as queued or outstanding entries, `cqes`
   * the completions not yet processed, `log` the events up to the processed ones, and `w`
   * the file and the buffers as they are.
   */
  ghost predicate Inv(p: Plan, s: Sched, held: multiset<Entry>, cqes: seq<Cqe>, log: seq<Event>, w: World) {
    && Sound(p)
    && Tracked(p, s, held, cqes)
    && Recorded(p, s, log)
    && Moved(p, s.done, cqes, w)
  }

  lemma {:induction false} ExpectedEntry(jobs: seq<Transfer>, done: seq<nat>, state: seq<SubmissionState>, k: nat,
                                         e: Entry)
    requires WithinJobs(jobs, done) && |state| == |jobs| && k <= |jobs|
    ensures Expected(jobs, done, state, k)[e]
         == if e.userData < k && state[e.userData].InFlight? && e == EntryFor(jobs, e.userData, done[e.userData])
            then 1 else 0
  {
    if k > 0 {
      ExpectedEntry(jobs, done, state, k - 1, e);
    }
  }

  lemma {:induction false} ExpectedCount(jobs: seq<Transfer>, done: seq<nat>, state: seq<SubmissionState>, k: nat)
    requires WithinJobs(jobs, done) && |state| == |jobs| && k <= |jobs|
    ensures |Expected(jobs, done, state, k)| == InFlightJobs(state[..k])
  {
    if k > 0 {
      ExpectedCount(jobs, done, state, k - 1);
      assert state[..k][..k - 1] == state[..k - 1];
    }
  }

  /** What job `i` contributes to `Expected`. */
  ghost function Share(jobs: seq<Transfer>, done: seq<nat>, state: seq<SubmissionState>, i: nat): multiset<Entry>
    requires WithinJobs(jobs, done) && |state| == |jobs| && i < |jobs|
  {
    if state[i].InFlight? then multiset{EntryFor(jobs, i, done[i])} else multiset{}
  }

  lemma ExpectedUpdate(jobs: seq<Transfer>, done: seq<nat>, state: seq<SubmissionState>,
                       done': seq<nat>, state': seq<SubmissionState>, i: nat)
    requires WithinJobs(jobs, done) && |state| == |jobs|
    requires WithinJobs(jobs, done') && |state'| == |jobs| && i < |jobs|
    requires forall j :: 0 <= j < |jobs| && j != i ==> done'[j] == done[j] && state'[j] == state[j]
    ensures Share(jobs, done, state, i) <= Expected(jobs, done, state, |jobs|)
    ensures Expected(jobs, done', state', |jobs|)
         == Expected(jobs, done, state, |jobs|) - Share(jobs, done, state, i) + Share(jobs, done', state', i)
  {
    hide Expected, Piece;
    var before, after := Expected(jobs, done, state, |jobs|), Expected(jobs, done', state', |jobs|);
    forall e: Entry
      ensures before[e] >= Share(jobs, done, state, i)[e]
      ensures after[e] == before[e] - Share(jobs, done, state, i)[e] + Share(jobs, done', state', i)[e]
    {
      ExpectedEntry(jobs, done, state, |jobs|, e);
      ExpectedEntry(jobs, done', state', |jobs|, e);
    }
  }

  // ---------------------------------------------------------------------------
  // The steps of a loop
  // ---------------------------------------------------------------------------

  function Initial(n: nat): Sched {
    Sched(seq(n, _ => 0), seq(n, _ => Idle), 0, None)
  }

  lemma {:induction false} NothingExpected(jobs: seq<Transfer>, done: seq<nat>, state: seq<SubmissionState>, k: nat)
    requires WithinJobs(jobs, done) && |state| == |jobs| && k <= |jobs|
    requires forall i :: 0 <= i < k ==> !state[i].InFlight?
    ensures Expected(jobs, done, state, k) == multiset{}
  {
    if k > 0 {
      NothingExpected(jobs, done, state, k - 1);
    }
  }

  lemma InvStarts(p: Plan)
    requires Sound(p)
    ensures Inv(p, Initial(|p.jobs|), multiset{}, [], [], p.start)
  {
    var s := Initial(|p.jobs|);
    NothingExpected(p.jobs, s.done, s.state, |p.jobs|);
    NothingProgressed(p.start, p.jobs, s.done, |p.jobs|);
    SumOfZeros(s.done);
  }

  lemma SkipTracks(p: Plan, s: Sched, held: multiset<Entry>, cqes: seq<Cqe>, i: nat)
    requires Tracked(p, s, held, cqes)
    requires i < |p.jobs| && s.state[i].Idle? && s.done[i] == p.jobs[i].Len()
    ensures Tracked(p, s.(state := s.state[i := Done]), held, cqes)
  {
    hide EntryFor, Expected;
    ExpectedUpdate(p.jobs, s.done, s.state, s.done, s.state[i := Done], i);
  }

  /** An idle job with nothing left is marked done. */
  lemma InvSkips(p: Plan, s: Sched, held: multiset<Entry>, cqes: seq<Cqe>, log: seq<Event>, w: World, i: nat)
    requires Inv(p, s, held, cqes, log, w)
    requires i < |p.jobs| && s.state[i].Idle? && s.done[i] == p.jobs[i].Len()
    ensures Inv(p, s.(state := s.state[i := Done]), held, cqes, log, w)
  {
    hide Expected, EntryFor, FirstError, BytesReported;
    SkipTracks(p, s, held, cqes, i);
  }

  /** The loop variables once job `i` has been submitted. */
  function AfterSubmit(s: Sched, i: nat): Sched
    requires i < |s.state|
  {
    s.(state := s.state[i := InFlight], inFlight := s.inFlight + 1)
  }

  lemma SubmitTracks(p: Plan, s: Sched, held: multiset<Entry>, i: nat)
    requires Tracked(p, s, held, [])
    requires i < |p.jobs| && s.state[i].Idle? && s.done[i] < p.jobs[i].Len() && p.jobs[i].offset + s.done[i] <= U64_MAX
    ensures Tracked(p, AfterSubmit(s, i), held + multiset{EntryFor(p.jobs, i, s.done[i])}, [])
  {
    hide EntryFor, Expected;
    ExpectedUpdate(p.jobs, s.done, s.state, s.done, s.state[i := InFlight], i);
    assert multiset(EntriesOf([])) == multiset{};
  }

  lemma SubmitRecords(p: Plan, s: Sched, log: seq<Event>, i: nat)
    requires Recorded(p, s, log) && i < |s.state| == |s.done| == |p.jobs| && s.inFlight < p.depth && s.pending.None?
    requires s.done[i] < p.jobs[i].Len() && p.jobs[i].offset + s.done[i] <= U64_MAX
    ensures Recorded(p, AfterSubmit(s, i), log + [Pushed(EntryFor(p.jobs, i, s.done[i]))])
  {
    hide BytesReported, FirstError, PushesAskForRest, Submissions, NoPushAfterError, Sum;
    var event := Pushed(EntryFor(p.jobs, i, s.done[i]));
    LogGrows(log, event);
    assert (log + [event])[..|log|] == log;
    PushesGrow(p.jobs, log, event);
  }

  /** An idle job with bytes left is submitted, while there is room and no error. */
  lemma InvSubmits(p: Plan, s: Sched, held: multiset<Entry>, log: seq<Event>, w: World, i: nat)
    requires Inv(p, s, held, [], log, w)
    requires i < |p.jobs| && s.state[i].Idle? && s.done[i] < p.jobs[i].Len()
    requires s.inFlight < p.depth && s.pending.None? && p.jobs[i].offset + s.done[i] <= U64_MAX
    ensures var entry := EntryFor(p.jobs, i, s.done[i]);
            Inv(p, AfterSubmit(s, i), held + multiset{entry}, [], log + [Pushed(entry)], w)
  {
    hide Recorded, EntryFor, Expected;
    SubmitTracks(p, s, held, i);
    SubmitRecords(p, s, log, i);
  }

  /** A failed wait is recorded, unless an earlier error already is. */
  lemma InvWaitFails(p: Plan, s: Sched, held: multiset<Entry>, cqes: seq<Cqe>, log: seq<Event>, w: World, error: Error)
    requires Inv(p, s, held, cqes, log, w) && error.Submit?
    ensures Inv(p, s.(pending := GetOrInsert(s.pending, error)), held, cqes, log + [WaitFailed(error)], w)
  {
    LogGrows(log, WaitFailed(error));
    PushesGrow(p.jobs, log, WaitFailed(error));
  }

  /** The kernel turns some of the entries it holds into completions, in an order of its own. */
  lemma InvDelivers(p: Plan, s: Sched, held: multiset<Entry>, held': multiset<Entry>, delivered: seq<Cqe>,
                    log: seq<Event>, w: World, w': World)
    requires Inv(p, s, held, [], log, w)
    requires held' + multiset(EntriesOf(delivered)) == held
    requires Lawful(w, delivered) && w' == Run(w, delivered)
    ensures Inv(p, s, held', delivered, log, w')
  {
    assert |held| == |held'| + |multiset(EntriesOf(delivered))|;
  }

  /** `c` answers what job `c.entry.userData` asked for, and reports no more than that. */
  ghost predicate Answers(p: Plan, s: Sched, c: Cqe) {
    && Shape(p.jobs, s.done, s.state)
    && c.entry.userData < |p.jobs|
    && s.state[c.entry.userData].InFlight?
    && c.entry == EntryFor(p.jobs, c.entry.userData, s.done[c.entry.userData])
    && c.result <= c.entry.span.Len()
    && s.inFlight > 0
  }

  /** The loop body that processes one completion. */
  function AfterReap(p: Plan, s: Sched, c: Cqe): Sched
    requires |s.done| == |s.state| == |p.jobs| && c.entry.userData < |p.jobs|
  {
    var i := c.entry.userData;
    if c.result < 0 then
      s.(inFlight := s.inFlight - 1, state := s.state[i := Idle], pending := GetOrInsert(s.pending, Os(-c.result)))
    else if c.result == 0 then
      s.(inFlight := s.inFlight - 1, state := s.state[i := Idle],
         pending := GetOrInsert(s.pending, if p.jobs[i].ReadInto? then UnexpectedEof else WriteZero))
    else
      var now := s.done[i] + c.result;
      s.(inFlight := s.inFlight - 1, done := s.done[i := now],
         state := s.state[i := if now >= p.jobs[i].Len() then Done else Idle])
  }

  /** What the next completion answers: the one entry of a job that is in flight. */
  lemma NextCompletion(p: Plan, s: Sched, held: multiset<Entry>, cqes: seq<Cqe>, w: World)
    requires Tracked(p, s, held, cqes) && Moved(p, s.done, cqes, w) && |cqes| > 0
    ensures Answers(p, s, cqes[0])
  {
    var e := cqes[0].entry;
    assert EntriesOf(cqes)[0] == e;
    assert e in multiset(EntriesOf(cqes));
    ExpectedEntry(p.jobs, s.done, s.state, |p.jobs|, e);
  }

  /** The completion moves its bytes to exactly where the counter will say they are. */
  lemma CompletionAdvancesJob(p: Plan, done: seq<nat>, i: nat, c: Cqe)
    requires WithinJobs(p.jobs, done) && PairwiseIndependent(p.jobs) && i < |p.jobs|
    requires c.entry == EntryFor(p.jobs, i, done[i]) && 0 < c.result <= c.entry.span.Len()
    ensures Effect(Here(p, done), c) == Here(p, done[i := done[i] + c.result])
  {
    PieceOfPiece(p.jobs[i], done[i], c.entry.span.Len(), c.result);
    JobAdvances(p.start, p.jobs, done, i, c.result, |p.jobs|);
  }

  lemma RemoveOne<T>(held: multiset<T>, rest: multiset<T>, x: T, all: multiset<T>)
    requires held + (multiset{x} + rest) == all
    ensures held + rest == all - multiset{x} && |held + rest| == |all| - 1
  {
  }

  lemma ReapShapes(p: Plan, s: Sched, c: Cqe)
    requires Answers(p, s, c)
    ensures var s' := AfterReap(p, s, c);
            && Shape(p.jobs, s'.done, s'.state)
            && !s'.state[c.entry.userData].InFlight?
            && s'.inFlight == s.inFlight - 1
            && forall j :: 0 <= j < |p.jobs| && j != c.entry.userData ==>
                 s'.done[j] == s.done[j] && s'.state[j] == s.state[j]
  {
  }

  lemma ReapTracks(p: Plan, s: Sched, s': Sched, held: multiset<Entry>, cqes: seq<Cqe>)
    requires Tracked(p, s, held, cqes) && |cqes| > 0 && Answers(p, s, cqes[0])
    requires s'.inFlight == s.inFlight - 1 && Shape(p.jobs, s'.done, s'.state)
    requires !s'.state[cqes[0].entry.userData].InFlight?
    requires forall j :: 0 <= j < |p.jobs| && j != cqes[0].entry.userData ==>
               s'.done[j] == s.done[j] && s'.state[j] == s.state[j]
    ensures Tracked(p, s', held, cqes[1..])
  {
    var e := cqes[0].entry;
    ExpectedUpdate(p.jobs, s.done, s.state, s'.done, s'.state, e.userData);
    assert EntriesOf(cqes) == [e] + EntriesOf(cqes[1..]);
    RemoveOne(held, multiset(EntriesOf(cqes[1..])), e, Expected(p.jobs, s.done, s.state, |p.jobs|));
  }

  lemma ReapMoves(p: Plan, s: Sched, cqes: seq<Cqe>, w: World)
    requires Sound(p) && Moved(p, s.done, cqes, w) && |cqes| > 0 && Answers(p, s, cqes[0])
    ensures Moved(p, AfterReap(p, s, cqes[0]).done, cqes[1..], w)
  {
    var c := cqes[0];
    if c.result > 0 {
      CompletionAdvancesJob(p, s.done, c.entry.userData, c);
      ProgressFrame(p.start, p.jobs, s.done, |p.jobs|);
    }
  }

  lemma ReapAdds(p: Plan, s: Sched, c: Cqe)
    requires Answers(p, s, c)
    ensures var s' := AfterReap(p, s, c);
            Sum(s'.done) == Sum(s.done) + if c.result > 0 then c.result else 0
  {
    if c.result > 0 {
      SumUpdate(s.done, c.entry.userData, s.done[c.entry.userData] + c.result);
    }
  }

  lemma ReapRecords(p: Plan, s: Sched, c: Cqe, log: seq<Event>)
    requires Recorded(p, s, log) && Answers(p, s, c)
    ensures Recorded(p, AfterReap(p, s, c), log + [Reaped(c)])
  {
    LogGrows(log, Reaped(c));
    PushesGrow(p.jobs, log, Reaped(c));
    ReapAdds(p, s, c);
    assert ReapError(c).Some? ==> AfterReap(p, s, c).pending == GetOrInsert(s.pending, ReapError(c).value);
  }

  /** Processing one completion keeps the invariant. */
  lemma InvReaps(p: Plan, s: Sched, held: multiset<Entry>, cqes: seq<Cqe>, log: seq<Event>, w: World)
    requires Inv(p, s, held, cqes, log, w) && |cqes| > 0
    ensures Answers(p, s, cqes[0])
    ensures Inv(p, AfterReap(p, s, cqes[0]), held, cqes[1..], log + [Reaped(cqes[0])], w)
    ensures var s' := AfterReap(p, s, cqes[0]);
            Sum(s'.done) >= Sum(s.done) && (s'.pending.None? ==> Sum(s'.done) > Sum(s.done))
  {
    NextCompletion(p, s, held, cqes, w);
    ReapShapes(p, s, cqes[0]);
    ReapTracks(p, s, AfterReap(p, s, cqes[0]), held, cqes);
    ReapMoves(p, s, cqes, w);
    ReapRecords(p, s, cqes[0], log);
    ReapAdds(p, s, cqes[0]);
  }

  // ---------------------------------------------------------------------------
  // What the invariant gives
  // ---------------------------------------------------------------------------

  /** `e` asks for the bytes of its job that follow the ones already done, as many as an entry can hold. */
  ghost predicate AsksForTheRest(p: Plan, s: Sched, e: Entry) {
    && Shape(p.jobs, s.done, s.state)
    && e.userData < |p.jobs|
    && s.state[e.userData].InFlight?
    && e.span.Len() == Min(p.jobs[e.userData].Len() - s.done[e.userData], MAX_IO_LEN) > 0
    && e.span == Piece(p.jobs[e.userData], s.done[e.userData], e.span.Len())
  }

  /**
   * `in_flight` is the number of jobs in flight and of entries the kernel still owes an
   * answer for; each of those entries is the only one with its user data and asks for a
   * piece that starts exactly where its job has got to; and no two of them touch the same
   * buffer byte, or for writes the same file byte.
   */
  lemma InFlightEntries(p: Plan, s: Sched, held: multiset<Entry>, cqes: seq<Cqe>, log: seq<Event>, w: World)
    requires Inv(p, s, held, cqes, log, w)
    ensures 0 <= s.inFlight == InFlightJobs(s.state) <= p.depth
    ensures s.inFlight == |held + multiset(EntriesOf(cqes))|
    ensures forall e :: e in held + multiset(EntriesOf(cqes)) ==>
              (held + multiset(EntriesOf(cqes)))[e] == 1 && AsksForTheRest(p, s, e)
    ensures forall d, e :: d in held + multiset(EntriesOf(cqes)) && e in held + multiset(EntriesOf(cqes)) && d != e ==>
              d.userData != e.userData && Independent(d.span, e.span)
  {
    hide Expected, Lawful, Run, FirstError, BytesReported, PushesAskForRest;
    var all := held + multiset(EntriesOf(cqes));
    ExpectedCount(p.jobs, s.done, s.state, |p.jobs|);
    assert s.state[..|p.jobs|] == s.state;
    forall e | e in all
      ensures all[e] == 1 && AsksForTheRest(p, s, e)
    {
      ExpectedEntry(p.jobs, s.done, s.state, |p.jobs|, e);
    }
    forall d, e | d in all && e in all && d != e
      ensures d.userData != e.userData && Independent(d.span, e.span)
    {
      ExpectedEntry(p.jobs, s.done, s.state, |p.jobs|, d);
      ExpectedEntry(p.jobs, s.done, s.state, |p.jobs|, e);
      DistinctEntriesAreIndependent(p, s, d, e);
    }
  }

  lemma DistinctEntriesAreIndependent(p: Plan, s: Sched, d: Entry, e: Entry)
    requires Sound(p) && AsksForTheRest(p, s, d) && AsksForTheRest(p, s, e) && d.userData != e.userData
    ensures Independent(d.span, e.span)
  {
    if d.userData < e.userData {
      assert Independent(p.jobs[d.userData], p.jobs[e.userData]);
    } else {
      assert Independent(p.jobs[e.userData], p.jobs[d.userData]);
    }
  }

  lemma InvBounds(p: Plan, s: Sched, held: multiset<Entry>, cqes: seq<Cqe>, log: seq<Event>, w: World)
    requires Inv(p, s, held, cqes, log, w)
    ensures s.inFlight == |held| + |cqes| && Sum(s.done) <= Total(p.jobs)
    ensures WithinJobs(p.jobs, s.done) && |s.state| == |p.jobs| && Fits(p, s.done)
  {
    SumIsMonotone(s.done, Lens(p.jobs));
  }

  /** Nothing in flight and no job idle means that every job is complete. */
  lemma NothingInFlightMeansComplete(p: Plan, s: Sched, held: multiset<Entry>, log: seq<Event>, w: World)
    requires Inv(p, s, held, [], log, w) && s.inFlight == 0
    requires forall i :: 0 <= i < |p.jobs| ==> !s.state[i].Idle?
    ensures forall i :: 0 <= i < |p.jobs| ==> s.done[i] == p.jobs[i].Len()
    ensures w == Performed(p.start, p.jobs, |p.jobs|)
  {
    assert held == multiset{};
    forall i | 0 <= i < |p.jobs|
      ensures s.done[i] == p.jobs[i].Len()
    {
      if s.state[i].InFlight? {
        ExpectedEntry(p.jobs, s.done, s.state, |p.jobs|, EntryFor(p.jobs, i, s.done[i]));
      }
    }
    ProgressedInFull(p.start, p.jobs, s.done, |p.jobs|);
  }
}
