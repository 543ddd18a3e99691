/**
 * What calls leave in a ring, and what becomes of a call that finds something there. The
 * counter of entries in flight is taken as it is in the code, 32 bits wide, so that runs in
 * which it underflows are covered: code built with overflow checks stops there, other code
 * goes on with the wrapped value. Completions whose user data is no index into the jobs
 * stop the code too and are left out.
 */
module Leftovers {
  import opened Common
  import opened Splicing
  import opened Transfers
  import opened Scheduler
  import opened Schedules

  const TWO_TO_THE_32: nat := U32_MAX + 1

  // ---------------------------------------------------------------------------
  // A cursor operation
  // ---------------------------------------------------------------------------

  /** What a cursor operation on a quiescent ring returns, and what it leaves in the ring and in the world. */
  datatype Lone = Lone(result: Result<nat>, held: multiset<Entry>, ripe: seq<Cqe>, world: World) {
    ghost predicate LeavesNothing() {
      held == multiset{} && ripe == []
    }
  }

  /** The kernel may take `turn` while a cursor operation waits on a ring that held `held` before. */
  ghost predicate MayAnswerLoneOn(w: World, held: multiset<Entry>, span: Transfer, turn: Turn) {
    && multiset(EntriesOf(turn.answers)) <= held + multiset{Entry(0, span)}
    && Lawful(w, turn.answers)
    && (turn.failure.Some? ==> turn.failure.value.Submit?)
  }

  function LoneResult(c: Cqe): Result<nat> {
    if c.result < 0 then Err(Os(-c.result)) else Ok(c.result)
  }

  /**
   * A cursor operation on a ring that holds `held` and has `ripe` to collect: nothing for an
   * empty buffer, an error if the submission queue is full, and otherwise one entry, one
   * wait, and the oldest answer, whoever asked for it.
   */
  ghost function LoneCallOn(w: World, held: multiset<Entry>, ripe: seq<Cqe>, full: bool, span: Transfer,
                            turn: Turn): Lone
  {
    var rest := held + multiset{Entry(0, span)} - multiset(EntriesOf(turn.answers));
    var arrived, world := ripe + turn.answers, Run(w, turn.answers);
    if span.Len() == 0 then Lone(Ok(0), held, ripe, w)
    else if full then Lone(Err(SqFull), held, ripe, w)
    else if turn.failure.Some? then Lone(Err(turn.failure.value), rest, arrived, world)
    else if |arrived| == 0 then Lone(Err(NoCqe), rest, [], world)
    else Lone(LoneResult(arrived[0]), rest, arrived[1..], world)
  }

  ghost predicate MayAnswerLone(w: World, span: Transfer, turn: Turn) {
    MayAnswerLoneOn(w, multiset{}, span, turn)
  }

  /** The same on a quiescent ring. */
  ghost function LoneCall(w: World, span: Transfer, turn: Turn): Lone {
    LoneCallOn(w, multiset{}, [], false, span, turn)
  }

  /**
   * Whatever the kernel does, a cursor operation leaves in the ring what it found there,
   * and one more exactly if the wait fails or brings no answer.
   */
  lemma LoneCallLeavesWhatItFound(w: World, held: multiset<Entry>, ripe: seq<Cqe>, full: bool, span: Transfer,
                                  turn: Turn)
    requires MayAnswerLoneOn(w, held, span, turn)
    ensures var after := LoneCallOn(w, held, ripe, full, span, turn);
            |after.held| + |after.ripe| == |held| + |ripe|
              + if after.result.Err? && (after.result.error.Submit? || after.result.error.NoCqe?) then 1 else 0
  {
    var all := held + multiset{Entry(0, span)};
    TakenAway(all, EntriesOf(turn.answers));
    assert |all| == |held| + 1;
  }

  /** On a quiescent ring the entry is answered once at most. */
  lemma AtMostOneAnswer(w: World, span: Transfer, turn: Turn)
    requires MayAnswerLone(w, span, turn)
    ensures |turn.answers| <= 1
    ensures |turn.answers| == 1 ==> turn.answers[0].entry == Entry(0, span)
  {
    var answered := multiset(EntriesOf(turn.answers));
    TakenAway(multiset{} + multiset{Entry(0, span)}, EntriesOf(turn.answers));
    if |turn.answers| > 0 {
      assert EntriesOf(turn.answers)[0] in answered;
    }
  }

  /** The events of a cursor operation on a quiescent ring once its entry is pushed. */
  lemma LoneEvents(w: World, span: Transfer, turn: Turn)
    requires MayAnswerLone(w, span, turn) && span.Len() > 0
    ensures OneAnswered(span, LoneCall(w, span, turn).result)
         == if turn.failure.Some? then [WaitFailed(turn.failure.value)]
            else if |turn.answers| == 0 then []
            else [Reaped(turn.answers[0])]
  {
    hide Lawful, Run;
    AtMostOneAnswer(w, span, turn);
    assert [] + turn.answers == turn.answers;
  }

  /**
   * The events at the ring and the result of a cursor operation that got one: its entry is
   * pushed; then the wait fails, with that error; or its answer is collected, which is the
   * result; or there is no answer.
   */
  ghost predicate AnsweredBy(log: seq<Event>, span: Transfer, r: Result<nat>) {
    && 1 <= |log| <= 2
    && log[0] == Pushed(Entry(0, span))
    && (|log| == 1 ==> r == Err(NoCqe))
    && (|log| == 2 ==> !log[1].Pushed?)
    && (|log| == 2 && log[1].WaitFailed? ==> r == Err(log[1].error) && r.error.Submit?)
    && (|log| == 2 && log[1].Reaped? ==>
          && log[1].cqe.entry == Entry(0, span)
          && (log[1].cqe.result >= 0 ==> r == Ok(log[1].cqe.result))
          && (log[1].cqe.result < 0 ==> r == Err(Os(-log[1].cqe.result))))
  }

  lemma LoneCallIsAnswered(w: World, span: Transfer, turn: Turn)
    requires MayAnswerLone(w, span, turn) && span.Len() > 0
    ensures var r := LoneCall(w, span, turn).result;
            AnsweredBy(OneShot(span, r), span, r) && (r.Err? && r.error.Os? ==> r.error.code > 0)
  {
    hide Lawful, Run;
    AtMostOneAnswer(w, span, turn);
    assert [] + turn.answers == turn.answers;
  }

  /**
   * What a cursor operation on a quiescent ring moves: the bytes it reports, or none if it
   * reports an error of the transfer; after a failed wait, or one that brought no answer,
   * whatever the kernel has moved by then. It leaves its entry in the ring exactly in the
   * last two cases.
   */
  lemma LoneCallMoves(w: World, span: Transfer, turn: Turn) returns (moved: nat)
    requires MayAnswerLone(w, span, turn) && span.Len() > 0
    ensures var lone := LoneCall(w, span, turn);
            && moved <= span.Len()
            && lone.world == Perform(w, Piece(span, 0, moved))
            && (moved > 0 ==> Legal(w, Cqe(Entry(0, span), moved)))
            && (lone.result.Ok? ==> moved == lone.result.value)
            && (lone.result.Err? && lone.result.error.Os? ==> moved == 0)
            && (lone.result.Err? ==> lone.result.error.Os? || lone.result.error.Submit? || lone.result.error.NoCqe?)
            && (lone.LeavesNothing() <==> lone.result.Ok? || lone.result.error.Os?)
  {
    hide Perform, Piece;
    AtMostOneAnswer(w, span, turn);
    LoneCallLeavesWhatItFound(w, multiset{}, [], false, span, turn);
    EmptyTransferDoesNothing(w, Piece(span, 0, 0));
    moved := 0;
    assert [] + turn.answers == turn.answers;
    if |turn.answers| == 1 {
      var c := turn.answers[0];
      assert turn.answers == [c] && [c][1..] == [] && Run(Effect(w, c), []) == Effect(w, c);
      assert Run(w, turn.answers) == Effect(w, c);
      if c.result > 0 {
        moved := c.result;
      }
    }
  }

  /**
   * On a quiescent ring, the kernel can make a cursor operation leave its entry exactly when
   * the buffer is not empty.
   */
  lemma LoneCallCanLeaveItsEntry(w: World, span: Transfer)
    ensures (exists turn :: MayAnswerLone(w, span, turn) && !LoneCall(w, span, turn).LeavesNothing())
       <==> span.Len() > 0
  {
    var refused := Turn(Some(Submit(0)), []);
    assert MayAnswerLone(w, span, refused) by {
      assert EntriesOf([]) == [];
    }
    assert Entry(0, span) in multiset{} + multiset{Entry(0, span)} - multiset(EntriesOf(refused.answers));
  }

  lemma TakenAway<T>(all: multiset<T>, some: seq<T>)
    requires multiset(some) <= all
    ensures |all| == |all - multiset(some)| + |some|
  {
    assert all == (all - multiset(some)) + multiset(some);
  }

  /** A turn of the kernel seen from what the ring holds after it. */
  lemma LoneTurn(w: World, span: Transfer, held: multiset<Entry>, turn: Turn)
    requires held + multiset(EntriesOf(turn.answers)) == multiset{Entry(0, span)} && Lawful(w, turn.answers)
    requires span.Len() > 0 && (turn.failure.Some? ==> turn.failure.value.Submit?)
    ensures MayAnswerLone(w, span, turn)
    ensures LoneCall(w, span, turn)
         == var world := Run(w, turn.answers);
            if turn.failure.Some? then Lone(Err(turn.failure.value), held, turn.answers, world)
            else if |turn.answers| == 0 then Lone(Err(NoCqe), held, turn.answers, world)
            else Lone(LoneResult(turn.answers[0]), held, turn.answers[1..], world)
  {
    hide Lawful, EntriesOf;
    assert multiset{} + multiset{Entry(0, span)} - multiset(EntriesOf(turn.answers)) == held;
    assert [] + turn.answers == turn.answers;
    assert |turn.answers| == 0 ==> turn.answers == [];
  }

  // ---------------------------------------------------------------------------
  // A call on a ring that holds something
  // ---------------------------------------------------------------------------

  /**
   * A call between two of its steps, on any ring: its variables, the entries queued or
   * outstanding, the answers not collected, whoever asked for them, and the world.
   */
  datatype State = State(sched: Sched, held: multiset<Entry>, ripe: seq<Cqe>, world: World) {
    ghost function Count(): nat {
      |held| + |ripe|
    }
  }

  /** A call that finds this in the ring. */
  ghost function Found(p: Plan, held: multiset<Entry>, ripe: seq<Cqe>): State {
    State(Initial(|p.jobs|), held, ripe, p.start)
  }

  /** The variables are such that a pass can be made: without an error, no idle job is past its end. */
  ghost predicate Visitable(p: Plan, s: Sched) {
    && |s.done| == |s.state| == |p.jobs|
    && (s.pending.None? ==> forall i :: 0 <= i < |p.jobs| && s.state[i].Idle? ==> s.done[i] <= p.jobs[i].Len())
  }

  /** A submission pass for which the submission queue has `room` free slots. */
  ghost function PassWithin(p: Plan, s: Sched, idx: nat, room: nat): PassResult
    requires Visitable(p, s) && idx <= |p.jobs|
    decreases |p.jobs| - idx
  {
    if idx == |p.jobs| || s.pending.Some? || s.inFlight >= p.depth then PassResult(s, [], false)
    else if !s.state[idx].Idle? then PassWithin(p, s, idx + 1, room)
    else if s.done[idx] == p.jobs[idx].Len() then PassWithin(p, s.(state := s.state[idx := Done]), idx + 1, room)
    else if p.jobs[idx].offset + s.done[idx] > U64_MAX then PassResult(s, [], true)
    else if room == 0 then PassResult(s.(pending := Some(SqFull)), [], false)
    else
      var rest := PassWithin(p, AfterSubmit(s, idx), idx + 1, room - 1);
      rest.(pushed := [EntryFor(p.jobs, idx, s.done[idx])] + rest.pushed)
  }

  /** A 32-bit counter takes one away. */
  function Decremented(n: int): int {
    if n == 0 then U32_MAX else n - 1
  }

  /** The loop body for one completion, whoever asked for it. */
  function AfterCollect(p: Plan, s: Sched, c: Cqe): Sched
    requires |s.done| == |s.state| == |p.jobs| && c.entry.userData < |p.jobs|
  {
    AfterReap(p, s, c).(inFlight := Decremented(s.inFlight))
  }

  ghost function CollectEach(p: Plan, s: Sched, cqes: seq<Cqe>): Sched
    requires |s.done| == |s.state| == |p.jobs| && ForJobs(p, cqes)
    decreases |cqes|
  {
    if |cqes| == 0 then s else CollectEach(p, AfterCollect(p, s, cqes[0]), cqes[1..])
  }

  /** One round: how much room the pass finds, and the kernel's turn after it. */
  datatype Round = Round(room: nat, turn: Turn)

  ghost function PassedWithin(p: Plan, a: State, room: nat): State
    requires Visitable(p, a.sched)
  {
    var pass := PassWithin(p, a.sched, 0, room);
    a.(sched := pass.sched, held := a.held + multiset(pass.pushed))
  }

  /** The call stops after the next pass. */
  ghost predicate StopsWithin(p: Plan, a: State, room: nat) {
    && Visitable(p, a.sched)
    && var pass := PassWithin(p, a.sched, 0, room); pass.overflow || pass.sched.inFlight == 0
  }

  ghost predicate MayGoOn(p: Plan, a: State, round: Round) {
    && Visitable(p, a.sched)
    && !StopsWithin(p, a, round.room)
    && Visitable(p, PassedWithin(p, a, round.room).sched)
    && ForJobs(p, a.ripe + round.turn.answers)
    && multiset(EntriesOf(round.turn.answers)) <= PassedWithin(p, a, round.room).held
    && Lawful(a.world, round.turn.answers)
    && (round.turn.failure.Some? ==> round.turn.failure.value.Submit?)
  }

  ghost function GoOn(p: Plan, a: State, round: Round): State
    requires MayGoOn(p, a, round)
  {
    var mid := PassedWithin(p, a, round.room);
    State(CollectEach(p, Waited(mid.sched, round.turn.failure), a.ripe + round.turn.answers),
          mid.held - multiset(EntriesOf(round.turn.answers)), [], Run(a.world, round.turn.answers))
  }

  /** These rounds are possible from `from`. */
  ghost predicate Rounds(p: Plan, from: State, rounds: seq<Round>)
    decreases |rounds|, 0
  {
    |rounds| == 0
    || (Rounds(p, from, rounds[..|rounds| - 1])
        && MayGoOn(p, After(p, from, rounds[..|rounds| - 1]), rounds[|rounds| - 1]))
  }

  ghost function After(p: Plan, from: State, rounds: seq<Round>): State
    requires Rounds(p, from, rounds)
    decreases |rounds|, 1
  {
    if |rounds| == 0 then from
    else GoOn(p, After(p, from, rounds[..|rounds| - 1]), rounds[|rounds| - 1])
  }

  /** The call returns after these rounds and one more pass. */
  ghost predicate Returns(p: Plan, from: State, rounds: seq<Round>, room: nat) {
    Rounds(p, from, rounds) && StopsWithin(p, After(p, from, rounds), room)
  }

  ghost function ResultOf(p: Plan, from: State, rounds: seq<Round>, room: nat): Result<()>
    requires Returns(p, from, rounds, room)
  {
    Outcome(PassWithin(p, After(p, from, rounds).sched, 0, room))
  }

  ghost function LeftBy(p: Plan, from: State, rounds: seq<Round>, room: nat): State
    requires Returns(p, from, rounds, room)
  {
    PassedWithin(p, After(p, from, rounds), room)
  }

  // ---------------------------------------------------------------------------
  // What was found is what is left
  // ---------------------------------------------------------------------------

  /**
   * Of what the ring holds, all but `left` has been counted as in flight: the counter is at
   * that number, or at a value that has wrapped around below it.
   */
  ghost predicate Balanced(a: State, left: nat) {
    var owed := a.Count() - left;
    && 0 <= a.sched.inFlight <= U32_MAX
    && owed <= a.sched.inFlight
    && (a.sched.inFlight - owed) % TWO_TO_THE_32 == 0
  }

  /**
   * A pass counts what it pushes; and unless it gives up, or records an error such as a full
   * queue, or runs out of depth, it leaves no job idle.
   */
  lemma {:induction false} PassIsCounted(p: Plan, s: Sched, idx: nat, room: nat)
    requires Visitable(p, s) && idx <= |p.jobs| && 0 <= s.inFlight <= U32_MAX && p.depth <= U32_MAX
    ensures var pass := PassWithin(p, s, idx, room);
            && Visitable(p, pass.sched)
            && pass.sched.inFlight == s.inFlight + |pass.pushed| <= U32_MAX
            && (pass.overflow ==> pass.sched.inFlight < p.depth)
            && (forall i :: 0 <= i < idx ==> pass.sched.state[i] == s.state[i])
            && (!pass.overflow && pass.sched.pending.None? && pass.sched.inFlight < p.depth ==>
                  forall i :: idx <= i < |p.jobs| ==> !pass.sched.state[i].Idle?)
    decreases |p.jobs| - idx
  {
    if idx < |p.jobs| && s.pending.None? && s.inFlight < p.depth {
      if !s.state[idx].Idle? {
        PassIsCounted(p, s, idx + 1, room);
      } else if s.done[idx] == p.jobs[idx].Len() {
        PassIsCounted(p, s.(state := s.state[idx := Done]), idx + 1, room);
      } else if p.jobs[idx].offset + s.done[idx] <= U64_MAX && room > 0 {
        PassIsCounted(p, AfterSubmit(s, idx), idx + 1, room - 1);
      }
    }
  }

  /** Collecting takes one away for each completion, and keeps the next pass possible. */
  lemma {:induction false} CollectIsCounted(p: Plan, s: Sched, cqes: seq<Cqe>)
    requires Visitable(p, s) && ForJobs(p, cqes) && 0 <= s.inFlight <= U32_MAX
    ensures var after := CollectEach(p, s, cqes);
            && Visitable(p, after)
            && 0 <= after.inFlight <= U32_MAX
            && after.inFlight >= s.inFlight - |cqes|
            && (after.inFlight - (s.inFlight - |cqes|)) % TWO_TO_THE_32 == 0
    decreases |cqes|
  {
    if |cqes| > 0 {
      CollectIsCounted(p, AfterCollect(p, s, cqes[0]), cqes[1..]);
    }
  }

  lemma PassBalances(p: Plan, a: State, room: nat, left: nat)
    requires Visitable(p, a.sched) && Balanced(a, left) && p.depth <= U32_MAX
    ensures Balanced(PassedWithin(p, a, room), left) && Visitable(p, PassedWithin(p, a, room).sched)
  {
    hide PassWithin;
    PassIsCounted(p, a.sched, 0, room);
    assert PassedWithin(p, a, room).Count() == a.Count() + |PassWithin(p, a.sched, 0, room).pushed|;
  }

  /** A counter that is `owed` up to wrapping around is so after `n` have been taken away from both. */
  lemma CountedDown(counter: int, owed: int, n: nat, after: int)
    requires owed <= counter && (counter - owed) % TWO_TO_THE_32 == 0
    requires counter - n <= after && (after - (counter - n)) % TWO_TO_THE_32 == 0
    ensures owed - n <= after && (after - (owed - n)) % TWO_TO_THE_32 == 0
  {
    var j, k := (counter - owed) / TWO_TO_THE_32, (after - (counter - n)) / TWO_TO_THE_32;
    assert after - (owed - n) == (j + k) * TWO_TO_THE_32;
  }

  lemma RoundBalances(p: Plan, a: State, round: Round, left: nat)
    requires MayGoOn(p, a, round) && Balanced(a, left) && p.depth <= U32_MAX
    ensures Balanced(GoOn(p, a, round), left) && Visitable(p, GoOn(p, a, round).sched)
  {
    hide PassWithin, CollectEach, Lawful, Run, PassedWithin;
    var mid, answers := PassedWithin(p, a, round.room), round.turn.answers;
    var b, n := GoOn(p, a, round), |a.ripe + answers|;
    PassBalances(p, a, round.room, left);
    CollectIsCounted(p, Waited(mid.sched, round.turn.failure), a.ripe + answers);
    assert mid.ripe == a.ripe by {
      PassKeepsRipe(p, a, round.room);
    }
    TakenAway(mid.held, EntriesOf(answers));
    assert b.Count() == mid.Count() - n;
    CountedDown(mid.sched.inFlight, mid.Count() - left, n, b.sched.inFlight);
  }

  lemma PassKeepsRipe(p: Plan, a: State, room: nat)
    requires Visitable(p, a.sched)
    ensures PassedWithin(p, a, room).ripe == a.ripe
  {
  }

  lemma {:induction false} EveryRunIsBalanced(p: Plan, held: multiset<Entry>, ripe: seq<Cqe>, rounds: seq<Round>)
    requires Rounds(p, Found(p, held, ripe), rounds) && p.depth <= U32_MAX
    ensures var a := After(p, Found(p, held, ripe), rounds);
            Balanced(a, |held| + |ripe|) && Visitable(p, a.sched)
    decreases |rounds|
  {
    hide MayGoOn, GoOn;
    if |rounds| > 0 {
      var n := |rounds| - 1;
      EveryRunIsBalanced(p, held, ripe, rounds[..n]);
      RoundBalances(p, After(p, Found(p, held, ripe), rounds[..n]), rounds[n], |held| + |ripe|);
    }
  }

  /**
   * Whatever the kernel does, a call that returns leaves exactly as much in the ring as it
   * found there, and the entries it counts as in flight when it gives up on an offset. So a
   * return that is not such an exit leaves the ring quiescent if and only if the call found
   * it quiescent; and no call that finds something in the ring ever leaves it quiescent.
   */
  lemma ReturnsWithWhatItFound(p: Plan, held: multiset<Entry>, ripe: seq<Cqe>, rounds: seq<Round>, room: nat)
    requires Returns(p, Found(p, held, ripe), rounds, room) && |held| + |ripe| + p.depth <= U32_MAX
    ensures var end := LeftBy(p, Found(p, held, ripe), rounds, room);
            && end.sched.inFlight >= 0
            && end.Count() == |held| + |ripe| + end.sched.inFlight
            && (ResultOf(p, Found(p, held, ripe), rounds, room) != Err(OffsetOverflow) ==>
                  && end.sched.inFlight == 0
                  && (end.held == multiset{} && end.ripe == [] <==> held == multiset{} && ripe == []))
  {
    hide PassWithin, Rounds, After;
    var a := After(p, Found(p, held, ripe), rounds);
    EveryRunIsBalanced(p, held, ripe, rounds);
    PassIsCounted(p, a.sched, 0, room);
    var end, left := PassedWithin(p, a, room), |held| + |ripe|;
    assert Balanced(end, left);
    MultipleBelow(end.sched.inFlight - (end.Count() - left));
  }

  lemma MultipleBelow(n: nat)
    requires n % TWO_TO_THE_32 == 0 && n < TWO_TO_THE_32
    ensures n == 0
  {
  }

  // ---------------------------------------------------------------------------
  // On a quiescent ring this is the loop as it was
  // ---------------------------------------------------------------------------

  /** With enough room a pass is the one that does not ask for room. */
  lemma {:induction false} EnoughRoom(p: Plan, s: Sched, idx: nat, room: nat)
    requires Sized(p, s) && idx <= |p.jobs| && s.inFlight + room >= p.depth
    ensures PassWithin(p, s, idx, room) == Pass(p, s, idx)
    decreases |p.jobs| - idx
  {
    if idx < |p.jobs| && s.pending.None? && s.inFlight < p.depth {
      if !s.state[idx].Idle? {
        EnoughRoom(p, s, idx + 1, room);
      } else if s.done[idx] == p.jobs[idx].Len() {
        EnoughRoom(p, s.(state := s.state[idx := Done]), idx + 1, room);
      } else if p.jobs[idx].offset + s.done[idx] <= U64_MAX {
        EnoughRoom(p, AfterSubmit(s, idx), idx + 1, room - 1);
      }
    }
  }

  /** The counter does not wrap around while there are as many entries in flight as completions. */
  lemma {:induction false} NoWrap(p: Plan, s: Sched, cqes: seq<Cqe>)
    requires |s.done| == |s.state| == |p.jobs| && ForJobs(p, cqes) && s.inFlight >= |cqes|
    ensures CollectEach(p, s, cqes) == ReapEach(p, s, cqes)
    decreases |cqes|
  {
    if |cqes| > 0 {
      NoWrap(p, AfterReap(p, s, cqes[0]), cqes[1..]);
    }
  }

  function WithRoom(turns: seq<Turn>, room: nat): seq<Round> {
    seq(|turns|, i requires 0 <= i < |turns| => Round(room, turns[i]))
  }

  ghost function OnCleanRing(a: Point): State {
    State(a.sched, a.held, [], a.world)
  }

  lemma CleanPass(p: Plan, a: Point)
    requires Consistent(p, a) && Sized(p, a.sched)
    ensures Visitable(p, a.sched)
    ensures PassedWithin(p, OnCleanRing(a), p.depth) == OnCleanRing(Submitted(p, a))
    ensures StopsWithin(p, OnCleanRing(a), p.depth) <==> Stops(p, a)
  {
    hide Pass, PassWithin, Inv;
    InvCountsHeld(p, a);
    EnoughRoom(p, a.sched, 0, p.depth);
  }

  lemma CleanTurn(p: Plan, a: Point, turn: Turn)
    requires Consistent(p, a) && MayAnswer(p, a, turn)
    ensures ForJobs(p, [] + turn.answers) && |a.sched.done| == |a.sched.state| == |p.jobs|
    ensures CollectEach(p, Waited(a.sched, turn.failure), [] + turn.answers) == Settled(p, a, turn).sched
  {
    hide Inv, Lawful, Run, ReapEach, CollectEach;
    InvCountsHeld(p, a);
    TakenAway(a.held, EntriesOf(turn.answers));
    assert [] + turn.answers == turn.answers;
    NoWrap(p, Waited(a.sched, turn.failure), turn.answers);
  }

  lemma CleanRound(p: Plan, a: Point, turn: Turn)
    requires Consistent(p, a) && Allowed(p, a, turn)
    ensures MayGoOn(p, OnCleanRing(a), Round(p.depth, turn))
    ensures GoOn(p, OnCleanRing(a), Round(p.depth, turn)) == OnCleanRing(Advance(p, a, turn))
  {
    hide Pass, PassWithin, Lawful, Run, Inv, ReapEach, CollectEach, StopsWithin, Stops, PassedWithin;
    CleanPass(p, a);
    PassKeepsInv(p, a, 0);
    CleanTurn(p, Submitted(p, a), turn);
  }

  /** Every run of the loop from a quiescent ring is such a run. */
  lemma {:induction false} CleanRuns(p: Plan, turns: seq<Turn>)
    requires Sound(p) && Schedule(p, turns)
    ensures Rounds(p, Found(p, multiset{}, []), WithRoom(turns, p.depth))
    ensures After(p, Found(p, multiset{}, []), WithRoom(turns, p.depth)) == OnCleanRing(Reached(p, turns))
    decreases |turns|
  {
    hide Inv, Allowed, Advance, MayGoOn, GoOn;
    if |turns| > 0 {
      var n := |turns| - 1;
      CleanRuns(p, turns[..n]);
      EveryRunIsConsistent(p, turns[..n]);
      CleanRound(p, Reached(p, turns[..n]), turns[n]);
      assert WithRoom(turns, p.depth)[..n] == WithRoom(turns[..n], p.depth);
    }
  }

  // ---------------------------------------------------------------------------
  // What a leftover does to a call
  // ---------------------------------------------------------------------------

  /**
   * The one completion that arrives in the first round of a call with one job is not the
   * call's own: it was waiting in the ring, or is the late answer to an entry found there.
   */
  ghost predicate Stale(p: Plan, held: multiset<Entry>, ripe: seq<Cqe>, answers: seq<Cqe>, stale: Cqe) {
    && |p.jobs| == 1 && p.jobs[0].Len() > 0 && p.jobs[0].offset <= U64_MAX && p.depth >= 1
    && stale.entry.userData == 0 && stale.result > 0
    && ripe + answers == [stale]
    && multiset(EntriesOf(answers)) <= held
    && Lawful(p.start, answers)
  }

  lemma FirstPassOfOneJob(p: Plan, room: nat)
    requires |p.jobs| == 1 && p.jobs[0].Len() > 0 && p.jobs[0].offset <= U64_MAX && p.depth >= 1 && room > 0
    ensures PassWithin(p, Start(p).sched, 0, room)
         == PassResult(AfterSubmit(Start(p).sched, 0), [EntryFor(p.jobs, 0, 0)], false)
  {
    hide EntryFor;
    var s := Start(p).sched;
    assert PassWithin(p, AfterSubmit(s, 0), 1, room - 1) == PassResult(AfterSubmit(s, 0), [], false);
  }

  /** The variables of the call after the stale result has been counted as bytes of its own job. */
  lemma StaleVariables(p: Plan, stale: Cqe, room: nat)
    requires |p.jobs| == 1 && p.jobs[0].Len() > 0 && p.depth >= 1 && room > 0
    requires stale.entry.userData == 0 && stale.result > 0
    ensures var s := AfterCollect(p, AfterSubmit(Start(p).sched, 0), stale);
            && s.done == [stale.result] && s.inFlight == 0 && s.pending.None? && Visitable(p, s)
            && (stale.result >= p.jobs[0].Len() ==> PassWithin(p, s, 0, room) == PassResult(s, [], false))
            && (stale.result < p.jobs[0].Len() && p.jobs[0].offset + stale.result <= U64_MAX ==>
                  PassWithin(p, s, 0, room).pushed == [EntryFor(p.jobs, 0, stale.result)])
  {
    hide EntryFor;
    var s := AfterCollect(p, AfterSubmit(Start(p).sched, 0), stale);
    assert s.done == [stale.result];
    if stale.result >= p.jobs[0].Len() {
      assert s.state == [Done];
      assert PassWithin(p, s, 0, room) == PassWithin(p, s, 1, room) == PassResult(s, [], false);
    } else {
      assert s.state == [Idle];
      if p.jobs[0].offset + stale.result <= U64_MAX {
        assert PassWithin(p, AfterSubmit(s, 0), 1, room - 1) == PassResult(AfterSubmit(s, 0), [], false);
      }
    }
  }

  lemma StaleRound(p: Plan, held: multiset<Entry>, ripe: seq<Cqe>, answers: seq<Cqe>, stale: Cqe, room: nat)
    requires Stale(p, held, ripe, answers, stale) && room > 0
    ensures var from, round := Found(p, held, ripe), Round(room, Turn(None, answers));
            && MayGoOn(p, from, round)
            && GoOn(p, from, round)
               == State(AfterCollect(p, AfterSubmit(Start(p).sched, 0), stale),
                        held + multiset{EntryFor(p.jobs, 0, 0)} - multiset(EntriesOf(answers)),
                        [], Run(p.start, answers))
  {
    hide EntryFor, Lawful, Run;
    FirstPassOfOneJob(p, room);
    assert multiset([EntryFor(p.jobs, 0, 0)]) == multiset{EntryFor(p.jobs, 0, 0)};
    var submitted := AfterSubmit(Start(p).sched, 0);
    assert [stale][0] == stale && [stale][1..] == [];
    assert CollectEach(p, AfterCollect(p, submitted, stale), []) == AfterCollect(p, submitted, stale);
  }

  /**
   * The call counts the stale result as bytes of its own job. If they are enough it returns
   * Ok, with its own entry in the ring in place of the stale one and nothing of its own
   * moved; if not, it goes on to ask for the bytes after them only.
   */
  lemma StaleResultIsCounted(p: Plan, held: multiset<Entry>, ripe: seq<Cqe>, answers: seq<Cqe>, stale: Cqe, room: nat)
    requires Stale(p, held, ripe, answers, stale) && room > 0
    ensures var from, rounds := Found(p, held, ripe), [Round(room, Turn(None, answers))];
            && Rounds(p, from, rounds)
            && Visitable(p, After(p, from, rounds).sched)
            && After(p, from, rounds).sched.done == [stale.result]
            && After(p, from, rounds).world == Run(p.start, answers)
            && (stale.result >= p.jobs[0].Len() ==>
                  && Returns(p, from, rounds, room)
                  && ResultOf(p, from, rounds, room) == Ok(())
                  && LeftBy(p, from, rounds, room).world == Run(p.start, answers)
                  && LeftBy(p, from, rounds, room).held
                     == held + multiset{EntryFor(p.jobs, 0, 0)} - multiset(EntriesOf(answers)))
            && (stale.result < p.jobs[0].Len() && p.jobs[0].offset + stale.result <= U64_MAX ==>
                  PassWithin(p, After(p, from, rounds).sched, 0, room).pushed == [EntryFor(p.jobs, 0, stale.result)])
  {
    hide EntryFor, Lawful, Run, PassWithin, AfterCollect, MayGoOn, GoOn, EntriesOf;
    var from, round := Found(p, held, ripe), Round(room, Turn(None, answers));
    StaleRound(p, held, ripe, answers, stale, room);
    OneRound(p, from, round);
    StaleVariables(p, stale, room);
  }

  lemma OneRound(p: Plan, from: State, round: Round)
    requires MayGoOn(p, from, round)
    ensures Rounds(p, from, [round]) && After(p, from, [round]) == GoOn(p, from, round)
  {
    assert [round][..0] == [];
    assert Rounds(p, from, []) && After(p, from, []) == from;
  }

  /** Byte `q` of the job's data is not in the file where it belongs. */
  predicate Missing(file: seq<Byte>, job: Transfer, q: nat) {
    job.WriteFrom? && q < job.Len() && (job.offset + q >= |file| || file[job.offset + q] != job.data[q])
  }

  /**
   * Such a call that writes returns Ok with its bytes still missing, unless the stale entry
   * happens to write the same ones, or leaves the same zeros in a gap.
   */
  lemma StaleResultLosesAWrite(p: Plan, held: multiset<Entry>, ripe: seq<Cqe>, answers: seq<Cqe>, stale: Cqe, room: nat,
                               q: nat)
    requires Stale(p, held, ripe, answers, stale) && room > 0 && stale.result >= p.jobs[0].Len()
    requires Missing(p.start.file, p.jobs[0], q)
    requires stale.entry.span.WriteFrom? ==>
               && Independent(stale.entry.span, p.jobs[0])
               && (p.jobs[0].offset + q < |p.start.file| || p.jobs[0].data[q] != 0)
    ensures var from, rounds := Found(p, held, ripe), [Round(room, Turn(None, answers))];
            && Returns(p, from, rounds, room)
            && ResultOf(p, from, rounds, room) == Ok(())
            && Missing(LeftBy(p, from, rounds, room).world.file, p.jobs[0], q)
  {
    hide Rounds, After, PassWithin, StopsWithin;
    StaleResultIsCounted(p, held, ripe, answers, stale, room);
    StaleEffect(p, ripe, answers, stale);
  }

  /** What the late answer does to the world, if it is late. */
  lemma StaleEffect(p: Plan, ripe: seq<Cqe>, answers: seq<Cqe>, stale: Cqe)
    requires ripe + answers == [stale]
    ensures Run(p.start, answers) == p.start || Run(p.start, answers) == Effect(p.start, stale)
  {
    if |answers| > 0 {
      assert answers == [stale];
      assert Run(Effect(p.start, stale), []) == Effect(p.start, stale);
    }
  }

  /** Such a call that reads returns Ok with a cell of its buffer not written. */
  lemma StaleResultLeavesACellUnwritten(p: Plan, held: multiset<Entry>, ripe: seq<Cqe>, answers: seq<Cqe>, stale: Cqe,
                                        room: nat)
    requires Stale(p, held, ripe, answers, stale) && room > 0 && stale.result >= p.jobs[0].Len()
    requires p.jobs[0].ReadInto? && p.jobs[0].buf < |p.start.bufs| && p.jobs[0].pos < |p.start.bufs[p.jobs[0].buf]|
    requires p.start.bufs[p.jobs[0].buf][p.jobs[0].pos] == Uninit
    requires stale.entry.span.WriteFrom? || stale.entry.span.buf != p.jobs[0].buf
    ensures var from, rounds, job := Found(p, held, ripe), [Round(room, Turn(None, answers))], p.jobs[0];
            && Returns(p, from, rounds, room)
            && ResultOf(p, from, rounds, room) == Ok(())
            && var w := LeftBy(p, from, rounds, room).world;
              job.buf < |w.bufs| && job.pos < |w.bufs[job.buf]| && w.bufs[job.buf][job.pos] == Uninit
  {
    hide Rounds, After, PassWithin, StopsWithin;
    StaleResultIsCounted(p, held, ripe, answers, stale, room);
    StaleEffect(p, ripe, answers, stale);
  }

  // ---------------------------------------------------------------------------
  // From a failed wait to a wrong Ok
  // ---------------------------------------------------------------------------

  /** The wait of a cursor operation fails and nothing has been answered yet. */
  function FailedWait(code: int): Turn {
    Turn(Some(Submit(code)), [])
  }

  lemma FailedWaitLeavesTheEntry(w: World, span: Transfer, code: int)
    requires span.Len() > 0
    ensures MayAnswerLone(w, span, FailedWait(code))
    ensures LoneCall(w, span, FailedWait(code)) == Lone(Err(Submit(code)), multiset{Entry(0, span)}, [], w)
  {
    assert EntriesOf([]) == [];
    assert multiset{} + multiset{Entry(0, span)} - multiset{} == multiset{Entry(0, span)};
  }

  /**
   * An empty file. A cursor write of one byte fails in its wait; the next call writes one
   * byte at offset one, is given the late answer to the first, and returns Ok: the file has
   * the first byte, which was reported as failed, and not the second.
   */
  lemma WriteLostAfterAFailedWait(code: int)
    ensures var first: Transfer := WriteFrom(0, [5]);
            var second: Transfer := WriteFrom(1, [7]);
            var failed := LoneCall(World([], []), first, FailedWait(code));
            var p := Plan(failed.world, [second], 1);
            var from, rounds := Found(p, failed.held, failed.ripe), [Round(1, Turn(None, [Cqe(Entry(0, first), 1)]))];
            && failed.result == Err(Submit(code))
            && Returns(p, from, rounds, 1)
            && ResultOf(p, from, rounds, 1) == Ok(())
            && LeftBy(p, from, rounds, 1).world.file == [5]
  {
    hide PassWithin, Rounds, After, StopsWithin;
    var first: Transfer := WriteFrom(0, [5]);
    var second: Transfer := WriteFrom(1, [7]);
    var late := Cqe(Entry(0, first), 1);
    var p := Plan(World([], []), [second], 1);
    FailedWaitLeavesTheEntry(p.start, first, code);
    OneLawfulAnswer(p.start, late);
    assert [] + [late] == [late] && EntriesOf([late]) == [late.entry];
    assert Stale(p, multiset{late.entry}, [], [late], late);
    StaleResultIsCounted(p, multiset{late.entry}, [], [late], late, 1);
    WholePiece(first);
    assert Run(Effect(p.start, late), []) == Effect(p.start, late) == Perform(p.start, first);
    assert Splice([], 0, [5], 0) == [5];
  }

  /**
   * A file of one byte and two buffers. A cursor read of it fails in its wait; the next call
   * reads it too, is given the late answer to the first, and returns Ok with its own buffer
   * unwritten.
   */
  lemma BufferUnwrittenAfterAFailedWait(code: int)
    ensures var first: Transfer := ReadInto(0, 0, 0, 1);
            var second: Transfer := ReadInto(0, 1, 0, 1);
            var failed := LoneCall(World([9], [[Uninit], [Uninit]]), first, FailedWait(code));
            var p := Plan(failed.world, [second], 1);
            var from, rounds := Found(p, failed.held, failed.ripe), [Round(1, Turn(None, [Cqe(Entry(0, first), 1)]))];
            && failed.result == Err(Submit(code))
            && Returns(p, from, rounds, 1)
            && ResultOf(p, from, rounds, 1) == Ok(())
            && LeftBy(p, from, rounds, 1).world.bufs == [[Init(9)], [Uninit]]
  {
    hide PassWithin, Rounds, After, StopsWithin;
    var first: Transfer := ReadInto(0, 0, 0, 1);
    var second: Transfer := ReadInto(0, 1, 0, 1);
    var late := Cqe(Entry(0, first), 1);
    var p := Plan(World([9], [[Uninit], [Uninit]]), [second], 1);
    FailedWaitLeavesTheEntry(p.start, first, code);
    OneLawfulAnswer(p.start, late);
    assert [] + [late] == [late] && EntriesOf([late]) == [late.entry];
    assert Stale(p, multiset{late.entry}, [], [late], late);
    StaleResultIsCounted(p, multiset{late.entry}, [], [late], late, 1);
    WholePiece(first);
    assert Run(Effect(p.start, late), []) == Effect(p.start, late) == Perform(p.start, first);
    assert Fetch([9], 0, 1) == [Init(9)];
    assert Splice([Uninit], 0, [Init(9)], Uninit) == [Init(9)];
    assert [[Uninit], [Uninit]][0 := [Init(9)]] == [[Init(9)], [Uninit]];
  }
}
