/**
 * The kernel as an adversary: the disk, the caller's buffers, an io_uring instance and the
 * thread's cached instance. The contracts of `SubmitAndWait` and of ring creation leave
 * open everything the kernel may decide, so a proof that uses them covers every decision.
 */
module Rings {
  import opened Common
  import opened Transfers
  import opened Scheduler

  /** The open file: its bytes, and the errors that system calls on it outside a ring have met, in order. */
  class Disk {
    var content: seq<Byte>
    ghost var faults: seq<Error>

    constructor (content: seq<Byte>)
      ensures this.content == content && faults == []
    {
      this.content := content;
      faults := [];
    }
  }

  /** A file cursor kept in user space. */
  class Position {
    var at: nat

    constructor ()
      ensures at == 0
    {
      at := 0;
    }
  }

  /** The buffers that exist; a raw pointer is an index into `bufs` and a position. */
  class Memory {
    var bufs: seq<seq<Cell>>

    constructor ()
      ensures bufs == []
    {
      bufs := [];
    }

    /** A new buffer of `len` bytes, none of them written. */
    method Allocate(len: nat) returns (buf: nat)
      modifies this
      ensures buf == |old(bufs)|
      ensures bufs == old(bufs) + [seq(len, _ => Uninit)]
    {
      buf := |bufs|;
      bufs := bufs + [seq(len, _ => Uninit)];
    }
  }

  ghost function WorldOf(disk: Disk, mem: Memory): World
    reads disk, mem
  {
    World(disk.content, mem.bufs)
  }

  class Ring {
    /** Slots of the submission queue, and how many more the completion queue has. */
    const capacity: nat
    const cqSpare: nat

    /** Entries pushed and not yet taken by the kernel. */
    var sq: seq<Entry>
    /** Entries the kernel has taken and not yet answered. */
    var live: seq<Entry>
    /** Answers the program has not collected. */
    var cq: seq<Cqe>

    /**
     * How many more waits may end without an answer. Any number is possible, but not
     * infinitely many: this is the only progress asked of the kernel.
     */
    var patience: nat

    /** What has happened since the ring was last handed out. */
    ghost var log: seq<Event>

    constructor (capacity: nat, cqSpare: nat, patience: nat)
      ensures this.capacity == capacity && this.cqSpare == cqSpare
      ensures Quiescent() && log == []
    {
      this.capacity, this.cqSpare, this.patience := capacity, cqSpare, patience;
      sq, live, cq, log := [], [], [], [];
    }

    /** Nothing queued, nothing outstanding, nothing to collect. */
    predicate Quiescent()
      reads this
    {
      sq == [] && live == [] && cq == []
    }

    /** The entries that still have to be answered. */
    ghost function Held(): multiset<Entry>
      reads this`sq, this`live
    {
      multiset(sq) + multiset(live)
    }

    /** Fails exactly when the submission queue is full. */
    method Push(entry: Entry) returns (ok: bool)
      modifies this`sq, this`log
      ensures ok <==> |old(sq)| < capacity
      ensures ok ==> sq == old(sq) + [entry] && log == old(log) + [Pushed(entry)]
      ensures ok ==> Held() == old(Held()) + multiset{entry}
      ensures !ok ==> sq == old(sq) && log == old(log)
    {
      ok := |sq| < capacity;
      if ok {
        sq := sq + [entry];
        log := log + [Pushed(entry)];
      }
    }

    /**
     * The kernel answers one of the entries it has taken: any one, with any legal result.
     * `start` and `delivered` say what it has answered so far.
     */
    method Answer(disk: Disk, mem: Memory, ghost start: World, ghost delivered: seq<Cqe>) returns (ghost more: seq<Cqe>)
      requires |live| > 0
      requires Lawful(start, delivered) && WorldOf(disk, mem) == Run(start, delivered)
      modifies this`live, this`cq, disk`content, mem
      ensures |more| == |delivered| + 1 && |live| == |old(live)| - 1
      ensures Lawful(start, more) && WorldOf(disk, mem) == Run(start, more)
      ensures cq == old(cq) + more[|delivered|..] && more[..|delivered|] == delivered
      ensures Held() + multiset(EntriesOf(more)) == old(Held()) + multiset(EntriesOf(delivered))
    {
      var k :| 0 <= k < |live|;
      var w := World(disk.content, mem.bufs);
      assert Legal(w, Cqe(live[k], 0));
      var n: int :| Legal(w, Cqe(live[k], n));
      var c := Cqe(live[k], n);
      assert live == live[..k] + [live[k]] + live[k + 1..];
      live := live[..k] + live[k + 1..];
      cq := cq + [c];
      var after := Effect(w, c);
      disk.content, mem.bufs := after.file, after.bufs;
      more := delivered + [c];
      RunOneMore(start, delivered, c);
      assert EntriesOf(more) == EntriesOf(delivered) + [c.entry];
    }

    /** The kernel answers any number of the entries it has taken. */
    method AnswerSome(disk: Disk, mem: Memory, ghost start: World) returns (ghost delivered: seq<Cqe>)
      requires start == WorldOf(disk, mem)
      modifies this`live, this`cq, disk`content, mem
      ensures cq == old(cq) + delivered
      ensures Held() + multiset(EntriesOf(delivered)) == old(Held())
      ensures Lawful(start, delivered) && WorldOf(disk, mem) == Run(start, delivered)
      ensures |live| + |delivered| == |old(live)|
    {
      delivered := [];
      var answers: nat := *;
      while answers > 0 && |live| > 0
        invariant cq == old(cq) + delivered
        invariant Held() + multiset(EntriesOf(delivered)) == old(Held())
        invariant Lawful(start, delivered) && WorldOf(disk, mem) == Run(start, delivered)
        invariant |live| + |delivered| == |old(live)|
        decreases answers
      {
        delivered := Answer(disk, mem, start, delivered);
        answers := answers - 1;
      }
    }

    /** The kernel takes the first `n` queued entries. */
    method Take(n: nat)
      requires n <= |sq|
      modifies this`sq, this`live
      ensures Held() == old(Held())
      ensures sq == old(sq)[n..] && |live| == |old(live)| + n && (n == |old(sq)| ==> sq == [])
    {
      assert sq == sq[..n] + sq[n..];
      live, sq := live + sq[..n], sq[n..];
    }

    /**
     * Hands the queued entries to the kernel and waits for an answer. Whatever the result,
     * the kernel may have taken any of the queued entries, and may have answered any of
     * the taken ones in any order; on success the queue is empty. Nothing is lost: an
     * entry is queued, taken or answered. A completion queue that can hold an answer to
     * every entry does not overflow.
     */
    method SubmitAndWait(disk: Disk, mem: Memory) returns (r: Result<()>, ghost delivered: seq<Cqe>)
      requires |sq| + |live| > 0
      requires |sq| + |live| + |cq| <= capacity + cqSpare
      modifies this, disk`content, mem
      ensures cq == old(cq) + delivered
      ensures Held() + multiset(EntriesOf(delivered)) == old(Held())
      ensures Lawful(old(WorldOf(disk, mem)), delivered)
      ensures WorldOf(disk, mem) == Run(old(WorldOf(disk, mem)), delivered)
      ensures r.Ok? ==> sq == []
      ensures r.Err? ==> r.error.Submit?
      ensures log == old(log) + if r.Err? then [WaitFailed(r.error)] else []
      ensures patience <= old(patience)
      ensures delivered == [] ==> patience < old(patience)
    {
      hide Lawful, Run, EntriesOf, Held;
      r := Ok(());
      var failed: bool := *;
      var taken := |sq|;
      if failed {
        var code: int := *;
        r := Err(Submit(code));
        log := log + [WaitFailed(r.error)];
        taken :| 0 <= taken <= |sq|;
      }
      Take(taken);
      delivered := Deliver(disk, mem);
    }

    /**
     * The kernel answers some of the entries, or uses up some patience; out of patience it
     * takes what is queued and answers at least one.
     */
    method Deliver(disk: Disk, mem: Memory) returns (ghost delivered: seq<Cqe>)
      requires |sq| + |live| > 0
      modifies this`sq, this`live, this`cq, this`patience, disk`content, mem
      ensures cq == old(cq) + delivered
      ensures Held() + multiset(EntriesOf(delivered)) == old(Held())
      ensures Lawful(old(WorldOf(disk, mem)), delivered)
      ensures WorldOf(disk, mem) == Run(old(WorldOf(disk, mem)), delivered)
      ensures old(sq) == [] ==> sq == []
      ensures patience <= old(patience)
      ensures delivered == [] ==> patience < old(patience)
    {
      hide Lawful, Run, EntriesOf;
      ghost var start := WorldOf(disk, mem);
      var uncollected := |cq|;
      delivered := AnswerSome(disk, mem, start);
      if |cq| == uncollected {
        if patience > 0 {
          patience := patience - 1;
        } else {
          Take(|sq|);
          delivered := Answer(disk, mem, start, delivered);
        }
      }
    }

    /** Collects every answer that has arrived, in order. */
    method Completion() returns (cqes: seq<Cqe>)
      modifies this`cq, this`log
      ensures cqes == old(cq) && cq == []
      ensures log == old(log) + ReapEvents(cqes)
    {
      cqes := cq;
      cq := [];
      log := log + ReapEvents(cqes);
    }

    /** Collects the oldest answer only, if there is one. */
    method NextCompletion() returns (c: Option<Cqe>)
      modifies this`cq, this`log
      ensures c.None? <==> old(cq) == []
      ensures c.None? ==> cq == old(cq) && log == old(log)
      ensures c.Some? ==> c.value == old(cq)[0] && cq == old(cq)[1..] && log == old(log) + [Reaped(c.value)]
    {
      if cq == [] {
        return None;
      }
      c := Some(cq[0]);
      cq := cq[1..];
      log := log + [Reaped(c.value)];
    }
  }

  /**
   * One request for a ring: granted with at least the depth asked for and no less than was
   * cached, or refused with the cache as it was, which then was too small.
   */
  ghost predicate CacheStep(before: nat, depth: nat, granted: bool, after: nat) {
    if granted then depth <= after && before <= after else before == after < depth
  }

  /** Over any run of requests the capacity never shrinks, and a depth once granted is granted from then on. */
  lemma {:induction false} CacheNeverShrinks(capacity: seq<nat>, depth: seq<nat>, granted: seq<bool>, i: nat, j: nat)
    requires |capacity| == |depth| + 1 == |granted| + 1
    requires forall k :: 0 <= k < |depth| ==> CacheStep(capacity[k], depth[k], granted[k], capacity[k + 1])
    requires i < j <= |depth|
    ensures capacity[i] <= capacity[j]
    ensures granted[i] ==> depth[i] <= capacity[j]
    ensures granted[i] && j < |depth| && depth[j] <= depth[i] ==> granted[j]
  {
    assert CacheStep(capacity[j - 1], depth[j - 1], granted[j - 1], capacity[j]);
    assert j < |depth| ==> CacheStep(capacity[j], depth[j], granted[j], capacity[j + 1]);
    if i + 1 < j {
      CacheNeverShrinks(capacity, depth, granted, i, j - 1);
    }
  }

  /** A request for a ring, and whether it was granted. */
  datatype Request = Request(depth: nat, granted: bool)

  /** The call needed a ring and did not get one. */
  predicate Refused<T>(r: Result<T>) {
    r.Err? && r.error.RingInit?
  }

  /** The requests of a thread that asked for these depths. */
  function RequestsFor(depths: seq<nat>, granted: seq<bool>): seq<Request>
    requires |granted| <= |depths|
  {
    seq(|granted|, k requires 0 <= k < |granted| => Request(depths[k], granted[k]))
  }

  /** The thread-local slot that keeps one ring for all files of the thread. */
  class RingCache {
    var ring: Ring?
    /** Every request so far, in order. */
    ghost var requests: seq<Request>

    constructor ()
      ensures ring == null && requests == []
    {
      ring := null;
      requests := [];
    }

    ghost predicate Quiescent()
      reads this, ring
    {
      ring != null ==> ring.Quiescent()
    }

    /** No ring counts as capacity zero. */
    ghost function Capacity(): nat
      reads this
    {
      if ring == null then 0 else ring.capacity
    }

    /**
     * Hands out a ring for `depth` entries: the cached one if it is large enough, with
     * whatever is left in it, else a new one. If a new ring cannot be made, the cached one
     * stays. A ring that is handed out starts a new log.
     */
    method WithRing(depth: nat) returns (r: Result<Ring>)
      requires depth >= 1
      modifies this, ring
      ensures CacheStep(old(Capacity()), depth, r.Ok?, Capacity())
      ensures requests == old(requests) + [Request(depth, r.Ok?)]
      ensures r.Ok? ==> ring == r.value && depth <= ring.capacity && ring.log == []
      ensures r.Ok? ==> (ring == old(ring) <==> old(ring) != null && old(Capacity()) >= depth)
      ensures r.Err? ==> r.error.RingInit? && ring == old(ring) && old(Capacity()) < depth
      ensures ring != old(ring) ==> fresh(ring) && Quiescent()
      ensures ring != null && ring == old(ring) ==>
                ring.sq == old(ring.sq) && ring.live == old(ring.live) && ring.cq == old(ring.cq)
    {
      if ring == null || ring.capacity < depth {
        var created: bool := *;
        if !created {
          var code: int := *;
          requests := requests + [Request(depth, false)];
          return Err(RingInit(code));
        }
        var extra: nat, cqSpare: nat, patience: nat := *, *, *;
        ring := new Ring(depth + extra, cqSpare, patience);
      }
      ring.log := [];
      requests := requests + [Request(depth, true)];
      r := Ok(ring);
    }
  }

  /**
   * A thread's requests for rings, one after the other, whatever depths they ask for: the
   * cached capacity never shrinks, every ring handed out is large enough, and a depth once
   * granted is granted from then on.
   */
  method RequestRings(cache: RingCache, depths: seq<nat>) returns (granted: seq<bool>, ghost capacity: seq<nat>)
    requires forall k :: 0 <= k < |depths| ==> depths[k] >= 1
    modifies cache, cache.ring
    ensures |granted| == |depths| && |capacity| == |depths| + 1
    ensures capacity[0] == old(cache.Capacity()) && capacity[|depths|] == cache.Capacity()
    ensures forall i, j :: 0 <= i < j <= |depths| ==> capacity[i] <= capacity[j]
    ensures forall i, j :: 0 <= i < j <= |depths| && granted[i] ==> depths[i] <= capacity[j]
    ensures forall i, j :: 0 <= i < j < |depths| && granted[i] && depths[j] <= depths[i] ==> granted[j]
    ensures forall k :: 0 <= k < |depths| && !granted[k] ==> capacity[k] == capacity[k + 1] < depths[k]
    ensures cache.requests == old(cache.requests) + RequestsFor(depths, granted)
  {
    granted, capacity := [], [cache.Capacity()];
    for k := 0 to |depths|
      invariant |granted| == k && |capacity| == k + 1
      invariant capacity[0] == old(cache.Capacity()) && capacity[k] == cache.Capacity()
      invariant cache.ring == old(cache.ring) || fresh(cache.ring)
      invariant cache.requests == old(cache.requests) + RequestsFor(depths, granted)
      invariant forall i :: 0 <= i < k ==> CacheStep(capacity[i], depths[i], granted[i], capacity[i + 1])
    {
      var r := cache.WithRing(depths[k]);
      granted, capacity := granted + [r.Ok?], capacity + [cache.Capacity()];
    }
    forall i, j | 0 <= i < j <= |depths|
      ensures capacity[i] <= capacity[j] && (granted[i] ==> depths[i] <= capacity[j])
      ensures granted[i] && j < |depths| && depths[j] <= depths[i] ==> granted[j]
    {
      CacheNeverShrinks(capacity, depths, granted, i, j);
    }
  }
}
