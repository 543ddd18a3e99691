/** Batches of positioned writes, and the check that lets an executor reorder them. */
module WriteSlices {
  import opened Common
  import opened Splicing
  import opened Transfers

  datatype WriteSlice = WriteSlice(offset: nat, data: seq<Byte>) {
    function EndOffset(): Result<nat> {
      if offset + |data| <= U64_MAX then Ok(offset + |data|) else Err(OffsetOverflow)
    }
  }

  /** A nonempty slice as its first offset and the offset after its last. */
  type Range = (nat, nat)

  // ---------------------------------------------------------------------------
  // What is accepted
  // ---------------------------------------------------------------------------

  predicate Writes(x: WriteSlice, p: nat) {
    x.offset <= p < x.offset + |x.data|
  }

  ghost predicate SharesByte(x: WriteSlice, y: WriteSlice) {
    exists p: nat :: Writes(x, p) && Writes(y, p)
  }

  ghost predicate NothingShared(x: WriteSlice, y: WriteSlice) {
    !SharesByte(x, y)
  }

  predicate EndsPastU64(x: WriteSlice) {
    |x.data| > 0 && x.offset + |x.data| > U64_MAX
  }

  ghost predicate Pairwise<T(!new)>(s: seq<T>, rel: (T, T) -> bool) {
    forall i, j :: 0 <= i < j < |s| ==> rel(s[i], s[j])
  }

  /** No nonempty slice runs past the last offset, and no two slices share a byte. */
  ghost predicate Accepted(slices: seq<WriteSlice>) {
    && (forall i :: 0 <= i < |slices| ==> !EndsPastU64(slices[i]))
    && Pairwise(slices, NothingShared)
  }

  lemma {:induction false} TwoOccurrences<T>(s: seq<T>, x: T) returns (i: nat, j: nat)
    requires multiset(s)[x] >= 2
    ensures i < j < |s| && s[i] == x && s[j] == x
  {
    var n := |s| - 1;
    assert s == s[..n] + [s[n]];
    if s[n] == x {
      assert x in multiset(s[..n]);
      i :| 0 <= i < n && s[i] == x;
      j := n;
    } else {
      i, j := TwoOccurrences(s[..n], x);
    }
  }

  lemma CountsTwo<T>(s: seq<T>, i: nat, j: nat)
    requires i < j < |s| && s[i] == s[j]
    ensures multiset(s)[s[i]] >= 2
  {
    assert s == s[..j] + [s[j]] + s[j + 1..];
    assert s[..j][i] in multiset(s[..j]);
  }

  /** A symmetric relation between all pairs does not depend on the order of the elements. */
  lemma PairwiseIgnoresOrder<T(!new)>(s: seq<T>, t: seq<T>, rel: (T, T) -> bool)
    requires multiset(s) == multiset(t)
    requires forall x, y :: rel(x, y) == rel(y, x)
    requires Pairwise(s, rel)
    ensures Pairwise(t, rel)
  {
    forall i, j | 0 <= i < j < |t|
      ensures rel(t[i], t[j])
    {
      if t[i] == t[j] {
        CountsTwo(t, i, j);
        var k, l := TwoOccurrences(s, t[i]);
        assert rel(s[k], s[l]);
      } else {
        assert t[i] in multiset(s) && t[j] in multiset(s);
        var k :| 0 <= k < |s| && s[k] == t[i];
        var l :| 0 <= l < |s| && s[l] == t[j];
        assert rel(s[Min(k, l)], s[Max(k, l)]);
      }
    }
  }

  // ---------------------------------------------------------------------------
  // WriteSlices::new
  // ---------------------------------------------------------------------------

  predicate Clear(a: Range, b: Range) {
    a.1 <= b.0 || b.1 <= a.0
  }

  /** The ranges of the nonempty slices, in list order. */
  ghost function Ranges(slices: seq<WriteSlice>): seq<Range> {
    if |slices| == 0 then []
    else
      var last := slices[|slices| - 1];
      Ranges(slices[..|slices| - 1]) + if |last.data| > 0 then [RangeOf(last)] else []
  }

  lemma {:induction false} RangesAreNonempty(slices: seq<WriteSlice>)
    ensures forall k :: 0 <= k < |Ranges(slices)| ==> Ranges(slices)[k].0 < Ranges(slices)[k].1
  {
    if |slices| > 0 {
      RangesAreNonempty(slices[..|slices| - 1]);
    }
  }

  function RangeOf(slice: WriteSlice): Range {
    (slice.offset, slice.offset + |slice.data|)
  }

  /** The range of a nonempty slice is in the list. */
  lemma {:induction false} RangeIsListed(slices: seq<WriteSlice>, i: nat)
    requires i < |slices| && |slices[i].data| > 0
    ensures RangeOf(slices[i]) in Ranges(slices)
  {
    var n := |slices| - 1;
    if i < n {
      RangeIsListed(slices[..n], i);
    }
  }

  /** Every range in the list is that of a nonempty slice. */
  lemma {:induction false} RangeHasSlice(slices: seq<WriteSlice>, k: nat) returns (i: nat)
    requires k < |Ranges(slices)|
    ensures i < |slices| && |slices[i].data| > 0 && Ranges(slices)[k] == RangeOf(slices[i])
  {
    i := |slices| - 1;
    if k < |Ranges(slices[..i])| {
      i := RangeHasSlice(slices[..i], k);
    }
  }

  lemma OverlapIsSharedByte(x: WriteSlice, y: WriteSlice)
    ensures SharesByte(x, y) <==>
            |x.data| > 0 && |y.data| > 0 && !Clear(RangeOf(x), RangeOf(y))
  {
    if SharesByte(x, y) {
      var p: nat :| Writes(x, p) && Writes(y, p);
    }
    var p := Max(x.offset, y.offset);
    if |x.data| > 0 && |y.data| > 0 && !Clear(RangeOf(x), RangeOf(y)) {
      assert Writes(x, p) && Writes(y, p);
    }
  }

  /** The ranges are pairwise clear of each other exactly when no two slices share a byte. */
  lemma {:induction false} RangesClearIffNothingShared(slices: seq<WriteSlice>)
    ensures Pairwise(Ranges(slices), Clear) <==> Pairwise(slices, NothingShared)
  {
    if |slices| > 0 {
      var n := |slices| - 1;
      var init, last := slices[..n], slices[n];
      var mine := RangeOf(last);
      RangesClearIffNothingShared(init);
      assert (forall k :: 0 <= k < |Ranges(init)| ==> Clear(Ranges(init)[k], mine)) || |last.data| == 0
        <==> forall i :: 0 <= i < n ==> NothingShared(slices[i], last) by
      {
        LastClearIffNothingShared(slices);
      }
      PairwiseGrows(init, last, NothingShared);
      assert slices == init + [last];
      if |last.data| > 0 {
        PairwiseGrows(Ranges(init), mine, Clear);
      } else {
        assert Ranges(slices) == Ranges(init);
      }
    }
  }

  lemma PairwiseGrows<T(!new)>(s: seq<T>, x: T, rel: (T, T) -> bool)
    ensures Pairwise(s + [x], rel) <==> Pairwise(s, rel) && forall i :: 0 <= i < |s| ==> rel(s[i], x)
  {
    var t := s + [x];
    if Pairwise(t, rel) {
      forall i, j | 0 <= i < j < |s|
        ensures rel(s[i], s[j])
      {
        assert rel(t[i], t[j]);
      }
      forall i | 0 <= i < |s|
        ensures rel(s[i], x)
      {
        assert rel(t[i], t[|s|]);
      }
    }
  }

  lemma LastClearIffNothingShared(slices: seq<WriteSlice>)
    requires |slices| > 0
    ensures var n := |slices| - 1;
            var ranges, mine := Ranges(slices[..n]), RangeOf(slices[n]);
            |slices[n].data| == 0 || (forall k :: 0 <= k < |ranges| ==> Clear(ranges[k], mine))
            <==> forall i :: 0 <= i < n ==> NothingShared(slices[i], slices[n])
  {
    var n := |slices| - 1;
    var init, last := slices[..n], slices[n];
    var mine := RangeOf(last);
    if |last.data| > 0 {
      if forall k :: 0 <= k < |Ranges(init)| ==> Clear(Ranges(init)[k], mine) {
        forall i | 0 <= i < n
          ensures NothingShared(slices[i], last)
        {
          OverlapIsSharedByte(slices[i], last);
          assert init[i] == slices[i];
          if |init[i].data| > 0 {
            RangeIsListed(init, i);
          }
        }
      } else {
        var k :| 0 <= k < |Ranges(init)| && !Clear(Ranges(init)[k], mine);
        var i := RangeHasSlice(init, k);
        OverlapIsSharedByte(slices[i], last);
      }
    } else {
      forall i | 0 <= i < n
        ensures NothingShared(slices[i], last)
      {
        OverlapIsSharedByte(slices[i], last);
      }
    }
  }

  ghost predicate SortedByStart(s: seq<Range>) {
    forall i, j :: 0 <= i < j < |s| ==> s[i].0 <= s[j].0
  }

  /**
   * The standard library's unstable sort by key: a sorted permutation. Nothing is promised
   * about the order of ranges with the same start.
   */
  method SortUnstableByStart(s: seq<Range>) returns (t: seq<Range>)
    ensures SortedByStart(t) && multiset(t) == multiset(s)
  {
    t := [];
    for i := 0 to |s|
      invariant SortedByStart(t) && multiset(t) == multiset(s[..i])
    {
      t := Insert(t, s[i]);
      assert s[..i + 1] == s[..i] + [s[i]];
    }
    assert s[..|s|] == s;
  }

  method Insert(s: seq<Range>, r: Range) returns (t: seq<Range>)
    requires SortedByStart(s)
    ensures SortedByStart(t) && multiset(t) == multiset(s) + multiset{r}
  {
    var k := 0;
    while k < |s| && s[k].0 < r.0
      invariant k <= |s| && forall j :: 0 <= j < k ==> s[j].0 < r.0
    {
      k := k + 1;
    }
    InsertedIsSorted(s, k, r);
    t := s[..k] + [r] + s[k..];
  }

  lemma InsertedKeepsRest(s: seq<Range>, k: nat, r: Range)
    requires k <= |s|
    ensures multiset(s[..k] + [r] + s[k..]) == multiset(s) + multiset{r}
  {
    assert s == s[..k] + s[k..];
  }

  lemma InsertedIsSorted(s: seq<Range>, k: nat, r: Range)
    requires SortedByStart(s) && k <= |s|
    requires forall j :: 0 <= j < k ==> s[j].0 < r.0
    requires k < |s| ==> r.0 <= s[k].0
    ensures SortedByStart(s[..k] + [r] + s[k..])
    ensures multiset(s[..k] + [r] + s[k..]) == multiset(s) + multiset{r}
  {
    var t := s[..k] + [r] + s[k..];
    InsertedKeepsRest(s, k, r);
    forall i, j | 0 <= i < j < |t|
      ensures t[i].0 <= t[j].0
    {
      assert t[i] == if i < k then s[i] else if i == k then r else s[i - 1];
      assert t[j] == if j < k then s[j] else if j == k then r else s[j - 1];
    }
  }

  /** In a sorted list of nonempty ranges, neighbours that do not overlap leave no overlap at all. */
  lemma {:induction false} NeighboursSuffice(s: seq<Range>, i: nat, j: nat)
    requires forall k :: 0 <= k < |s| ==> s[k].0 < s[k].1
    requires forall k :: 0 < k < |s| ==> s[k - 1].1 <= s[k].0
    requires i < j < |s|
    ensures s[i].1 <= s[j].0
  {
    if i + 1 < j {
      NeighboursSuffice(s, i, j - 1);
    }
  }

  lemma AcceptedIffClear(slices: seq<WriteSlice>, sorted: seq<Range>)
    requires multiset(sorted) == multiset(Ranges(slices))
    ensures Pairwise(sorted, Clear) <==> Pairwise(slices, NothingShared)
    ensures forall k :: 0 <= k < |sorted| ==> sorted[k].0 < sorted[k].1
  {
    RangesAreNonempty(slices);
    RangesClearIffNothingShared(slices);
    assert forall k :: 0 <= k < |sorted| ==> sorted[k] in multiset(Ranges(slices));
    if Pairwise(sorted, Clear) {
      PairwiseIgnoresOrder(sorted, Ranges(slices), Clear);
    }
    if Pairwise(Ranges(slices), Clear) {
      PairwiseIgnoresOrder(Ranges(slices), sorted, Clear);
    }
  }

  /** Both slices are nonempty, and each starts before the other ends. */
  predicate Overlap(x: WriteSlice, y: WriteSlice) {
    && |x.data| > 0 && |y.data| > 0
    && x.offset < y.offset + |y.data|
    && y.offset < x.offset + |x.data|
  }

  lemma AcceptedByRanges(slices: seq<WriteSlice>)
    ensures Pairwise(slices, NothingShared) <==>
              forall i, j :: 0 <= i < j < |slices| ==> !Overlap(slices[i], slices[j])
  {
    forall i, j | 0 <= i < j < |slices|
      ensures NothingShared(slices[i], slices[j]) <==> !Overlap(slices[i], slices[j])
    {
      OverlapIsSharedByte(slices[i], slices[j]);
    }
  }

  /**
   * Accepts a batch if and only if no nonempty slice overflows and no two slices share a
   * byte offset. Overflow is reported before overlap.
   */
  method New(slices: seq<WriteSlice>) returns (r: Result<seq<WriteSlice>>)
    ensures r.Ok? <==> Accepted(slices)
    ensures r.Ok? ==> r.value == slices
    ensures r == Err(OffsetOverflow) <==>
              exists i :: 0 <= i < |slices| && |slices[i].data| > 0 && slices[i].offset + |slices[i].data| > U64_MAX
    ensures r == Err(SlicesOverlap) ==> exists i, j :: 0 <= i < j < |slices| && Overlap(slices[i], slices[j])
    ensures r.Ok? ==> forall i, j :: 0 <= i < j < |slices| ==> !Overlap(slices[i], slices[j])
    ensures r.Err? ==> r.error in {OffsetOverflow, SlicesOverlap}
  {
    hide SharesByte, NothingShared, Overlap;
    AcceptedByRanges(slices);
    var sorted := CollectRanges(slices);
    if sorted.Err? {
      return Err(sorted.error);
    }
    var ranges := SortUnstableByStart(sorted.value);
    AcceptedIffClear(slices, ranges);
    var clear := NeighboursClear(ranges);
    r := if clear then Ok(slices) else Err(SlicesOverlap);
  }

  /** The ranges of the nonempty slices, or the first overflow. */
  method CollectRanges(slices: seq<WriteSlice>) returns (r: Result<seq<Range>>)
    ensures r.Ok? ==> r.value == Ranges(slices)
    ensures r.Err? ==> r.error == OffsetOverflow
    ensures r.Err? <==> exists i :: 0 <= i < |slices| && EndsPastU64(slices[i])
  {
    var ranges: seq<Range> := [];
    for i := 0 to |slices|
      invariant ranges == Ranges(slices[..i])
      invariant forall j :: 0 <= j < i ==> !EndsPastU64(slices[j])
    {
      assert slices[..i + 1][..i] == slices[..i];
      if |slices[i].data| > 0 {
        var end := slices[i].EndOffset();
        if end.Err? {
          assert EndsPastU64(slices[i]);
          return Err(end.error);
        }
        ranges := ranges + [(slices[i].offset, end.value)];
      }
    }
    assert slices[..|slices|] == slices;
    r := Ok(ranges);
  }

  /** Looks at neighbours only, and still finds any overlap in a sorted list of nonempty ranges. */
  method NeighboursClear(sorted: seq<Range>) returns (clear: bool)
    requires SortedByStart(sorted) && forall k :: 0 <= k < |sorted| ==> sorted[k].0 < sorted[k].1
    ensures clear <==> Pairwise(sorted, Clear)
  {
    var i := 1;
    while i < |sorted|
      invariant 1 <= i && forall k :: 0 < k < i && k < |sorted| ==> sorted[k - 1].1 <= sorted[k].0
    {
      if sorted[i - 1].1 > sorted[i].0 {
        assert !Clear(sorted[i - 1], sorted[i]);
        return false;
      }
      i := i + 1;
    }
    forall i, j | 0 <= i < j < |sorted|
      ensures Clear(sorted[i], sorted[j])
    {
      NeighboursSuffice(sorted, i, j);
    }
    return true;
  }

  /** Whether a batch is accepted does not depend on the order of its slices. */
  lemma AcceptedIgnoresOrder(xs: seq<WriteSlice>, ys: seq<WriteSlice>)
    requires multiset(xs) == multiset(ys) && Accepted(xs)
    ensures Accepted(ys)
  {
    PairwiseIgnoresOrder(xs, ys, NothingShared);
    forall i | 0 <= i < |ys|
      ensures !EndsPastU64(ys[i])
    {
      assert ys[i] in multiset(xs);
    }
  }

  // ---------------------------------------------------------------------------
  // What an accepted batch does
  // ---------------------------------------------------------------------------

  /** The slices written one after the other, in list order. */
  ghost function ApplySlices(file: seq<Byte>, slices: seq<WriteSlice>): seq<Byte> {
    if |slices| == 0 then file
    else
      var last := slices[|slices| - 1];
      Splice(ApplySlices(file, slices[..|slices| - 1]), last.offset, last.data, 0)
  }

  lemma NoSlicesChangeNothing(file: seq<Byte>, slices: seq<WriteSlice>)
    requires |slices| == 0
    ensures ApplySlices(file, slices) == file
  {
  }

  function SliceJobs(slices: seq<WriteSlice>): seq<Transfer> {
    seq(|slices|, i requires 0 <= i < |slices| => WriteFrom(slices[i].offset, slices[i].data))
  }

  lemma AcceptedSlicesAreIndependent(slices: seq<WriteSlice>)
    requires Accepted(slices)
    ensures PairwiseIndependent(SliceJobs(slices)) && AllWrites(SliceJobs(slices))
  {
    forall i, j | 0 <= i < j < |slices|
      ensures Independent(SliceJobs(slices)[i], SliceJobs(slices)[j])
    {
      assert NothingShared(slices[i], slices[j]);
      OverlapIsSharedByte(slices[i], slices[j]);
    }
  }

  lemma {:induction false} PerformedSlices(w: World, slices: seq<WriteSlice>, k: nat)
    requires k <= |slices|
    ensures Performed(w, SliceJobs(slices), k).file == ApplySlices(w.file, slices[..k])
  {
    if k > 0 {
      PerformedSlices(w, slices, k - 1);
      assert slices[..k][..k - 1] == slices[..k - 1];
    }
  }

  function Without<T>(s: seq<T>, i: nat): seq<T>
    requires i < |s|
  {
    s[..i] + s[i + 1..]
  }

  /** Any one slice of an accepted batch may be written last. */
  lemma {:induction false} SliceMayGoLast(file: seq<Byte>, slices: seq<WriteSlice>, i: nat)
    requires Accepted(slices) && i < |slices|
    ensures ApplySlices(file, slices)
         == Splice(ApplySlices(file, Without(slices, i)), slices[i].offset, slices[i].data, 0)
  {
    var n := |slices| - 1;
    var init, last := slices[..n], slices[n];
    if i == n {
      assert Without(slices, i) == init;
    } else {
      AcceptedWithout(slices, n);
      assert Without(slices, n) == init;
      SliceMayGoLast(file, init, i);
      assert Without(slices, i) == Without(init, i) + [last];
      assert NothingShared(slices[i], last);
      OverlapIsSharedByte(slices[i], last);
      SpliceCommutes(ApplySlices(file, Without(init, i)), slices[i].offset, slices[i].data, last.offset, last.data, 0);
    }
  }

  lemma AcceptedWithout(slices: seq<WriteSlice>, i: nat)
    requires Accepted(slices) && i < |slices|
    ensures Accepted(Without(slices, i))
  {
    var rest := Without(slices, i);
    assert forall k :: 0 <= k < |rest| ==> rest[k] == slices[if k < i then k else k + 1];
  }

  lemma RestsMatch<T>(xs: seq<T>, ys: seq<T>, i: nat, j: nat)
    requires i < |xs| && j < |ys| && xs[i] == ys[j] && multiset(xs) == multiset(ys)
    ensures multiset(Without(xs, i)) == multiset(Without(ys, j))
  {
    assert xs == xs[..i] + [xs[i]] + xs[i + 1..];
    assert ys == ys[..j] + [ys[j]] + ys[j + 1..];
    assert multiset(Without(xs, i)) == multiset(xs) - multiset{xs[i]};
    assert multiset(Without(ys, j)) == multiset(ys) - multiset{ys[j]};
  }

  /** An accepted batch leaves the same file in whatever order its slices are written. */
  lemma {:induction false} OrderDoesNotMatter(file: seq<Byte>, xs: seq<WriteSlice>, ys: seq<WriteSlice>)
    requires Accepted(xs) && multiset(xs) == multiset(ys)
    ensures ApplySlices(file, xs) == ApplySlices(file, ys)
    decreases |xs|
  {
    assert |multiset(xs)| == |multiset(ys)|;
    if |xs| > 0 {
      var n := |xs| - 1;
      assert xs[n] in multiset(ys);
      var i :| 0 <= i < |ys| && ys[i] == xs[n];
      AcceptedIgnoresOrder(xs, ys);
      SliceMayGoLast(file, ys, i);
      AcceptedWithout(xs, n);
      assert Without(xs, n) == xs[..n];
      RestsMatch(xs, ys, n, i);
      OrderDoesNotMatter(file, xs[..n], Without(ys, i));
    }
  }

  lemma AppliedIsFullProgress(file: seq<Byte>, slices: seq<WriteSlice>)
    requires Accepted(slices)
    ensures PairwiseIndependent(SliceJobs(slices)) && AllWrites(SliceJobs(slices))
    ensures WithinJobs(SliceJobs(slices), Lens(SliceJobs(slices)))
    ensures ApplySlices(file, slices)
         == Progressed(World(file, []), SliceJobs(slices), Lens(SliceJobs(slices)), |slices|).file
  {
    AcceptedSlicesAreIndependent(slices);
    ProgressedInFull(World(file, []), SliceJobs(slices), Lens(SliceJobs(slices)), |slices|);
    PerformedSlices(World(file, []), slices, |slices|);
    assert slices[..|slices|] == slices;
  }

  /** An accepted batch leaves each slice's own bytes at its offset, whatever the other slices are. */
  lemma SlicesHoldTheirBytes(file: seq<Byte>, slices: seq<WriteSlice>, i: nat, p: nat)
    requires Accepted(slices) && i < |slices| && Writes(slices[i], p)
    ensures p < |ApplySlices(file, slices)| && ApplySlices(file, slices)[p] == slices[i].data[p - slices[i].offset]
  {
    var jobs := SliceJobs(slices);
    AppliedIsFullProgress(file, slices);
    ProgressedByteByByte(World(file, []), jobs, Lens(jobs), |slices|);
    assert Covers(jobs, Lens(jobs), i, p);
  }

  /**
   * A byte that no slice writes is the old one, or zero where the old file did not reach;
   * and the file ends where the old file or some nonempty slice ends, whichever is last.
   */
  lemma OtherBytesAreKept(file: seq<Byte>, slices: seq<WriteSlice>, p: nat)
    requires Accepted(slices) && forall i :: 0 <= i < |slices| ==> !Writes(slices[i], p)
    ensures p < |ApplySlices(file, slices)| ==> ApplySlices(file, slices)[p] == if p < |file| then file[p] else 0
    ensures |ApplySlices(file, slices)| >= |file|
    ensures || |ApplySlices(file, slices)| == |file|
            || exists i :: 0 <= i < |slices| && EndsAt(slices[i], |ApplySlices(file, slices)|)
  {
    var jobs := SliceJobs(slices);
    AppliedIsFullProgress(file, slices);
    ProgressedByteByByte(World(file, []), jobs, Lens(jobs), |slices|);
    assert Uncovered(jobs, Lens(jobs), |slices|, p) by {
      forall i | 0 <= i < |slices|
        ensures !Covers(jobs, Lens(jobs), i, p)
      {
        assert !Writes(slices[i], p);
      }
    }
    var end := |ApplySlices(file, slices)|;
    if end != |file| {
      var i :| 0 <= i < |slices| && Lens(jobs)[i] > 0 && jobs[i].offset + Lens(jobs)[i] == end;
      assert EndsAt(slices[i], end);
    }
  }

  predicate EndsAt(x: WriteSlice, end: nat) {
    |x.data| > 0 && x.offset + |x.data| == end
  }
}
