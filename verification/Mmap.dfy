/** Memory-mapped regions: page-aligned windows on a file. */
module Mmap {
  import opened Common

  /** A window of `len` bytes that starts `start` bytes into a mapping. */
  datatype MmapRegion = MmapRegion(mapping: seq<Byte>, start: nat, len: nat) {
    /** What `MmapRegion::new` asserts. */
    predicate Inside() {
      start + len <= |mapping| <= USIZE_MAX
    }

    function AsSlice(): seq<Byte>
      requires Inside()
    {
      mapping[start..start + len]
    }

    function Subregion(offset: nat, n: nat): Option<MmapRegion> {
      if offset + n > USIZE_MAX then None
      else if offset + n > len then None
      else if start + offset > USIZE_MAX then None
      else Some(MmapRegion(mapping, start + offset, n))
    }
  }

  /** The system's view of a file from `offset` on, which must be page-aligned. */
  function View(file: seq<Byte>, offset: nat, len: nat): seq<Byte>
    requires offset + len <= |file|
  {
    file[offset..offset + len]
  }

  /** Maps the entire file. */
  function Map(file: seq<Byte>): Result<MmapRegion> {
    if |file| > USIZE_MAX then Err(InvalidInput)
    else if |file| == 0 then Err(InvalidData)
    else Ok(MmapRegion(View(file, 0, |file|), 0, |file|))
  }

  function AlignDown(offset: nat, page: nat): nat
    requires page > 0
  {
    (offset / page) * page
  }

  lemma AlignDownIsNearest(offset: nat, page: nat)
    requires page > 0
    ensures AlignDown(offset, page) <= offset < AlignDown(offset, page) + page
    ensures AlignDown(offset, page) % page == 0
  {
    var q := offset / page;
    assert offset == q * page + offset % page;
    MultipleLeavesNothing(q, page);
  }

  /** Maps `len` bytes at `offset` through a window that starts at the page boundary below. */
  function MapRange(file: seq<Byte>, page: nat, offset: nat, len: nat): Result<MmapRegion> {
    if len == 0 then Err(InvalidInput)
    else if offset + len > U64_MAX then Err(InvalidInput)
    else if offset + len > |file| then Err(UnexpectedEof)
    else if page == 0 then Err(InvalidInput)
    else
      var aligned := AlignDown(offset, page);
      assert aligned <= offset by { AlignDownIsNearest(offset, page); }
      var start := offset - aligned;
      if len + start > USIZE_MAX then Err(InvalidInput)
      else Ok(MmapRegion(View(file, aligned, len + start), start, len))
  }

  /**
   * A range of a file is mapped exactly when it is nonempty and inside the file, and then
   * it is the same bytes as that subregion of a map of the whole file. The window is
   * page-aligned, lies inside the file, and is less than a page longer than the range.
   */
  lemma RangeIsSubregionOfWhole(file: seq<Byte>, page: nat, offset: nat, len: nat)
    requires page > 0 && |file| <= U64_MAX
    ensures MapRange(file, page, offset, len).Ok? <==> 0 < len && offset + len <= |file|
    ensures MapRange(file, page, offset, len).Ok? ==>
              var range := MapRange(file, page, offset, len).value;
              && Map(file).Ok?
              && Map(file).value.Subregion(offset, len).Some?
              && range.Inside() && Map(file).value.Subregion(offset, len).value.Inside()
              && range.AsSlice() == Map(file).value.Subregion(offset, len).value.AsSlice() == file[offset..offset + len]
              && (offset - range.start) % page == 0
              && range.start < page
              && range.mapping == file[offset - range.start..offset + len]
  {
    AlignDownIsNearest(offset, page);
    if 0 < len && offset + len <= |file| {
      var aligned := AlignDown(offset, page);
      hide AlignDown;
      assert file[aligned..offset + len][offset - aligned..] == file[offset..offset + len];
      assert View(file, 0, |file|) == file;
    }
  }

  /** Which error a range is refused with. */
  lemma RangeErrors(file: seq<Byte>, page: nat, offset: nat, len: nat)
    requires |file| <= U64_MAX
    ensures MapRange(file, page, offset, len) == Err(UnexpectedEof) <==>
              0 < len && |file| < offset + len <= U64_MAX
    ensures MapRange(file, page, offset, len) == Err(InvalidInput) <==>
              len == 0 || offset + len > U64_MAX || (offset + len <= |file| && page == 0)
    ensures MapRange(file, page, offset, len).Err? ==>
              MapRange(file, page, offset, len).error in {UnexpectedEof, InvalidInput}
  {
    if page > 0 {
      AlignDownIsNearest(offset, page);
    }
  }

  /** A whole file is mapped unless it is empty, which is reported as invalid data. */
  lemma WholeFile(file: seq<Byte>)
    requires |file| <= U64_MAX
    ensures Map(file) == if |file| == 0 then Err(InvalidData) else Ok(MmapRegion(file, 0, |file|))
  {
    assert View(file, 0, |file|) == file;
  }

  /** A subregion exists exactly when it fits, stays inside the mapping, and is that part of the bytes. */
  lemma SubregionIsSlice(r: MmapRegion, offset: nat, n: nat)
    requires r.Inside()
    ensures r.Subregion(offset, n).Some? <==> offset + n <= r.len
    ensures r.Subregion(offset, n).Some? ==>
              && r.Subregion(offset, n).value.Inside()
              && r.Subregion(offset, n).value.AsSlice() == r.AsSlice()[offset..offset + n]
  {
    if offset + n <= r.len {
      SliceOfSlice(r.mapping, r.start, r.len, offset, n);
    }
  }

  lemma SliceOfSlice(s: seq<Byte>, start: nat, len: nat, offset: nat, n: nat)
    requires start + len <= |s| && offset + n <= len
    ensures s[start..start + len][offset..offset + n] == s[start + offset..start + offset + n]
  {
    var middle := s[start..start + len];
    var left, right := middle[offset..offset + n], s[start + offset..start + offset + n];
    assert |left| == |right|;
    assert forall i :: 0 <= i < n ==> left[i] == right[i];
  }

  /** Taking subregions one inside the other adds their offsets; nothing outside the first can be reached. */
  lemma {:induction false} SubregionsCompose(r: MmapRegion, offsets: seq<nat>, lens: seq<nat>, final: MmapRegion)
    requires r.Inside() && |offsets| == |lens| > 0
    requires Chain(r, offsets, lens) == Some(final)
    ensures final.Inside() && r.Subregion(SumOf(offsets), lens[|lens| - 1]) == Some(final)
    decreases |offsets|
  {
    var next := r.Subregion(offsets[0], lens[0]).value;
    if |offsets| > 1 {
      SubregionsCompose(next, offsets[1..], lens[1..], final);
    } else {
      assert Chain(next, offsets[1..], lens[1..]) == Some(next);
      assert SumOf(offsets[1..]) == 0;
    }
  }

  /** Subregion after subregion, stopping at the first that does not fit. */
  function Chain(r: MmapRegion, offsets: seq<nat>, lens: seq<nat>): Option<MmapRegion>
    requires |offsets| == |lens|
    decreases |offsets|
  {
    if |offsets| == 0 then Some(r)
    else
      var next := r.Subregion(offsets[0], lens[0]);
      if next.None? then None else Chain(next.value, offsets[1..], lens[1..])
  }

  function SumOf(s: seq<nat>): nat {
    if |s| == 0 then 0 else s[0] + SumOf(s[1..])
  }
}
