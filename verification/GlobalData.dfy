/** Which parts of the global data count as roots of a leak check: the ranges of
    the loaded libraries, less every mapped region that is a stack or was not
    mapped by one of the special callers. */
module GlobalData {
  import opened Reachability
  import RegionMap

  type Region = RegionMap.Region

  /** A range of code addresses whose mappings count as global data; both ends are outside it. */
  datatype CallerRange = CallerRange(start: nat, end: nat)

  /** Caller ranges are ordered by their ends and do not overlap. */
  ghost predicate Ordered(ranges: seq<CallerRange>) {
    && (forall i | 0 <= i < |ranges| :: ranges[i].start < ranges[i].end)
    && forall i, j | 0 <= i < j < |ranges| :: ranges[i].end <= ranges[j].start
  }

  ghost predicate IsSpecial(ranges: seq<CallerRange>, caller: nat) {
    exists i :: 0 <= i < |ranges| && ranges[i].start < caller < ranges[i].end
  }

  /** The region is taken out of the global data: it has a stack, or no special caller. */
  ghost predicate Excluded(r: Region, ranges: seq<CallerRange>) {
    r.isStack || r.caller == 0 || !IsSpecial(ranges, r.caller)
  }

  ghost predicate InRange(o: Root, a: nat) {
    o.ptr <= a < o.ptr + o.size
  }

  ghost predicate InRanges(s: seq<Root>, a: nat) {
    exists o :: o in s && InRange(o, a)
  }

  /** Looks up a caller: only the first range that ends behind it can have it. */
  method InSpecialRange(ranges: seq<CallerRange>, caller: nat) returns (special: bool)
    requires Ordered(ranges)
    ensures special <==> IsSpecial(ranges, caller)
  {
    var i := 0;
    while i < |ranges| && ranges[i].end <= caller
      invariant i <= |ranges| && forall j | 0 <= j < i :: ranges[j].end <= caller
    {
      i := i + 1;
    }
    special := i < |ranges| && ranges[i].start < caller;
    if i < |ranges| {
      assert forall j | i < j < |ranges| :: ranges[i].end <= ranges[j].start;
    }
  }

  method ToSubtract(r: Region, ranges: seq<CallerRange>) returns (subtract: bool)
    requires Ordered(ranges)
    ensures subtract <==> Excluded(r, ranges)
  {
    subtract := true;
    if !r.isStack && r.caller != 0 {
      var special := InSpecialRange(ranges, r.caller);
      subtract := !special;
    }
  }

  /** Takes one region out of every range. */
  method SubtractRegion(objects: seq<Root>, r: Region) returns (live: seq<Root>)
    requires r.start < r.end && forall o | o in objects :: !o.onHeap
    ensures forall a: nat :: InRanges(live, a) <==> InRanges(objects, a) && !RegionMap.Covers(r, a)
    ensures forall o | o in live :: !o.onHeap && exists p ::
              p in objects && p.ptr <= o.ptr && o.ptr + o.size <= p.ptr + p.size
  {
    live := [];
    for i := 0 to |objects|
      invariant forall a: nat :: InRanges(live, a) <==> InRanges(objects[..i], a) && !RegionMap.Covers(r, a)
      invariant forall o | o in live :: !o.onHeap && exists p ::
                  p in objects && p.ptr <= o.ptr && o.ptr + o.size <= p.ptr + p.size
    {
      ghost var before := live;
      var o := objects[i];
      var pieces := Subtract(o, r);
      live := live + pieces;
      OneMore(objects, i, r, before, pieces);
    }
    assert objects[..|objects|] == objects;
  }

  method Subtract(o: Root, r: Region) returns (pieces: seq<Root>)
    requires r.start < r.end && !o.onHeap
    ensures forall a: nat :: InRanges(pieces, a) <==> InRange(o, a) && !RegionMap.Covers(r, a)
    ensures forall p | p in pieces :: !p.onHeap && o.ptr <= p.ptr && p.ptr + p.size <= o.ptr + o.size
  {
    var start, end := o.ptr, o.ptr + o.size;
    if r.start <= start && end <= r.end {
      pieces := [];
    } else if start < r.start && r.end < end {
      pieces := [Root(start, r.start - start, false), Root(r.end, end - r.end, false)];
    } else if r.end > start && r.start <= start {
      pieces := [Root(r.end, end - r.end, false)];
    } else if r.start > start && r.start < end {
      pieces := [Root(start, r.start - start, false)];
    } else {
      pieces := [Root(start, o.size, false)];
    }
    forall a: nat | InRange(o, a) && !RegionMap.Covers(r, a) ensures InRanges(pieces, a) {
      assert InRange(pieces[0], a) || InRange(pieces[1], a);
    }
  }

  lemma OneMore(objects: seq<Root>, i: nat, r: Region, before: seq<Root>, pieces: seq<Root>)
    requires i < |objects|
    requires forall a: nat :: InRanges(before, a) <==> InRanges(objects[..i], a) && !RegionMap.Covers(r, a)
    requires forall a: nat :: InRanges(pieces, a) <==> InRange(objects[i], a) && !RegionMap.Covers(r, a)
    ensures forall a: nat :: InRanges(before + pieces, a) <==> InRanges(objects[..i + 1], a) && !RegionMap.Covers(r, a)
  {
    forall a: nat ensures InRanges(before + pieces, a) <==> InRanges(objects[..i + 1], a) && !RegionMap.Covers(r, a) {
      Either(before, pieces, a);
      assert objects[..i + 1] == objects[..i] + [objects[i]];
      Either(objects[..i], [objects[i]], a);
      assert [objects[i]][0] == objects[i];
    }
  }

  lemma Either(s: seq<Root>, t: seq<Root>, a: nat)
    ensures InRanges(s + t, a) <==> InRanges(s, a) || InRanges(t, a)
  {
    if InRanges(s, a) {
      var o :| o in s && InRange(o, a);
      assert o in s + t;
    }
    if InRanges(t, a) {
      var o :| o in t && InRange(o, a);
      assert o in s + t;
    }
  }

  /** Filters the ranges by all regions: exactly the addresses in some range and in no excluded region are left. */
  method FilterByRegions(objects: seq<Root>, regions: seq<Region>, ranges: seq<CallerRange>) returns (live: seq<Root>)
    requires Ordered(ranges) && (forall r | r in regions :: r.start < r.end) && forall o | o in objects :: !o.onHeap
    ensures forall a: nat :: InRanges(live, a) <==>
              InRanges(objects, a) && forall r | r in regions && Excluded(r, ranges) :: !RegionMap.Covers(r, a)
    ensures forall o | o in live :: !o.onHeap
  {
    live := objects;
    for i := 0 to |regions|
      invariant forall a: nat :: InRanges(live, a) <==>
                  InRanges(objects, a) && forall r | r in regions[..i] && Excluded(r, ranges) :: !RegionMap.Covers(r, a)
      invariant forall o | o in live :: !o.onHeap
    {
      hide InRanges, Excluded;
      assert forall r :: r in regions[..i + 1] <==> r in regions[..i] || r == regions[i] by {
        assert regions[..i + 1] == regions[..i] + [regions[i]];
      }
      var subtract := ToSubtract(regions[i], ranges);
      if subtract {
        live := SubtractRegion(live, regions[i]);
      }
    }
    assert regions[..|regions|] == regions;
  }
}
