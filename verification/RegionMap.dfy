/** The set of mapped memory regions kept by MemoryRegionMap: insertion, lookup and
    the removal of an address range. */
module RegionMap {
  import opened Wrappers

  /** A mapped range, with the call stack that mapped it. */
  datatype Region = Region(start: nat, end: nat, caller: nat, isStack: bool)

  const SAVED_MAX := 20

  predicate Overlaps(x: Region, y: Region) {
    x.start < y.end && x.end > y.start
  }

  predicate Within(x: Region, y: Region) {
    y.start <= x.start && x.end <= y.end
  }

  predicate Covers(x: Region, a: nat) {
    x.start <= a < x.end
  }

  ghost predicate Covered(s: seq<Region>, a: nat) {
    exists x :: x in s && Covers(x, a)
  }

  /** The regions are non-empty, ordered by their ends, and apart. */
  ghost predicate Ordered(s: seq<Region>) {
    && (forall x | x in s :: x.start < x.end)
    && forall i, j | 0 <= i < j < |s| :: s[i].end <= s[j].start
  }

  /** The set is ordered by the ends, and has no two regions with the same end. */
  ghost predicate Sorted(s: seq<Region>) { forall i, j | 0 <= i < j < |s| :: s[i].end < s[j].end }

  /** The region overlaps only regions that it lies within. */
  ghost predicate Fits(s: seq<Region>, r: Region) {
    forall x | x in s :: !Overlaps(r, x) || Within(r, x)
  }

  /** Saved regions are non-empty, apart from each other, and fit the recorded ones. */
  ghost predicate SavedOk(s: seq<Region>, saved: seq<Region>) {
    && (forall r | r in saved :: r.start < r.end && Fits(s, r))
    && forall i, j | 0 <= i < j < |saved| :: !Overlaps(saved[i], saved[j])
  }

  /** The place of `end` in the order. */
  ghost predicate IsLowerBound(s: seq<Region>, end: nat, i: nat) {
    && i <= |s|
    && (forall j | 0 <= j < i :: s[j].end < end)
    && forall j | i <= j < |s| :: s[j].end >= end
  }

  /** What removing `start..end` leaves of one region in the set, and what it puts aside instead. */
  function Kept(x: Region, start: nat, end: nat, recursive: bool): seq<Region> {
    if start <= x.start && x.end <= end then []
    else if x.start < start && end < x.end then [x.(start := end)]
    else if end > x.start && start <= x.start then [x.(start := end)]
    else if start > x.start && start < x.end then if recursive then [] else [x.(end := start)]
    else [x]
  }

  function Aside(x: Region, start: nat, end: nat, recursive: bool): seq<Region> {
    if recursive && x.start < start < x.end then [x.(end := start)] else []
  }

  function AllKept(s: seq<Region>, start: nat, end: nat, recursive: bool): seq<Region> {
    if s == [] then [] else AllKept(s[..|s| - 1], start, end, recursive) + Kept(s[|s| - 1], start, end, recursive)
  }

  function AllAside(s: seq<Region>, start: nat, end: nat, recursive: bool): seq<Region> {
    if s == [] then [] else AllAside(s[..|s| - 1], start, end, recursive) + Aside(s[|s| - 1], start, end, recursive)
  }

  class RegionMap {
    var created: bool
    var regions: seq<Region>
    var saved: seq<Region>
    var recursive: bool
    var mapSize: nat
    var unmapSize: nat

    ghost predicate Valid()
      reads this
    {
      Recorded() && SavedOk(regions, saved)
    }

    /** What holds even of saved regions that overlap recorded ones. */
    ghost predicate Recorded()
      reads this
    {
      Ordered(regions) && Indexed()
    }

    /** What holds even of recorded regions that overlap each other. */
    ghost predicate Indexed()
      reads this
    {
      Sorted(regions) && |saved| <= SAVED_MAX && (!created ==> regions == [])
    }

    /** There is room to set aside what has to be. */
    ghost predicate HasSpace(nested: seq<Region>)
      reads this
    {
      if recursive then nested == [] && |saved| < SAVED_MAX
      else |saved| + |nested| <= SAVED_MAX && forall r | r in saved || r in nested :: r.start < r.end
    }

    ghost predicate Admits(region: Region)
      reads this
    {
      Fits(regions, region) && forall x | x in saved :: !Overlaps(region, x)
    }

    constructor ()
      ensures Valid() && regions == [] && saved == [] && !recursive
    {
      created, regions, saved, recursive, mapSize, unmapSize := false, [], [], false, 0, 0;
    }

    method LowerBound(end: nat) returns (i: nat)
      requires Sorted(regions)
      ensures IsLowerBound(regions, end, i)
    {
      i := 0;
      while i < |regions| && regions[i].end < end
        invariant i <= |regions| && forall j | 0 <= j < i :: regions[j].end < end
      {
        i := i + 1;
      }
    }

    /** Finds the region that holds the address, except when another region ends just there. */
    method FindRegion(addr: nat) returns (r: Option<Region>)
      requires Ordered(regions)
      ensures r.Some? <==> Covered(regions, addr) && !exists x :: x in regions && x.end == addr
      ensures r.Some? ==> r.value in regions && Covers(r.value, addr)
    {
      OrderedSorted(regions);
      var i := LowerBound(addr);
      FindPlace(regions, addr, i);
      if i < |regions| && regions[i].start <= addr && addr < regions[i].end {
        return Some(regions[i]);
      }
      return None;
    }

    /** Adds a region, unless the first recorded one that ends no earlier starts no later or ends at the same address;
        tells where it was put.  Whatever it overlaps stays. */
    method DoInsertRegion(region: Region) returns (at: Option<nat>)
      requires Sorted(regions) && region.start < region.end
      modifies this`regions
      ensures Sorted(regions) && Placed(old(regions), region, regions, at)
      ensures old(Ordered(regions)) ==> (Ordered(regions) <==> at.None? || Free(old(regions), region))
      ensures old(Ordered(regions)) && Fits(old(regions), region) ==>
                Ordered(regions) && InsertedAt(old(regions), region, regions, at)
    {
      hide Ordered, Fits, Free, HasOver, Sorted;
      var i := LowerBound(region.end);
      if i < |regions| && regions[i].start <= region.start {
        RefusedFits(regions, region, i);
        return None;
      }
      // The set takes no second region with the same end.
      if i < |regions| && regions[i].end == region.end {
        RefusedFits(regions, region, i);
        return None;
      }
      InsertSorted(regions, region, i);
      InsertApart(regions, region, i);
      regions := regions[..i] + [region] + regions[i..];
      return Some(i);
    }

    /** Inserts the regions set aside by nested calls. */
    method HandleSavedRegions()
      requires Sorted(regions) && forall r | r in saved :: r.start < r.end
      modifies this`regions, this`saved
      ensures Sorted(regions) && saved == [] && Collected(old(regions), old(saved), regions)
      ensures old(Ordered(regions) && SavedOk(regions, saved)) ==>
                Ordered(regions) && Gathered(old(regions), old(saved), regions)
      ensures old(saved) == [] ==> regions == old(regions)
    {
      hide Ordered, Sorted, Fits, Covered, SavedOk, Gathered, Collected, InsertedAt, Placed, HasOver, Free;
      ghost var apart := Ordered(regions) && SavedOk(regions, saved);
      GatherNone(regions);
      CollectNone(regions);
      assert saved[|saved|..] == [];
      while |saved| > 0
        invariant Sorted(regions) && |saved| <= |old(saved)| && saved == old(saved)[..|saved|]
        invariant Collected(old(regions), old(saved)[|saved|..], regions)
        invariant apart ==>
                    Ordered(regions) && SavedOk(regions, saved)
                    && Gathered(old(regions), old(saved)[|saved|..], regions)
        invariant old(saved) == [] ==> regions == old(regions)
        decreases |saved|
      {
        ghost var before, n := regions, |saved| - 1;
        var r := saved[|saved| - 1];
        assert r in old(saved);
        saved := saved[..|saved| - 1];
        if apart { SavedFits(regions, old(saved)[..n + 1]); }
        var at := DoInsertRegion(r);
        CollectOne(old(regions), old(saved), n, before, regions, at);
        if apart {
          Inserted(before, r, regions, at);
          OnlyAdded(before, r, regions, at);
          StillOk(before, old(saved)[..n + 1], r, regions);
          GatherOne(old(regions), old(saved), n, before, regions);
        }
      }
      assert old(saved)[0..] == old(saved);
    }

    /** Inserts a region, or sets it aside while another insertion is at work.  When the set takes it, memory for it may
        have to be mapped: nested calls then record the regions `nested`. */
    method InsertRegion(region: Region, nested: seq<Region>) returns (at: Option<nat>)
      requires Indexed() && region.start < region.end && HasSpace(nested)
      modifies this`regions, this`saved, this`created, this`recursive
      ensures Indexed() && recursive == old(recursive)
      ensures recursive ==>
                regions == old(regions) && saved == old(saved) + [region] && created == old(created) && at == None
      ensures !recursive ==> created && saved == []
      ensures !recursive ==> Collected(old(regions), old(saved) + [region] + (if at.Some? then nested else []), regions)
      ensures old(Valid() && Admits(region)) && NestedOk(old(regions), old(saved), region, nested) ==> Valid()
      ensures !recursive && old(Valid() && Admits(region)) && NestedOk(old(regions), old(saved), region, nested) ==>
                Gathered(old(regions), old(saved) + [region] + (if at.Some? then nested else []), regions)
      ensures !recursive && old(saved) == [] && nested == [] && old(Valid() && Admits(region)) ==>
                InsertedAt(old(regions), region, regions, at)
      ensures at.Some? && old(saved) == [] && nested == [] ==> IsLowerBound(old(regions), region.end, at.value)
      decreases if recursive then 0 else 1, 0
    {
      hide Ordered, Sorted, Fits, Covered, SavedOk, Gathered, Collected, InsertedAt, Placed, HasOver, Free, NestedOk;
      if recursive {
        SaveOne(regions, saved, region);
        saved := saved + [region];
        return None;
      }
      ghost var apart := Valid() && Admits(region) && NestedOk(regions, saved, region, nested);
      if !created {
        created, recursive := true, true;
        HandleSavedRegions();
        recursive := false;
        if apart {
          NestedSaved(old(regions), old(saved), region, nested);
          StillFits(old(regions), old(saved), region, regions);
          NestedStill(old(regions), old(saved), region, nested, regions);
        }
      }
      recursive := true;
      ghost var before, late := regions, saved;
      at := DoInsertRegion(region);
      ghost var middle := regions;
      PlacedAt(before, region, regions, at);
      if at.Some? {
        SaveNested(nested);
      }
      ghost var more := if at.Some? then nested else [];
      assert saved == late + more;
      if apart {
        NestedAlso(before, late, region, nested, regions, saved);
        Inserted(before, region, regions, at);
      }
      HandleSavedRegions();
      recursive := false;
      NothingSaved(regions);
      InsertCollects(old(regions), old(saved), before, late, region, middle, at, more, regions);
      if apart {
        InsertGathers(old(regions), old(saved), before, late, region, middle, more, regions);
      }
    }

    /** The mappings made while a region is inserted are set aside. */
    method SaveNested(nested: seq<Region>)
      requires Indexed() && recursive && |saved| + |nested| <= SAVED_MAX && forall r | r in nested :: r.start < r.end
      modifies this`regions, this`saved, this`created, this`recursive
      ensures Indexed() && recursive && regions == old(regions) && created == old(created)
      ensures saved == old(saved) + nested
      decreases 0, 1
    {
      hide Sorted;
      assert saved + nested[..0] == saved;
      for i := 0 to |nested|
        invariant Indexed() && recursive && regions == old(regions) && created == old(created)
        invariant saved == old(saved) + nested[..i]
      {
        assert nested[..i + 1] == nested[..i] + [nested[i]];
        var at := InsertRegion(nested[i], []);
      }
      assert nested[..|nested|] == nested;
    }

    /** Records a mapping, which may overlap others. */
    method RecordRegionAddition(start: nat, size: nat, caller: nat, nested: seq<Region>) returns (ghost stored: bool)
      requires Indexed() && size > 0 && HasSpace(nested)
      modifies this
      ensures Indexed() && mapSize == old(mapSize) + size && unmapSize == old(unmapSize) && recursive == old(recursive)
      ensures var r := Region(start, start + size, caller, false);
              && (recursive ==> regions == old(regions) && saved == old(saved) + [r])
              && (!recursive ==>
                    saved == [] && Collected(old(regions), old(saved) + [r] + (if stored then nested else []), regions))
              && (old(Valid() && Admits(r)) && NestedOk(old(regions), old(saved), r, nested) ==>
                    Valid() && CoversMore(old(regions), old(saved), r, if stored then nested else [], regions, saved))
    {
      hide Ordered, Sorted, Fits, SavedOk, InsertedAt, HasOver, Covered, Gathered, Collected, NestedOk, CoversMore;
      var region := Region(start, start + size, caller, false);
      mapSize := mapSize + size;
      var at := InsertRegion(region, nested);
      stored := at.Some?;
      if old(Valid() && Admits(region)) && NestedOk(old(regions), old(saved), region, nested) {
        if recursive {
          SavedCovers(regions, old(saved), region);
        } else {
          GatheredCovers(old(regions), old(saved), region, if stored then nested else [], regions);
        }
      }
    }

    /** Takes saved regions with exactly these bounds off the list. */
    method DropSaved(start: nat, end: nat)
      modifies this`saved
      ensures saved == WithoutExact(old(saved), start, end)
    {
      var kept: seq<Region> := [];
      for i := 0 to |saved|
        invariant kept == WithoutExact(saved[..i], start, end)
      {
        assert saved[..i + 1][..i] == saved[..i];
        if !(saved[i].start == start && saved[i].end == end) {
          kept := kept + [saved[i]];
        }
      }
      assert saved[..|saved|] == saved;
      saved := kept;
    }

    /** The saved regions go in as any other. */
    method InsertSavedRegions()
      requires Valid() && created && !recursive
      modifies this`regions, this`saved, this`created, this`recursive
      ensures Valid() && created && !recursive && saved == [] && Gathered(old(regions), old(saved), regions)
    {
      hide Ordered, Fits, Covered, SavedOk, Gathered, InsertedAt, HasOver;
      GatherNone(regions);
      while |saved| > 0
        invariant Valid() && created && !recursive
        invariant (saved == old(saved) && regions == old(regions))
                    || (saved == [] && Gathered(old(regions), old(saved), regions))
        decreases |saved|
      {
        var region := saved[|saved| - 1];
        SavedFits(regions, saved);
        LastApart(regions, saved);
        saved := saved[..|saved| - 1];
        NestedNone(regions, saved, region);
        var at := InsertRegion(region, []);
        assert old(saved)[..|old(saved)| - 1] + [region] + (if at.Some? then [] else []) == old(saved);
      }
    }

    /** Takes a range of addresses out of all regions.  Outside a nested call no region meets the range afterwards and
        no address is gained; exactly the range is lost, unless it lies strictly inside one region. */
    method RecordRegionRemoval(start: nat, size: nat)
      requires if recursive then Recorded() && HasRoom(start, start + size) else Valid()
      modifies this
      ensures Recorded() && created == old(created) && recursive == old(recursive) && mapSize == old(mapSize)
      ensures old(Valid()) && (recursive ==> ApartFrom(old(regions), old(saved))) ==> Valid()
      ensures unmapSize == if created then old(unmapSize) + size else old(unmapSize)
      ensures !created ==>
                regions == [] && saved == if recursive then WithoutExact(old(saved), start, start + size)
                else old(saved)
      ensures created && !recursive ==> saved == [] && Removed(old(regions), old(saved), regions, start, start + size)
      ensures created && recursive ==>
                RemovedNested(old(regions), WithoutExact(old(saved), start, start + size), regions, saved, start,
                    start + size)
    {
      hide Ordered, Fits, Covered, SavedOk, Gathered, InsertedAt, HasOver, ApartFrom, Removed, RemovedNested, AllKept;
      hide AllAside, Kept, Aside;
      var end := start + size;
      if recursive {
        ExactKeeps(regions, saved, start, end);
        DropSaved(start, end);
      }
      if !created {
        return;
      }
      if !recursive {
        InsertSavedRegions();
        NothingSaved(regions);
        NothingAside(regions, start, end);
      }
      ghost var all, aside := regions, saved;
      Subtract(start, end);
      if recursive {
        RemovesNested(all, aside, start, end);
      } else {
        Removes(old(regions), old(saved), all, start, end);
      }
      unmapSize := unmapSize + size;
    }

    /** A nested call has room to set aside what it must. */
    ghost predicate HasRoom(start: nat, end: nat)
      reads this
    {
      |WithoutExact(saved, start, end)| + (if created then |AllAside(regions, start, end, true)| else 0) <= SAVED_MAX
    }

    /** The loop over the regions that may meet the range. */
    method Subtract(start: nat, end: nat)
      requires Recorded() && created && start <= end && (!recursive ==> saved == [])
      requires |saved| + |AllAside(regions, start, end, recursive)| <= SAVED_MAX
      modifies this`regions, this`saved, this`created, this`recursive
      ensures Recorded() && created && recursive == old(recursive)
      ensures old(SavedOk(regions, saved)) && (recursive ==> ApartFrom(old(regions), old(saved))) ==> Valid()
      ensures regions == AllKept(old(regions), start, end, recursive)
      ensures saved == old(saved) + AllAside(old(regions), start, end, recursive)
    {
      hide Ordered, Fits, Covered, SavedOk, Gathered, InsertedAt, HasOver, ApartFrom, AllKept, AllAside, Kept, Aside;
      ghost var all, aside := regions, saved;
      var i := LowerBound(start);
      ghost var j := i;
      Untouched(all, start, end, recursive, j);
      while i < |regions| && regions[i].start < end
        invariant created && recursive == old(recursive) && j <= |all|
        invariant i == |AllKept(all[..j], start, end, recursive)|
        invariant regions == Midway(all, start, end, recursive, j)
        invariant saved == aside + AllAside(all[..j], start, end, recursive)
        decreases |all| - j
      {
        i := SubtractOne(start, end, i, all, aside, j);
        j := j + 1;
      }
      TailUntouched(all, start, end, recursive, j);
      FinalOk(all, aside, start, end, recursive);
      OrderedSorted(regions);
    }

    method SubtractOne(start: nat, end: nat, at: nat, ghost all: seq<Region>, ghost aside: seq<Region>, ghost j: nat)
      returns (i: nat)
      requires created && start <= end && Ordered(all) && (!recursive ==> aside == [])
      requires |aside| + |AllAside(all, start, end, recursive)| <= SAVED_MAX
      requires j < |all| && at == |AllKept(all[..j], start, end, recursive)| && at < |regions|
      requires regions[at].start < end
      requires regions == Midway(all, start, end, recursive, j)
      requires saved == aside + AllAside(all[..j], start, end, recursive)
      modifies this`regions, this`saved, this`created, this`recursive
      ensures created && recursive == old(recursive) && i == |AllKept(all[..j + 1], start, end, recursive)|
      ensures regions == Midway(all, start, end, recursive, j + 1)
      ensures saved == aside + AllAside(all[..j + 1], start, end, recursive)
    {
      hide Ordered, Fits, Covered, SavedOk, Gathered, InsertedAt, HasOver, AllKept, AllAside, Midway, Sorted, Collected;
      hide Removed;
      ghost var a, b := AllKept(all[..j], start, end, recursive), all[j + 1..];
      i := at;
      OneMore(all, start, end, recursive, j);
      NonEmpty(all, j);
      ReplaceAt(a, all[j], b);
      var x := regions[i];
      if start <= x.start && x.end <= end {
        regions := regions[..i] + regions[i + 1..];
      } else if x.start < start && end < x.end {
        FirstCut(all, start, end, recursive, j);
        LeftPiece(all, [], start, j);
        OrderedSorted(all);
        if recursive { RoomFor(all, start, end, recursive, j); }
        NothingSaved(all);
        assert saved == aside;
        var put := InsertRegion(x.(end := start), []);
        SplitDrops(all, start, j, put, regions, recursive);
        regions := regions[i := x.(start := end)];
        i := i + 1;
      } else if end > x.start && start <= x.start {
        regions := regions[i := x.(start := end)];
        i := i + 1;
      } else if start > x.start && start < x.end {
        FirstCut(all, start, end, recursive, j);
        NothingSaved(all);
        WithoutOk(all, [], start, j);
        if recursive { RoomFor(all, start, end, recursive, j); }
        assert saved == aside;
        regions := regions[..i] + regions[i + 1..];
        ghost var before := regions;
        OrderedSorted(regions);
        var put := InsertRegion(x.(end := start), []);
        ChopPlace(all, start, j, put, before, regions, recursive);
        if put.Some? && put.value <= i {
          i := i + 1;
        }
      } else {
        i := i + 1;
      }
      Assemble(all, aside, start, end, recursive, j, saved);
    }
  }

  lemma ReplaceAt(a: seq<Region>, x: Region, b: seq<Region>)
    ensures var s := a + [x] + b;
            && s[|a|] == x && s[..|a|] + s[|a| + 1..] == a + [] + b
            && (forall y :: s[|a| := y] == a + [y] + b)
  {
    var s := a + [x] + b;
    assert s[..|a|] == a && s[|a| + 1..] == b;
    forall y ensures s[|a| := y] == a + [y] + b { }
  }

  lemma Assemble(s: seq<Region>, saved: seq<Region>, start: nat, end: nat, recursive: bool, j: nat, more: seq<Region>)
    requires j < |s|
    requires more == saved + AllAside(s[..j], start, end, recursive) + Aside(s[j], start, end, recursive)
    ensures AllKept(s[..j], start, end, recursive) + Kept(s[j], start, end, recursive) + s[j + 1..] ==
              Midway(s, start, end, recursive, j + 1)
    ensures more == saved + AllAside(s[..j + 1], start, end, recursive)
  {
    OneMore(s, start, end, recursive, j);
  }

  /** Some region reaches out of the range on both sides. */
  ghost predicate Inside(s: seq<Region>, start: nat, end: nat) {
    exists x :: x in s && x.start < start && end < x.end
  }

  ghost predicate ExactlyLost(s: seq<Region>, saved: seq<Region>, t: seq<Region>, start: nat, end: nat) {
    forall a: nat :: Covered(t, a) <==> (Covered(s, a) || Covered(saved, a)) && !(start <= a < end)
  }

  /** What a removal does to recorded regions `s` and saved regions. */
  ghost predicate Removed(s: seq<Region>, saved: seq<Region>, t: seq<Region>, start: nat, end: nat) {
    && (forall x | x in t :: x.end <= start || end <= x.start)
    && (forall a: nat | Covered(t, a) :: (Covered(s, a) || Covered(saved, a)) && !(start <= a < end))
    && (ExactlyLost(s, saved, t, start, end) <==> !Inside(s, start, end) && !Inside(saved, start, end))
    && (forall x | x in t :: exists y :: (y in s || y in saved) && PieceOf(x, y))
  }

  ghost predicate PieceOf(x: Region, y: Region) {
    Within(x, y) && x.caller == y.caller && x.isStack == y.isStack
  }

  /** In a nested call what is cut off on the left is set aside, so that nothing but the range is lost. */
  ghost predicate RemovedNested(s: seq<Region>, saved: seq<Region>, t: seq<Region>, aside: seq<Region>, start: nat,
                                end: nat)
  {
    && (forall x | x in t :: x.end <= start || end <= x.start)
    && saved <= aside
    && forall a: nat ::
        Covered(t, a) || Covered(aside, a) <==> (Covered(s, a) && !(start <= a < end)) || Covered(saved, a)
  }

  function WithoutExact(s: seq<Region>, start: nat, end: nat): seq<Region> {
    if s == [] then []
    else
      var rest, x := WithoutExact(s[..|s| - 1], start, end), s[|s| - 1];
      if x.start == start && x.end == end then rest else rest + [x]
  }

  ghost predicate ApartFrom(s: seq<Region>, saved: seq<Region>) {
    forall x, y | x in s && y in saved :: !Overlaps(x, y)
  }

  /** The regions after `j` of them have been looked at. */
  ghost function Midway(s: seq<Region>, start: nat, end: nat, recursive: bool, j: nat): seq<Region>
    requires j <= |s|
  {
    AllKept(s[..j], start, end, recursive) + s[j..]
  }

  /** Where a lookup ends: the region found holds the address unless one ends there or none holds it. */
  lemma FindPlace(s: seq<Region>, addr: nat, i: nat)
    requires Ordered(s) && IsLowerBound(s, addr, i)
    ensures (i < |s| && Covers(s[i], addr)) <==> Covered(s, addr) && !exists x :: x in s && x.end == addr
  {
    if i < |s| && Covers(s[i], addr) {
      forall x | x in s ensures x.end != addr {
        var j :| 0 <= j < |s| && s[j] == x;
        if j > i {
          assert s[i].end <= s[j].start && s[j] in s;
        }
      }
    }
    if Covered(s, addr) && !exists x :: x in s && x.end == addr {
      var x :| x in s && Covers(x, addr);
      var j :| 0 <= j < |s| && s[j] == x;
      assert i < |s| && s[i] in s;
      if i < j {
        assert s[i].end <= s[j].start;
      }
    }
  }

  /** A region may be missed: the address where one region ends and the next begins. */
  lemma AdjacentMissed()
    ensures exists s: seq<Region>, addr ::
              Ordered(s) && Covered(s, addr) && IsLowerBound(s, addr, 0) && !Covers(s[0], addr)
  {
    var x, y := Region(0, 10, 1, false), Region(10, 20, 2, false);
    var s := [x, y];
    assert s[1] == y && Covers(y, 10);
    assert Ordered(s) && Covered(s, 10) && IsLowerBound(s, 10, 0) && !Covers(s[0], 10);
  }

  /** A mapping that ends with a recorded one and starts before it is not recorded: its first addresses are lost. */
  lemma SameEndLost()
    ensures var s, r := [Region(10, 20, 1, false)], Region(5, 20, 2, false);
            Ordered(s) && Placed(s, r, s, None) && !Covered(s, 5) && Covers(r, 5)
  {
    var s, r := [Region(10, 20, 1, false)], Region(5, 20, 2, false);
    assert IsLowerBound(s, r.end, 0) && s[0].end == r.end;
  }

  /** A mapping that overlaps the start of a recorded one is recorded beside it: the regions are no longer apart. */
  lemma OverlapRecorded()
    ensures var s, r := [Region(10, 20, 1, false)], Region(5, 15, 2, false);
            Ordered(s) && Placed(s, r, [r] + s, Some(0)) && Sorted([r] + s) && !Ordered([r] + s)
  {
    var s, r := [Region(10, 20, 1, false)], Region(5, 15, 2, false);
    var t := [r] + s;
    assert s[..0] + [r] + s[0..] == t && t[0].end > t[1].start;
  }

  lemma OrderedSorted(s: seq<Region>)
    requires Ordered(s)
    ensures Sorted(s)
  {
    forall i, j | 0 <= i < j < |s| ensures s[i].end < s[j].end { assert s[j] in s; }
  }

  /** The region overlaps no recorded one. */
  ghost predicate Free(s: seq<Region>, r: Region) { forall x | x in s :: !Overlaps(r, x) }

  /** What the set does with one region. */
  ghost predicate Placed(s: seq<Region>, r: Region, t: seq<Region>, at: Option<nat>) {
    match at
    case None => t == s && exists i: nat ::
      IsLowerBound(s, r.end, i) && i < |s| && (s[i].start <= r.start || s[i].end == r.end)
    case Some(i) =>
      IsLowerBound(s, r.end, i) && t == s[..i] + [r] + s[i..] && (i < |s| ==> s[i].start > r.start && s[i].end > r.end)
  }

  lemma RefusedFits(s: seq<Region>, r: Region, i: nat)
    requires IsLowerBound(s, r.end, i) && i < |s| && (s[i].start <= r.start || s[i].end == r.end) && r.start < r.end
    ensures Ordered(s) && Fits(s, r) ==> HasOver(s, r)
  {
    assert s[i] in s;
  }

  lemma InsertSorted(s: seq<Region>, r: Region, i: nat)
    requires Sorted(s) && IsLowerBound(s, r.end, i) && (i < |s| ==> s[i].end > r.end)
    ensures Sorted(s[..i] + [r] + s[i..])
  {
    var t := s[..i] + [r] + s[i..];
    forall j, k | 0 <= j < k < |t| ensures t[j].end < t[k].end {
      assert j < i ==> t[j] == s[j];
      assert j > i ==> t[j] == s[j - 1];
      assert k < i ==> t[k] == s[k];
      assert k > i ==> t[k] == s[k - 1];
      assert k > i + 1 ==> s[i].end < s[k - 1].end;
    }
  }

  /** A region that the set takes keeps the regions apart, if and only if it overlaps none; and one that
      fits overlaps none. */
  lemma InsertApart(s: seq<Region>, r: Region, i: nat)
    requires IsLowerBound(s, r.end, i) && r.start < r.end && (i < |s| ==> s[i].start > r.start && s[i].end > r.end)
    ensures Ordered(s) ==> (Ordered(s[..i] + [r] + s[i..]) <==> Free(s, r)) && (Fits(s, r) ==> Free(s, r))
  {
    if Ordered(s) {
      if Free(s, r) { InsertOrdered(s, r, i); }
      if x :| x in s && Overlaps(r, x) {
        var j :| 0 <= j < |s| && s[j] == x;
        OverlapUnordered(s, r, i, j);
      }
      forall x | x in s ensures !Within(r, x) {
        var j :| 0 <= j < |s| && s[j] == x;
        assert j > i ==> s[i].end <= s[j].start;
        assert j >= i ==> s[i] in s;
      }
    }
  }

  lemma InsertOrdered(s: seq<Region>, r: Region, i: nat)
    requires Ordered(s) && r.start < r.end && Fits(s, r) && IsLowerBound(s, r.end, i)
    requires i < |s| ==> s[i].start > r.start
    ensures Ordered(s[..i] + [r] + s[i..])
  {
    var t := s[..i] + [r] + s[i..];
    forall j | 0 <= j < |s| ensures if j < i then s[j].end <= r.start else r.end <= s[j].start {
      assert s[j] in s;
      if j > i {
        assert s[i] in s && s[i].end <= s[j].start;
      }
    }
    forall j, k | 0 <= j < k < |t| ensures t[j].end <= t[k].start {
      var a, b := if j < i then j else j - 1, if k < i then k else k - 1;
      if j != i && k != i {
        assert t[j] == s[a] && t[k] == s[b];
      }
    }
  }

  /** The set has a region that ends no earlier, and starts no later or ends at the same address. */
  ghost predicate Refuses(s: seq<Region>, r: Region) {
    exists x :: x in s && r.end <= x.end && (x.start <= r.start || x.end == r.end)
  }

  /** `t` has `s`, and of the added regions those that it does not refuse. */
  ghost predicate Collected(s: seq<Region>, added: seq<Region>, t: seq<Region>) {
    && (forall x | x in t :: x in s || x in added)
    && (forall x | x in s :: x in t)
    && forall x | x in added :: x in t || Refuses(t, x)
  }

  lemma CollectNone(s: seq<Region>)
    ensures Collected(s, [], s)
  {
  }

  lemma PlacedIn(s: seq<Region>, r: Region, t: seq<Region>, at: Option<nat>)
    requires Placed(s, r, t, at)
    ensures Collected(s, [r], t)
  {
    if at.Some? {
      assert s == s[..at.value] + s[at.value..];
      assert t[at.value] == r;
    } else {
      var i: nat :| IsLowerBound(s, r.end, i) && i < |s| && (s[i].start <= r.start || s[i].end == r.end);
      assert s[i] in s;
    }
  }

  lemma PlacedAt(s: seq<Region>, r: Region, t: seq<Region>, at: Option<nat>)
    requires Placed(s, r, t, at)
    ensures (at.Some? ==> IsLowerBound(s, r.end, at.value)) && forall x | x in t :: x in s || x == r
  {
  }

  /** Adding the one and then the other. */
  lemma CollectBoth(s: seq<Region>, a: seq<Region>, u: seq<Region>, b: seq<Region>, t: seq<Region>, all: seq<Region>)
    requires Collected(s, a, u) && Collected(u, b, t) && forall x :: x in all <==> x in a || x in b
    ensures Collected(s, all, t)
  {
    forall x | x in a ensures x in t || Refuses(t, x) {
      if x !in u {
        var y :| y in u && x.end <= y.end && (y.start <= x.start || y.end == x.end);
        assert y in t;
      }
    }
  }

  lemma CollectOne(s: seq<Region>, saved: seq<Region>, n: nat, u: seq<Region>, t: seq<Region>, at: Option<nat>)
    requires n < |saved| && Collected(s, saved[n + 1..], u) && Placed(u, saved[n], t, at)
    ensures Collected(s, saved[n..], t)
  {
    hide Collected, Placed;
    PlacedIn(u, saved[n], t, at);
    assert saved[n..] == [saved[n]] + saved[n + 1..];
    CollectBoth(s, saved[n + 1..], u, [saved[n]], t, saved[n..]);
  }

  lemma InsertCollects(s: seq<Region>, saved: seq<Region>, u: seq<Region>, late: seq<Region>, r: Region, v: seq<Region>,
                       at: Option<nat>, more: seq<Region>, t: seq<Region>)
    requires (u == s && late == saved) || (Collected(s, saved, u) && late == [])
    requires Placed(u, r, v, at) && Collected(v, late + more, t)
    ensures Collected(s, saved + [r] + more, t)
  {
    hide Collected, Placed;
    PlacedIn(u, r, v, at);
    CollectBoth(u, [r], v, late + more, t, [r] + late + more);
    if late != saved || u != s {
      CollectBoth(s, saved, u, [r] + late + more, t, saved + [r] + more);
    } else {
      CollectNone(s);
      CollectBoth(s, [], s, [r] + late + more, t, saved + [r] + more);
    }
  }

  /** The nested mappings overlap neither each other, nor the region, nor what is set aside, and fit
      what is recorded. */
  ghost predicate NestedOk(s: seq<Region>, saved: seq<Region>, r: Region, nested: seq<Region>) {
    SavedOk(s, saved + nested) && forall x | x in nested :: !Overlaps(r, x)
  }

  lemma NestedNone(s: seq<Region>, saved: seq<Region>, r: Region)
    requires SavedOk(s, saved)
    ensures NestedOk(s, saved, r, [])
  {
    assert saved + [] == saved;
  }

  lemma NestedSaved(s: seq<Region>, saved: seq<Region>, r: Region, nested: seq<Region>)
    requires NestedOk(s, saved, r, nested)
    ensures SavedOk(s, saved)
  {
    var all := saved + nested;
    forall i, j | 0 <= i < j < |saved|
      ensures !Overlaps(saved[i], saved[j])
    {
      assert all[i] == saved[i] && all[j] == saved[j];
    }
  }

  lemma NestedStill(s: seq<Region>, saved: seq<Region>, r: Region, nested: seq<Region>, t: seq<Region>)
    requires NestedOk(s, saved, r, nested) && Gathered(s, saved, t)
    ensures NestedOk(t, [], r, nested)
  {
    hide Covered, HasOver;
    var all := saved + nested;
    forall i, j | 0 <= i < j < |nested| ensures !Overlaps(nested[i], nested[j]) {
      assert all[|saved| + i] == nested[i] && all[|saved| + j] == nested[j];
    }
    forall q, x | q in nested && x in saved ensures !Overlaps(q, x) {
      var i, j :| 0 <= i < |saved| && saved[i] == x && 0 <= j < |nested| && nested[j] == q;
      assert all[i] == x && all[|saved| + j] == q;
    }
    forall q | q in nested ensures q.start < q.end && Fits(t, q) { assert q in all; }
    assert [] + nested == nested;
  }

  lemma NestedAlso(s: seq<Region>, saved: seq<Region>, r: Region, nested: seq<Region>, t: seq<Region>,
                   more: seq<Region>)
    requires NestedOk(s, saved, r, nested) && (forall x | x in saved :: !Overlaps(r, x))
    requires forall x | x in t :: x in s || x == r
    requires more == saved + nested || more == saved
    ensures SavedOk(t, more)
  {
    NestedSaved(s, saved, r, nested);
    AlsoOk(s, more, r, t);
  }

  ghost predicate CoversMore(s: seq<Region>, saved: seq<Region>, r: Region, more: seq<Region>, t: seq<Region>,
                             left: seq<Region>)
  {
    forall a: nat ::
        Covered(t, a) || Covered(left, a) <==> Covered(s, a) || Covered(saved, a) || Covers(r, a) || Covered(more, a)
  }

  lemma SavedCovers(s: seq<Region>, saved: seq<Region>, r: Region)
    ensures CoversMore(s, saved, r, [], s, saved + [r])
  {
    CoverMore(saved, r);
  }

  lemma GatheredCovers(s: seq<Region>, saved: seq<Region>, r: Region, more: seq<Region>, t: seq<Region>)
    requires Gathered(s, saved + [r] + more, t)
    ensures CoversMore(s, saved, r, more, t, [])
  {
    CoverMore(saved, r);
    forall a: nat ensures Covered(saved + [r] + more, a) <==> Covered(saved, a) || Covers(r, a) || Covered(more, a) {
      assert Covered(saved + [r] + more, a) <==> Covered(saved + [r], a) || Covered(more, a);
    }
  }

  /** `t` has `s` and the added regions, or regions that these lie within. */
  ghost predicate Gathered(s: seq<Region>, added: seq<Region>, t: seq<Region>) {
    && (forall a: nat :: Covered(t, a) <==> Covered(s, a) || Covered(added, a))
    && (forall x | x in t :: x in s || x in added)
    && (forall x | x in s :: x in t)
    && forall x | x in added :: HasOver(t, x)
  }

  ghost predicate HasOver(s: seq<Region>, r: Region) {
    exists x :: x in s && Within(r, x)
  }

  lemma SavedFits(s: seq<Region>, saved: seq<Region>)
    requires SavedOk(s, saved)
    ensures forall r | r in saved :: r.start < r.end && Fits(s, r)
  {
  }

  /** The effect of one insertion. */
  ghost predicate InsertedAt(s: seq<Region>, r: Region, t: seq<Region>, at: Option<nat>) {
    match at
    case None => t == s && HasOver(s, r)
    case Some(i) => i <= |s| && t == s[..i] + [r] + s[i..]
  }

  lemma Inserted(s: seq<Region>, r: Region, t: seq<Region>, at: Option<nat>)
    requires InsertedAt(s, r, t, at)
    ensures Gathered(s, [r], t)
  {
    forall x ensures x in t <==> x in s || (at.Some? && x == r) {
      if at.Some? {
        assert s == s[..at.value] + s[at.value..];
      }
    }
    assert forall a :: Covers(r, a) <==> Covered([r], a) by {
      assert [r][0] == r;
    }
    if at.Some? {
      assert Within(r, r);
    } else {
      var y :| y in s && Within(r, y);
      forall a | Covers(r, a) ensures Covered(s, a) { assert Covers(y, a); }
    }
  }

  lemma OnlyAdded(s: seq<Region>, r: Region, t: seq<Region>, at: Option<nat>)
    requires InsertedAt(s, r, t, at)
    ensures forall x | x in t :: x in s || x == r
  {
  }

  lemma NothingSaved(s: seq<Region>)
    ensures SavedOk(s, [])
  {
  }

  lemma GatherNone(s: seq<Region>)
    ensures Gathered(s, [], s)
  {
  }

  lemma StillOk(s: seq<Region>, saved: seq<Region>, r: Region, t: seq<Region>)
    requires |saved| > 0 && r == saved[|saved| - 1] && SavedOk(s, saved) && forall x | x in t :: x in s || x == r
    ensures SavedOk(t, saved[..|saved| - 1])
  {
    var rest := saved[..|saved| - 1];
    forall q | q in rest ensures q.start < q.end && Fits(t, q) {
      var j :| 0 <= j < |rest| && rest[j] == q;
      assert saved[j] == q && saved[j] in saved && !Overlaps(saved[j], saved[|saved| - 1]);
    }
  }

  lemma GatherOne(s: seq<Region>, saved: seq<Region>, n: nat, u: seq<Region>, t: seq<Region>)
    requires n < |saved| && Gathered(s, saved[n + 1..], u) && Gathered(u, [saved[n]], t)
    ensures Gathered(s, saved[n..], t)
  {
    var a, b := saved[n + 1..], saved[n..];
    assert b == [saved[n]] + a;
    assert saved[n] in [saved[n]];
    forall x | x in b ensures HasOver(t, x) {
      if x in a {
        var y :| y in u && Within(x, y);
        assert y in t;
      }
    }
    forall p ensures Covered(b, p) <==> Covered([saved[n]], p) || Covered(a, p) {
    }
  }

  lemma StillFits(s: seq<Region>, saved: seq<Region>, r: Region, t: seq<Region>)
    requires Gathered(s, saved, t) && Fits(s, r) && forall x | x in saved :: !Overlaps(r, x)
    ensures Fits(t, r)
  {
  }

  lemma AlsoOk(s: seq<Region>, saved: seq<Region>, r: Region, t: seq<Region>)
    requires SavedOk(s, saved) && (forall x | x in saved :: !Overlaps(r, x)) && forall x | x in t :: x in s || x == r
    ensures SavedOk(t, saved)
  {
  }

  lemma GatherBoth(s: seq<Region>, a: seq<Region>, u: seq<Region>, b: seq<Region>, t: seq<Region>, all: seq<Region>)
    requires Gathered(s, a, u) && Gathered(u, b, t) && forall x :: x in all <==> x in a || x in b
    ensures Gathered(s, all, t)
  {
    forall x | x in a ensures HasOver(t, x) {
      var y :| y in u && Within(x, y);
      assert y in t;
    }
    forall p: nat ensures Covered(all, p) <==> Covered(a, p) || Covered(b, p) { }
  }

  /** Whether saved regions go in before the new one or after it, the result has them all. */
  lemma InsertGathers(s: seq<Region>, saved: seq<Region>, u: seq<Region>, late: seq<Region>, r: Region, v: seq<Region>,
                      more: seq<Region>, t: seq<Region>)
    requires (u == s && late == saved) || (Gathered(s, saved, u) && late == [])
    requires Gathered(u, [r], v) && Gathered(v, late + more, t)
    ensures Gathered(s, saved + [r] + more, t)
  {
    hide Gathered;
    GatherBoth(u, [r], v, late + more, t, [r] + late + more);
    if late != saved || u != s {
      GatherBoth(s, saved, u, [r] + late + more, t, saved + [r] + more);
    } else {
      GatherNone(s);
      GatherBoth(s, [], s, [r] + late + more, t, saved + [r] + more);
    }
  }

  lemma SaveOne(s: seq<Region>, saved: seq<Region>, r: Region)
    requires r.start < r.end
    ensures SavedOk(s, saved) && Fits(s, r) && (forall x | x in saved :: !Overlaps(r, x)) ==> SavedOk(s, saved + [r])
  {
    var more := saved + [r];
    assert more[|saved|] == r;
    if SavedOk(s, saved) && Fits(s, r) && (forall x | x in saved :: !Overlaps(r, x)) {
      forall i, j | 0 <= i < j < |more| ensures !Overlaps(more[i], more[j]) {
        assert more[i] == saved[i] && saved[i] in saved;
        if j < |saved| { assert more[j] == saved[j]; }
      }
    }
  }

  lemma CoverMore(s: seq<Region>, r: Region)
    ensures forall a: nat :: Covered(s + [r], a) <==> Covered(s, a) || Covers(r, a)
  {
    assert (s + [r])[|s|] == r;
  }

  lemma NoneCovered()
    ensures forall a :: !Covered([], a)
  {
  }

  lemma LastApart(s: seq<Region>, saved: seq<Region>)
    requires SavedOk(s, saved) && |saved| > 0
    ensures var r, rest := saved[|saved| - 1], saved[..|saved| - 1];
            SavedOk(s, rest) && forall x | x in rest :: !Overlaps(r, x)
  {
    var rest := saved[..|saved| - 1];
    forall x | x in rest ensures x in saved && !Overlaps(saved[|saved| - 1], x) {
      var i :| 0 <= i < |rest| && rest[i] == x;
      assert saved[i] == x;
    }
  }

  lemma {:induction false} ExactIn(s: seq<Region>, start: nat, end: nat)
    ensures |WithoutExact(s, start, end)| <= |s|
    ensures forall x :: x in WithoutExact(s, start, end) <==> x in s && !(x.start == start && x.end == end)
  {
    if s != [] {
      ExactIn(s[..|s| - 1], start, end);
      assert s == s[..|s| - 1] + [s[|s| - 1]];
    }
  }

  lemma {:induction false} ExactApart(s: seq<Region>, start: nat, end: nat)
    requires forall i, j | 0 <= i < j < |s| :: !Overlaps(s[i], s[j])
    ensures var t := WithoutExact(s, start, end); forall i, j | 0 <= i < j < |t| :: !Overlaps(t[i], t[j])
  {
    if s != [] {
      var rest := s[..|s| - 1];
      ExactApart(rest, start, end);
      ExactIn(rest, start, end);
      var t, u := WithoutExact(s, start, end), WithoutExact(rest, start, end);
      forall i, j | 0 <= i < j < |t| ensures !Overlaps(t[i], t[j]) {
        if j == |u| {
          assert t[i] in u;
          var k :| 0 <= k < |rest| && rest[k] == t[i];
          assert s[k] == t[i] && t[j] == s[|s| - 1];
        } else {
          assert t[i] == u[i] && t[j] == u[j];
        }
      }
    }
  }

  lemma ExactKeeps(s: seq<Region>, saved: seq<Region>, start: nat, end: nat)
    ensures var t := WithoutExact(saved, start, end);
            (SavedOk(s, saved) ==> SavedOk(s, t)) && |t| <= |saved| && (ApartFrom(s, saved) ==> ApartFrom(s, t))
  {
    ExactIn(saved, start, end);
    if SavedOk(s, saved) { ExactApart(saved, start, end); }
  }

  lemma NonEmpty(s: seq<Region>, j: nat)
    requires Ordered(s) && j < |s|
    ensures s[j].start < s[j].end
  {
  }

  lemma OneMore(s: seq<Region>, start: nat, end: nat, recursive: bool, j: nat)
    requires j < |s|
    ensures AllKept(s[..j + 1], start, end, recursive) == AllKept(s[..j], start, end, recursive)
              + Kept(s[j], start, end, recursive)
    ensures AllAside(s[..j + 1], start, end, recursive) == AllAside(s[..j], start, end, recursive)
              + Aside(s[j], start, end, recursive)
    ensures Midway(s, start, end, recursive, j) == AllKept(s[..j], start, end, recursive) + [s[j]] + s[j + 1..]
  {
    assert s[..j + 1][..j] == s[..j];
    assert s[j..] == [s[j]] + s[j + 1..];
  }

  /** Regions that end before the range are left alone. */
  lemma {:induction false} Untouched(s: seq<Region>, start: nat, end: nat, recursive: bool, j: nat)
    requires Ordered(s) && j <= |s| && start <= end && forall k | 0 <= k < j :: s[k].end <= start
    ensures AllKept(s[..j], start, end, recursive) == s[..j] && AllAside(s[..j], start, end, recursive) == []
    ensures Midway(s, start, end, recursive, j) == s
  {
    if j > 0 {
      Untouched(s, start, end, recursive, j - 1);
      OneMore(s, start, end, recursive, j - 1);
      NonEmpty(s, j - 1);
      assert s[..j] == s[..j - 1] + [s[j - 1]];
    }
    assert s[..j] + s[j..] == s;
  }

  /** So are those that start behind it. */
  lemma {:induction false} TailUntouched(s: seq<Region>, start: nat, end: nat, recursive: bool, j: nat)
    requires Ordered(s) && j <= |s| && start <= end && (j < |s| ==> s[j].start >= end)
    ensures AllKept(s, start, end, recursive) == Midway(s, start, end, recursive, j)
    ensures AllAside(s, start, end, recursive) == AllAside(s[..j], start, end, recursive)
    decreases |s| - j
  {
    if j < |s| {
      OneMore(s, start, end, recursive, j);
      NonEmpty(s, j);
      assert j + 1 < |s| ==> s[j].end <= s[j + 1].start;
      TailUntouched(s, start, end, recursive, j + 1);
    } else {
      assert s[..j] == s && s[j..] == [];
    }
  }

  /** When a region starts before the range, no earlier one has been changed. */
  lemma FirstCut(s: seq<Region>, start: nat, end: nat, recursive: bool, j: nat)
    requires Ordered(s) && j < |s| && start <= end && s[j].start < start
    ensures AllKept(s[..j], start, end, recursive) == s[..j] && AllAside(s[..j], start, end, recursive) == []
    ensures Midway(s, start, end, recursive, j) == s
  {
    Untouched(s, start, end, recursive, j);
  }

  lemma LeftPiece(s: seq<Region>, saved: seq<Region>, start: nat, j: nat)
    requires Ordered(s) && j < |s| && s[j].start < start < s[j].end && ApartFrom(s, saved)
    ensures var r := s[j].(end := start); Fits(s, r) && forall x | x in saved :: !Overlaps(r, x)
  {
    var r := s[j].(end := start);
    forall x | x in s ensures !Overlaps(r, x) || Within(r, x) {
      var k :| 0 <= k < |s| && s[k] == x;
    }
    forall x | x in saved ensures !Overlaps(r, x) { assert s[j] in s && !Overlaps(s[j], x); }
  }

  lemma RoomFor(s: seq<Region>, start: nat, end: nat, recursive: bool, j: nat)
    requires j < |s| && s[j].start < start < s[j].end && recursive
    ensures |AllAside(s, start, end, recursive)| >= 1
  {
    InAside(s, start, end, recursive, s[j].(end := start));
  }

  /** The left piece of a split lies within the region not cut yet, so the set drops it. */
  lemma SplitDrops(s: seq<Region>, start: nat, j: nat, put: Option<nat>, t: seq<Region>, recursive: bool)
    requires Ordered(s) && j < |s| && s[j].start < start < s[j].end
    requires recursive ==> t == s
    requires !recursive ==> Ordered(t) && InsertedAt(s, s[j].(end := start), t, put)
    ensures t == s
  {
    if !recursive && put.Some? {
      OverlapUnordered(s, s[j].(end := start), put.value, j);
    }
  }

  lemma OverlapUnordered(s: seq<Region>, r: Region, i: nat, j: nat)
    requires i <= |s| && j < |s| && Overlaps(r, s[j])
    ensures !Ordered(s[..i] + [r] + s[i..])
  {
    var t := s[..i] + [r] + s[i..];
    assert t[i] == r && s[j] == if j < i then t[j] else t[j + 1];
  }

  lemma WithoutOrdered(s: seq<Region>, j: nat)
    requires Ordered(s) && j < |s|
    ensures Ordered(s[..j] + s[j + 1..])
  {
    var t := s[..j] + s[j + 1..];
    forall a, b | 0 <= a < b < |t| ensures t[a].end <= t[b].start {
      assert t[a] == s[if a < j then a else a + 1] && t[b] == s[if b < j then b else b + 1];
    }
  }

  lemma WithoutOk(s: seq<Region>, saved: seq<Region>, start: nat, j: nat)
    requires Ordered(s) && SavedOk(s, saved) && ApartFrom(s, saved) && j < |s| && s[j].start < start < s[j].end
    ensures var t, r := s[..j] + s[j + 1..], s[j].(end := start);
            Ordered(t) && SavedOk(t, saved) && Fits(t, r) && forall x | x in saved :: !Overlaps(r, x)
  {
    var t := s[..j] + s[j + 1..];
    WithoutOrdered(s, j);
    forall x | x in t ensures x in s { }
    LeftPiece(s, saved, start, j);
    var r := s[j].(end := start);
    forall x | x in t ensures !Overlaps(r, x) {
      var a :| 0 <= a < |t| && t[a] == x;
      assert x == s[if a < j then a else a + 1];
    }
  }

  lemma OnePlace(s: seq<Region>, end: nat, i: nat, j: nat)
    requires IsLowerBound(s, end, i) && IsLowerBound(s, end, j)
    ensures i == j
  {
    assert i < |s| ==> s[i].end >= end;
    assert j < |s| ==> s[j].end >= end;
  }

  /** The rest of a chopped region goes back to its place. */
  lemma ChopPlace(s: seq<Region>, start: nat, j: nat, put: Option<nat>, t: seq<Region>, u: seq<Region>, recursive: bool)
    requires Ordered(s) && j < |s| && s[j].start < start < s[j].end && t == s[..j] + s[j + 1..]
    requires recursive ==> u == t
    requires !recursive ==>
               InsertedAt(t, s[j].(end := start), u, put) && (put.Some? ==> IsLowerBound(t, start, put.value))
    ensures !recursive ==> put == Some(j) && u == s[..j] + [s[j].(end := start)] + s[j + 1..]
  {
    if !recursive {
      forall k | 0 <= k < |t|
        ensures if k < j then t[k].end < start else t[k].end >= start
        ensures !Within(s[j].(end := start), t[k])
      {
        assert t[k] == s[if k < j then k else k + 1] && t[k] in s;
      }
      OnePlace(t, start, if put.Some? then put.value else j, j);
      assert t[..j] == s[..j] && t[j..] == s[j + 1..];
    }
  }

  lemma {:induction false} InKept(s: seq<Region>, start: nat, end: nat, recursive: bool, y: Region)
    ensures y in AllKept(s, start, end, recursive) <==> exists x :: x in s && y in Kept(x, start, end, recursive)
  {
    hide Kept;
    if s != [] {
      var rest, last := s[..|s| - 1], s[|s| - 1];
      InKept(rest, start, end, recursive, y);
      assert s == rest + [last];
      if y in AllKept(rest, start, end, recursive) {
        var x :| x in rest && y in Kept(x, start, end, recursive);
        assert x in s;
      }
    }
  }

  lemma {:induction false} InAside(s: seq<Region>, start: nat, end: nat, recursive: bool, y: Region)
    ensures y in AllAside(s, start, end, recursive) <==> exists x :: x in s && y in Aside(x, start, end, recursive)
  {
    hide Aside;
    if s != [] {
      var rest, last := s[..|s| - 1], s[|s| - 1];
      InAside(rest, start, end, recursive, y);
      assert s == rest + [last];
      if y in AllAside(rest, start, end, recursive) {
        var x :| x in rest && y in Aside(x, start, end, recursive);
        assert x in s;
      }
    }
  }

  lemma KeptShape(x: Region, start: nat, end: nat, recursive: bool)
    requires x.start < x.end && start <= end
    ensures |Kept(x, start, end, recursive)| <= 1
    ensures forall y | y in Kept(x, start, end, recursive) :: y.start < y.end && Within(y, x)
  {
  }

  lemma KeptBefore(s: seq<Region>, start: nat, end: nat, recursive: bool, bound: nat)
    requires Ordered(s) && start <= end && forall x | x in s :: x.end <= bound
    ensures forall y | y in AllKept(s, start, end, recursive) :: y.end <= bound
  {
    hide AllKept, Kept;
    forall y | y in AllKept(s, start, end, recursive) ensures y.end <= bound {
      InKept(s, start, end, recursive, y);
      var x :| x in s && y in Kept(x, start, end, recursive);
      KeptShape(x, start, end, recursive);
    }
  }

  lemma {:induction false} KeptOrdered(s: seq<Region>, start: nat, end: nat, recursive: bool)
    requires Ordered(s) && start <= end
    ensures Ordered(AllKept(s, start, end, recursive))
  {
    hide Kept;
    if s != [] {
      var rest, last := s[..|s| - 1], s[|s| - 1];
      forall x | x in rest ensures x in s && x.end <= last.start {
        var i :| 0 <= i < |rest| && rest[i] == x;
        assert s[i] == x;
      }
      KeptOrdered(rest, start, end, recursive);
      var a, b := AllKept(rest, start, end, recursive), Kept(last, start, end, recursive);
      KeptBefore(rest, start, end, recursive, last.start);
      KeptShape(last, start, end, recursive);
      var all: seq<Region> := a + b;
      forall i, j | 0 <= i < j < |all| ensures all[i].end <= all[j].start {
        assert i < |a| ==> all[i] in a;
        assert j >= |a| ==> all[j] in b;
      }
    }
  }

  /** At most one region has the start of the range in its middle. */
  lemma AsideOne(s: seq<Region>, start: nat, end: nat, recursive: bool)
    requires Ordered(s) && start <= end
    ensures |AllAside(s, start, end, recursive)| <= 1
  {
    if s != [] {
      var rest, last := s[..|s| - 1], s[|s| - 1];
      if Aside(last, start, end, recursive) != [] {
        FirstCut(s, start, end, recursive, |s| - 1);
      } else {
        assert forall i, j | 0 <= i < j < |rest| :: s[i].end <= s[j].start;
        AsideOne(rest, start, end, recursive);
      }
    }
  }

  lemma FinalOk(s: seq<Region>, saved: seq<Region>, start: nat, end: nat, recursive: bool)
    requires Ordered(s) && start <= end
    ensures var t, more := AllKept(s, start, end, recursive), saved + AllAside(s, start, end, recursive);
            Ordered(t) && (SavedOk(s, saved) && (saved == [] || ApartFrom(s, saved)) ==> SavedOk(t, more))
  {
    hide AllKept, AllAside, Kept, Aside, Ordered, SavedOk, ApartFrom;
    KeptOrdered(s, start, end, recursive);
    if SavedOk(s, saved) && (saved == [] || ApartFrom(s, saved)) {
      ApartNone(s);
      FinalSaved(s, saved, start, end, recursive);
    }
  }

  lemma ApartNone(s: seq<Region>)
    ensures ApartFrom(s, [])
  {
  }

  lemma FinalSaved(s: seq<Region>, saved: seq<Region>, start: nat, end: nat, recursive: bool)
    requires Ordered(s) && SavedOk(s, saved) && start <= end && ApartFrom(s, saved)
    ensures SavedOk(AllKept(s, start, end, recursive), saved + AllAside(s, start, end, recursive))
  {
    hide AllKept, AllAside, Kept, Aside;
    AsideOne(s, start, end, recursive);
    var t, aside := AllKept(s, start, end, recursive), AllAside(s, start, end, recursive);
    forall y | y in t ensures exists x :: x in s && Within(y, x) {
      KeptWithin(s, start, end, recursive, y);
    }
    forall r | r in saved ensures Fits(t, r) {
      FitsStill(s, saved, t, r);
    }
    forall r | r in aside ensures r.start < r.end && Fits(t, r) && forall x | x in saved :: !Overlaps(r, x) {
      AsideFits(s, saved, start, end, recursive, r);
    }
    var more := saved + aside;
    forall i, j | 0 <= i < j < |more| ensures !Overlaps(more[i], more[j]) {
      assert more[i] == saved[i] && saved[i] in saved;
      assert if j < |saved| then more[j] == saved[j] else more[j] == aside[j - |saved|] && more[j] in aside;
    }
  }

  lemma FitsStill(s: seq<Region>, saved: seq<Region>, t: seq<Region>, r: Region)
    requires ApartFrom(s, saved) && r in saved && forall y | y in t :: exists x :: x in s && Within(y, x)
    ensures Fits(t, r)
  {
    forall y | y in t ensures !Overlaps(r, y) {
      var x :| x in s && Within(y, x);
      assert !Overlaps(x, r);
    }
  }

  lemma KeptWithin(s: seq<Region>, start: nat, end: nat, recursive: bool, y: Region)
    requires y in AllKept(s, start, end, recursive) && start <= end
    ensures exists x :: x in s && PieceOf(y, x)
  {
    InKept(s, start, end, recursive, y);
    var x :| x in s && y in Kept(x, start, end, recursive);
    assert PieceOf(y, x);
  }

  lemma LeftApart(x: Region, start: nat, end: nat, recursive: bool)
    requires start <= end && recursive
    ensures forall y, r | y in Kept(x, start, end, recursive) && r in Aside(x, start, end, recursive) :: !Overlaps(r, y)
  {
  }

  lemma AsideFits(s: seq<Region>, saved: seq<Region>, start: nat, end: nat, recursive: bool, r: Region)
    requires Ordered(s) && start <= end && r in AllAside(s, start, end, recursive) && ApartFrom(s, saved)
    ensures r.start < r.end && Fits(AllKept(s, start, end, recursive), r) && forall x | x in saved :: !Overlaps(r, x)
  {
    hide AllKept, AllAside, ApartFrom, Kept;
    InAside(s, start, end, recursive, r);
    var x :| x in s && r in Aside(x, start, end, recursive);
    var j :| 0 <= j < |s| && s[j] == x;
    LeftPiece(s, saved, start, j);
    forall y | y in AllKept(s, start, end, recursive) ensures !Overlaps(r, y) {
      InKept(s, start, end, recursive, y);
      var z :| z in s && y in Kept(z, start, end, recursive);
      var k :| 0 <= k < |s| && s[k] == z;
      KeptShape(z, start, end, recursive);
      LeftApart(x, start, end, recursive);
    }
  }

  lemma {:induction false} NothingAside(s: seq<Region>, start: nat, end: nat)
    ensures AllAside(s, start, end, false) == []
  {
    if s != [] {
      NothingAside(s[..|s| - 1], start, end);
    }
  }

  /** An address stays covered unless it is in the range, or to the left of it in a region that is split. */
  predicate Stays(x: Region, start: nat, end: nat, a: nat) {
    Covers(x, a) && !(start <= a < end) && !(x.start < start && end < x.end && a < start)
  }

  lemma StaysCovered(s: seq<Region>, start: nat, end: nat, a: nat)
    requires Ordered(s) && start <= end
    ensures Covered(AllKept(s, start, end, false), a) <==> exists x :: x in s && Stays(x, start, end, a)
  {
    hide AllKept;
    if Covered(AllKept(s, start, end, false), a) {
      var y :| y in AllKept(s, start, end, false) && Covers(y, a);
      InKept(s, start, end, false, y);
      var x :| x in s && y in Kept(x, start, end, false);
      assert Stays(x, start, end, a);
    }
    if x :| x in s && Stays(x, start, end, a) {
      var pieces := Kept(x, start, end, false);
      assert |pieces| == 1 && Covers(pieces[0], a);
      InKept(s, start, end, false, pieces[0]);
    }
  }

  lemma OneCovers(s: seq<Region>, x: Region, y: Region, a: nat)
    requires Ordered(s) && x in s && y in s && Covers(x, a) && Covers(y, a)
    ensures x == y
  {
    var i :| 0 <= i < |s| && s[i] == x;
    var j :| 0 <= j < |s| && s[j] == y;
  }

  lemma InsideEither(s: seq<Region>, saved: seq<Region>, all: seq<Region>, start: nat, end: nat)
    requires Gathered(s, saved, all)
    ensures Inside(all, start, end) <==> Inside(s, start, end) || Inside(saved, start, end)
  {
    if x :| x in saved && x.start < start && end < x.end {
      assert HasOver(all, x);
      var y :| y in all && Within(x, y);
    }
  }

  lemma Removes(s: seq<Region>, saved: seq<Region>, all: seq<Region>, start: nat, end: nat)
    requires Gathered(s, saved, all) && Ordered(all) && start <= end
    ensures Removed(s, saved, AllKept(all, start, end, false), start, end)
  {
    hide AllKept, Ordered, Inside;
    var t := AllKept(all, start, end, false);
    forall x | x in t ensures x.end <= start || end <= x.start {
      KeptOutside(all, start, end, false, x);
    }
    forall a: nat ensures Covered(t, a) <==> exists x :: x in all && Stays(x, start, end, a) {
      StaysCovered(all, start, end, a);
    }
    forall x | x in t ensures exists y :: (y in s || y in saved) && PieceOf(x, y) {
      KeptWithin(all, start, end, false, x);
    }
    forall a: nat ensures Covered(all, a) <==> Covered(s, a) || Covered(saved, a) { }
    InsideEither(s, saved, all, start, end);
    ExactWhen(s, saved, all, start, end);
  }

  lemma KeptOutside(s: seq<Region>, start: nat, end: nat, recursive: bool, y: Region)
    requires Ordered(s) && start <= end && y in AllKept(s, start, end, recursive)
    ensures y.end <= start || end <= y.start
  {
    InKept(s, start, end, recursive, y);
  }

  /** Exactly the range is lost, if and only if it lies strictly inside no region. */
  lemma ExactWhen(s: seq<Region>, saved: seq<Region>, all: seq<Region>, start: nat, end: nat)
    requires Ordered(all) && start <= end && forall a: nat :: Covered(all, a) <==> Covered(s, a) || Covered(saved, a)
    requires forall a: nat :: Covered(AllKept(all, start, end, false), a) <==> exists x ::
               x in all && Stays(x, start, end, a)
    ensures ExactlyLost(s, saved, AllKept(all, start, end, false), start, end) <==> !Inside(all, start, end)
  {
    hide AllKept, Ordered;
    var t := AllKept(all, start, end, false);
    if Inside(all, start, end) {
      var x :| x in all && x.start < start && end < x.end;
      assert Covers(x, x.start);
      assert Covered(all, x.start);
      if Covered(t, x.start) {
        var y :| y in all && Stays(y, start, end, x.start);
        OneCovers(all, x, y, x.start);
        assert false;
      }
      assert !ExactlyLost(s, saved, t, start, end);
    } else {
      forall a: nat | Covered(all, a) && !(start <= a < end) ensures Covered(t, a) {
        var x :| x in all && Covers(x, a);
        assert Stays(x, start, end, a);
      }
      assert ExactlyLost(s, saved, t, start, end);
    }
  }

  /** A range strictly inside a region: all addresses before it are lost as well. */
  lemma SplitLosesLeft()
    ensures var s := [Region(0, 30, 1, false)];
            var t := AllKept(s, 10, 20, false);
            Ordered(s) && t == [Region(20, 30, 1, false)] && !ExactlyLost(s, [], t, 10, 20)
  {
    var s := [Region(0, 30, 1, false)];
    var t := AllKept(s, 10, 20, false);
    assert s[..0] == [] && t == Kept(s[0], 10, 20, false);
    assert Covers(s[0], 5) && s[0] in s;
    assert Covered(s, 5) && !Covered(t, 5);
  }

  lemma RemovesNested(s: seq<Region>, saved: seq<Region>, start: nat, end: nat)
    requires Ordered(s) && start <= end
    ensures RemovedNested(s, saved, AllKept(s, start, end, true), saved + AllAside(s, start, end, true), start, end)
  {
    hide AllKept, AllAside, Ordered, Kept, Aside;
    var t, aside := AllKept(s, start, end, true), AllAside(s, start, end, true);
    forall x | x in t ensures x.end <= start || end <= x.start {
      KeptOutside(s, start, end, true, x);
    }
    forall a: nat ensures Covered(t, a) || Covered(aside, a) <==> Covered(s, a) && !(start <= a < end) {
      NestedCovers(s, start, end, a);
    }
    forall a: nat ensures Covered(saved + aside, a) <==> Covered(saved, a) || Covered(aside, a) { }
  }

  lemma NestedCovers(s: seq<Region>, start: nat, end: nat, a: nat)
    requires Ordered(s) && start <= end
    ensures Covered(AllKept(s, start, end, true), a) || Covered(AllAside(s, start, end, true), a) <==>
            Covered(s, a) && !(start <= a < end)
  {
    hide AllKept, AllAside;
    var t, aside := AllKept(s, start, end, true), AllAside(s, start, end, true);
    if Covered(t, a) {
      var y :| y in t && Covers(y, a);
      InKept(s, start, end, true, y);
      var x :| x in s && y in Kept(x, start, end, true);
      assert Covers(x, a);
    }
    if Covered(aside, a) {
      var y :| y in aside && Covers(y, a);
      InAside(s, start, end, true, y);
      var x :| x in s && y in Aside(x, start, end, true);
      assert Covers(x, a);
    }
    if Covered(s, a) && !(start <= a < end) {
      var x :| x in s && Covers(x, a);
      if x.start < start && a < start && start < x.end {
        var y := x.(end := start);
        assert Aside(x, start, end, true) == [y];
        InAside(s, start, end, true, y);
        assert Covers(y, a);
      } else {
        var pieces := Kept(x, start, end, true);
        assert |pieces| == 1 && Covers(pieces[0], a);
        InKept(s, start, end, true, pieces[0]);
      }
    }
  }
}
