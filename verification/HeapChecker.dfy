/** The leak checker: hooks that record allocations, the flood that marks what is
    reachable, and the snapshot of what is not. */
module HeapChecker {
  import opened Sequences
  import opened Wrappers
  import opened AddressMap
  import opened Reachability
  import opened Arithmetic

  const MAX_ADDRESS := 0xFFFF_FFFF_FFFF_FFFF

  /** Every recorded object lies within the address bounds, and none is longer than the recorded maximum. */
  ghost predicate Bounded(c: Heap, low: nat, high: nat, longest: nat) {
    forall k | k in c :: low <= k && k + c[k].bytes <= high && c[k].bytes <= longest
  }

  /** A range to be read, standing for heap object `k`. */
  function ObjectRange(c: Heap, k: nat): Root
    requires k in c
  {
    Root(k, c[k].bytes, false)
  }

  /** Between `c` and `d` exactly the objects that the range points to became live, and were put on the list. */
  ghost predicate ScannedTo(c: Heap, d: Heap, m: Reader, ptr: nat, size: nat, work: seq<Root>, more: seq<Root>) {
    && SameObjects(c, d) && LiveSet(c) <= LiveSet(d)
    && (forall k | Points(c, m, ptr, size, k) :: k in LiveSet(d))
    && (forall k | k in LiveSet(d) && k !in LiveSet(c) :: Points(c, m, ptr, size, k) && ObjectRange(d, k) in more)
    && (forall w | w in work :: w in more)
    && (forall w | w in more ::
          w in work || (w.ptr in LiveSet(d) && w.ptr !in LiveSet(c) && w == ObjectRange(d, w.ptr)))
  }

  class HeapChecker {
    const profile: AddressMap<Alloc>
    var low: nat
    var high: nat
    var longest: nat

    ghost predicate Valid()
      reads this, profile
    {
      Tracking() && Apart(profile.Contents(), Bytes)
    }

    /** The bounds are right, even if allocations are recorded that overlap. */
    ghost predicate Tracking()
      reads this, profile
    {
      profile.Valid() && Bounded(profile.Contents(), low, high, longest)
    }

    constructor ()
      ensures Valid() && fresh(profile) && profile.Contents() == map[]
    {
      profile := new AddressMap<Alloc>();
      low, high, longest := MAX_ADDRESS, 0, 0;
    }

    /** Records an allocation, in place of one recorded at the same address. */
    method NewHook(ptr: nat, size: nat, ignore: bool)
      requires Tracking() && ptr <= MAX_ADDRESS
      modifies this, profile
      ensures Tracking()
      ensures old(Valid()) && (ptr != 0 ==> Apart(profile.Contents(), Bytes)) ==> Valid()
      ensures profile.Contents() == if ptr == 0 then old(profile.Contents())
                                    else old(profile.Contents())[ptr := Alloc(size, false, ignore)]
    {
      hide TableOk, ChainsOk, KeysOk, FreeOk, ContentsOf, Apart;
      if ptr != 0 {
        if size > longest {
          longest := size;
        }
        var addr := ptr;
        if addr < low {
          low := addr;
        }
        addr := addr + size;
        if addr > high {
          high := addr;
        }
        profile.Insert(ptr, Alloc(size, false, ignore));
      }
    }

    method DeleteHook(ptr: nat)
      requires Tracking()
      modifies profile
      ensures Tracking() && (old(Valid()) ==> Valid())
      ensures profile.Contents() == if ptr == 0 then old(profile.Contents()) else old(profile.Contents()) - {ptr}
    {
      hide TableOk, ChainsOk, KeysOk, FreeOk, ContentsOf;
      if ptr != 0 {
        var r := profile.FindAndRemove(ptr);
      }
    }

    /** Marks an object live, unless it is so already or is no object. */
    method MarkAsLive(ptr: nat) returns (marked: bool)
      requires profile.Valid()
      modifies profile
      ensures profile.Valid()
      ensures marked <==> ptr in old(profile.Contents()) && !old(profile.Contents())[ptr].live
      ensures profile.Contents() == if marked then
                old(profile.Contents())[ptr := old(profile.Contents())[ptr].(live := true)]
                                    else old(profile.Contents())
    {
      hide TableOk, ChainsOk, KeysOk, FreeOk;
      var e := profile.FindMutable(ptr);
      if e != 0 && !profile.entries[e].value.live {
        profile.Store(e, profile.entries[e].value.(live := true));
        return true;
      }
      return false;
    }

    /** The object that an address points to or into, and its size. */
    method FindInsideAlloc(limit: nat, addr: nat) returns (found: Option<nat>, size: nat)
      requires Valid()
      ensures Answer(profile.Contents(), Bytes, limit, addr, found)
      ensures found.Some? ==> found.value in profile.Contents() && size == profile.Contents()[found.value].bytes
    {
      hide TableOk, ChainsOk, KeysOk, FreeOk, Apart, Bounded;
      size := 0;
      found := profile.FindInside(Bytes, limit, addr);
      if found.Some? {
        var e := profile.FindMutable(found.value);
        size := profile.entries[e].value.bytes;
      }
    }

    /** Reads a range word by word and marks and lists every object newly pointed to. */
    method ScanRange(m: Reader, ptr: nat, size: nat, work: seq<Root>) returns (more: seq<Root>, count: nat)
      requires Valid() && m.align > 0
      modifies profile
      ensures Valid()
      ensures ScannedTo(old(profile.Contents()), profile.Contents(), m, ptr, size, work, more)
      ensures count == |LiveSet(profile.Contents())| - |LiveSet(old(profile.Contents()))| && |more| == |work| + count
    {
      hide TableOk, ChainsOk, KeysOk, FreeOk, ContentsOf, Apart, Bounded, Hits, LiveSet, SameObjects, Position;
      hide ScannedTo, ScannedUpTo, Answer;
      ghost var c := profile.Contents();
      more, count := work, 0;
      var pos, rest := ptr, size;
      var remainder := pos % m.align;
      if remainder != 0 {
        pos := pos + (m.align - remainder);
        rest := if rest >= m.align - remainder then rest - (m.align - remainder) else 0;
      }
      FirstPosition(ptr, size, m.align, pos, rest);
      StartScan(c, m, ptr, size, pos, work);
      if rest < WORD {
        EndScan(c, c, m, ptr, size, pos, work, work);
        return;
      }
      var last := pos + rest - WORD;
      while pos <= last
        invariant Valid() && pos % m.align == 0 && pos >= ptr
        invariant ScannedUpTo(c, profile.Contents(), m, ptr, size, pos, work, more)
        invariant count == |LiveSet(profile.Contents())| - |LiveSet(c)| && |more| == |work| + count
        decreases last + m.align - pos
      {
        AtPosition(ptr, size, m.align, pos);
        var marked := false;
        var addr := m.word(pos);
        ghost var d := profile.Contents();
        ghost var hit: Option<nat> := None;
        if low <= addr && addr <= high {
          var found, objectSize := FindInsideAlloc(m.limit, addr);
          hit := found;
          if found.Some? {
            marked := MarkAsLive(found.value);
            if marked {
              MarkingCounts(d, found.value);
              MarkingKeeps(d, found.value, low, high, longest);
              count := count + 1;
              more := more + [Root(found.value, objectSize, false)];
            }
          }
        } else {
          OutOfBounds(d, low, high, longest, m.limit, addr);
        }
        ScanOne(c, d, m, ptr, size, pos, work, if marked then more[..|more| - 1] else more, hit);
        StepMultiple(pos, m.align);
        pos := pos + m.align;
      }
      AllBefore(ptr, size, m.align, pos);
      EndScan(c, profile.Contents(), m, ptr, size, pos, work, more);
    }

    /** The flood: afterwards exactly the objects that were live, or are reachable from the roots, are live. */
    method IgnoreLiveObjects(m: Reader, roots: seq<Root>) returns (count: nat)
      requires Valid() && m.align > 0 && RootsOk(profile.Contents(), roots)
      requires Closed(profile.Contents(), m, LiveSet(profile.Contents()))
      modifies profile
      ensures Valid() && SameObjects(old(profile.Contents()), profile.Contents())
      ensures forall k :: k in LiveSet(profile.Contents()) <==>
                          k in LiveSet(old(profile.Contents())) || Reachable(old(profile.Contents()), m, roots, k)
      ensures Closed(profile.Contents(), m, LiveSet(profile.Contents()))
      ensures count == |LiveSet(profile.Contents())| - |LiveSet(old(profile.Contents()))|
    {
      hide TableOk, ChainsOk, KeysOk, FreeOk, ContentsOf, Apart, Bounded, LiveSet, SameObjects, Flooding, ScannedTo;
      hide Reachable, Closed;
      ghost var c := profile.Contents();
      var work := roots;
      count := 0;
      StartFlood(c, m, roots);
      while |work| > 0
        invariant Valid() && Flooding(c, profile.Contents(), m, roots, work)
        invariant count == |LiveSet(profile.Contents())| - |LiveSet(c)|
        decreases Unmarked(profile.Contents()), |work|
      {
        ghost var d := profile.Contents();
        ghost var before := work;
        var w := work[|work| - 1];
        work := work[..|work| - 1];
        var marked := false;
        if w.onHeap {
          marked := MarkAsLive(w.ptr);
          if marked {
            MarkingCounts(d, w.ptr);
            MarkingKeeps(d, w.ptr, low, high, longest);
            count := count + 1;
          }
        }
        ghost var e := profile.Contents();
        ghost var rest := work;
        var more;
        work, more := ScanRange(m, w.ptr, w.size, work);
        count := count + more;
        FloodStep(c, d, e, profile.Contents(), m, roots, before, rest, w, work);
        MarkedBound(c, profile.Contents(), m, roots, work);
        MarkedBound(c, d, m, roots, before);
      }
      EndFlood(c, profile.Contents(), m, roots);
    }

    /** The ignored objects, as roots that must be on the heap. */
    method IgnoredObjects() returns (roots: seq<Root>)
      requires profile.Valid()
      ensures forall r :: r in roots <==> IsIgnored(profile.Contents(), r)
    {
      hide TableOk, ChainsOk, KeysOk, FreeOk;
      roots := [];
      var keys := profile.Iterate();
      for i := 0 to |keys|
        invariant forall r :: r in roots <==> IsIgnored(profile.Contents(), r) && r.ptr in keys[..i]
      {
        assert keys[i] in profile.Contents();
        var e := profile.FindMutable(keys[i]);
        var v := profile.entries[e].value;
        if v.ignored {
          roots := roots + [Root(keys[i], v.bytes, true)];
        }
        assert keys[..i + 1] == keys[..i] + [keys[i]];
      }
      assert keys[..|keys|] == keys;
    }

    /** Marks all that is justified: reachable from the given ranges, or ignored or reachable from an ignored object. */
    method IgnoreAllLiveObjects(word: nat -> nat, align: nat, maxOffset: Option<nat>, ranges: seq<Root>)
      requires Valid() && align > 0 && RootsOk(profile.Contents(), ranges)
      requires LiveSet(profile.Contents()) == {}
      modifies profile
      ensures Valid() && SameObjects(old(profile.Contents()), profile.Contents())
      ensures forall k :: k in LiveSet(profile.Contents()) <==>
                          Justified(old(profile.Contents()), Reader(word, Limit(maxOffset, longest), align), ranges, k)
    {
      hide TableOk, ChainsOk, KeysOk, FreeOk, ContentsOf, Apart, Bounded, Reachable, LiveSet, Closed, SameObjects;
      var m := Reader(word, Limit(maxOffset, longest), align);
      ghost var c := profile.Contents();
      NoneClosed(c, m);
      var n := IgnoreLiveObjects(m, ranges);
      ghost var d := profile.Contents();
      var ignored := IgnoredObjects();
      IgnoredOk(d, ignored);
      n := IgnoreLiveObjects(m, ignored);
      SameTwice(c, d, profile.Contents());
      forall k ensures Reachable(d, m, ignored, k) <==> FromIgnored(c, m, k) {
        IgnoredReach(c, d, m, ignored, k);
      }
    }

    /** The objects that are neither live nor in the base snapshot; all live bits are cleared. */
    method NonLiveSnapshot(base: Heap) returns (dest: Snapshot)
      requires profile.Valid()
      modifies profile
      ensures profile.Valid() && profile.Contents() == Cleared(old(profile.Contents()))
      ensures dest.entries == NonLive(old(profile.Contents()), base)
      ensures dest.allocs == |dest.entries| && dest.bytes == TotalBytes(dest.entries)
    {
      hide TableOk, ChainsOk, KeysOk, FreeOk, TotalBytes, Cleared, NonLive;
      ghost var c := profile.Contents();
      dest := Snapshot(map[], 0, 0);
      var keys := profile.Iterate();
      NothingYet(c, base);
      for i := 0 to |keys|
        invariant profile.Valid() && profile.Contents() == ClearedIn(c, keys[..i])
        invariant dest.entries == NonLiveIn(c, base, keys[..i])
        invariant dest.allocs == |dest.entries| && dest.bytes == TotalBytes(dest.entries)
      {
        hide ContentsOf, ClearedIn, NonLiveIn, Visits;
        ghost var before := dest.entries;
        NextKey(c, base, keys, i);
        dest := AddIfNonLive(keys[i], base, dest);
      }
      AllKeys(c, base, keys);
    }

    method AddIfNonLive(key: nat, base: Heap, before: Snapshot) returns (dest: Snapshot)
      requires profile.Valid() && key in profile.Contents() && key !in before.entries
      requires before.allocs == |before.entries| && before.bytes == TotalBytes(before.entries)
      modifies profile
      ensures profile.Valid()
      ensures profile.Contents() == old(profile.Contents())[key := old(profile.Contents())[key].(live := false)]
      ensures dest.entries == if old(profile.Contents())[key].live || key in base then before.entries
                              else before.entries[key := old(profile.Contents())[key]]
      ensures dest.allocs == |dest.entries| && dest.bytes == TotalBytes(dest.entries)
    {
      hide TableOk, ChainsOk, KeysOk, FreeOk, TotalBytes;
      dest := before;
      var e := profile.FindMutable(key);
      var v := profile.entries[e].value;
      if v.live {
        profile.Store(e, v.(live := false));
      } else if key !in base {
        AddBytes(before.entries, key, v);
        dest := Snapshot(before.entries[key := v], before.allocs + 1, before.bytes + v.bytes);
      }
    }

    /** A leak check: exactly the objects allocated since the base snapshot that nothing justifies are reported, and a
        second look at every address reports no object that the first does not.  The record is left as it was. */
    method NoLeaks(word: nat -> nat, align: nat, maxOffset: Option<nat>, ranges: seq<Root>, base: Heap,
                   testAlignment: bool)
      returns (leaks: Snapshot, unaligned: Option<Snapshot>)
      requires Valid() && align > 0 && RootsOk(profile.Contents(), ranges)
      requires LiveSet(profile.Contents()) == {}
      modifies profile
      ensures Valid() && profile.Contents() == old(profile.Contents())
      ensures Leaks(profile.Contents(), Reader(word, Limit(maxOffset, longest), align), ranges, base, leaks)
      ensures unaligned.Some? <==> testAlignment && align != 1 && leaks.entries != map[]
      ensures unaligned.Some? ==>
                Leaks(profile.Contents(), Reader(word, Limit(maxOffset, longest), 1), ranges, base, unaligned.value)
      ensures unaligned.Some? ==> unaligned.value.entries.Keys <= leaks.entries.Keys
    {
      hide TableOk, ChainsOk, KeysOk, FreeOk, ContentsOf, Apart, Bounded, Justified, LiveSet, SameObjects, Cleared;
      hide NonLive, TotalBytes;
      leaks := FindLeaks(word, align, maxOffset, ranges, base);
      unaligned := None;
      if leaks.entries != map[] && testAlignment && align != 1 {
        var again := FindLeaks(word, 1, maxOffset, ranges, base);
        unaligned := Some(again);
        forall k | k in again.entries ensures k in leaks.entries {
          FinerJustifies(profile.Contents(), Reader(word, Limit(maxOffset, longest), align), ranges, k);
        }
      }
    }

    method FindLeaks(word: nat -> nat, align: nat, maxOffset: Option<nat>, ranges: seq<Root>, base: Heap)
      returns (leaks: Snapshot)
      requires Valid() && align > 0 && RootsOk(profile.Contents(), ranges)
      requires LiveSet(profile.Contents()) == {}
      modifies profile
      ensures Valid() && profile.Contents() == old(profile.Contents())
      ensures Leaks(profile.Contents(), Reader(word, Limit(maxOffset, longest), align), ranges, base, leaks)
    {
      hide TableOk, ChainsOk, KeysOk, FreeOk, ContentsOf, Apart, Bounded, Justified, LiveSet, SameObjects, Cleared;
      hide NonLive, TotalBytes;
      ghost var c := profile.Contents();
      IgnoreAllLiveObjects(word, align, maxOffset, ranges);
      ghost var d := profile.Contents();
      leaks := NonLiveSnapshot(base);
      AsBefore(c, d, base);
    }
  }

  /** A range that must be a heap object, and is one, is the whole object. */
  ghost predicate RootsOk(c: Heap, roots: seq<Root>) {
    forall r | r in roots && r.onHeap && r.ptr in c :: r.size == c[r.ptr].bytes
  }

  ghost function Unmarked(c: Heap): int { |c.Keys| - |LiveSet(c)| }

  lemma MarkedBound(c: Heap, d: Heap, m: Reader, roots: seq<Root>, work: seq<Root>)
    requires Flooding(c, d, m, roots, work)
    ensures |LiveSet(d)| <= |d.Keys| && |d.Keys| == |c.Keys|
  {
    SubsetSize(LiveSet(d), d.Keys);
  }

  /** What the flood keeps: only reachable objects are marked, and each marked object and each root has
      either been read or is on the list of ranges to read. */
  ghost predicate Flooding(c: Heap, d: Heap, m: Reader, roots: seq<Root>, work: seq<Root>) {
    && SameObjects(c, d) && LiveSet(c) <= LiveSet(d)
    && (forall k | k in LiveSet(d) && k !in LiveSet(c) :: Reachable(c, m, roots, k))
    && (forall w | w in work :: w in roots || FromObject(c, d, m, roots, w))
    && (forall a | a in LiveSet(d) && a in c :: ObjectRange(c, a) in work || Read(c, d, m, a, c[a].bytes))
    && (forall r | r in roots ::
          r in work || (Read(c, d, m, r.ptr, r.size) && (r.onHeap && r.ptr in c ==> r.ptr in LiveSet(d))))
  }

  ghost predicate FromObject(c: Heap, d: Heap, m: Reader, roots: seq<Root>, w: Root) {
    w.ptr in LiveSet(d) && w.ptr in c && w == ObjectRange(c, w.ptr) && Reachable(c, m, roots, w.ptr)
  }

  /** All that the range points to is live. */
  ghost predicate Read(c: Heap, d: Heap, m: Reader, ptr: nat, size: nat) {
    forall k | Points(c, m, ptr, size, k) :: k in LiveSet(d)
  }

  lemma StartFlood(c: Heap, m: Reader, roots: seq<Root>)
    requires Closed(c, m, LiveSet(c))
    ensures Flooding(c, c, m, roots, roots)
  {
    hide Points, Reachable;
  }

  lemma EndFlood(c: Heap, d: Heap, m: Reader, roots: seq<Root>)
    requires Flooding(c, d, m, roots, [])
    ensures SameObjects(c, d) && Closed(d, m, LiveSet(d))
    ensures forall k :: k in LiveSet(d) <==> k in LiveSet(c) || Reachable(c, m, roots, k)
  {
    hide Points, LiveSet, SameObjects;
    assert Closed(c, m, LiveSet(d));
    SameClosed(c, d, m);
    forall k | FromRoot(c, m, roots, k) ensures k in LiveSet(d) {
      var i :| 0 <= i < |roots| && Starts(c, m, roots[i], k);
      assert roots[i] in roots;
    }
    forall k | Reachable(c, m, roots, k) ensures k in LiveSet(d) {
      var path :| |path| > 0 && FromRoot(c, m, roots, path[0]) && IsPath(c, m, path) && path[|path| - 1] == k;
      ClosedCovers(c, m, roots, LiveSet(d), path, |path| - 1);
    }
  }

  lemma SameClosed(c: Heap, d: Heap, m: Reader)
    requires SameObjects(c, d) && Closed(c, m, LiveSet(d))
    ensures Closed(d, m, LiveSet(d))
  {
    hide Points, LiveSet;
    forall a, b | a in LiveSet(d) && a in d && Points(d, m, a, d[a].bytes, b) ensures b in LiveSet(d) {
      SamePoints(c, d, m, a, d[a].bytes, b);
    }
  }

  /** The object of a popped range that must be on the heap is marked first. */
  ghost predicate Popped(d: Heap, e: Heap, w: Root) {
    e == if w.onHeap && w.ptr in d && !d[w.ptr].live then d[w.ptr := d[w.ptr].(live := true)] else d
  }

  lemma PopMarks(c: Heap, d: Heap, e: Heap, w: Root)
    requires SameObjects(c, d) && Popped(d, e, w)
    ensures SameObjects(c, e) && LiveSet(d) <= LiveSet(e) && (w.onHeap && w.ptr in c ==> w.ptr in LiveSet(e))
    ensures forall k | k in LiveSet(e) && k !in LiveSet(d) :: w.onHeap && k == w.ptr && k in c
  {
  }

  lemma FloodStep(c: Heap, d: Heap, e: Heap, f: Heap, m: Reader, roots: seq<Root>, work: seq<Root>, rest: seq<Root>,
                  w: Root, more: seq<Root>)
    requires Flooding(c, d, m, roots, work) && work == rest + [w] && RootsOk(c, roots)
    requires Popped(d, e, w) && ScannedTo(e, f, m, w.ptr, w.size, rest, more)
    ensures Flooding(c, f, m, roots, more)
  {
    hide Points, LiveSet, SameObjects, Reachable, Popped;
    PopMarks(c, d, e, w);
    SameTwice(c, e, f);
    assert w in work;
    RangeRead(c, e, f, m, w);
    forall k | k in LiveSet(f) && k !in LiveSet(c) ensures Reachable(c, m, roots, k) {
      NewlyLive(c, d, e, f, m, roots, work, rest, w, more, k);
    }
    forall v | v in more ensures v in roots || FromObject(c, f, m, roots, v) {
      if v in rest {
        assert v in work;
      } else {
        NewlyLive(c, d, e, f, m, roots, work, rest, w, more, v.ptr);
        SameRange(c, f, v.ptr);
        LiveMeans(f, v.ptr);
      }
    }
    forall a | a in LiveSet(f) && a in c ensures ObjectRange(c, a) in more || Read(c, f, m, a, c[a].bytes) {
      SameRange(c, f, a);
      if a in LiveSet(d) {
        assert ObjectRange(c, a) in work || Read(c, d, m, a, c[a].bytes);
      }
    }
    forall r | r in roots
      ensures r in more || (Read(c, f, m, r.ptr, r.size) && (r.onHeap && r.ptr in c ==> r.ptr in LiveSet(f)))
    {
      assert r in work ==> r in rest || r == w;
    }
  }

  lemma SameRange(c: Heap, d: Heap, a: nat)
    requires SameObjects(c, d)
    ensures a in c <==> a in d
    ensures a in c ==> ObjectRange(c, a) == ObjectRange(d, a)
  {
  }

  lemma SameTwice(c: Heap, d: Heap, e: Heap)
    requires SameObjects(c, d) && SameObjects(d, e)
    ensures SameObjects(c, e)
  {
  }

  lemma RangeRead(c: Heap, e: Heap, f: Heap, m: Reader, w: Root)
    requires SameObjects(c, e) && forall k | Points(e, m, w.ptr, w.size, k) :: k in LiveSet(f)
    ensures Read(c, f, m, w.ptr, w.size)
  {
    hide Points, LiveSet, SameObjects;
    forall k | Points(c, m, w.ptr, w.size, k) ensures k in LiveSet(f) {
      SamePoints(c, e, m, w.ptr, w.size, k);
    }
  }

  /** What a range newly marks is reachable. */
  lemma NewlyLive(c: Heap, d: Heap, e: Heap, f: Heap, m: Reader, roots: seq<Root>, work: seq<Root>, rest: seq<Root>,
                  w: Root, more: seq<Root>, k: nat)
    requires Flooding(c, d, m, roots, work) && w in work && SameObjects(c, e)
    requires forall x | x in LiveSet(e) && x !in LiveSet(d) :: w.onHeap && x == w.ptr && x in c
    requires ScannedTo(e, f, m, w.ptr, w.size, rest, more) && k in LiveSet(f) && k !in LiveSet(c)
    ensures Reachable(c, m, roots, k)
  {
    hide Points, LiveSet, SameObjects, Reachable;
    if k in LiveSet(d) {
    } else if w in roots {
      var i :| 0 <= i < |roots| && roots[i] == w;
      if k !in LiveSet(e) {
        SamePoints(c, e, m, w.ptr, w.size, k);
      }
      assert FromRoot(c, m, roots, k);
      RootReachable(c, m, roots, k);
    } else {
      assert k !in LiveSet(e);
      SamePoints(c, e, m, w.ptr, w.size, k);
      StepReachable(c, m, roots, w.ptr, k);
    }
  }

  lemma AllBefore(ptr: nat, size: nat, align: nat, pos: nat)
    requires pos + WORD > ptr + size
    ensures forall p: nat | Position(ptr, size, align, p) :: p < pos
  {
  }

  /** As `ScannedTo`, for the positions before `upto`. */
  ghost predicate ScannedUpTo(c: Heap, d: Heap, m: Reader, ptr: nat, size: nat, upto: nat, work: seq<Root>,
                              more: seq<Root>)
  {
    && SameObjects(c, d) && LiveSet(c) <= LiveSet(d)
    && (forall p: nat, k: nat | Position(ptr, size, m.align, p) && p < upto && Hits(c, m, m.word(p), k) ::
          k in LiveSet(d))
    && (forall k | k in LiveSet(d) && k !in LiveSet(c) :: Points(c, m, ptr, size, k) && ObjectRange(d, k) in more)
    && (forall w | w in work :: w in more)
    && (forall w | w in more ::
          w in work || (w.ptr in LiveSet(d) && w.ptr !in LiveSet(c) && w == ObjectRange(d, w.ptr)))
  }

  ghost predicate NoneBefore(ptr: nat, size: nat, align: nat, pos: nat) {
    forall p: nat | Position(ptr, size, align, p) :: p >= pos
  }

  /** The first position is the start of the range, rounded up. */
  lemma FirstPosition(ptr: nat, size: nat, align: nat, pos: nat, rest: nat)
    requires align > 0
    requires pos == if ptr % align == 0 then ptr else ptr + (align - ptr % align)
    requires rest == if ptr % align == 0 then size else if size >= align - ptr % align then size - (align - ptr % align)
               else 0
    ensures pos % align == 0 && pos >= ptr && NoneBefore(ptr, size, align, pos)
    ensures if rest < WORD then forall p: nat :: !Position(ptr, size, align, p) else pos + rest == ptr + size
  {
    if ptr % align != 0 {
      RoundUp(ptr, align, 0);
      forall p: nat | Position(ptr, size, align, p) ensures p >= pos { RoundUp(ptr, align, p); }
    }
  }

  lemma StartScan(c: Heap, m: Reader, ptr: nat, size: nat, pos: nat, work: seq<Root>)
    requires NoneBefore(ptr, size, m.align, pos)
    ensures ScannedUpTo(c, c, m, ptr, size, pos, work, work)
  {
  }

  lemma AtPosition(ptr: nat, size: nat, align: nat, pos: nat)
    requires align > 0 && pos % align == 0 && pos >= ptr && pos + WORD <= ptr + size
    ensures Position(ptr, size, align, pos)
  {
  }

  /** One more position: what it hits, if anything, is now live and listed. */
  lemma ScanOne(c: Heap, d: Heap, m: Reader, ptr: nat, size: nat, pos: nat, work: seq<Root>, more: seq<Root>,
                hit: Option<nat>)
    requires ScannedUpTo(c, d, m, ptr, size, pos, work, more) && Position(ptr, size, m.align, pos) && Apart(d, Bytes)
    requires Answer(d, Bytes, m.limit, m.word(pos), hit)
    ensures hit.None? || (hit.value in d && d[hit.value].live) ==>
              ScannedUpTo(c, d, m, ptr, size, pos + m.align, work, more)
    ensures hit.Some? ==> hit.value in d
    ensures hit.Some? && !d[hit.value].live ==>
              ScannedUpTo(c, d[hit.value := d[hit.value].(live := true)], m, ptr, size, pos + m.align, work,
                          more + [ObjectRange(d, hit.value)])
  {
    hide Points, SameObjects, LiveSet, Position, Hits, Answer, Apart;
    forall p: nat, k: nat | Position(ptr, size, m.align, p) && p < pos + m.align && Hits(c, m, m.word(p), k)
      ensures k in LiveSet(d) || (p == pos && hit == Some(k))
    {
      if p >= pos {
        HitHere(c, d, m, ptr, size, pos, p, k, hit);
      }
    }
    if hit.Some? {
      HitPoints(c, d, m, ptr, size, pos, hit.value);
      LiveMeans(d, hit.value);
      if !d[hit.value].live {
        MarkOne(c, d, hit.value);
      }
    }
  }

  /** The only new position is the present one, and what its word hits is what the lookup found. */
  lemma HitHere(c: Heap, d: Heap, m: Reader, ptr: nat, size: nat, pos: nat, p: nat, k: nat, hit: Option<nat>)
    requires SameObjects(c, d) && Apart(d, Bytes) && Answer(d, Bytes, m.limit, m.word(pos), hit)
    requires Position(ptr, size, m.align, pos) && Position(ptr, size, m.align, p) && pos <= p < pos + m.align
    requires Hits(c, m, m.word(p), k)
    ensures p == pos && hit == Some(k)
  {
    hide SameObjects, Apart;
    if p > pos { NextMultiple(pos, p, m.align); }
    SameHits(c, d, m, m.word(pos), k);
    if hit.Some? { OneHolder(d, Bytes, m.word(pos), k, hit.value); }
  }

  lemma HitPoints(c: Heap, d: Heap, m: Reader, ptr: nat, size: nat, pos: nat, k: nat)
    requires SameObjects(c, d) && Answer(d, Bytes, m.limit, m.word(pos), Some(k)) && Position(ptr, size, m.align, pos)
    ensures k in d && Points(c, m, ptr, size, k)
  {
    hide SameObjects, Points;
    SameHits(c, d, m, m.word(pos), k);
    PointsAt(c, m, ptr, size, pos, k);
  }

  lemma LiveMeans(d: Heap, k: nat)
    ensures k in LiveSet(d) <==> k in d && d[k].live
  {
  }

  lemma PointsAt(c: Heap, m: Reader, ptr: nat, size: nat, p: nat, k: nat)
    requires Position(ptr, size, m.align, p) && Hits(c, m, m.word(p), k)
    ensures Points(c, m, ptr, size, k)
  {
  }

  lemma MarkOne(c: Heap, d: Heap, k: nat)
    requires SameObjects(c, d) && k in d && !d[k].live
    ensures var e := d[k := d[k].(live := true)];
            && SameObjects(c, e) && LiveSet(e) == LiveSet(d) + {k} && k !in LiveSet(d)
            && (forall x | x in d :: x in e && ObjectRange(e, x) == ObjectRange(d, x))
  {
  }

  lemma MarkingCounts(d: Heap, k: nat)
    requires k in d && !d[k].live
    ensures |LiveSet(d[k := d[k].(live := true)])| == |LiveSet(d)| + 1
  {
    MarkOne(d, d, k);
  }

  lemma MarkingKeeps(d: Heap, k: nat, low: nat, high: nat, longest: nat)
    requires k in d && Apart(d, Bytes) && Bounded(d, low, high, longest)
    ensures var e := d[k := d[k].(live := true)]; Apart(e, Bytes) && Bounded(e, low, high, longest)
  {
    var e := d[k := d[k].(live := true)];
    forall a, b | a in e && b in e && a < b ensures a + Bytes(e[a]) <= b {
      assert Bytes(e[a]) == Bytes(d[a]);
    }
  }

  /** A word outside the address bounds points to nothing: the quick test loses no pointer. */
  lemma OutOfBounds(d: Heap, low: nat, high: nat, longest: nat, limit: nat, addr: nat)
    requires Bounded(d, low, high, longest) && !(low <= addr <= high)
    ensures Answer(d, Bytes, limit, addr, None)
  {
  }

  lemma EndScan(c: Heap, d: Heap, m: Reader, ptr: nat, size: nat, pos: nat, work: seq<Root>, more: seq<Root>)
    requires ScannedUpTo(c, d, m, ptr, size, pos, work, more)
    requires forall p: nat | Position(ptr, size, m.align, p) :: p < pos
    ensures ScannedTo(c, d, m, ptr, size, work, more)
  {
    hide SameObjects, LiveSet, Hits, Position;
    forall k | Points(c, m, ptr, size, k) ensures k in LiveSet(d) {
      var p :| Position(ptr, size, m.align, p) && Hits(c, m, m.word(p), k);
    }
  }

  /** The distance limit of the pointer lookup: the longest object, unless a smaller one is set. */
  function Limit(maxOffset: Option<nat>, longest: nat): nat {
    if maxOffset.Some? && maxOffset.value < longest then maxOffset.value else longest
  }

  ghost predicate IsIgnored(c: Heap, r: Root) {
    r.ptr in c && c[r.ptr].ignored && r == Root(r.ptr, c[r.ptr].bytes, true)
  }

  ghost predicate FromIgnored(c: Heap, m: Reader, k: nat) {
    exists a :: a in c && c[a].ignored && Reachable(c, m, [Root(a, c[a].bytes, true)], k)
  }

  /** The object is no leak. */
  ghost predicate Justified(c: Heap, m: Reader, ranges: seq<Root>, k: nat) {
    Reachable(c, m, ranges, k) || FromIgnored(c, m, k)
  }

  lemma IgnoredOk(c: Heap, roots: seq<Root>)
    requires forall r :: r in roots <==> IsIgnored(c, r)
    ensures RootsOk(c, roots)
  {
  }

  lemma NoneClosed(c: Heap, m: Reader)
    requires LiveSet(c) == {}
    ensures Closed(c, m, LiveSet(c))
  {
  }

  lemma IgnoredReach(c: Heap, d: Heap, m: Reader, roots: seq<Root>, k: nat)
    requires SameObjects(c, d) && forall r :: r in roots <==> IsIgnored(d, r)
    ensures Reachable(d, m, roots, k) <==> FromIgnored(c, m, k)
  {
    hide Reachable;
    OneRoot(d, m, roots, k);
    if Reachable(d, m, roots, k) {
      var r :| r in roots && Reachable(d, m, [r], k);
      SameReachable(d, c, m, [r], k);
      assert r == Root(r.ptr, c[r.ptr].bytes, true);
    }
    if FromIgnored(c, m, k) {
      var a :| a in c && c[a].ignored && Reachable(c, m, [Root(a, c[a].bytes, true)], k);
      SameReachable(c, d, m, [Root(a, c[a].bytes, true)], k);
      assert IsIgnored(d, Root(a, c[a].bytes, true));
    }
  }

  lemma FinerJustifies(c: Heap, m: Reader, ranges: seq<Root>, k: nat)
    ensures Justified(c, m, ranges, k) ==> Justified(c, m.(align := 1), ranges, k)
  {
    hide Reachable;
    if Reachable(c, m, ranges, k) {
      FinerReachesMore(c, m, ranges, k);
    } else if FromIgnored(c, m, k) {
      var a :| a in c && c[a].ignored && Reachable(c, m, [Root(a, c[a].bytes, true)], k);
      FinerReachesMore(c, m, [Root(a, c[a].bytes, true)], k);
    }
  }

  /** Objects taken out of the record, with their number and total size. */
  datatype Snapshot = Snapshot(entries: Heap, allocs: nat, bytes: nat)

  ghost predicate Leaks(c: Heap, m: Reader, ranges: seq<Root>, base: Heap, s: Snapshot) {
    && (forall k :: k in s.entries <==> k in c && k !in base && !Justified(c, m, ranges, k))
    && (forall k | k in s.entries :: k in c && s.entries[k] == c[k])
    && s.allocs == |s.entries| && s.bytes == TotalBytes(s.entries)
  }

  ghost function TotalBytes(c: Heap): nat {
    if c == map[] then 0 else var k :| k in c; c[k].bytes + TotalBytes(c - {k})
  }

  /** The total does not depend on the order in which the sizes are added. */
  lemma {:induction false} DropBytes(c: Heap, k: nat)
    requires k in c
    ensures TotalBytes(c) == c[k].bytes + TotalBytes(c - {k})
    decreases |c|
  {
    var x: nat :| x in c && TotalBytes(c) == c[x].bytes + TotalBytes(c - {x});
    if x != k {
      DropBytes(c - {x}, k);
      DropBytes(c - {k}, x);
      assert c - {x} - {k} == c - {k} - {x};
    }
  }

  lemma AddBytes(c: Heap, k: nat, v: Alloc)
    requires k !in c
    ensures TotalBytes(c[k := v]) == TotalBytes(c) + v.bytes && |c[k := v]| == |c| + 1
  {
    DropBytes(c[k := v], k);
    assert c[k := v] - {k} == c;
  }

  ghost function Cleared(c: Heap): Heap { map k | k in c :: c[k].(live := false) }

  ghost function NonLive(c: Heap, base: Heap): Heap { map k | k in c && !c[k].live && k !in base :: c[k] }

  ghost function ClearedIn(c: Heap, keys: seq<nat>): Heap
  {
    map k | k in c :: if k in keys then c[k].(live := false) else c[k]
  }

  ghost function NonLiveIn(c: Heap, base: Heap, keys: seq<nat>): Heap
  {
    map k | k in c && k in keys && !c[k].live && k !in base :: c[k]
  }

  lemma NothingYet(c: Heap, base: Heap)
    ensures ClearedIn(c, []) == c && NonLiveIn(c, base, []) == map[] && TotalBytes(map[]) == 0
  {
  }

  lemma NextKey(c: Heap, base: Heap, keys: seq<nat>, i: nat)
    requires Visits(keys, c.Keys) && i < |keys|
    ensures var a, b := keys[..i], keys[..i + 1];
            && keys[i] in ClearedIn(c, a) && ClearedIn(c, a)[keys[i]] == c[keys[i]] && keys[i] !in NonLiveIn(c, base, a)
            && ClearedIn(c, b) == ClearedIn(c, a)[keys[i] := c[keys[i]].(live := false)]
            && NonLiveIn(c, base, b) == if c[keys[i]].live || keys[i] in base then NonLiveIn(c, base, a)
                                        else NonLiveIn(c, base, a)[keys[i] := c[keys[i]]]
  {
    var a, b := keys[..i], keys[..i + 1];
    assert b == a + [keys[i]];
    assert keys[i] !in a;
  }

  lemma AllKeys(c: Heap, base: Heap, keys: seq<nat>)
    requires Visits(keys, c.Keys)
    ensures ClearedIn(c, keys[..|keys|]) == Cleared(c) && NonLiveIn(c, base, keys[..|keys|]) == NonLive(c, base)
  {
    assert keys[..|keys|] == keys;
  }

  /** Clearing the marks restores the record, and what was not marked is what the snapshot has. */
  lemma AsBefore(c: Heap, d: Heap, base: Heap)
    requires SameObjects(c, d) && LiveSet(c) == {}
    ensures Cleared(d) == c
    ensures forall k :: k in NonLive(d, base) <==> k in c && k !in base && k !in LiveSet(d)
    ensures forall k | k in NonLive(d, base) :: k in c && NonLive(d, base)[k] == c[k]
  {
    forall k | k in c ensures !c[k].live { assert k !in LiveSet(c); }
  }
}
