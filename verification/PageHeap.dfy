/** The page heap: a coalescing allocator of spans with boundary tags, two
    families of free lists and incremental release to the system. */
module PageHeap {
  import opened Common
  import opened Wrappers
  import opened Sequences
  import opened Spans
  import opened SpanSteps
  import opened Heaps
  import opened Coalescing

  const MAX_VALID_PAGES := 0x7_FFFF_FFFF_FFFF
  const DEFAULT_RELEASE_DELAY := 0x4_0000
  const MAX_RELEASE_DELAY := 0x10_0000

  /** Conversion of a length to a 32-bit `int`. */
  function AsInt(x: int): int {
    (x + MAX_RUN) % (2 * MAX_RUN) - MAX_RUN
  }

  /** A run of pages granted by the system. */
  datatype Grant = Grant(start: nat, pages: nat)

  /** What the system answers to a first request, to a smaller second one, and whether the
      page map can be extended over the pages granted. */
  datatype SystemReply = SystemReply(first: Option<Grant>, second: Option<Grant>, mapped: bool)

  class PageHeap {
    var spans: map<SpanId, Span>
    var pagemap: map<nat, SpanId>
    var normal: seq<seq<SpanId>>
    var returned: seq<seq<SpanId>>
    var freeBytes: int
    var unmappedBytes: int
    var systemBytes: int
    var scavengeCounter: int
    var releaseIndex: nat

    // The true owner of every managed page.
    ghost var owner: map<nat, SpanId>
    // Pages obtained from the system for which the page map had no room.
    ghost var lost: set<nat>

    ghost function State(): Heap
      reads this
    {
      Heap(spans, owner, pagemap, normal, returned, freeBytes, unmappedBytes, systemBytes, lost)
    }

    ghost predicate Valid()
      reads this
    {
      Inv(State(), {}) && releaseIndex <= MAX_PAGES + 1
    }

    ghost function Pages(): map<nat, PageState>
      reads this
    {
      View(spans, owner)
    }

    constructor ()
      ensures Valid()
      ensures spans == map[] && Pages() == map[] && systemBytes == 0 && lost == {}
    {
      spans, pagemap, owner, lost := map[], map[], map[], {};
      normal, returned := seq(MAX_PAGES + 1, _ => []), seq(MAX_PAGES + 1, _ => []);
      freeBytes, unmappedBytes, systemBytes := 0, 0, 0;
      scavengeCounter, releaseIndex := 0, MAX_PAGES;
    }

    /** A descriptor for the run; its identity may be that of a span deleted earlier. */
    method NewSpan(start: nat, length: nat) returns (id: SpanId)
      modifies this`spans
      ensures id !in old(spans)
      ensures spans == old(spans)[id := Span(start, length, InUse, 0)]
    {
      FreshIdExists(spans.Keys);
      id :| id <= |spans.Keys| && id !in spans.Keys;
      spans := spans[id := Span(start, length, InUse, 0)];
    }

    method RecordSpan(id: SpanId)
      requires id in spans && spans[id].length >= 1
      modifies this`pagemap
      ensures pagemap == old(pagemap)[spans[id].start := id][spans[id].Last() := id]
    {
      pagemap := pagemap[spans[id].start := id];
      if spans[id].length > 1 {
        pagemap := pagemap[spans[id].start + spans[id].length - 1 := id];
      }
    }

    method PrependToFreeList(id: SpanId)
      requires id in spans && spans[id].Free() && |normal| == |returned| == MAX_PAGES + 1
      modifies this`normal, this`returned, this`freeBytes, this`unmappedBytes
      ensures State() == Enlist(old(State()), id)
    {
      var i := ListIndex(spans[id].length);
      if spans[id].location == Normal {
        freeBytes := freeBytes + spans[id].length * PAGE_SIZE;
        normal := normal[i := [id] + normal[i]];
      } else {
        unmappedBytes := unmappedBytes + spans[id].length * PAGE_SIZE;
        returned := returned[i := [id] + returned[i]];
      }
    }

    method RemoveFromFreeList(id: SpanId)
      requires id in spans && spans[id].Free() && |normal| == |returned| == MAX_PAGES + 1
      modifies this`normal, this`returned, this`freeBytes, this`unmappedBytes
      ensures State() == Unlist(old(State()), id) && |normal| == |returned| == MAX_PAGES + 1
    {
      var i := ListIndex(spans[id].length);
      if spans[id].location == Normal {
        freeBytes := freeBytes - spans[id].length * PAGE_SIZE;
        normal := normal[i := Without(normal[i], id)];
      } else {
        unmappedBytes := unmappedBytes - spans[id].length * PAGE_SIZE;
        returned := returned[i := Without(returned[i], id)];
      }
    }

    /** Splits a span in use into one of `n` pages followed by one of the rest. */
    method Split(id: SpanId, n: nat) returns (rest: SpanId)
      requires Valid() && id in spans && spans[id].location == InUse && spans[id].sizeclass == 0
      requires 0 < n < spans[id].length
      modifies this`spans, this`pagemap, this`owner
      ensures Valid()
      ensures rest !in old(spans)
      ensures var s := old(spans[id]);
              var a, b := Span(s.start, n, InUse, 0), Span(s.start + n, s.length - n, InUse, 0);
              && spans == old(spans)[id := a][rest := b]
              && Pages() == old(Pages()) + Fill(s.start + n, s.length - n, Used(rest))
    {
      hide Shape, OnLists, Conserved, Coalesced, View, AsInt, Fill;
      ghost var h := State();
      FitsInt(h, id, n);
      var extra := AsInt(spans[id].length - n);
      rest := NewSpan(spans[id].start + n, extra);
      RecordSpan(rest);
      pagemap := pagemap[spans[id].start + n - 1 := id];
      spans := spans[id := spans[id].(length := n)];
      owner := owner + Fill(spans[rest].start, extra, rest);
      assert State() == Cut(h, id, rest, spans[id], spans[rest]);
      SplitKeepsInv(h, id, rest, spans[id], spans[rest]);
    }

    /** Makes a free span of what follows the first `n` pages of `id`, and lists it. */
    method ListRemainder(id: SpanId, n: nat, loc: Location) returns (rest: SpanId)
      requires id in spans && 0 < n < spans[id].length && loc != InUse && |normal| == |returned| == MAX_PAGES + 1
      modifies this`spans, this`pagemap, this`owner, this`normal, this`returned, this`freeBytes, this`unmappedBytes
      ensures rest !in old(spans)
      ensures var s := old(spans[id]);
              var a, b := s.(length := n), Span(s.start + n, s.length - n, loc, 0);
              State() == Enlist(Cut(old(State()), id, rest, a, b), rest)
    {
      hide Fill, Enlist;
      ghost var h := State();
      var extra := spans[id].length - n;
      rest := NewSpan(spans[id].start + n, extra);
      spans := spans[rest := spans[rest].(location := loc)];
      RecordSpan(rest);
      ghost var listing := State();
      PrependToFreeList(rest);
      spans := spans[id := spans[id].(length := n)];
      pagemap := pagemap[spans[id].start + n - 1 := id];
      owner := owner + Fill(spans[rest].start, extra, rest);
      assert spans == h.spans[id := spans[id]][rest := spans[rest]];
      EnlistFields(listing, Cut(h, id, rest, spans[id], spans[rest]), rest);
    }

    /** Puts the first `n` pages of a free span to use; the rest stays free where it was. */
    method Carve(id: SpanId, n: nat)
      requires Valid() && id in spans && spans[id].Free() && 0 < n <= spans[id].length
      modifies this`spans, this`pagemap, this`owner, this`normal, this`returned, this`freeBytes, this`unmappedBytes
      ensures Valid()
      ensures id in spans && spans[id] == Span(old(spans[id].start), n, InUse, 0)
      ensures Pages() == old(Pages()) + Fill(spans[id].start, n, Used(id))
      ensures UsedSpans(spans) == UsedSpans(old(spans))[id := spans[id]]
    {
      hide Shape, OnLists, Conserved, Coalesced, View, UsedSpans, AsInt, Fill, Without, Enlist, Unlist;
      ghost var h := State();
      FreeBasics(h, {}, id);
      FitsInt(h, id, n);
      var oldLocation := spans[id].location;
      RemoveFromFreeList(id);
      spans := spans[id := spans[id].(location := InUse)];
      var extra := AsInt(spans[id].length - n);
      ghost var rest := h.spans[id].start;
      if extra > 0 {
        rest := ListRemainder(id, n, oldLocation);
        assert h.spans[id := h.spans[id].(location := InUse)][id := h.spans[id].(location := InUse, length := n)]
            == h.spans[id := h.spans[id].(location := InUse, length := n)];
      } else {
        rest := FreshId(h.spans.Keys);
      }
      assert State() == Carved(h, id, n, rest);
      CarveKeepsInv(h, id, n, rest);
      CarveView(h, id, n, rest);
    }

    /** Gives the pages of the like neighbour `victim` to `id`; `tag` is the new outer page of `id`. */
    method Absorb(id: SpanId, victim: SpanId, tag: nat)
      requires Inv(State(), {id}) && Twins(State(), id, victim, tag)
      modifies this`spans, this`pagemap, this`owner, this`normal, this`returned, this`freeBytes, this`unmappedBytes
      ensures |old(normal)| == |old(returned)| == MAX_PAGES + 1
      ensures State() == Absorbed(old(State()), id, victim, tag)
      ensures Inv(State(), {id}) && Pages() == old(Pages()) && UsedSpans(spans) == UsedSpans(old(spans))
      ensures FreeKept(old(spans), spans)
    {
      hide Shape, OnLists, Conserved, Coalesced, View, UsedSpans, Fill, Unlist, HasFree;
      ghost var h := State();
      FreeBasics(h, {id}, id);
      var v := spans[victim];
      RemoveFromFreeList(victim);
      spans := (spans - {victim})[id := Merged(spans[id], v)];
      pagemap := pagemap[tag := id];
      owner := owner + Fill(v.start, v.length, id);
      AbsorbKeepsInv(h, id, victim, tag);
      forall n: nat | HasFree(h.spans, n) ensures HasFree(spans, n) { AbsorbHasFree(h.spans, id, victim, n); }
    }

    /** Coalesces a free span with its like neighbours and lists the result; no page changes state. */
    method MergeIntoFreeList(id: SpanId)
      requires Inv(State(), {id}) && id in spans && spans[id].Free()
      modifies this`spans, this`pagemap, this`owner, this`normal, this`returned, this`freeBytes, this`unmappedBytes
      ensures Inv(State(), {})
      ensures Pages() == old(Pages()) && UsedSpans(spans) == UsedSpans(old(spans))
      ensures FreeKept(old(spans), spans)
    {
      hide Partition, Tagged, OnLists, Conserved, Coalesced, View, UsedSpans, Fill, Unlist, Enlist, HasFree, LeftApart;
      hide RightApart, WellFormed;
      LookLeft(State(), id);
      var p, n := spans[id].start, spans[id].length;
      if p - 1 in pagemap && spans[pagemap[p - 1]].location == spans[id].location {
        AbsorbLeftApart(State(), id, pagemap[p - 1]);
        Absorb(id, pagemap[p - 1], spans[pagemap[p - 1]].start);
      }
      LookRight(State(), id);
      if p + n in pagemap && spans[pagemap[p + n]].location == spans[id].location {
        AbsorbRightApart(State(), id, pagemap[p + n]);
        Absorb(id, pagemap[p + n], spans[pagemap[p + n]].Last());
      }
      ApartCoalesced(spans, id);
      assert {id} - {id} == {};
      EnlistKeepsInv(State(), {id}, id);
      FreeBasics(State(), {id}, id);
      PrependToFreeList(id);
    }

    /** Gives the last span of one normal list back to the system. */
    method ReleaseLastNormalSpan(i: nat) returns (n: nat)
      requires Valid() && i <= MAX_PAGES && normal[i] != []
      modifies this`spans, this`pagemap, this`owner, this`normal, this`returned, this`freeBytes, this`unmappedBytes
      ensures Valid() && n >= 1
      ensures ReleasedTo(old(State()), State(), n)
      ensures var id := old(normal[i][|normal[i]| - 1]);
              && id in old(spans) && var s := old(spans)[id];
              n == s.length && s.location == Normal && Pages() == old(Pages()) + Fill(s.start, n, Idle(Returned))
    {
      hide Inv, Shape, OnLists, View, UsedSpans, Fill, Unlist, FreeKept, IdleAt, Scavenged;
      ghost var h := State();
      ValidLists(h);
      var id := normal[i][|normal[i]| - 1];
      ReleaseStep(h, i, id);
      RemoveFromFreeList(id);
      n := spans[id].length;
      spans := spans[id := spans[id].(location := Returned)];
      ghost var mid := spans;
      MergeIntoFreeList(id);
      FreeKeptTrans(h.spans, mid, spans);
      CountsInView(h);
      CountsInView(State());
    }

    ghost predicate NothingNormal()
      reads this
    {
      forall i | 0 <= i < |normal| :: normal[i] == []
    }

    /** One round over all the lists, from the one after the last round's. */
    method ReleaseRound(numPages: nat) returns (released: nat)
      requires Valid() && 0 < numPages
      modifies this`spans, this`pagemap, this`owner, this`normal, this`returned, this`freeBytes, this`unmappedBytes,
          this`releaseIndex
      ensures Valid() && ReleasedTo(old(State()), State(), released)
      ensures released == 0 ==> NothingNormal()
    {
      hide Inv, ReleasedTo;
      ghost var h := State();
      ReleasedNone(h);
      released := 0;
      ghost var first := if releaseIndex > MAX_PAGES then 0 else releaseIndex;
      var i := 0;
      while i < MAX_PAGES + 1 && released < numPages
        invariant Valid() && 0 <= i <= MAX_PAGES + 1
        invariant i == 0 ==> releaseIndex == first || (first == 0 && releaseIndex == MAX_PAGES + 1)
        invariant i > 0 ==>
                    releaseIndex == if first + i <= MAX_PAGES + 1 then first + i else first + i - (MAX_PAGES + 1)
        invariant released == 0 ==> forall k: nat | Visited(first, i, k) && k < |normal| :: normal[k] == []
        invariant ReleasedTo(h, State(), released)
        decreases MAX_PAGES + 1 - i
      {
        if releaseIndex > MAX_PAGES {
          releaseIndex := 0;
        }
        ValidLists(State());
        if normal[releaseIndex] != [] {
          ghost var seen := State();
          var n := ReleaseLastNormalSpan(releaseIndex);
          ReleasedMore(h, seen, State(), released, n);
          released := released + n;
        }
        i, releaseIndex := i + 1, releaseIndex + 1;
      }
      ValidLists(State());
      if released == 0 {
        forall k | 0 <= k < |normal| ensures normal[k] == [] { assert Visited(first, i, k); }
      }
    }

    /** Gives spans back round robin until `numPages` pages are back or no normal span is left. */
    method ReleaseAtLeastNPages(numPages: nat) returns (released: nat)
      requires Valid()
      modifies this`spans, this`pagemap, this`owner, this`normal, this`returned, this`freeBytes, this`unmappedBytes,
          this`releaseIndex
      ensures Valid() && ReleasedTo(old(State()), State(), released)
      ensures released >= numPages || NothingNormal()
    {
      hide Inv, ReleasedTo;
      ghost var h := State();
      ReleasedNone(h);
      ReleasedBytes(h, h, 0);
      released := 0;
      var prev: int := -1;
      while released < numPages
        invariant Valid() && ReleasedTo(h, State(), released)
        invariant released == prev ==> NothingNormal()
        invariant 0 <= freeBytes == h.freeBytes - released * PAGE_SIZE
        decreases freeBytes, if released == prev then 0 else 1
      {
        if released == prev {
          break;
        }
        prev := released;
        ghost var seen := State();
        var n := ReleaseRound(numPages - released);
        ReleasedMore(h, seen, State(), released, n);
        released := released + n;
        ReleasedBytes(h, State(), released);
      }
    }

    /** Called with the number of pages just freed; once the counter runs out, gives back one span.
        `rate` is the release rate, at or below 1e-6 meaning never. */
    method IncrementalScavenge(n: nat, rate: real) returns (released: nat)
      requires Valid()
      modifies this`spans, this`pagemap, this`owner, this`normal, this`returned, this`freeBytes, this`unmappedBytes
      modifies this`releaseIndex, this`scavengeCounter
      ensures Valid() && ReleasedTo(old(State()), State(), released)
      ensures if old(scavengeCounter) - n >= 0 then released == 0 && scavengeCounter == old(scavengeCounter) - n
              else 0 <= scavengeCounter <= MAX_RELEASE_DELAY
      ensures released == 0 || rate > 0.000001
    {
      hide Inv, ReleasedTo;
      ReleasedNone(State());
      released := 0;
      scavengeCounter := scavengeCounter - n;
      if scavengeCounter >= 0 {
        return;
      }
      if rate <= 0.000001 {
        scavengeCounter := DEFAULT_RELEASE_DELAY;
        return;
      }
      released := ReleaseAtLeastNPages(1);
      if released == 0 {
        scavengeCounter := DEFAULT_RELEASE_DELAY;
      } else {
        var mult := 1000.0 / rate;
        var wait := mult * released as real;
        assert wait >= 0.0;
        if wait > MAX_RELEASE_DELAY as real {
          wait := MAX_RELEASE_DELAY as real;
        }
        scavengeCounter := wait.Floor;
      }
    }

    /** Frees a span in use: its pages become idle, and the scavenger may give some idle pages back. */
    method Delete(id: SpanId, rate: real)
      requires Valid() && id in spans && spans[id].location == InUse
      modifies this`spans, this`pagemap, this`owner, this`normal, this`returned, this`freeBytes, this`unmappedBytes
      modifies this`releaseIndex, this`scavengeCounter
      ensures Valid()
      ensures UsedSpans(spans) == UsedSpans(old(spans)) - {id}
      ensures Scavenged(old(Pages()) + Fill(old(spans[id].start), old(spans[id].length), Idle(Normal)), Pages())
      ensures rate <= 0.000001 ==>
                Pages() == old(Pages()) + Fill(old(spans[id].start), old(spans[id].length), Idle(Normal))
      ensures FreeKept(old(spans), spans) && HasFree(spans, old(spans[id].length))
    {
      hide Inv, View, UsedSpans, Fill, Scavenged, FreeKept, HasFree;
      ghost var h := State();
      var n := spans[id].length;
      DeleteStep(h, id);
      spans := spans[id := spans[id].(sizeclass := 0, location := Normal)];
      ghost var mid := spans;
      MergeIntoFreeList(id);
      ghost var merged := State();
      var k := IncrementalScavenge(n, rate);
      DeleteSpans(h.spans, mid, merged.spans, spans, n);
      DeletePages(merged, State(), k);
    }

    /** The best of `best` and the spans on a large list: shortest that fits, then lowest address. */
    method BestOf(list: seq<SpanId>, n: nat, best: Option<SpanId>) returns (r: Option<SpanId>)
      requires forall x | x in list :: x in spans
      requires best.Some? ==> best.value in spans
      ensures r == best || (r.Some? && r.value in list && spans[r.value].length >= n)
      ensures best.Some? ==> r.Some?
      ensures r.Some? && best.Some? ==> !Closer(spans[best.value], spans[r.value])
      ensures forall x | x in list && spans[x].length >= n :: r.Some? && !Closer(spans[x], spans[r.value])
    {
      r := best;
      for k := 0 to |list|
        invariant r == best || (r.Some? && r.value in list && spans[r.value].length >= n)
        invariant best.Some? ==> r.Some?
        invariant r.Some? && best.Some? ==> !Closer(spans[best.value], spans[r.value])
        invariant forall j | 0 <= j < k && spans[list[j]].length >= n ::
                    r.Some? && !Closer(spans[list[j]], spans[r.value])
      {
        var span := list[k];
        if spans[span].length >= n {
          if r.None? || Closer(spans[span], spans[r.value]) {
            r := Some(span);
          }
        }
      }
    }

    /** Best fit among the large free spans of both families. */
    method AllocLarge(n: nat) returns (r: Option<SpanId>)
      requires Valid() && n > 0
      requires forall x | x in spans && spans[x].Free() && spans[x].length >= n :: spans[x].length >= MAX_PAGES
      modifies this`spans, this`pagemap, this`owner, this`normal, this`returned, this`freeBytes, this`unmappedBytes
      ensures Valid()
      ensures r.None? ==> !HasFree(old(spans), n) && State() == old(State())
      ensures r.Some? ==> BestFit(old(spans), r.value, n) && TookFrom(old(State()), State(), r.value, n)
    {
      hide Shape, OnLists, Conserved, Coalesced, View, UsedSpans, Fill;
      ghost var h := State();
      LargeLists(h);
      var best := BestOf(normal[MAX_PAGES], n, None);
      best := BestOf(returned[MAX_PAGES], n, best);
      if best == None {
        return None;
      }
      Carve(best.value, n);
      return best;
    }

    /** Carves from a best-fitting free span, if any free span is long enough. */
    method SearchFreeAndLargeLists(n: nat) returns (r: Option<SpanId>)
      requires Valid() && n > 0
      modifies this`spans, this`pagemap, this`owner, this`normal, this`returned, this`freeBytes, this`unmappedBytes
      ensures Valid()
      ensures r.None? ==> !HasFree(old(spans), n) && State() == old(State())
      ensures r.Some? ==> BestFit(old(spans), r.value, n) && TookFrom(old(State()), State(), r.value, n)
    {
      hide Shape, OnLists, Conserved, Coalesced, View, UsedSpans, Fill;
      ghost var h := State();
      ListLengths(h, {});
      var s := n;
      while s < MAX_PAGES
        invariant State() == h
        invariant forall x | x in spans && spans[x].Free() && spans[x].length >= n :: spans[x].length >= s
      {
        ExactList(h, s);
        if normal[s] != [] {
          r := Some(normal[s][0]);
          Carve(normal[s][0], n);
          return;
        }
        if returned[s] != [] {
          r := Some(returned[s][0]);
          Carve(returned[s][0], n);
          return;
        }
        s := s + 1;
      }
      r := AllocLarge(n);
    }

    /** Tags the pages strictly between the ends of a span. */
    method TagInterior(id: SpanId)
      requires id in spans
      modifies this`pagemap
      ensures var s := spans[id];
              pagemap == old(pagemap) + Fill(s.start + 1, if s.length < 2 then 0 else s.length - 2, id)
    {
      var s, i := spans[id], 1;
      while i < s.length - 1
        modifies this`pagemap
        invariant i == 1 || 1 < i <= s.length - 1
        invariant forall p :: p in pagemap <==> p in old(pagemap) || s.start < p < s.start + i
        invariant forall p | p in pagemap :: pagemap[p] == if s.start < p < s.start + i then id else old(pagemap)[p]
      {
        pagemap := pagemap[s.start + i := id];
        i := i + 1;
      }
    }

    /** Marks a span in use as holding objects of size class `sc`. */
    method RegisterSizeClass(id: SpanId, sc: nat)
      requires Valid() && id in spans && spans[id].location == InUse
      modifies this`spans, this`pagemap
      ensures Valid() && Pages() == old(Pages())
      ensures spans == old(spans)[id := old(spans[id]).(sizeclass := sc)]
      ensures sc != 0 ==> forall p: nat | spans[id].Has(p) :: p in pagemap && pagemap[p] == id
    {
      hide Inv, View, Fill;
      ghost var h := State();
      RegisterKeepsInv(h, id, sc);
      ShapeLength(h, id);
      spans := spans[id := spans[id].(sizeclass := sc)];
      TagInterior(id);
      assert State() == Registered(h, id, sc);
      AllTagged(State(), id);
    }

    /** Takes a run of pages into the heap as a span in use. */
    method AddSpan(start: nat, pages: nat) returns (id: SpanId)
      requires pages >= 1
      modifies this`spans, this`pagemap, this`owner, this`systemBytes
      ensures id !in old(spans) && State() == Grown(old(State()), id, start, pages)
    {
      hide Fill;
      systemBytes := systemBytes + pages * PAGE_SIZE;
      id := NewSpan(start, pages);
      RecordSpan(id);
      owner := owner + Fill(start, pages, id);
    }

    /** Counts a run of pages for which the page map has no room. */
    method LosePages(g: Grant)
      requires Valid() && FreshPages(State(), g)
      modifies this`systemBytes, this`lost
      ensures Valid() && State() == Lost(old(State()), g)
    {
      hide Inv, Range;
      ghost var h := State();
      LoseKeepsInv(h, g);
      ghost var k := Lost(h, g);
      systemBytes := systemBytes + g.pages * PAGE_SIZE;
      lost := lost + Range(g.start, g.pages);
      assert State() == k;
    }

    /** Makes one span of a fresh run of pages and frees it into the heap. */
    method Adopt(g: Grant, n: nat, rate: real)
      requires Valid() && FreshPages(State(), g) && n <= g.pages
      modifies this
      ensures Valid() && systemBytes == old(systemBytes) + g.pages * PAGE_SIZE && lost == old(lost)
      ensures UsedSpans(spans) == UsedSpans(old(spans)) && FreeKept(old(spans), spans) && HasFree(spans, n)
      ensures Scavenged(old(Pages()) + Fill(g.start, g.pages, Idle(Normal)), Pages())
    {
      hide Inv, View, UsedSpans, Fill, Scavenged, FreeKept, HasFree, Range, Grown;
      ghost var h := State();
      var id := AddSpan(g.start, g.pages);
      GrowStep(h, id, g);
      Delete(id, rate);
      GrowDone(h, State(), id, g, n);
    }

    /** Obtains at least `n` pages from the system, as replied by `sys`, and frees them into the heap. */
    method GrowHeap(n: nat, sys: SystemReply, rate: real) returns (ok: bool)
      requires Valid() && n > 0 && Possible(State(), n, sys)
      modifies this
      ensures Valid()
      ensures UsedSpans(spans) == UsedSpans(old(spans)) && FreeKept(old(spans), spans)
      ensures ok <==> Obtained(n, sys).Some? && sys.mapped
      ensures !ok ==> State() == Refused(old(State()), n, sys)
      ensures ok ==>
                var g := Obtained(n, sys).value;
                && HasFree(spans, n) && systemBytes == old(systemBytes) + g.pages * PAGE_SIZE && lost == old(lost)
                && Scavenged(old(Pages()) + Fill(g.start, g.pages, Idle(Normal)), Pages())
    {
      hide Inv, View, UsedSpans, Fill, Scavenged, FreeKept, HasFree, Range, Grown;
      FreeKeptRefl(spans);
      if n > MAX_VALID_PAGES {
        return false;
      }
      var ask := if n > MAX_PAGES then n else MAX_PAGES;
      var got := sys.first;
      if got == None {
        if n < ask {
          ask := n;
          got := sys.second;
        }
        if got == None {
          return false;
        }
      }
      ask := got.value.pages;
      if sys.mapped {
        Adopt(got.value, n, rate);
        ok := true;
      } else {
        LosePages(got.value);
        ok := false;
      }
    }

    /** Allocates a run of exactly `n` pages by best fit, growing the heap when nothing fits. */
    method New(n: nat, sys: SystemReply, rate: real) returns (r: Option<SpanId>)
      requires Valid() && n > 0 && Possible(State(), n, sys)
      modifies this
      ensures Valid()
      ensures HasFree(old(spans), n) ==>
                r.Some? && BestFit(old(spans), r.value, n) && TookFrom(old(State()), State(), r.value, n)
      ensures !HasFree(old(spans), n) ==> (r.Some? <==> Obtained(n, sys).Some? && sys.mapped)
      ensures !HasFree(old(spans), n) && r.Some? ==>
                GrewAndTook(old(State()), State(), Obtained(n, sys).value, r.value, n)
      ensures r.None? ==> State() == Refused(old(State()), n, sys)
      ensures r.Some? ==>
                && r.value in spans && spans[r.value].length == n && r.value !in UsedSpans(old(spans))
                && UsedSpans(spans) == UsedSpans(old(spans))[r.value := Span(spans[r.value].start, n, InUse, 0)]
                && systemBytes == old(systemBytes) + Growth(old(State()), n, sys) && lost == old(lost)
                && Served(Stocked(old(State()), n, sys), Pages(), spans[r.value].start, n, r.value)
      ensures forall p | p in old(Pages()) && old(Pages())[p].Used? :: p in Pages() && Pages()[p] == old(Pages())[p]
    {
      hide Inv, View, Fill, FreeKept, BestFit, Scavenged, Served, HasFree;
      ghost var h := State();
      r := SearchFreeAndLargeLists(n);
      if r.Some? {
        TookServed(h, State(), r.value, n);
        BestHasFree(h.spans, r.value, n);
        StockedUsed(h, n, sys, Pages(), spans[r.value].start, r.value);
        return;
      }
      var ok := GrowHeap(n, sys, rate);
      if !ok {
        return None;
      }
      ghost var g := State();
      r := SearchFreeAndLargeLists(n);
      TookServed(g, State(), r.value, n);
      ServedFrom(Stocked(h, n, sys), g.Pages(), Pages(), spans[r.value].start, n, r.value);
      StockedUsed(h, n, sys, Pages(), spans[r.value].start, r.value);
    }
  }

  /** The heap when nothing could be had: as before, but for pages that came without room in the page map. */
  ghost function Refused(h: Heap, n: nat, sys: SystemReply): Heap {
    if Obtained(n, sys).Some? then Lost(h, Obtained(n, sys).value) else h
  }

  /** The pages there are to take from: those managed, and the granted ones if the heap has to grow. */
  ghost function Stocked(h: Heap, n: nat, sys: SystemReply): map<nat, PageState> {
    if HasFree(h.spans, n) || Obtained(n, sys).None? then h.Pages()
    else h.Pages() + Fill(Obtained(n, sys).value.start, Obtained(n, sys).value.pages, Idle(Normal))
  }

  /** The bytes obtained from the system for a request. */
  ghost function Growth(h: Heap, n: nat, sys: SystemReply): nat {
    if HasFree(h.spans, n) || Obtained(n, sys).None? then 0 else Obtained(n, sys).value.pages * PAGE_SIZE
  }

  /** From `h` to `d` the granted pages came in as idle ones, the scavenger gave some idle pages back, and then the best
      fit of the grown heap was taken. */
  ghost predicate GrewAndTook(h: Heap, d: Heap, g: Grant, id: SpanId, n: nat) {
    exists m: Heap ::
      && Inv(m, {}) && Scavenged(h.Pages() + Fill(g.start, g.pages, Idle(Normal)), m.Pages()) && m.lost == h.lost
      && UsedSpans(m.spans) == UsedSpans(h.spans) && BestFit(m.spans, id, n) && TookFrom(m, d, id, n)
  }

  /** Of the pages in `v` exactly those of one run, idle before, are now used for `id`; the same pages are managed, no
      other page in use changed and every other idle page is idle. */
  ghost predicate Served(v: map<nat, PageState>, w: map<nat, PageState>, start: nat, n: nat, id: SpanId) {
    && w.Keys == v.Keys
    && (forall p: nat | Within(p, start, n) :: p in v && v[p].Idle? && w[p] == Used(id))
    && (forall p | p in v && !Within(p, start, n) :: if v[p].Used? then w[p] == v[p] else w[p].Idle?)
  }

  lemma ServedFrom(v: map<nat, PageState>, w: map<nat, PageState>, x: map<nat, PageState>, start: nat, n: nat,
                   id: SpanId)
    requires Scavenged(v, w) && Served(w, x, start, n, id)
    ensures Served(v, x, start, n, id)
  {
    hide Within;
  }

  lemma StockedUsed(h: Heap, n: nat, sys: SystemReply, w: map<nat, PageState>, start: nat, id: SpanId)
    requires Possible(h, n, sys) && Served(Stocked(h, n, sys), w, start, n, id)
    ensures forall p | p in h.Pages() && h.Pages()[p].Used? :: p in w && w[p] == h.Pages()[p]
  {
    if Obtained(n, sys).Some? {
      var g := Obtained(n, sys).value;
      forall p: nat | Within(p, g.start, g.pages) ensures p !in h.owner { assert p in Range(g.start, g.pages); }
    }
  }

  lemma BestHasFree(spans: map<SpanId, Span>, id: SpanId, n: nat)
    requires BestFit(spans, id, n)
    ensures HasFree(spans, n)
  {
  }

  ghost function FreshId(ids: set<SpanId>): (id: SpanId)
    ensures id !in ids
  {
    FreshIdExists(ids);
    var id: nat :| id <= |ids| && id !in ids; id
  }

  lemma FitsInt(h: Heap, id: SpanId, n: nat)
    requires Shape(h) && Conserved(h) && id in h.spans && n <= h.spans[id].length
    ensures AsInt(h.spans[id].length - n) == h.spans[id].length - n
  {
    LengthBound(h.spans, h.owner, id);
  }

  lemma FreshIdExists(ids: set<SpanId>)
    ensures exists id: nat :: id <= |ids| && id !in ids
  {
    if forall id: nat | id <= |ids| :: id in ids {
      RangeSize(0, |ids| + 1);
      assert forall p | p in Range(0, |ids| + 1) :: p in ids;
      SubsetSize(Range(0, |ids| + 1), ids);
      assert false;
    }
  }

  /** The lists seen by the round robin after `i` steps from list `first`. */
  predicate Visited(first: nat, i: nat, k: nat) {
    first <= k < first + i || k + MAX_PAGES + 1 < first + i
  }

  /** The last span of a normal list, taken off and marked returned, is ready to be merged. */
  lemma ReleaseStep(h: Heap, i: nat, id: SpanId)
    requires Inv(h, {}) && i <= MAX_PAGES && h.normal[i] != [] && id == h.normal[i][|h.normal[i]| - 1]
    ensures |h.normal| == |h.returned| == MAX_PAGES + 1
    ensures id in h.spans && h.spans[id].location == Normal && h.spans[id].length >= 1
    ensures var s := h.spans[id].(location := Returned); var r := Relabel(Unlist(h, id), id, s);
            && Inv(r, {id}) && FreeKept(h.spans, r.spans) && UsedSpans(r.spans) == UsedSpans(h.spans)
            && r.Pages() == h.Pages() + Fill(s.start, s.length, Idle(Returned)) && Scavenged(h.Pages(), r.Pages())
            && |IdleAt(r.Pages(), Normal)| == |IdleAt(h.Pages(), Normal)| - s.length
            && |IdleAt(r.Pages(), Returned)| == |IdleAt(h.Pages(), Returned)| + s.length
  {
    hide Shape, OnLists, Conserved, Coalesced, View, UsedSpans, Fill, Unlist, FreeKept, IdleAt, Scavenged;
    LastIsNormal(h, i);
    FreeBasics(h, {}, id);
    UnlistKeepsInv(h, {}, id);
    assert {} + {id} == {id};
    var s := h.spans[id].(location := Returned);
    RelabelKeepsInv(Unlist(h, id), id, s);
    ReleaseView(h, Unlist(h, id), id);
    RelabelKeptFree(h.spans, id, s);
  }

  lemma LastIsNormal(h: Heap, i: nat)
    requires OnLists(h, {}) && i <= MAX_PAGES && h.normal[i] != []
    ensures var id := h.normal[i][|h.normal[i]| - 1]; id in h.spans && h.spans[id].location == Normal
  {
    assert h.normal[i][|h.normal[i]| - 1] in h.normal[i];
  }

  lemma ReleaseView(h: Heap, u: Heap, id: SpanId)
    requires Shape(h) && id in h.spans && h.spans[id].location == Normal
    requires u.spans == h.spans && u.owner == h.owner
    ensures var s := h.spans[id].(location := Returned);
            && Relabel(u, id, s).Pages() == h.Pages() + Fill(s.start, s.length, Idle(Returned))
            && Scavenged(h.Pages(), Relabel(u, id, s).Pages())
            && |IdleAt(Relabel(u, id, s).Pages(), Normal)| == |IdleAt(h.Pages(), Normal)| - s.length
            && |IdleAt(Relabel(u, id, s).Pages(), Returned)| == |IdleAt(h.Pages(), Returned)| + s.length
            && UsedSpans(Relabel(u, id, s).spans) == UsedSpans(h.spans)
  {
    hide WellFormed, Tagged, View, IdleAt;
    var s := h.spans[id].(location := Returned);
    RelabelView(u, id, s);
    SpanInView(h, id);
    GiveBackCounts(h.Pages(), s.start, s.length);
  }

  lemma RelabelKeptFree(spans: map<SpanId, Span>, id: SpanId, s: Span)
    requires id in spans && s.length == spans[id].length && s.Free()
    ensures FreeKept(spans, spans[id := s])
  {
    forall n: nat | HasFree(spans, n) ensures HasFree(spans[id := s], n) {
      var x :| x in spans && spans[x].Free() && spans[x].length >= n;
      assert x in spans[id := s] && spans[id := s][x].Free() && spans[id := s][x].length >= n;
    }
  }

  /** Exactly `k` idle pages of `g` were given back; the spans in use and the sizes on offer are as before. */
  ghost predicate ReleasedTo(g: Heap, h: Heap, k: nat) {
    && h.freeBytes == g.freeBytes - k * PAGE_SIZE && h.unmappedBytes == g.unmappedBytes + k * PAGE_SIZE
    && (h.systemBytes, h.lost) == (g.systemBytes, g.lost)
    && Scavenged(g.Pages(), h.Pages()) && UsedSpans(h.spans) == UsedSpans(g.spans) && FreeKept(g.spans, h.spans)
  }

  lemma ReleasedNone(h: Heap)
    ensures ReleasedTo(h, h, 0)
  {
  }

  lemma ReleasedMore(f: Heap, g: Heap, h: Heap, k: nat, n: nat)
    requires ReleasedTo(f, g, k) && ReleasedTo(g, h, n)
    ensures ReleasedTo(f, h, k + n)
  {
  }

  lemma ReleasedBytes(g: Heap, h: Heap, k: nat)
    requires Inv(h, {}) && ReleasedTo(g, h, k)
    ensures 0 <= h.freeBytes == g.freeBytes - k * PAGE_SIZE
  {
  }

  lemma ValidLists(h: Heap)
    requires Inv(h, {})
    ensures |h.normal| == |h.returned| == MAX_PAGES + 1
  {
  }

  lemma FreeKeptTrans(a: map<SpanId, Span>, b: map<SpanId, Span>, c: map<SpanId, Span>)
    requires FreeKept(a, b) && FreeKept(b, c)
    ensures FreeKept(a, c)
  {
  }

  /** A span in use, marked free, is ready to be merged. */
  lemma DeleteStep(h: Heap, id: SpanId)
    requires Inv(h, {}) && id in h.spans && h.spans[id].location == InUse
    ensures var s := h.spans[id].(sizeclass := 0, location := Normal); var r := Relabel(h, id, s);
            && Inv(r, {id}) && FreeKept(h.spans, r.spans) && HasFree(r.spans, s.length)
            && UsedSpans(r.spans) == UsedSpans(h.spans) - {id}
            && r.Pages() == h.Pages() + Fill(s.start, s.length, Idle(Normal))
  {
    hide Shape, OnLists, Conserved, Coalesced, View, Fill;
    var s := h.spans[id].(sizeclass := 0, location := Normal);
    var r := Relabel(h, id, s);
    PutOut(h, id);
    RelabelKeepsInv(h, id, s);
    ShapePartition(h);
    RelabelView(h, id, s);
    assert id in r.spans && r.spans[id].Free();
    forall n: nat | HasFree(h.spans, n) ensures HasFree(r.spans, n) {
      var x :| x in h.spans && h.spans[x].Free() && h.spans[x].length >= n;
      assert x in r.spans && r.spans[x].Free() && r.spans[x].length >= n;
    }
  }

  lemma ShapePartition(h: Heap)
    requires Shape(h)
    ensures Partition(h.spans, h.owner)
  {
  }

  lemma DeleteSpans(a: map<SpanId, Span>, b: map<SpanId, Span>, c: map<SpanId, Span>, d: map<SpanId, Span>, n: nat)
    requires FreeKept(a, b) && HasFree(b, n) && FreeKept(b, c) && FreeKept(c, d)
    ensures FreeKept(a, d) && HasFree(d, n)
  {
  }

  lemma DeletePages(g: Heap, h: Heap, k: nat)
    requires ReleasedTo(g, h, k) && Inv(g, {}) && Inv(h, {})
    ensures Scavenged(g.Pages(), h.Pages()) && (k == 0 ==> g.Pages() == h.Pages())
  {
    if k == 0 {
      CountsInView(g);
      CountsInView(h);
      var v, w := g.Pages(), h.Pages();
      assert IdleAt(w, Normal) <= IdleAt(v, Normal);
      SubsetEqual(IdleAt(w, Normal), IdleAt(v, Normal));
      forall p | p in v ensures w[p] == v[p] {
        assert p in IdleAt(v, Normal) <==> p in IdleAt(w, Normal);
      }
    }
  }

  lemma SubsetEqual<T>(a: set<T>, b: set<T>)
    requires a <= b && |a| == |b|
    ensures a == b
  {
    assert b == a + (b - a);
  }

  predicate Closer(a: Span, b: Span) {
    a.length < b.length || (a.length == b.length && a.start < b.start)
  }

  /** No free span fits `n` pages better: shortest first; among large ones lowest address first;
      among small ones one not given back first. */
  ghost predicate BestFit(spans: map<SpanId, Span>, id: SpanId, n: nat) {
    && id in spans && spans[id].Free() && spans[id].length >= n
    && forall x | x in spans && spans[x].Free() && spans[x].length >= n ::
         && spans[id].length <= spans[x].length
         && (spans[id].length == spans[x].length ==>
               if spans[id].length >= MAX_PAGES then spans[id].start <= spans[x].start
               else spans[id].location == Returned ==> spans[x].location == Returned)
  }

  /** From `g` to `h`, the first `n` pages of the free span `id` were put to use, and nothing else changed. */
  ghost predicate TookFrom(g: Heap, h: Heap, id: SpanId, n: nat) {
    && id in g.spans && g.spans[id].Free() && n <= g.spans[id].length
    && id in h.spans && h.spans[id] == Span(g.spans[id].start, n, InUse, 0)
    && h.Pages() == g.Pages() + Fill(h.spans[id].start, n, Used(id))
    && UsedSpans(h.spans) == UsedSpans(g.spans)[id := h.spans[id]]
    && (h.systemBytes, h.lost) == (g.systemBytes, g.lost)
  }

  lemma LargeLists(h: Heap)
    requires OnLists(h, {})
    ensures |h.normal| == |h.returned| == MAX_PAGES + 1
    ensures forall x :: x in h.normal[MAX_PAGES] <==>
              x in h.spans && h.spans[x].location == Normal && h.spans[x].length >= MAX_PAGES
    ensures forall x :: x in h.returned[MAX_PAGES] <==>
              x in h.spans && h.spans[x].location == Returned && h.spans[x].length >= MAX_PAGES
  {
  }

  lemma ExactList(h: Heap, s: nat)
    requires OnLists(h, {}) && s < MAX_PAGES
    ensures |h.normal| == |h.returned| == MAX_PAGES + 1
    ensures forall x | x in h.spans && h.spans[x].length == s :: h.spans[x].location == Normal ==> h.normal[s] != []
    ensures forall x | x in h.spans && h.spans[x].length == s :: h.spans[x].location == Returned ==> h.returned[s] != []
    ensures h.normal[s] != [] ==> var x := h.normal[s][0];
              x in h.spans && h.spans[x].location == Normal && h.spans[x].length == s
    ensures h.returned[s] != [] ==> var x := h.returned[s][0];
              x in h.spans && h.spans[x].location == Returned && h.spans[x].length == s
  {
    assert h.normal[s] != [] ==> h.normal[s][0] in h.normal[s];
    assert h.returned[s] != [] ==> h.returned[s][0] in h.returned[s];
  }

  lemma ShapeLength(h: Heap, id: SpanId)
    requires Inv(h, {}) && id in h.spans
    ensures h.spans[id].length >= 1
  {
  }

  lemma AllTagged(h: Heap, id: SpanId)
    requires Inv(h, {}) && id in h.spans
    ensures h.spans[id].sizeclass != 0 ==>
              forall p: nat | h.spans[id].Has(p) :: p in h.pagemap && h.pagemap[p] == id
  {
  }

  /** The grant, if any, that a request for `n` pages ends up with. */
  function Obtained(n: nat, sys: SystemReply): Option<Grant> {
    if n > MAX_VALID_PAGES then None
    else if sys.first.Some? then sys.first
    else if n < MAX_PAGES then sys.second else None
  }

  /** The system grants fresh pages, as many as asked for, or refuses. */
  ghost predicate Possible(h: Heap, n: nat, sys: SystemReply) {
    && (sys.first.Some? ==>
        FreshPages(h, sys.first.value) && sys.first.value.pages >= (if n > MAX_PAGES then n else MAX_PAGES))
    && (sys.second.Some? ==> FreshPages(h, sys.second.value) && sys.second.value.pages >= n)
  }

  ghost predicate FreshPages(h: Heap, g: Grant) {
    g.start >= 1 && g.pages >= 1 && Range(g.start, g.pages) !! h.owner.Keys + h.lost && |h.owner| + g.pages < MAX_RUN
  }

  lemma GrowStep(h: Heap, id: SpanId, g: Grant)
    requires Inv(h, {}) && id !in h.spans && FreshPages(h, g)
    ensures var m := Grown(h, id, g.start, g.pages);
            && Inv(m, {}) && m.Pages() == h.Pages() + Fill(g.start, g.pages, Used(id))
            && id in m.spans && m.spans[id] == Span(g.start, g.pages, InUse, 0)
            && m.systemBytes == h.systemBytes + g.pages * PAGE_SIZE && m.lost == h.lost
  {
    hide Inv, View, Fill;
    GrowKeepsInv(h, id, g.start, g.pages);
  }

  lemma GrowDone(h: Heap, d: Heap, id: SpanId, g: Grant, n: nat)
    requires id !in h.spans && n <= g.pages
    requires var m := Grown(h, id, g.start, g.pages);
             && m.Pages() == h.Pages() + Fill(g.start, g.pages, Used(id))
             && UsedSpans(d.spans) == UsedSpans(m.spans) - {id} && FreeKept(m.spans, d.spans)
                 && HasFree(d.spans, g.pages)
             && Scavenged(m.Pages() + Fill(g.start, g.pages, Idle(Normal)), d.Pages())
    ensures UsedSpans(d.spans) == UsedSpans(h.spans) && FreeKept(h.spans, d.spans) && HasFree(d.spans, n)
    ensures Scavenged(h.Pages() + Fill(g.start, g.pages, Idle(Normal)), d.Pages())
  {
    hide View, Scavenged;
    var m := Grown(h, id, g.start, g.pages);
    assert UsedSpans(m.spans) - {id} == UsedSpans(h.spans);
    assert m.Pages() + Fill(g.start, g.pages, Idle(Normal)) == h.Pages() + Fill(g.start, g.pages, Idle(Normal));
    forall k: nat | HasFree(h.spans, k) ensures HasFree(d.spans, k) {
      var x :| x in h.spans && h.spans[x].Free() && h.spans[x].length >= k;
      assert x in m.spans && m.spans[x].Free() && m.spans[x].length >= k;
    }
  }

  /** Pages without room in the page map are lost, and only counted as obtained. */
  ghost function Lost(h: Heap, g: Grant): Heap {
    h.(systemBytes := h.systemBytes + g.pages * PAGE_SIZE, lost := h.lost + Range(g.start, g.pages))
  }

  lemma LoseKeepsInv(h: Heap, g: Grant)
    requires Inv(h, {}) && FreshPages(h, g)
    ensures Inv(Lost(h, g), {})
  {
    hide Shape, OnLists, Coalesced;
    RangeSize(g.start, g.pages);
    assert h.lost !! Range(g.start, g.pages);
    ListsIgnoreTotals(h, Lost(h, g));
  }

  lemma ListsIgnoreTotals(h: Heap, k: Heap)
    requires Shape(h) && OnLists(h, {}) && k == h.(systemBytes := k.systemBytes, lost := k.lost)
    ensures Shape(k) && OnLists(k, {})
  {
  }

  lemma FreeKeptRefl(s: map<SpanId, Span>)
    ensures FreeKept(s, s)
  {
  }

  /** Taking from a free span serves exactly the pages taken. */
  lemma TookServed(g: Heap, h: Heap, id: SpanId, n: nat)
    requires Inv(g, {}) && TookFrom(g, h, id, n)
    ensures Served(g.Pages(), h.Pages(), h.spans[id].start, n, id)
  {
    hide View, OnLists, Conserved, Coalesced;
    SpanInView(g, id);
  }
}
