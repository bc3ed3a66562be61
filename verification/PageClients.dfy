/** Clients of the page heap: aligned allocation and iteration over all ranges. */
module PageClients {
  import opened Sequences
  import opened Common
  import opened Wrappers
  import opened Spans
  import opened Heaps
  import opened PageHeap
  import opened FlatMap
  import opened PageMaps
  import opened PageIndex
  import opened Arithmetic
  import RadixTree

  const ADDRESS_LIMIT := 0x1_0000_0000_0000_0000

  /** Byte size in pages, rounded up. */
  function PagesFor(bytes: nat): (n: nat)
    ensures (n - 1) * PAGE_SIZE < bytes <= n * PAGE_SIZE
  {
    bytes / PAGE_SIZE + if bytes % PAGE_SIZE > 0 then 1 else 0
  }

  ghost predicate PowerOfTwo(n: nat) {
    n == 1 || (n > 0 && n % 2 == 0 && PowerOfTwo(n / 2))
  }

  /** Of two powers of two the smaller divides the larger. */
  lemma {:induction false} PowersDivide(m: nat, n: nat)
    requires PowerOfTwo(m) && PowerOfTwo(n) && m <= n
    ensures n % m == 0
  {
    if m > 1 {
      PowersDivide(m / 2, n / 2);
      var q := (n / 2) / (m / 2);
      assert n / 2 == q * (m / 2);
      DivMod(n, m, q, 0);
    }
  }

  lemma PageSizeIsPower()
    ensures PowerOfTwo(PAGE_SIZE)
  {
    assert PowerOfTwo(8);
    assert PowerOfTwo(64) by { assert PowerOfTwo(16) && PowerOfTwo(32); }
    assert PowerOfTwo(1024) by { assert PowerOfTwo(128) && PowerOfTwo(256) && PowerOfTwo(512); }
    assert PowerOfTwo(2048) && PowerOfTwo(4096);
  }

  /** A page's address is aligned exactly when its number is a multiple of the alignment in pages. */
  lemma PageAligned(x: nat, unit: nat)
    requires unit > 0
    ensures x * PAGE_SIZE % (unit * PAGE_SIZE) == 0 <==> x % unit == 0
  {
    var q, r := x / unit, x % unit;
    assert x == q * unit + r;
    DivMod(x * PAGE_SIZE, unit * PAGE_SIZE, q, r * PAGE_SIZE);
  }

  predicate Aligned(page: nat, align: nat) { align > 0 && page * PAGE_SIZE % align == 0 }

  lemma NextAligned(start: nat, align: nat) returns (gap: nat)
    requires align > 0 && align % PAGE_SIZE == 0
    ensures Aligned(start + gap, align) && gap * PAGE_SIZE < align
  {
    var unit := align / PAGE_SIZE;
    var q, r := start / unit, start % unit;
    gap := if r == 0 then 0 else unit - r;
    DivMod(start + gap, unit, if r == 0 then q else q + 1, 0);
    PageAligned(start + gap, unit);
  }

  /** The least number of pages to skip so that the address becomes a multiple of `align`. */
  method SkipToAligned(start: nat, align: nat) returns (skip: nat)
    requires align > 0 && align % PAGE_SIZE == 0
    ensures Aligned(start + skip, align) && skip * PAGE_SIZE < align
    ensures forall p: nat | start <= p < start + skip :: !Aligned(p, align)
  {
    hide Aligned;
    ghost var gap := NextAligned(start, align);
    skip := 0;
    while !Aligned(start + skip, align)
      invariant skip <= gap
      invariant forall p: nat | start <= p < start + skip :: !Aligned(p, align)
      decreases gap - skip
    {
      skip := skip + 1;
    }
  }

  /** Frees the first `skip` pages of a span: they become idle, and idle pages may be given back. */
  method TrimFront(heap: PageHeap, id: SpanId, skip: nat, rate: real) returns (r: SpanId)
    requires heap.Valid() && id in heap.spans && heap.spans[id].location == InUse && heap.spans[id].sizeclass == 0
    requires skip < heap.spans[id].length
    modifies heap
    ensures heap.Valid() && heap.systemBytes == old(heap.systemBytes) && heap.lost == old(heap.lost)
    ensures r == id || r !in old(heap.spans)
    ensures var s := old(heap.spans[id]);
            && UsedSpans(heap.spans) ==
                (UsedSpans(old(heap.spans)) - {id})[r := Span(s.start + skip, s.length - skip, InUse, 0)]
            && Scavenged(old(heap.Pages()) + Fill(s.start, skip, Idle(Normal))
                + Fill(s.start + skip, s.length - skip, Used(r)),
                         heap.Pages())
  {
    hide Inv, View, Fill, FreeKept, HasFree, Scavenged;
    var s := heap.spans[id];
    ghost var h := heap.State();
    r := id;
    if skip > 0 {
      r := heap.Split(id, skip);
      heap.Delete(id, rate);
      FillsCommute(h.Pages(), s.start, skip, Idle(Normal), s.length - skip, Used(r));
    } else {
      NothingTrimmed(h, id);
    }
  }

  /** Frees what follows the first `needed` pages of a span: it becomes idle, and idle pages may be given back. */
  method TrimBack(heap: PageHeap, id: SpanId, needed: nat, rate: real)
    requires heap.Valid() && id in heap.spans && heap.spans[id].location == InUse && heap.spans[id].sizeclass == 0
    requires 0 < needed <= heap.spans[id].length
    modifies heap
    ensures heap.Valid() && heap.systemBytes == old(heap.systemBytes) && heap.lost == old(heap.lost)
    ensures UsedSpans(heap.spans) == UsedSpans(old(heap.spans))[id := Span(old(heap.spans[id].start), needed, InUse, 0)]
    ensures var s := old(heap.spans[id]);
            Scavenged(old(heap.Pages()) + Fill(s.start + needed, s.length - needed, Idle(Normal)), heap.Pages())
  {
    hide Inv, View, Fill, FreeKept, HasFree, Scavenged;
    var s := heap.spans[id];
    ghost var h := heap.State();
    if s.length > needed {
      var trailer := heap.Split(id, needed);
      heap.Delete(trailer, rate);
      FillTwice(h.Pages(), s.start + needed, s.length - needed, Used(trailer), Idle(Normal));
    } else {
      NothingScavenged(h.Pages(), s.start + needed);
    }
  }

  lemma FillsCommute(v: map<nat, PageState>, start: nat, n: nat, a: PageState, m: nat, b: PageState)
    ensures v + Fill(start + n, m, b) + Fill(start, n, a) == v + Fill(start, n, a) + Fill(start + n, m, b)
  {
  }

  lemma FillTwice(v: map<nat, PageState>, start: nat, n: nat, a: PageState, b: PageState)
    ensures v + Fill(start, n, a) + Fill(start, n, b) == v + Fill(start, n, b)
  {
  }

  lemma NothingScavenged(v: map<nat, PageState>, start: nat)
    ensures Scavenged(v + Fill(start, 0, Idle(Normal)), v)
  {
  }

  lemma NothingTrimmed(h: Heap, id: SpanId)
    requires Inv(h, {}) && id in h.spans && h.spans[id].location == InUse
    ensures var s := h.spans[id];
            Scavenged(h.Pages() + Fill(s.start, 0, Idle(Normal)) + Fill(s.start, s.length, Used(id)), h.Pages())
  {
    hide View, Inv;
    ShapeOf(h);
    SpanInView(h, id);
  }

  lemma ShapeOf(h: Heap)
    requires Inv(h, {})
    ensures Shape(h)
  {
  }

  /** Of a run that was served the front is given up, and the rest stays with `r`. */
  lemma ServedFront(v: map<nat, PageState>, w: map<nat, PageState>, x: map<nat, PageState>, start: nat, n: nat,
                    id: SpanId, skip: nat, r: SpanId)
    requires Served(v, w, start, n, id) && skip < n
    requires Scavenged(w + Fill(start, skip, Idle(Normal)) + Fill(start + skip, n - skip, Used(r)), x)
    ensures Served(v, x, start + skip, n - skip, r)
  {
    assert forall p: nat | Within(p, start + skip, n - skip) :: Within(p, start, n);
    assert forall p: nat | Within(p, start, skip) :: Within(p, start, n);
    var y := w + Fill(start, skip, Idle(Normal)) + Fill(start + skip, n - skip, Used(r));
    assert forall p | p in y :: p in w;
  }

  /** Of a run that was served the back is given up. */
  lemma ServedBack(v: map<nat, PageState>, w: map<nat, PageState>, x: map<nat, PageState>, start: nat, n: nat,
                   id: SpanId, needed: nat)
    requires Served(v, w, start, n, id) && needed <= n
    requires Scavenged(w + Fill(start + needed, n - needed, Idle(Normal)), x)
    ensures Served(v, x, start, needed, id)
  {
    assert forall p: nat | Within(p, start + needed, n - needed) :: Within(p, start, n);
    assert forall p: nat | Within(p, start, needed) :: Within(p, start, n);
    var y := w + Fill(start + needed, n - needed, Idle(Normal));
    assert forall p | p in y :: p in w;
  }

  /** Aligned allocation straight from the page heap.  No page leaks: the managed pages are those there were and those
      granted, of which exactly the result's come into use. */
  method MemalignPages(heap: PageHeap, align: nat, size: nat, sys: SystemReply, rate: real) returns (r: Option<SpanId>)
    requires heap.Valid() && PowerOfTwo(align) && align < ADDRESS_LIMIT && size < ADDRESS_LIMIT
    requires Possible(heap.State(), PagesToAsk(align, size), sys)
    modifies heap
    ensures heap.Valid()
    ensures r.Some? ==>
              && r.value in heap.spans && r.value !in UsedSpans(old(heap.spans))
              && Aligned(heap.spans[r.value].start, align)
              && heap.spans[r.value].length == PagesFor(if size == 0 then 1 else size)
              && UsedSpans(heap.spans) == UsedSpans(old(heap.spans))[r.value := heap.spans[r.value]]
    ensures r.Some? ==>
              && Served(Stocked(old(heap.State()), PagesToAsk(align, size), sys), heap.Pages(),
                        heap.spans[r.value].start, heap.spans[r.value].length, r.value)
              && heap.systemBytes == old(heap.systemBytes) + Growth(old(heap.State()), PagesToAsk(align, size), sys)
              && heap.lost == old(heap.lost)
    ensures r.None? ==> UsedSpans(heap.spans) == UsedSpans(old(heap.spans))
    ensures r.None? ==>
              heap.State() == if size + align >= ADDRESS_LIMIT then old(heap.State())
                              else Refused(old(heap.State()), PagesToAsk(align, size), sys)
    ensures r.Some? <==> size + align < ADDRESS_LIMIT && (HasFree(old(heap.spans), PagesToAsk(align, size))
                         || (Obtained(PagesToAsk(align, size), sys).Some? && sys.mapped))
  {
    hide Inv, View, Fill, FreeKept, HasFree, BestFit, UsedSpans, Possible, Obtained, PagesFor, Aligned, PowerOfTwo;
    hide Served, Stocked, Growth, GrewAndTook, Scavenged;
    PowersPositive(align);
    if size + align >= ADDRESS_LIMIT {
      return None;
    }
    var bytes := if size == 0 then 1 else size;
    ghost var stock := Stocked(heap.State(), PagesToAsk(align, size), sys);
    PageSizeIsPower();
    if align <= PAGE_SIZE {
      r := heap.New(PagesFor(bytes), sys, rate);
      PowersDivide(align, PAGE_SIZE);
      if r.Some? {
        MultipleOfPage(heap.spans[r.value].start, align);
        UsedFields(heap.spans, r.value);
      }
      return;
    }
    PowersDivide(PAGE_SIZE, align);
    var alloc := PagesFor(bytes + align);
    var got := heap.New(alloc, sys, rate);
    if got == None {
      return None;
    }
    var start := heap.spans[got.value].start;
    var skip := SkipToAligned(start, align);
    AskedPages(align, bytes, skip);
    var needed := PagesFor(bytes);
    ghost var taken, before := heap.spans, heap.Pages();
    UsedFields(taken, got.value);
    var span := TrimFront(heap, got.value, skip, rate);
    UsedFields(heap.spans, span);
    ServedFront(stock, before, heap.Pages(), start, alloc, got.value, skip, span);
    ghost var between := heap.Pages();
    TrimBack(heap, span, needed, rate);
    UsedFields(heap.spans, span);
    ServedBack(stock, between, heap.Pages(), start + skip, alloc - skip, span, needed);
    TrimmedUsed(old(heap.spans), taken, got.value, span, Span(start + skip, alloc - skip, InUse, 0), heap.spans[span]);
    r := Some(span);
  }

  /** How many pages an aligned request asks the page heap for. */
  function PagesToAsk(align: nat, size: nat): (n: nat)
    ensures n > 0
  {
    var bytes := if size == 0 then 1 else size;
    PagesFor(if align <= PAGE_SIZE then bytes else bytes + align)
  }

  lemma PowersPositive(n: nat)
    requires PowerOfTwo(n)
    ensures n > 0
  {
  }

  /** Past the skipped pages of an aligned request there are always pages enough. */
  lemma AskedPages(align: nat, bytes: nat, skip: nat)
    requires bytes > 0 && align % PAGE_SIZE == 0 && skip * PAGE_SIZE < align
    ensures 0 < PagesFor(bytes) <= PagesFor(bytes + align) - skip
  {
  }

  lemma MultipleOfPage(x: nat, align: nat)
    requires align > 0 && PAGE_SIZE % align == 0
    ensures Aligned(x, align)
  {
    var k := PAGE_SIZE / align;
    assert PAGE_SIZE == k * align;
    assert x * PAGE_SIZE == (x * k) * align;
    DivMod(x * PAGE_SIZE, align, x * k, 0);
  }

  lemma UsedFields(s: map<SpanId, Span>, id: SpanId)
    requires id in UsedSpans(s)
    ensures id in s && s[id] == UsedSpans(s)[id] && s[id].location == InUse
  {
  }

  lemma TrimmedUsed(s: map<SpanId, Span>, t: map<SpanId, Span>, id: SpanId, r: SpanId, a: Span, b: Span)
    requires id !in UsedSpans(s) && id in t && UsedSpans(t) == UsedSpans(s)[id := t[id]]
    requires r == id || r !in t
    ensures (UsedSpans(t) - {id})[r := a][r := b] == UsedSpans(s)[r := b] && r !in UsedSpans(s)
  {
    if r != id {
      assert r !in UsedSpans(t);
    }
  }

  datatype RangeKind = InUseRange | FreeRange | UnmappedRange

  /** An address range reported to the caller, in bytes. */
  datatype MallocRange = MallocRange(address: nat, length: nat, kind: RangeKind)

  function RangeOf(s: Span): MallocRange {
    MallocRange(s.start * PAGE_SIZE, s.length * PAGE_SIZE,
                match s.location case InUse => InUseRange case Normal => FreeRange case Returned => UnmappedRange)
  }

  /** No span straddles the boundary before page `page`. */
  ghost predicate Boundary(spans: map<SpanId, Span>, page: nat) {
    forall id | id in spans :: spans[id].start >= page || spans[id].start + spans[id].length <= page
  }

  /** From a boundary, the next tag found is that of the span which starts there. */
  lemma NextStartsSpan(h: Heap, page: nat, r: Found)
    requires Shape(h) && Boundary(h.spans, page) && IsNext(h.pagemap, page, r)
    ensures r.Missing? ==> forall id | id in h.spans :: h.spans[id].start < page
    ensures r.At? ==> FirstFrom(h.spans, page, h.pagemap[r.key])
  {
    hide Partition;
    forall x | x in h.spans ensures EndsTagged(h.spans, h.pagemap, x) {}
    if r.At? {
      OwnerAt(h, r.key);
      assert EndsTagged(h.spans, h.pagemap, h.owner[r.key]);
    }
  }

  lemma OwnerAt(h: Heap, p: nat)
    requires Shape(h) && p in h.pagemap
    ensures p in h.owner && h.owner[p] in h.spans && h.spans[h.owner[p]].Has(p)
  {
  }

  lemma BoundaryAfter(h: Heap, id: SpanId)
    requires Shape(h) && id in h.spans
    ensures Boundary(h.spans, h.spans[id].start + h.spans[id].length)
  {
    var s := h.spans[id];
    var last := s.start + s.length - 1;
    assert s.Has(last);
    forall x | x in h.spans ensures h.spans[x].start > last || h.spans[x].start + h.spans[x].length <= last + 1 {
      assert h.spans[x].Has(last) ==> x == id;
    }
  }

  /** What a request for the next range gives: nothing, the range of a span, or what is left of a span long gone. */
  datatype NextRange = NoRange | At(range: MallocRange) | Stale

  /** The range of the span that the first entry at or after a page names.  From a boundary that is the first range that
      starts there or later; from inside a span it is not, and the entry found may even be stale. */
  method GetNextRange(heap: PageHeap, tree: PageMap3, page: nat) returns (r: NextRange)
    requires heap.Valid() && Mirrors(tree, heap.pagemap)
    ensures r.NoRange? <==> forall p | p in heap.pagemap :: p < page
    ensures r.NoRange? ==> forall id | id in heap.spans :: heap.spans[id].start + heap.spans[id].length <= page
    ensures !r.NoRange? ==>
              exists k :: IsNext(heap.pagemap, page, FlatMap.At(k)) && r == Named(heap.spans, heap.pagemap[k])
    ensures Boundary(heap.spans, page) && !r.NoRange? ==>
              exists id ::
                id in heap.spans && FirstFrom(heap.spans, page, id) && r == NextRange.At(RangeOf(heap.spans[id]))
  {
    hide Partition, Tagged, OnLists, Coalesced, Conserved, RadixTree.Flat, RangeOf, Boundary, FirstFrom;
    ghost var t := tree.View();
    var v := tree.Next(page);
    assert tree.View() == t;
    assert RadixTree.Flat(t, tree.leafLength) == Pointers(heap.pagemap);
    ghost var found := NextOf(heap.pagemap, page, v);
    NoneAfter(heap.State(), page);
    if v == 0 {
      return NoRange;
    }
    var id := v - 1;
    NextNamed(heap.State(), page, found);
    return if id in heap.spans then NextRange.At(RangeOf(heap.spans[id])) else Stale;
  }

  ghost function Named(spans: map<SpanId, Span>, id: SpanId): NextRange {
    if id in spans then NextRange.At(RangeOf(spans[id])) else Stale
  }

  lemma NextOf(pagemap: map<nat, SpanId>, page: nat, v: nat) returns (found: Found)
    requires RadixTree.IsNextValue(Pointers(pagemap), page, v)
    ensures IsNext(pagemap, page, found) && (v == 0 <==> found == Missing)
    ensures v != 0 ==> found.At? && pagemap[found.key] == v - 1
  {
    assert Pointers(pagemap).Keys == pagemap.Keys;
    assert forall p | p in pagemap :: p in Pointers(pagemap).Keys;
    if v == 0 {
      found := Missing;
    } else {
      var p :| IsNext(Pointers(pagemap), page, FlatMap.At(p)) && p in Pointers(pagemap) && Pointers(pagemap)[p] == v;
      found := FlatMap.At(p);
    }
  }

  /** When no entry is left, no managed page is. */
  lemma NoneAfter(h: Heap, page: nat)
    requires Shape(h)
    ensures (forall p | p in h.pagemap :: p < page) ==> forall id | id in h.spans ::
              h.spans[id].start + h.spans[id].length <= page
  {
    hide Partition;
    forall id | id in h.spans ensures h.spans[id].Last() in h.pagemap { assert EndsTagged(h.spans, h.pagemap, id); }
  }

  lemma NextNamed(h: Heap, page: nat, found: Found)
    requires Shape(h) && IsNext(h.pagemap, page, found) && found.At?
    ensures Boundary(h.spans, page) ==>
              h.pagemap[found.key] in h.spans && FirstFrom(h.spans, page, h.pagemap[found.key])
  {
    hide Partition, Tagged;
    if Boundary(h.spans, page) {
      NextStartsSpan(h, page, found);
    }
  }

  /** The entry found names the first span that starts at the page or later, and not by accident, if and only if no span
      straddles the page. */
  lemma FirstWhenBoundary(h: Heap, page: nat, k: nat)
    requires Shape(h) && IsNext(h.pagemap, page, FlatMap.At(k))
    ensures FirstFrom(h.spans, page, h.pagemap[k]) && h.spans[h.pagemap[k]].start == k <==> Boundary(h.spans, page)
  {
    hide Partition, Tagged;
    OwnerAt(h, k);
    if Boundary(h.spans, page) {
      NextStartsSpan(h, page, FlatMap.At(k));
      StartTagged(h, h.pagemap[k]);
      BoundaryOwner(h, page, k);
    } else {
      var x :| x in h.spans && h.spans[x].start < page < h.spans[x].start + h.spans[x].length;
      Straddles(h, page, k, x);
      if h.pagemap[k] in h.spans && h.spans[h.pagemap[k]].start == k { StartOwned(h, h.pagemap[k]); }
    }
  }

  lemma StartTagged(h: Heap, id: SpanId)
    requires Shape(h) && id in h.spans
    ensures h.spans[id].start in h.pagemap
  {
    assert EndsTagged(h.spans, h.pagemap, id);
  }

  lemma StartOwned(h: Heap, id: SpanId)
    requires Shape(h) && id in h.spans
    ensures h.spans[id].start in h.owner && h.owner[h.spans[id].start] == id
  {
    assert h.spans[id].Has(h.spans[id].start);
  }

  lemma BoundaryOwner(h: Heap, page: nat, k: nat)
    requires Shape(h) && Boundary(h.spans, page) && IsNext(h.pagemap, page, FlatMap.At(k))
    ensures k in h.owner && h.owner[k] in h.spans && h.spans[h.owner[k]].start == k
  {
    hide Partition;
    OwnerAt(h, k);
    assert EndsTagged(h.spans, h.pagemap, h.owner[k]);
  }

  /** What the page map says from a page on is what is documented: the first span that starts there or later. */
  ghost predicate AsDocumented(spans: map<SpanId, Span>, pagemap: map<nat, SpanId>, page: nat) {
    forall r | IsNext(pagemap, page, r) ::
      match r
      case Missing => forall id | id in spans :: spans[id].start < page
      case At(k) => k in pagemap && FirstFrom(spans, page, pagemap[k])
  }

  /** The page map may be this one, with the heap otherwise as it is. */
  ghost predicate MayHold(h: Heap, pagemap: map<nat, SpanId>) { Inv(h.(pagemap := pagemap), {}) }

  /** The documented result is given, whatever stale entries the page map has, if and only if no span
      straddles the page. */
  lemma DocumentedIffBoundary(h: Heap, page: nat)
    requires Inv(h, {})
    ensures Boundary(h.spans, page) <==> forall m | MayHold(h, m) :: AsDocumented(h.spans, m, page)
  {
    hide Shape, OnLists, Coalesced, Conserved, Boundary, AsDocumented;
    if Boundary(h.spans, page) {
      forall m | MayHold(h, m) ensures AsDocumented(h.spans, m, page) { BoundaryDocumented(h.(pagemap := m), page); }
    } else {
      AllEntries(h);
      InsideUndocumented(h, page);
    }
  }

  lemma BoundaryDocumented(h: Heap, page: nat)
    requires Shape(h) && Boundary(h.spans, page)
    ensures AsDocumented(h.spans, h.pagemap, page)
  {
    hide Shape, Boundary, FirstFrom;
    forall r | IsNext(h.pagemap, page, r)
      ensures match r
              case Missing => forall id | id in h.spans :: h.spans[id].start < page
              case At(k) => k in h.pagemap && FirstFrom(h.spans, page, h.pagemap[k])
    {
      NextStartsSpan(h, page, r);
    }
  }

  /** Every page may have its entry, as after all spans have been registered with a size class. */
  lemma AllEntries(h: Heap)
    requires Inv(h, {})
    ensures MayHold(h, h.owner)
  {
    var g := h.(pagemap := h.owner);
    forall id | id in g.spans ensures EndsTagged(g.spans, g.pagemap, id) {
      assert g.spans[id].Has(g.spans[id].start) && g.spans[id].Has(g.spans[id].Last());
    }
  }

  lemma InsideUndocumented(h: Heap, page: nat)
    requires Shape(h) && !Boundary(h.spans, page)
    ensures !AsDocumented(h.spans, h.owner, page)
  {
    var x :| x in h.spans && h.spans[x].start < page < h.spans[x].start + h.spans[x].length;
    assert h.spans[x].Has(page);
    assert IsNext(h.owner, page, FlatMap.At(page));
  }

  /** One span of three pages, in use, with these entries. */
  ghost function Triple(pagemap: map<nat, SpanId>): Heap {
    var none := seq(MAX_PAGES + 1, _ => []);
    Heap(map[0 := Span(1, 3, InUse, 0)], map[1 := 0, 2 := 0, 3 := 0], pagemap, none, none, 0, 0, 3 * PAGE_SIZE, {})
  }

  lemma TripleInv(m: map<nat, SpanId>)
    requires m.Keys <= {1, 2, 3} && 1 in m && m[1] == 0 && 3 in m && m[3] == 0
    ensures Inv(Triple(m), {})
  {
    hide Shape, OnLists, Conserved;
    TripleShape(m);
    TripleLists(m);
    TripleConserved(m);
  }

  lemma TripleShape(m: map<nat, SpanId>)
    requires m.Keys <= {1, 2, 3} && 1 in m && m[1] == 0 && 3 in m && m[3] == 0
    ensures Shape(Triple(m))
  {
    var h := Triple(m);
    assert EndsTagged(h.spans, h.pagemap, 0);
    forall p | p in m ensures p in h.owner { assert p in m.Keys; }
  }

  lemma TripleLists(m: map<nat, SpanId>)
    ensures OnLists(Triple(m), {})
  {
    var h := Triple(m);
    assert PagesAt(h.spans, h.owner, Normal, {}) == {} && PagesAt(h.spans, h.owner, Returned, {}) == {};
  }

  lemma TripleConserved(m: map<nat, SpanId>)
    ensures Conserved(Triple(m))
  {
    assert Triple(m).owner.Keys == {1, 2, 3};
  }

  /** From the middle of a span, the range found is that of the span, which starts before. */
  lemma InsideFindsEarlier()
    ensures exists h: Heap, page: nat, k: nat ::
              Inv(h, {}) && IsNext(h.pagemap, page, FlatMap.At(k)) && h.pagemap[k] in h.spans
                  && h.spans[h.pagemap[k]].start < page
  {
    hide Inv;
    var m: map<nat, SpanId> := map[1 := 0, 3 := 0];
    TripleInv(m);
    var h := Triple(m);
    assert IsNext(h.pagemap, 2, FlatMap.At(3)) && h.pagemap[3] in h.spans && h.spans[h.pagemap[3]].start < 2;
  }

  /** From the middle of a span, the entry found may be that of a span long gone. */
  lemma InsideFindsStale()
    ensures exists h: Heap, page: nat, k: nat ::
              Inv(h, {}) && IsNext(h.pagemap, page, FlatMap.At(k)) && Named(h.spans, h.pagemap[k]) == Stale
  {
    hide Inv;
    var m: map<nat, SpanId> := map[1 := 0, 2 := 7, 3 := 0];
    TripleInv(m);
    var h := Triple(m);
    assert IsNext(h.pagemap, 2, FlatMap.At(2)) && Named(h.spans, h.pagemap[2]) == Stale;
  }

  /** A span that straddles the page has its last entry before any other span's. */
  lemma Straddles(h: Heap, page: nat, k: nat, x: SpanId)
    requires Shape(h) && IsNext(h.pagemap, page, FlatMap.At(k)) && k in h.owner
    requires x in h.spans && h.spans[x].start < page < h.spans[x].start + h.spans[x].length
    ensures h.owner[k] == x
  {
    var s := h.spans[x];
    assert EndsTagged(h.spans, h.pagemap, x);
    assert s.Has(k);
  }

  ghost predicate FirstFrom(spans: map<SpanId, Span>, page: nat, id: SpanId) {
    && id in spans && spans[id].start >= page
    && forall x | x in spans && spans[x].start >= page :: spans[x].start >= spans[id].start
  }

  ghost predicate OfSpan(spans: map<SpanId, Span>, r: MallocRange) {
    exists id :: id in spans && r == RangeOf(spans[id])
  }

  /** The ranges are those of exactly the spans that start before `page`, in address order. */
  ghost predicate Reported(spans: map<SpanId, Span>, page: nat, out: seq<MallocRange>) {
    && (forall id | id in spans && spans[id].start < page :: RangeOf(spans[id]) in out)
    && (forall i | 0 <= i < |out| :: OfSpan(spans, out[i]))
    && (forall i, j | 0 <= i < j < |out| :: out[i].address + out[i].length <= out[j].address)
    && (forall i | 0 <= i < |out| :: out[i].address + out[i].length <= page * PAGE_SIZE)
  }

  lemma ReportMore(h: Heap, page: nat, out: seq<MallocRange>, id: SpanId)
    requires Shape(h) && Reported(h.spans, page, out) && FirstFrom(h.spans, page, id)
    ensures var end := h.spans[id].start + h.spans[id].length;
            && Reported(h.spans, end, out + [RangeOf(h.spans[id])]) && Boundary(h.spans, end)
            && |Unseen(h, end)| < |Unseen(h, page)|
            && (RangeOf(h.spans[id]).address + RangeOf(h.spans[id]).length + PAGE_SIZE - 1) / PAGE_SIZE == end
  {
    hide Partition, Tagged, Reported;
    ReportRange(h, page, out, id);
    BoundaryAfter(h, id);
    SeeSpan(h, page, id);
  }

  lemma SeeSpan(h: Heap, page: nat, id: SpanId)
    requires Shape(h) && FirstFrom(h.spans, page, id)
    ensures |Unseen(h, h.spans[id].start + h.spans[id].length)| < |Unseen(h, page)|
  {
    var s := h.spans[id];
    assert s.Has(s.start);
    assert s.start in Unseen(h, page);
    SubsetSize(Unseen(h, s.start + s.length), Unseen(h, page) - {s.start});
  }

  lemma ReportRange(h: Heap, page: nat, out: seq<MallocRange>, id: SpanId)
    requires Shape(h) && Reported(h.spans, page, out) && FirstFrom(h.spans, page, id)
    ensures Reported(h.spans, h.spans[id].start + h.spans[id].length, out + [RangeOf(h.spans[id])])
  {
    var s := h.spans[id];
    var end := s.start + s.length;
    var more := out + [RangeOf(s)];
    forall x | x in h.spans && h.spans[x].start < end ensures RangeOf(h.spans[x]) in more {
      if h.spans[x].start >= page {
        assert s.Has(h.spans[x].start) && h.spans[x].Has(h.spans[x].start);
        assert more[|out|] == RangeOf(s);
      } else {
        assert RangeOf(h.spans[x]) in out;
      }
    }
    forall i | 0 <= i < |more| ensures OfSpan(h.spans, more[i]) {
      if i < |out| { assert more[i] == out[i]; }
    }
  }

  /** Every range of the heap once, in address order, collected sixteen at a time. */
  method IterateOverRanges(heap: PageHeap, tree: PageMap3) returns (out: seq<MallocRange>)
    requires heap.Valid() && Mirrors(tree, heap.pagemap)
    ensures forall id | id in heap.spans :: RangeOf(heap.spans[id]) in out
    ensures forall i | 0 <= i < |out| :: OfSpan(heap.spans, out[i])
    ensures forall i, j | 0 <= i < j < |out| :: out[i].address + out[i].length <= out[j].address
  {
    hide Shape, OnLists, Coalesced, Conserved, FirstFrom, Reported, Boundary, Unseen, RangeOf, OfSpan, Named, IsNext;
    hide RadixTree.Flat, Pointers;
    ghost var t := tree.View();
    out := [];
    var page: nat, done := 1, false;
    StartReport(heap.State());
    while !done
      invariant tree.Valid() && tree.View() == t
      invariant Boundary(heap.spans, page) && Reported(heap.spans, page, out)
      invariant done ==> forall id | id in heap.spans :: heap.spans[id].start < page
      decreases if done then 0 else 1 + |Unseen(heap.State(), page)|
    {
      var ranges: seq<MallocRange> := [];
      ghost var unseen := |Unseen(heap.State(), page)|;
      assert out + ranges == out;
      while |ranges| < 16
        invariant tree.Valid() && tree.View() == t
        invariant Boundary(heap.spans, page) && Reported(heap.spans, page, out + ranges)
        invariant |Unseen(heap.State(), page)| + |ranges| <= unseen
        decreases 16 - |ranges|
      {
        var r := GetNextRange(heap, tree, page);
        if r == NoRange {
          done := true;
          NoneLeft(heap.State(), page);
          break;
        }
        ghost var id :| id in heap.spans && FirstFrom(heap.spans, page, id)
            && r == NextRange.At(RangeOf(heap.spans[id]));
        ReportMore(heap.State(), page, out + ranges, id);
        assert out + ranges + [r.range] == out + (ranges + [r.range]);
        ranges := ranges + [r.range];
        page := (r.range.address + r.range.length + PAGE_SIZE - 1) / PAGE_SIZE;
      }
      out := out + ranges;
    }
    ReportDone(heap.spans, page, out);
  }

  lemma NoneLeft(h: Heap, page: nat)
    requires Shape(h) && forall id | id in h.spans :: h.spans[id].start + h.spans[id].length <= page
    ensures forall id | id in h.spans :: h.spans[id].start < page
  {
  }

  lemma ReportDone(spans: map<SpanId, Span>, page: nat, out: seq<MallocRange>)
    requires Reported(spans, page, out) && forall id | id in spans :: spans[id].start < page
    ensures forall id | id in spans :: RangeOf(spans[id]) in out
    ensures forall i | 0 <= i < |out| :: OfSpan(spans, out[i])
    ensures forall i, j | 0 <= i < j < |out| :: out[i].address + out[i].length <= out[j].address
  {
  }

  lemma StartReport(h: Heap)
    requires Shape(h)
    ensures Boundary(h.spans, 1) && Reported(h.spans, 1, [])
  {
  }

  ghost function Unseen(h: Heap, page: nat): set<nat> {
    set p | p in h.owner && p >= page
  }
}
