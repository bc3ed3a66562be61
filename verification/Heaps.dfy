/** The whole state of the page heap as a value, its invariant, and what the
    operations of the page heap do to it. */
module Heaps {
  import opened Common
  import opened Sequences
  import opened Spans
  import opened SpanSteps

  // Spans are shorter than this, so that a difference of lengths fits an `int`.
  const MAX_RUN := 0x8000_0000

  datatype Heap = Heap(
    spans: map<SpanId, Span>,
    owner: map<nat, SpanId>,
    pagemap: map<nat, SpanId>,
    normal: seq<seq<SpanId>>,
    returned: seq<seq<SpanId>>,
    freeBytes: int,
    unmappedBytes: int,
    systemBytes: int,
    lost: set<nat>)
  {
    ghost function Pages(): map<nat, PageState> { View(spans, owner) }
  }

  ghost predicate Shape(h: Heap) {
    WellFormed(h.spans) && Partition(h.spans, h.owner) && Tagged(h.spans, h.owner, h.pagemap)
  }

  ghost predicate OnLists(h: Heap, ex: set<SpanId>) {
    && Listed(h.spans, h.normal, Normal, ex) && Listed(h.spans, h.returned, Returned, ex)
    && h.freeBytes == |PagesAt(h.spans, h.owner, Normal, ex)| * PAGE_SIZE
    && h.unmappedBytes == |PagesAt(h.spans, h.owner, Returned, ex)| * PAGE_SIZE
  }

  ghost predicate Conserved(h: Heap) {
    h.systemBytes == (|h.owner| + |h.lost|) * PAGE_SIZE && |h.owner| < MAX_RUN
  }

  /** The invariant of the page heap while the spans in `ex` are off the lists. */
  ghost predicate Inv(h: Heap, ex: set<SpanId>) {
    Shape(h) && OnLists(h, ex) && Coalesced(h.spans, ex) && Conserved(h)
  }

  function Unlist(h: Heap, id: SpanId): (r: Heap)
    requires id in h.spans && |h.normal| == |h.returned| == MAX_PAGES + 1
    ensures |r.normal| == |r.returned| == MAX_PAGES + 1
    ensures (r.spans, r.owner, r.pagemap, r.systemBytes, r.lost) == (h.spans, h.owner, h.pagemap, h.systemBytes, h.lost)
  {
    var s := h.spans[id]; var i := ListIndex(s.length);
    if s.location == Normal then
      h.(normal := h.normal[i := Without(h.normal[i], id)], freeBytes := h.freeBytes - s.length * PAGE_SIZE)
    else
      h.(returned := h.returned[i := Without(h.returned[i], id)],
          unmappedBytes := h.unmappedBytes - s.length * PAGE_SIZE)
  }

  function Enlist(h: Heap, id: SpanId): (r: Heap)
    requires id in h.spans && |h.normal| == |h.returned| == MAX_PAGES + 1
    ensures |r.normal| == |r.returned| == MAX_PAGES + 1
    ensures (r.spans, r.owner, r.pagemap, r.systemBytes, r.lost) == (h.spans, h.owner, h.pagemap, h.systemBytes, h.lost)
  {
    var s := h.spans[id]; var i := ListIndex(s.length);
    if s.location == Normal then
      h.(normal := h.normal[i := [id] + h.normal[i]], freeBytes := h.freeBytes + s.length * PAGE_SIZE)
    else
      h.(returned := h.returned[i := [id] + h.returned[i]], unmappedBytes := h.unmappedBytes + s.length * PAGE_SIZE)
  }

  /** Listing a span looks at that span, the lists and the totals only. */
  lemma EnlistFields(g: Heap, h: Heap, id: SpanId)
    requires id in g.spans && id in h.spans && g.spans[id] == h.spans[id]
    requires (g.normal, g.returned, g.freeBytes, g.unmappedBytes) ==
               (h.normal, h.returned, h.freeBytes, h.unmappedBytes)
    requires |h.normal| == |h.returned| == MAX_PAGES + 1
    ensures Enlist(h, id) ==
            Enlist(g, id).(spans := h.spans, owner := h.owner, pagemap := h.pagemap, systemBytes := h.systemBytes,
                lost := h.lost)
  {
  }

  /** A span off its list is out of account, and nothing else is. */
  lemma UnlistKeepsInv(h: Heap, ex: set<SpanId>, id: SpanId)
    requires Inv(h, ex) && id in h.spans && id !in ex && h.spans[id].Free()
    ensures Inv(Unlist(h, id), ex + {id})
  {
    hide Partition, Tagged, WellFormed, Listed, PagesAt;
    var loc := h.spans[id].location;
    ListLengths(h, ex);
    UnlistKeeps(h.spans, if loc == Normal then h.normal else h.returned, loc, ex, id);
    if loc == Normal {
      WidenListed(h.spans, h.returned, Returned, ex, id);
    } else {
      WidenListed(h.spans, h.normal, Normal, ex, id);
    }
    ExcludePages(h.spans, h.owner, Normal, ex, id);
    ExcludePages(h.spans, h.owner, Returned, ex, id);
  }

  lemma ListLengths(h: Heap, ex: set<SpanId>)
    requires OnLists(h, ex)
    ensures |h.normal| == |h.returned| == MAX_PAGES + 1
  {
  }

  lemma FreeBasics(h: Heap, ex: set<SpanId>, id: SpanId)
    requires Shape(h) && OnLists(h, ex) && id in h.spans && h.spans[id].Free()
    ensures h.spans[id].sizeclass == 0 && h.spans[id].length >= 1 && |h.normal| == |h.returned| == MAX_PAGES + 1
  {
  }

  lemma WidenListed(spans: map<SpanId, Span>, lists: seq<seq<SpanId>>, loc: Location, ex: set<SpanId>, id: SpanId)
    requires Listed(spans, lists, loc, ex) && (id in spans ==> spans[id].location != loc)
    ensures Listed(spans, lists, loc, ex + {id}) && Listed(spans, lists, loc, ex - {id})
  {
  }

  /** Listing the last span out of account, provided it has no neighbour to merge with. */
  lemma EnlistKeepsInv(h: Heap, ex: set<SpanId>, id: SpanId)
    requires Inv(h, ex) && id in h.spans && id in ex && h.spans[id].Free()
    requires Coalesced(h.spans, ex - {id})
    ensures Inv(Enlist(h, id), ex - {id})
  {
    hide Partition, Tagged, WellFormed, Listed, PagesAt, Coalesced;
    var loc := h.spans[id].location;
    ListLengths(h, ex);
    PrependKeeps(h.spans, if loc == Normal then h.normal else h.returned, loc, ex, id);
    if loc == Normal {
      WidenListed(h.spans, h.returned, Returned, ex, id);
    } else {
      WidenListed(h.spans, h.normal, Normal, ex, id);
    }
    ExcludePages(h.spans, h.owner, Normal, ex - {id}, id);
    ExcludePages(h.spans, h.owner, Returned, ex - {id}, id);
    assert ex - {id} + {id} == ex;
  }

  /** Whether a span in use is in or out of account makes no difference. */
  lemma InUseUnlisted(h: Heap, ex: set<SpanId>, id: SpanId)
    requires OnLists(h, ex) && (id in h.spans ==> h.spans[id].location == InUse)
    ensures OnLists(h, ex + {id}) && OnLists(h, ex - {id})
  {
    hide Listed;
    WidenListed(h.spans, h.normal, Normal, ex, id);
    WidenListed(h.spans, h.returned, Returned, ex, id);
    forall loc | loc == Normal || loc == Returned
      ensures PagesAt(h.spans, h.owner, loc, ex) == PagesAt(h.spans, h.owner, loc, ex + {id}) ==
                PagesAt(h.spans, h.owner, loc, ex - {id})
    {
    }
  }

  /** Cuts `id` in two: it becomes `a`, and the fresh span `rest` becomes `b`. */
  function Cut(h: Heap, id: SpanId, rest: SpanId, a: Span, b: Span): Heap {
    h.(spans := h.spans[id := a][rest := b],
       owner := h.owner + Fill(b.start, b.length, rest),
       pagemap := h.pagemap[b.start := rest][b.Last() := rest][a.Last() := id])
  }

  ghost predicate CutsInto(h: Heap, id: SpanId, rest: SpanId, a: Span, b: Span) {
    && id in h.spans && rest !in h.spans && h.spans[id].sizeclass == 0
    && a.start == h.spans[id].start && Adjacent(a, b) && a.length + b.length == h.spans[id].length
    && a.length > 0 && b.length > 0 && a.sizeclass == 0 && b.sizeclass == 0 && a.location == InUse
  }

  lemma CutKeepsShape(h: Heap, id: SpanId, rest: SpanId, a: Span, b: Span)
    requires Shape(h) && Conserved(h) && CutsInto(h, id, rest, a, b)
    ensures Shape(Cut(h, id, rest, a, b)) && Conserved(Cut(h, id, rest, a, b))
  {
    hide Partition, Tagged;
    CutPartition(h.spans, h.owner, id, rest, a, b);
    CutTags(h.spans, h.owner, h.pagemap, id, rest, a, b);
    SameSize(h.owner, h.owner + Fill(b.start, b.length, rest));
  }

  lemma SameSize(a: map<nat, SpanId>, b: map<nat, SpanId>)
    requires a.Keys == b.Keys
    ensures |a| == |b|
  {
    assert |a| == |a.Keys| && |b| == |b.Keys|;
  }

  lemma CutKeepsLists(h: Heap, id: SpanId, rest: SpanId, a: Span, b: Span)
    requires Shape(h) && OnLists(h, {id}) && CutsInto(h, id, rest, a, b)
    ensures OnLists(Cut(h, id, rest, a, b), {rest})
  {
    hide WellFormed, Partition, Tagged, PagesAt, Listed;
    var c := Cut(h, id, rest, a, b);
    CutPages(h.spans, h.owner, id, rest, a, b, Normal);
    CutPages(h.spans, h.owner, id, rest, a, b, Returned);
    ListedElsewhere(h.spans, c.spans, h.normal, Normal, {id}, {id, rest});
    ListedElsewhere(h.spans, c.spans, h.returned, Returned, {id}, {id, rest});
    InUseUnlisted(c, {id, rest}, id);
    assert {id, rest} - {id} == {rest};
  }

  /** Splitting a span in use. */
  lemma SplitKeepsInv(h: Heap, id: SpanId, rest: SpanId, a: Span, b: Span)
    requires Inv(h, {}) && CutsInto(h, id, rest, a, b) && h.spans[id].location == b.location == InUse
    ensures Inv(Cut(h, id, rest, a, b), {})
    ensures Cut(h, id, rest, a, b).Pages() == h.Pages() + Fill(b.start, b.length, Used(rest))
  {
    SplitView(h, id, rest, a, b);
    hide Shape, OnLists, Conserved, View;
    InUseUnlisted(h, {}, id);
    assert {} + {id} == {id};
    CutKeepsShape(h, id, rest, a, b);
    CutKeepsLists(h, id, rest, a, b);
    var c := Cut(h, id, rest, a, b);
    InUseUnlisted(c, {rest}, rest);
    assert {rest} - {rest} == {};
    forall x, y | x in c.spans && y in c.spans && Adjacent(c.spans[x], c.spans[y])
      ensures c.spans[x].Free() ==> c.spans[x].location != c.spans[y].location
    {
      if c.spans[x].Free() && c.spans[y].Free() { assert Adjacent(h.spans[x], h.spans[y]); }
    }
  }

  lemma SplitView(h: Heap, id: SpanId, rest: SpanId, a: Span, b: Span)
    requires Shape(h) && CutsInto(h, id, rest, a, b) && h.spans[id].location == b.location == InUse
    ensures Cut(h, id, rest, a, b).Pages() == h.Pages() + Fill(b.start, b.length, Used(rest))
  {
    hide Tagged, WellFormed;
    CutView(h.spans, h.owner, id, rest, a, b);
    forall p: nat | Within(p, a.start, a.length) ensures p in h.owner && h.Pages()[p] == Used(id) {
      assert h.spans[id].Has(p);
    }
  }

  function Relabel(h: Heap, id: SpanId, s: Span): Heap { h.(spans := h.spans[id := s]) }

  /** A span out of account may change location freely. */
  lemma RelabelKeepsInv(h: Heap, id: SpanId, s: Span)
    requires Inv(h, {id}) && id in h.spans
    requires s.start == h.spans[id].start && s.length == h.spans[id].length && s.sizeclass == 0
    ensures Inv(Relabel(h, id, s), {id})
  {
    hide Partition, Tagged, Listed;
    var r := Relabel(h, id, s);
    RelabelPartition(h.spans, h.owner, id, s);
    RelabelTags(h.spans, h.owner, h.pagemap, id, s);
    ListedElsewhere(h.spans, r.spans, h.normal, Normal, {id}, {id});
    ListedElsewhere(h.spans, r.spans, h.returned, Returned, {id}, {id});
    assert PagesAt(r.spans, r.owner, Normal, {id}) == PagesAt(h.spans, h.owner, Normal, {id});
    assert PagesAt(r.spans, r.owner, Returned, {id}) == PagesAt(h.spans, h.owner, Returned, {id});
    CoalescedRelabel(h.spans, id, s);
  }

  lemma CoalescedRelabel(spans: map<SpanId, Span>, id: SpanId, s: Span)
    requires Coalesced(spans, {id}) && id in spans
    ensures Coalesced(spans[id := s], {id})
  {
    var n := spans[id := s];
    forall x, y | x in n && y in n && x != id && y != id && Adjacent(n[x], n[y])
      ensures n[x].Free() ==> n[x].location != n[y].location
    {
      assert Adjacent(spans[x], spans[y]);
    }
  }

  lemma RelabelView(h: Heap, id: SpanId, s: Span)
    requires Partition(h.spans, h.owner) && id in h.spans
    requires s.start == h.spans[id].start && s.length == h.spans[id].length
    ensures Relabel(h, id, s).Pages() ==
            h.Pages() + Fill(s.start, s.length, if s.Free() then Idle(s.location) else Used(id))
  {
    forall p: nat ensures Within(p, s.start, s.length) <==> p in h.owner && h.owner[p] == id {
      assert h.spans[id].Has(p) <==> Within(p, s.start, s.length);
    }
  }

  /** Takes a free span off its list, marks its first `n` pages in use and lists what is left. */
  function Carved(h: Heap, id: SpanId, n: nat, rest: SpanId): Heap
    requires id in h.spans && 0 < n <= h.spans[id].length && |h.normal| == |h.returned| == MAX_PAGES + 1
  {
    var s := h.spans[id]; var u := Unlist(h, id);
    if n == s.length then Relabel(u, id, s.(location := InUse))
    else Enlist(Cut(u, id, rest, Span(s.start, n, InUse, 0), Span(s.start + n, s.length - n, s.location, 0)), rest)
  }

  lemma CarveKeepsInv(h: Heap, id: SpanId, n: nat, rest: SpanId)
    requires Inv(h, {}) && id in h.spans && h.spans[id].Free() && 0 < n <= h.spans[id].length && rest !in h.spans
    ensures Inv(Carved(h, id, n, rest), {})
  {
    hide Shape, OnLists, Coalesced, Conserved;
    FreeBasics(h, {}, id);
    var s, u := h.spans[id], Unlist(h, id);
    UnlistKeepsInv(h, {}, id);
    assert {} + {id} == {id};
    if n == s.length {
      RelabelKeepsInv(u, id, s.(location := InUse));
      CarveWhole(h, u, id);
    } else {
      CarvePart(h, u, id, rest, Span(s.start, n, InUse, 0), Span(s.start + n, s.length - n, s.location, 0));
    }
  }

  lemma CarveWhole(h: Heap, u: Heap, id: SpanId)
    requires Coalesced(h.spans, {}) && id in h.spans && h.spans[id].Free() && u.spans == h.spans
    requires Inv(Relabel(u, id, h.spans[id].(location := InUse)), {id})
    ensures Inv(Relabel(u, id, h.spans[id].(location := InUse)), {})
  {
    hide Shape, OnLists, Conserved;
    var r := Relabel(u, id, h.spans[id].(location := InUse));
    InUseUnlisted(r, {id}, id);
    assert {id} - {id} == {};
    forall x, y | x in r.spans && y in r.spans && Adjacent(r.spans[x], r.spans[y])
      ensures r.spans[x].Free() ==> r.spans[x].location != r.spans[y].location
    {
      assert Adjacent(h.spans[x], h.spans[y]);
    }
  }

  lemma CarvePart(h: Heap, u: Heap, id: SpanId, rest: SpanId, a: Span, b: Span)
    requires Inv(u, {id}) && Coalesced(h.spans, {}) && u.spans == h.spans
    requires CutsInto(u, id, rest, a, b) && h.spans[id].location == b.location && b.Free()
    ensures Inv(Enlist(Cut(u, id, rest, a, b), rest), {})
  {
    hide Shape, OnLists, Conserved;
    var c := Cut(u, id, rest, a, b);
    CutKeepsShape(u, id, rest, a, b);
    CutKeepsLists(u, id, rest, a, b);
    forall x, y | x in c.spans && y in c.spans && Adjacent(c.spans[x], c.spans[y])
      ensures c.spans[x].Free() ==> c.spans[x].location != c.spans[y].location
    {
      if c.spans[x].Free() && c.spans[y].Free() {
        assert y != rest by { if x != rest { CutOrder(u, id, rest, a, b, x); } }
        assert Adjacent(h.spans[if x == rest then id else x], h.spans[y]);
      }
    }
    assert Coalesced(c.spans, {rest});
    assert {rest} - {rest} == {};
    EnlistKeepsInv(c, {rest}, rest);
  }

  /** The left neighbour of the second part of a cut span is its first part. */
  lemma CutOrder(h: Heap, id: SpanId, rest: SpanId, a: Span, b: Span, x: SpanId)
    requires Shape(h) && CutsInto(h, id, rest, a, b)
    requires x in h.spans && x != id
    ensures !Adjacent(h.spans[x], b)
  {
    if Adjacent(h.spans[x], b) {
      assert h.spans[x].Has(a.Last());
      assert h.spans[id].Has(a.Last());
    }
  }

  lemma CarvedFields(h: Heap, id: SpanId, n: nat, rest: SpanId)
    requires id in h.spans && 0 < n <= h.spans[id].length && |h.normal| == |h.returned| == MAX_PAGES + 1
    ensures var s := h.spans[id]; var c := Carved(h, id, n, rest);
              var b := Span(s.start + n, s.length - n, s.location, 0);
            && (c.systemBytes, c.lost) == (h.systemBytes, h.lost)
            && if n == s.length then c.spans == h.spans[id := s.(location := InUse)] && c.owner == h.owner
               else c.spans == h.spans[id := Span(s.start, n, InUse, 0)][rest := b]
                    && c.owner == h.owner + Fill(b.start, b.length, rest)
  {
    hide Without, Fill, ListIndex;
    var s, u := h.spans[id], Unlist(h, id);
    if n != s.length {
      var b := Span(s.start + n, s.length - n, s.location, 0);
      var k := Cut(u, id, rest, Span(s.start, n, InUse, 0), b);
      assert Carved(h, id, n, rest) == Enlist(k, rest);
      assert k.spans == h.spans[id := Span(s.start, n, InUse, 0)][rest := b];
    }
  }

  /** Carving takes exactly the `n` first pages of the span, whatever they were, into use. */
  lemma CarveView(h: Heap, id: SpanId, n: nat, rest: SpanId)
    requires Inv(h, {}) && id in h.spans && h.spans[id].Free() && 0 < n <= h.spans[id].length && rest !in h.spans
    ensures var s := h.spans[id]; var c := Carved(h, id, n, rest);
            && id in c.spans && c.spans[id] == Span(s.start, n, InUse, 0)
            && c.Pages() == h.Pages() + Fill(s.start, n, Used(id))
            && UsedSpans(c.spans) == UsedSpans(h.spans)[id := Span(s.start, n, InUse, 0)]
            && (c.systemBytes, c.lost) == (h.systemBytes, h.lost)
  {
    hide WellFormed, Tagged, OnLists, Coalesced, Conserved, Partition, View, Carved, Enlist, Unlist, Fill;
    FreeBasics(h, {}, id);
    CarvedFields(h, id, n, rest);
    var s := h.spans[id];
    if n == s.length {
      RelabelView(h, id, s.(location := InUse));
    } else {
      CarvePartView(h, id, rest, Span(s.start, n, InUse, 0), Span(s.start + n, s.length - n, s.location, 0));
    }
  }

  lemma CarvePartView(h: Heap, id: SpanId, rest: SpanId, a: Span, b: Span)
    requires Partition(h.spans, h.owner) && CutsInto(h, id, rest, a, b) && b.location == h.spans[id].location
    requires b.Free()
    ensures Cut(h, id, rest, a, b).Pages() == h.Pages() + Fill(a.start, a.length, Used(id))
  {
    CutView(h.spans, h.owner, id, rest, a, b);
    forall p: nat | Within(p, b.start, b.length) ensures p in h.owner && h.Pages()[p] == Idle(b.location) {
      assert h.spans[id].Has(p);
    }
  }

  /** A span in use can be put out of account. */
  lemma PutOut(h: Heap, id: SpanId)
    requires Inv(h, {}) && id in h.spans && h.spans[id].location == InUse
    ensures Inv(h, {id})
  {
    hide Shape, OnLists, Conserved;
    InUseUnlisted(h, {}, id);
    assert {} + {id} == {id};
  }

  lemma CountsInView(h: Heap)
    requires Inv(h, {})
    ensures h.freeBytes == |IdleAt(h.Pages(), Normal)| * PAGE_SIZE
    ensures h.unmappedBytes == |IdleAt(h.Pages(), Returned)| * PAGE_SIZE
  {
    PagesInView(h.spans, h.owner, Normal);
    PagesInView(h.spans, h.owner, Returned);
  }

  /** The pages of a span show the state of the span. */
  lemma SpanInView(h: Heap, id: SpanId)
    requires Shape(h) && id in h.spans
    ensures forall p: nat | Within(p, h.spans[id].start, h.spans[id].length) ::
              p in h.Pages() && h.Pages()[p] == if h.spans[id].Free() then Idle(h.spans[id].location) else Used(id)
  {
    forall p: nat | Within(p, h.spans[id].start, h.spans[id].length)
      ensures p in h.Pages() && h.Pages()[p] == if h.spans[id].Free() then Idle(h.spans[id].location) else Used(id)
    {
      assert h.spans[id].Has(p);
    }
  }

  function Registered(h: Heap, id: SpanId, sc: nat): Heap
    requires id in h.spans
  {
    var s := h.spans[id];
    h.(spans := h.spans[id := s.(sizeclass := sc)],
       pagemap := h.pagemap + Fill(s.start + 1, if s.length < 2 then 0 else s.length - 2, id))
  }

  /** Registering a size class tags every page of the span. */
  lemma RegisterKeepsInv(h: Heap, id: SpanId, sc: nat)
    requires Inv(h, {}) && id in h.spans && h.spans[id].location == InUse
    ensures Inv(Registered(h, id, sc), {}) && Registered(h, id, sc).Pages() == h.Pages()
  {
    hide Tagged, Listed, Partition, PagesAt, View, Fill, Coalesced;
    var s, r := h.spans[id].(sizeclass := sc), Registered(h, id, sc);
    RelabelPartition(h.spans, h.owner, id, s);
    RegisterTags(h, id, sc);
    ListedElsewhere(h.spans, r.spans, h.normal, Normal, {}, {});
    ListedElsewhere(h.spans, r.spans, h.returned, Returned, {}, {});
    RegisterViews(h.spans, h.owner, id, s);
  }

  lemma RegisterViews(spans: map<SpanId, Span>, owner: map<nat, SpanId>, id: SpanId, s: Span)
    requires id in spans && Coalesced(spans, {}) && s == spans[id].(sizeclass := s.sizeclass)
    ensures Coalesced(spans[id := s], {}) && View(spans[id := s], owner) == View(spans, owner)
    ensures PagesAt(spans[id := s], owner, Normal, {}) == PagesAt(spans, owner, Normal, {})
    ensures PagesAt(spans[id := s], owner, Returned, {}) == PagesAt(spans, owner, Returned, {})
  {
    var r := spans[id := s];
    forall x, y | x in r && y in r && Adjacent(r[x], r[y]) ensures r[x].Free() ==> r[x].location != r[y].location {
      assert Adjacent(spans[x], spans[y]);
    }
  }

  lemma RegisterTags(h: Heap, id: SpanId, sc: nat)
    requires Shape(h) && id in h.spans
    ensures var r := Registered(h, id, sc); Tagged(r.spans, r.owner, r.pagemap)
  {
    var s, r := h.spans[id], Registered(h, id, sc);
    var n := if s.length < 2 then 0 else s.length - 2;
    assert EndsTagged(h.spans, h.pagemap, id);
    forall p: nat | Within(p, s.start + 1, n) ensures p in h.owner && h.owner[p] == id { assert s.Has(p); }
    forall x | x in r.spans ensures EndsTagged(r.spans, r.pagemap, x) {
      assert EndsTagged(h.spans, h.pagemap, x);
      assert h.spans[x].Has(h.spans[x].start) && h.spans[x].Has(h.spans[x].Last());
    }
    forall x, p: nat | x in r.spans && r.spans[x].sizeclass != 0 && r.spans[x].Has(p)
      ensures p in r.pagemap && r.pagemap[p] == x
    {
      assert h.spans[x].Has(p);
      if x == id { assert p == s.start || p == s.Last() || Within(p, s.start + 1, n); }
    }
  }

  /** Adds a fresh run of pages obtained from the system, as a span in use. */
  function Grown(h: Heap, id: SpanId, start: nat, n: nat): Heap {
    var s := Span(start, n, InUse, 0);
    h.(spans := h.spans[id := s], owner := h.owner + Fill(start, n, id),
       pagemap := h.pagemap[start := id][s.Last() := id], systemBytes := h.systemBytes + n * PAGE_SIZE)
  }

  lemma GrowKeepsInv(h: Heap, id: SpanId, start: nat, n: nat)
    requires Inv(h, {}) && id !in h.spans && start >= 1 && n >= 1
    requires Range(start, n) !! h.owner.Keys && |h.owner| + n < MAX_RUN
    ensures Inv(Grown(h, id, start, n), {})
    ensures Grown(h, id, start, n).Pages() == h.Pages() + Fill(start, n, Used(id))
  {
    hide Shape, OnLists, Conserved, View, Coalesced, Fill, Range, Partition, Tagged, WellFormed;
    GrowKeepsShape(h, id, start, n);
    GrowKeepsLists(h, id, start, n);
    GrowCoalesced(h.spans, id, Span(start, n, InUse, 0));
  }

  lemma GrowKeepsShape(h: Heap, id: SpanId, start: nat, n: nat)
    requires Shape(h) && Conserved(h) && id !in h.spans && start >= 1 && n >= 1
    requires Range(start, n) !! h.owner.Keys && |h.owner| + n < MAX_RUN
    ensures Shape(Grown(h, id, start, n)) && Conserved(Grown(h, id, start, n))
  {
    hide Tagged, Partition, Fill, Range;
    GrowPartition(h, id, start, n);
    GrowTags(h, id, start, n);
    GrowSize(h.owner, id, start, n);
  }

  lemma GrowKeepsLists(h: Heap, id: SpanId, start: nat, n: nat)
    requires Shape(h) && OnLists(h, {}) && id !in h.spans && Range(start, n) !! h.owner.Keys
    ensures OnLists(Grown(h, id, start, n), {})
    ensures Grown(h, id, start, n).Pages() == h.Pages() + Fill(start, n, Used(id))
  {
    hide WellFormed, Tagged, Partition, Listed, PagesAt, View, Fill, Range;
    var g := Grown(h, id, start, n);
    ListedElsewhere(h.spans, g.spans, h.normal, Normal, {}, {});
    ListedElsewhere(h.spans, g.spans, h.returned, Returned, {}, {});
    GrowPages(h, id, start, n, Normal);
    GrowPages(h, id, start, n, Returned);
  }

  lemma GrowCoalesced(spans: map<SpanId, Span>, id: SpanId, s: Span)
    requires Coalesced(spans, {}) && id !in spans && s.location == InUse
    ensures Coalesced(spans[id := s], {})
  {
    var g := spans[id := s];
    forall x, y | x in g && y in g && Adjacent(g[x], g[y]) ensures g[x].Free() ==> g[x].location != g[y].location {
      if g[x].Free() && g[y].Free() { assert Adjacent(spans[x], spans[y]); }
    }
  }

  lemma GrowSize(owner: map<nat, SpanId>, id: SpanId, start: nat, n: nat)
    requires Range(start, n) !! owner.Keys
    ensures |owner + Fill(start, n, id)| == |owner| + n
  {
    var o := owner + Fill(start, n, id);
    RangeSize(start, n);
    assert o.Keys == owner.Keys + Range(start, n);
    assert |o| == |o.Keys| && |owner| == |owner.Keys|;
  }

  lemma GrowPages(h: Heap, id: SpanId, start: nat, n: nat, loc: Location)
    requires Partition(h.spans, h.owner) && id !in h.spans && Range(start, n) !! h.owner.Keys && loc != InUse
    ensures var g := Grown(h, id, start, n);
            PagesAt(g.spans, g.owner, loc, {}) == PagesAt(h.spans, h.owner, loc, {})
    ensures Grown(h, id, start, n).Pages() == h.Pages() + Fill(start, n, Used(id))
  {
    hide Partition, View, PagesAt;
    forall p: nat | Within(p, start, n) ensures p !in h.owner { assert p in Range(start, n); }
    GrowPagesAt(h, id, start, n, loc);
    GrowView(h, id, start, n);
  }

  lemma GrowPagesAt(h: Heap, id: SpanId, start: nat, n: nat, loc: Location)
    requires Partition(h.spans, h.owner) && id !in h.spans && loc != InUse
    requires forall p: nat | Within(p, start, n) :: p !in h.owner
    ensures var g := Grown(h, id, start, n);
            PagesAt(g.spans, g.owner, loc, {}) == PagesAt(h.spans, h.owner, loc, {})
  {
  }

  lemma GrowView(h: Heap, id: SpanId, start: nat, n: nat)
    requires Partition(h.spans, h.owner) && id !in h.spans && forall p: nat | Within(p, start, n) :: p !in h.owner
    ensures Grown(h, id, start, n).Pages() == h.Pages() + Fill(start, n, Used(id))
  {
  }

  lemma GrowPartition(h: Heap, id: SpanId, start: nat, n: nat)
    requires Partition(h.spans, h.owner) && id !in h.spans && Range(start, n) !! h.owner.Keys
    ensures Partition(Grown(h, id, start, n).spans, Grown(h, id, start, n).owner)
  {
    var g := Grown(h, id, start, n);
    forall p: nat | Within(p, start, n) ensures p !in h.owner { assert p in Range(start, n); }
    forall p | p in g.owner ensures g.owner[p] in g.spans && g.spans[g.owner[p]].Has(p) {
      if !Within(p, start, n) { assert h.spans[h.owner[p]].Has(p); }
    }
    forall x, p: nat | x in g.spans && g.spans[x].Has(p) ensures p in g.owner && g.owner[p] == x {
      if x == id { assert Within(p, start, n); } else { assert h.spans[x].Has(p); }
    }
  }

  lemma GrowTags(h: Heap, id: SpanId, start: nat, n: nat)
    requires Shape(h) && id !in h.spans && Range(start, n) !! h.owner.Keys && n >= 1
    ensures var g := Grown(h, id, start, n); Tagged(g.spans, g.owner, g.pagemap)
  {
    var g := Grown(h, id, start, n);
    forall p: nat | Within(p, start, n) ensures p !in h.owner { assert p in Range(start, n); }
    assert Within(start, start, n) && Within(start + n - 1, start, n);
    forall x | x in g.spans ensures EndsTagged(g.spans, g.pagemap, x) {
      if x != id {
        assert EndsTagged(h.spans, h.pagemap, x);
        assert h.spans[x].Has(h.spans[x].start) && h.spans[x].Has(h.spans[x].Last());
      }
    }
    forall x, p: nat | x in g.spans && g.spans[x].sizeclass != 0 && g.spans[x].Has(p)
      ensures p in g.pagemap && g.pagemap[p] == x
    {
      assert h.spans[x].Has(p);
    }
  }
}
