/** The page heap with its page map in a radix tree: what the heap writes, the tree follows. */
module PageIndex {
  import opened Wrappers
  import opened Common
  import opened Spans
  import opened Heaps
  import opened PageHeap
  import opened PageMaps
  import RadixTree

  /** Span descriptors as pointers: the null pointer is zero. */
  ghost function Pointers(pagemap: map<nat, SpanId>): map<nat, nat> { map p | p in pagemap :: pagemap[p] + 1 }

  /** The radix tree holds the page map. */
  ghost predicate Mirrors(tree: PageMap3, pagemap: map<nat, SpanId>)
    reads tree.root, tree.Nodes(), tree.Leaves()
  {
    tree.Valid() && RadixTree.Flat(tree.View(), tree.leafLength) == Pointers(pagemap)
  }

  /** Recording a span in the radix tree, whose leaves have been ensured, is recording it in the page map. */
  method RecordInTree(tree: PageMap3, s: Span, id: SpanId, ghost pagemap: map<nat, SpanId>)
    requires Mirrors(tree, pagemap) && s.length >= 1
    requires RadixTree.Ensured(tree.View(), tree.leafLength, s.start)
    requires RadixTree.Ensured(tree.View(), tree.leafLength, s.Last())
    modifies tree.Leaves()
    ensures Mirrors(tree, pagemap[s.start := id][s.Last() := id])
  {
    hide RadixTree.Flat;
    tree.Set(s.start, id + 1);
    assert Pointers(pagemap)[s.start := id + 1] == Pointers(pagemap[s.start := id]);
    if s.length > 1 {
      StillEnsured(old(tree.View()), tree.leafLength, s.start, s.Last(), id + 1);
      tree.Set(s.start + s.length - 1, id + 1);
      assert Pointers(pagemap[s.start := id])[s.Last() := id + 1] == Pointers(pagemap[s.start := id][s.Last() := id]);
    } else {
      assert pagemap[s.start := id][s.Last() := id] == pagemap[s.start := id];
    }
  }

  lemma StillEnsured(t: RadixTree.Tree, leaf: nat, k: nat, j: nat, v: nat)
    requires RadixTree.Shaped(t, leaf) && RadixTree.Ensured(t, leaf, k) && RadixTree.Ensured(t, leaf, j)
    ensures RadixTree.Ensured(RadixTree.Update(t, leaf, k, v), leaf, j)
  {
  }

  /** There is a leaf for each of these pages. */
  ghost predicate Ready(tree: PageMap3, pages: set<nat>)
    reads tree.root, tree.Nodes(), tree.Leaves()
  {
    tree.Valid() && forall p | p in pages :: RadixTree.Ensured(tree.View(), tree.leafLength, p)
  }

  /** The tree holds the heap's page map, and has a leaf for every page of the heap. */
  ghost predicate Linked(heap: PageHeap, tree: PageMap3)
    reads heap, tree.root, tree.Nodes(), tree.Leaves()
  {
    heap.Valid() && Mirrors(tree, heap.pagemap) && Ready(tree, heap.owner.Keys)
  }

  /** The one map at the keys of `todo`, the other elsewhere. */
  ghost function Mixed(was: map<nat, SpanId>, now: map<nat, SpanId>, todo: set<nat>): map<nat, SpanId> {
    map k | k in was.Keys + now.Keys && (if k in todo then k in was else k in now) ::
      if k in todo then was[k] else now[k]
  }

  lemma MixedOne(was: map<nat, SpanId>, now: map<nat, SpanId>, todo: set<nat>, k: nat)
    requires k in todo
    ensures RadixTree.With(Pointers(Mixed(was, now, todo)), k, if k in now then now[k] + 1 else 0) ==
              Pointers(Mixed(was, now, todo - {k}))
  {
  }

  lemma MixedAll(was: map<nat, SpanId>, now: map<nat, SpanId>)
    ensures Mixed(was, now, was.Keys + now.Keys) == was && Mixed(was, now, {}) == now
  {
  }

  lemma AllStillEnsured(t: RadixTree.Tree, leaf: nat, k: nat, v: nat, pages: set<nat>)
    requires RadixTree.Shaped(t, leaf) && RadixTree.Ensured(t, leaf, k)
    requires forall p | p in pages :: RadixTree.Ensured(t, leaf, p)
    ensures forall p | p in pages :: RadixTree.Ensured(RadixTree.Update(t, leaf, k, v), leaf, p)
  {
    forall p | p in pages
      ensures RadixTree.Ensured(RadixTree.Update(t, leaf, k, v), leaf, p)
    {
      StillEnsured(t, leaf, k, p, v);
    }
  }

  /** Stores what has changed in the page map, all of it at pages that have leaves. */
  method Follow(tree: PageMap3, was: map<nat, SpanId>, now: map<nat, SpanId>, ghost pages: set<nat>)
    requires Mirrors(tree, was) && Ready(tree, pages) && was.Keys <= pages && now.Keys <= pages
    modifies tree.Leaves()
    ensures Mirrors(tree, now) && Ready(tree, pages) && tree.Leaves() == old(tree.Leaves())
  {
    hide RadixTree.Flat, Pointers, RadixTree.Ensured, RadixTree.Update, RadixTree.With, Mixed;
    var todo := was.Keys + now.Keys;
    MixedAll(was, now);
    while todo != {}
      invariant todo <= was.Keys + now.Keys && tree.Leaves() == old(tree.Leaves())
      invariant Mirrors(tree, Mixed(was, now, todo)) && Ready(tree, pages)
      decreases todo
    {
      var k :| k in todo;
      ghost var t := tree.View();
      assert RadixTree.Ensured(t, tree.leafLength, k);
      var v := if k in now then now[k] + 1 else 0;
      tree.Set(k, v);
      MixedOne(was, now, todo, k);
      AllStillEnsured(t, tree.leafLength, k, v, pages);
      todo := todo - {k};
    }
  }

  /** All entries of the page map are at managed pages. */
  lemma EntriesManaged(h: Heap)
    requires Inv(h, {})
    ensures h.pagemap.Keys <= h.owner.Keys && h.Pages().Keys == h.owner.Keys
  {
    hide Partition, OnLists, Coalesced, Conserved;
  }

  /** So are all pages of a span. */
  lemma SpanManaged(h: Heap, id: SpanId, start: nat, n: nat)
    requires Inv(h, {}) && id in h.spans && h.spans[id].start <= start
    requires start + n <= h.spans[id].start + h.spans[id].length
    ensures Range(start, n) <= h.owner.Keys
  {
    hide Tagged, OnLists, Coalesced, Conserved;
    forall p | p in Range(start, n) ensures p in h.owner { assert h.spans[id].Has(p); }
  }

  lemma FillKeys<T>(v: map<nat, T>, start: nat, n: nat, x: T)
    ensures (v + Fill(start, n, x)).Keys == v.Keys + Range(start, n)
  {
  }

  /** The pages of a heap that has changed within pages that have leaves. */
  lemma StillReady(h: Heap, g: Heap, pages: set<nat>)
    requires Inv(h, {}) && Inv(g, {}) && h.owner.Keys <= pages && g.Pages().Keys <= pages
    ensures h.pagemap.Keys <= pages && g.pagemap.Keys <= pages && g.owner.Keys <= pages
  {
    hide Inv;
    EntriesManaged(h);
    EntriesManaged(g);
  }

  method SplitInTree(heap: PageHeap, tree: PageMap3, id: SpanId, n: nat) returns (rest: SpanId)
    requires Linked(heap, tree) && id in heap.spans && heap.spans[id].location == InUse && heap.spans[id].sizeclass == 0
    requires 0 < n < heap.spans[id].length
    modifies heap, tree.Leaves()
    ensures Linked(heap, tree)
    ensures rest !in old(heap.spans)
    ensures var s := old(heap.spans[id]);
            var a, b := Span(s.start, n, InUse, 0), Span(s.start + n, s.length - n, InUse, 0);
            && heap.spans == old(heap.spans)[id := a][rest := b]
            && heap.Pages() == old(heap.Pages()) + Fill(s.start + n, s.length - n, Used(rest))
  {
    hide Inv, View, Fill, Range, RadixTree.Flat, RadixTree.Ensured, Pointers;
    ghost var h, pages := heap.State(), heap.owner.Keys;
    var was := heap.pagemap;
    SpanManaged(h, id, h.spans[id].start + n, h.spans[id].length - n);
    EntriesManaged(h);
    ghost var t := tree.View();
    rest := heap.Split(id, n);
    assert tree.View() == t;
    FillKeys(h.Pages(), h.spans[id].start + n, h.spans[id].length - n, Used(rest));
    StillReady(h, heap.State(), pages);
    Follow(tree, was, heap.pagemap, pages);
  }

  method DeleteInTree(heap: PageHeap, tree: PageMap3, id: SpanId, rate: real)
    requires Linked(heap, tree) && id in heap.spans && heap.spans[id].location == InUse
    modifies heap, tree.Leaves()
    ensures Linked(heap, tree)
    ensures UsedSpans(heap.spans) == UsedSpans(old(heap.spans)) - {id}
    ensures Scavenged(old(heap.Pages()) + Fill(old(heap.spans[id].start), old(heap.spans[id].length), Idle(Normal)),
              heap.Pages())
  {
    hide Inv, View, Fill, Range, RadixTree.Flat, RadixTree.Ensured, Pointers, UsedSpans, FreeKept, HasFree;
    ghost var h, pages, t := heap.State(), heap.owner.Keys, tree.View();
    var was := heap.pagemap;
    SpanManaged(h, id, h.spans[id].start, h.spans[id].length);
    EntriesManaged(h);
    heap.Delete(id, rate);
    assert tree.View() == t;
    FillKeys(h.Pages(), h.spans[id].start, h.spans[id].length, Idle(Normal));
    StillReady(h, heap.State(), pages);
    Follow(tree, was, heap.pagemap, pages);
  }

  method RegisterInTree(heap: PageHeap, tree: PageMap3, id: SpanId, sc: nat)
    requires Linked(heap, tree) && id in heap.spans && heap.spans[id].location == InUse
    modifies heap, tree.Leaves()
    ensures Linked(heap, tree) && heap.Pages() == old(heap.Pages())
    ensures heap.spans == old(heap.spans)[id := old(heap.spans[id]).(sizeclass := sc)]
    ensures sc != 0 ==> forall p: nat | heap.spans[id].Has(p) :: p in heap.pagemap && heap.pagemap[p] == id
  {
    hide Inv, View, Fill, Range, RadixTree.Flat, RadixTree.Ensured, Pointers;
    ghost var h, pages, t := heap.State(), heap.owner.Keys, tree.View();
    var was := heap.pagemap;
    EntriesManaged(h);
    heap.RegisterSizeClass(id, sc);
    assert tree.View() == t;
    StillReady(h, heap.State(), pages);
    Follow(tree, was, heap.pagemap, pages);
  }

  method ReleaseInTree(heap: PageHeap, tree: PageMap3, numPages: nat) returns (released: nat)
    requires Linked(heap, tree)
    modifies heap, tree.Leaves()
    ensures Linked(heap, tree) && ReleasedTo(old(heap.State()), heap.State(), released)
    ensures released >= numPages || heap.NothingNormal()
  {
    hide Inv, View, Fill, Range, RadixTree.Flat, RadixTree.Ensured, Pointers, UsedSpans;
    ghost var h, pages, t := heap.State(), heap.owner.Keys, tree.View();
    var was := heap.pagemap;
    EntriesManaged(h);
    released := heap.ReleaseAtLeastNPages(numPages);
    assert tree.View() == t;
    StillReady(h, heap.State(), pages);
    Follow(tree, was, heap.pagemap, pages);
  }

  method SearchInTree(heap: PageHeap, tree: PageMap3, n: nat) returns (r: Option<SpanId>)
    requires Linked(heap, tree) && n > 0
    modifies heap, tree.Leaves()
    ensures Linked(heap, tree)
    ensures r.None? ==>
              !HasFree(old(heap.spans), n) && heap.State() == old(heap.State()) && tree.View() == old(tree.View())
    ensures r.Some? ==> BestFit(old(heap.spans), r.value, n) && TookFrom(old(heap.State()), heap.State(), r.value, n)
  {
    hide Inv, View, Fill, Range, RadixTree.Flat, RadixTree.Ensured, Pointers, UsedSpans, BestFit, HasFree;
    ghost var h, pages, t := heap.State(), heap.owner.Keys, tree.View();
    var was := heap.pagemap;
    EntriesManaged(h);
    r := heap.SearchFreeAndLargeLists(n);
    assert tree.View() == t;
    if r.Some? {
      SpanManaged(h, r.value, h.spans[r.value].start, n);
      FillKeys(h.Pages(), h.spans[r.value].start, n, Used(r.value));
      StillReady(h, heap.State(), pages);
      Follow(tree, was, heap.pagemap, pages);
    }
  }

  /** What the system grants lies in the address space. */
  ghost predicate InAddressSpace(sys: SystemReply) {
    && (sys.first.Some? ==> sys.first.value.start + sys.first.value.pages <= MAX_VALID_PAGES)
    && (sys.second.Some? ==> sys.second.value.start + sys.second.value.pages <= MAX_VALID_PAGES)
  }

  /** A leaf or node for the run, or the pages on either side of it, cannot be had. */
  ghost predicate NoLeaves(tree: PageMap3, g: Grant, grantNode: nat -> bool, grantLeaf: nat -> bool)
    requires tree.Valid() && g.start >= 1
    reads tree.root, tree.Nodes(), tree.Leaves()
  {
    RadixTree.Refused(tree.View(), tree.leafLength, g.start - 1, g.pages + 2,
                      Granted(tree.Present(), tree.interior, grantNode, grantLeaf))
  }

  /** Gives the tree leaves for a run of pages and the ones on either side. */
  method EnsureRun(tree: PageMap3, g: Grant, grantNode: nat -> bool, grantLeaf: nat -> bool, ghost m: map<nat, SpanId>,
                   ghost pages: set<nat>)
    returns (ok: bool)
    requires Mirrors(tree, m) && Ready(tree, pages) && tree.size < RadixTree.WORDS
    requires g.start >= 1 && g.pages >= 1 && g.start + g.pages <= MAX_VALID_PAGES
    modifies tree.root, tree.Nodes()
    ensures Mirrors(tree, m) && Ready(tree, pages) && (ok ==> Ready(tree, Range(g.start, g.pages)))
    ensures fresh(tree.Nodes() - old(tree.Nodes())) && fresh(tree.Leaves() - old(tree.Leaves()))
    ensures ok <==> !old(NoLeaves(tree, g, grantNode, grantLeaf))
  {
    hide RadixTree.Flat, RadixTree.Ensured, Pointers, RadixTree.EnsureResult, RadixTree.Refused, Granted, Range;
    ghost var t, grant := tree.View(), Granted(tree.Present(), tree.interior, grantNode, grantLeaf);
    ok := tree.Ensure(g.start - 1, g.pages + 2, grantNode, grantLeaf);
    Widened(t, tree.View(), tree.leafLength, g, grant, ok, pages);
  }

  /** Grows the heap, when it is known whether there are leaves for the run obtained. */
  method TakeIn(heap: PageHeap, tree: PageMap3, n: nat, sys: SystemReply, rate: real) returns (ok: bool)
    requires Linked(heap, tree) && n > 0 && Possible(heap.State(), n, sys)
    requires sys.mapped ==>
               Obtained(n, sys).Some? && Ready(tree, Range(Obtained(n, sys).value.start, Obtained(n, sys).value.pages))
    modifies heap, tree.Leaves()
    ensures Linked(heap, tree) && tree.Leaves() == old(tree.Leaves())
    ensures UsedSpans(heap.spans) == UsedSpans(old(heap.spans)) && FreeKept(old(heap.spans), heap.spans)
    ensures ok <==> sys.mapped
    ensures !ok ==> heap.State() == Refused(old(heap.State()), n, sys)
    ensures ok ==>
              && var g := Obtained(n, sys).value;
              && HasFree(heap.spans, n) && heap.systemBytes == old(heap.systemBytes) + g.pages * PAGE_SIZE
              && Scavenged(old(heap.Pages()) + Fill(g.start, g.pages, Idle(Normal)), heap.Pages())
  {
    hide Inv, View, Fill, Range, RadixTree.Flat, RadixTree.Ensured, Pointers, UsedSpans, FreeKept, HasFree, Refused;
    hide Scavenged;
    hide Possible, Obtained;
    ghost var h, u := heap.State(), tree.View();
    ghost var g := Obtained(n, sys);
    ghost var pages := heap.owner.Keys + if sys.mapped then Range(g.value.start, g.value.pages) else {};
    var was := heap.pagemap;
    EntriesManaged(h);
    assert Ready(tree, pages);
    ok := heap.GrowHeap(n, sys, rate);
    assert tree.View() == u;
    if ok {
      FillKeys(h.Pages(), g.value.start, g.value.pages, Idle(Normal));
      ScavengedKeys(h.Pages() + Fill(g.value.start, g.value.pages, Idle(Normal)), heap.Pages());
    } else {
      RefusedPages(h, n, sys);
    }
    StillReady(h, heap.State(), pages);
    Follow(tree, was, heap.pagemap, pages);
  }

  /** Grows the heap; whether the run obtained can be taken in depends on the leaves for it. */
  method GrowInTree(heap: PageHeap, tree: PageMap3, n: nat, sys: SystemReply, grantNode: nat -> bool,
                    grantLeaf: nat -> bool, rate: real)
    returns (ok: bool)
    requires Linked(heap, tree) && tree.size < RadixTree.WORDS && n > 0 && Possible(heap.State(), n, sys)
    requires InAddressSpace(sys)
    modifies heap, tree.root, tree.Nodes(), tree.Leaves()
    ensures Linked(heap, tree)
    ensures fresh(tree.Nodes() - old(tree.Nodes())) && fresh(tree.Leaves() - old(tree.Leaves()))
    ensures UsedSpans(heap.spans) == UsedSpans(old(heap.spans)) && FreeKept(old(heap.spans), heap.spans)
    ensures ok <==> Obtained(n, sys).Some? && !old(NoLeaves(tree, Obtained(n, sys).value, grantNode, grantLeaf))
    ensures !ok ==> heap.State() == Refused(old(heap.State()), n, sys)
    ensures ok ==>
              && var g := Obtained(n, sys).value;
              && HasFree(heap.spans, n) && heap.systemBytes == old(heap.systemBytes) + g.pages * PAGE_SIZE
              && Scavenged(old(heap.Pages()) + Fill(g.start, g.pages, Idle(Normal)), heap.Pages())
  {
    hide Inv, View, Fill, Range, RadixTree.Flat, RadixTree.Ensured, Pointers, UsedSpans, FreeKept, HasFree, NoLeaves;
    var got, mapped := Obtained(n, sys), false;
    if got.Some? {
      mapped := EnsureRun(tree, got.value, grantNode, grantLeaf, heap.pagemap, heap.owner.Keys);
    }
    ok := TakeIn(heap, tree, n, sys.(mapped := mapped), rate);
  }

  lemma ScavengedKeys(v: map<nat, PageState>, w: map<nat, PageState>)
    requires Scavenged(v, w)
    ensures w.Keys == v.Keys
  {
  }

  lemma RefusedPages(h: Heap, n: nat, sys: SystemReply)
    ensures Refused(h, n, sys).Pages() == h.Pages()
  {
  }

  /** Leaves are only added, and if they could be, all pages of the run have one. */
  lemma Widened(t: RadixTree.Tree, u: RadixTree.Tree, leaf: nat, g: Grant, grant: nat -> bool, ok: bool,
                pages: set<nat>)
    requires g.start >= 1 && g.pages >= 1 && g.start + g.pages <= MAX_VALID_PAGES && RadixTree.Shaped(t, leaf)
    requires RadixTree.EnsureResult(t, u, leaf, g.start - 1, g.pages + 2, grant, ok)
    requires forall p | p in pages :: RadixTree.Ensured(t, leaf, p)
    ensures ok <==> !RadixTree.Refused(t, leaf, g.start - 1, g.pages + 2, grant)
    ensures forall p | p in pages :: RadixTree.Ensured(u, leaf, p)
    ensures ok ==> forall p | p in Range(g.start, g.pages) :: RadixTree.Ensured(u, leaf, p)
  {
    hide RadixTree.Refused, RadixTree.Ensured;
    forall p | p in pages ensures RadixTree.Ensured(u, leaf, p) { RadixTree.GrownSame(t, u, leaf, p); }
  }

  /** Allocates as the page heap does, with the page map in the tree. */
  method NewInTree(heap: PageHeap, tree: PageMap3, n: nat, sys: SystemReply, grantNode: nat -> bool,
                   grantLeaf: nat -> bool, rate: real)
    returns (r: Option<SpanId>)
    requires Linked(heap, tree) && tree.size < RadixTree.WORDS && n > 0 && Possible(heap.State(), n, sys)
    requires InAddressSpace(sys)
    modifies heap, tree.root, tree.Nodes(), tree.Leaves()
    ensures Linked(heap, tree)
    ensures r.Some? ==> r.value in heap.spans && heap.spans[r.value].length == n
    ensures r.Some? ==> UsedSpans(heap.spans) == UsedSpans(old(heap.spans))[r.value := heap.spans[r.value]]
    ensures r.Some? <==>
              || HasFree(old(heap.spans), n)
              || (Obtained(n, sys).Some? && !old(NoLeaves(tree, Obtained(n, sys).value, grantNode, grantLeaf)))
    ensures r.None? ==> heap.State() == Refused(old(heap.State()), n, sys)
  {
    hide Inv, View, Fill, Range, RadixTree.Flat, RadixTree.Ensured, Pointers, UsedSpans, FreeKept, BestFit, Scavenged;
    ghost var h := heap.State();
    r := SearchInTree(heap, tree, n);
    if r.Some? {
      BestHasFree(h.spans, r.value, n);
      return;
    }
    var ok := GrowInTree(heap, tree, n, sys, grantNode, grantLeaf, rate);
    if !ok {
      return None;
    }
    r := SearchInTree(heap, tree, n);
  }

  /** An empty heap and an empty tree. */
  method EmptyHeap(bits: nat) returns (heap: PageHeap, tree: PageMap3)
    requires bits >= 2
    ensures fresh(heap) && fresh(tree.root) && Linked(heap, tree) && heap.spans == map[]
  {
    heap := new PageHeap();
    tree := new PageMap3(bits);
    EmptyFlat(tree.View(), tree.leafLength);
    assert heap.owner.Keys == heap.Pages().Keys;
  }

  lemma EmptyFlat(t: RadixTree.Tree, leaf: nat)
    requires RadixTree.Shaped(t, leaf) && forall i | 0 <= i < |t| :: t[i] == []
    ensures RadixTree.Flat(t, leaf) == map[]
  {
    hide RadixTree.Capacity;
    forall k: nat ensures RadixTree.ValueAt(t, leaf, k) == 0 {}
  }
}
