/** Merging a span with its free neighbours, found through the boundary tags. */
module Coalescing {
  import opened Spans
  import opened SpanSteps
  import opened Heaps

  /** Takes the free neighbour `victim` off its list and gives its pages to `id`. */
  function Absorbed(h: Heap, id: SpanId, victim: SpanId, tag: nat): Heap
    requires id in h.spans && victim in h.spans && |h.normal| == |h.returned| == MAX_PAGES + 1
  {
    var v := h.spans[victim];
    Unlist(h, victim).(spans := (h.spans - {victim})[id := Merged(h.spans[id], v)],
                       owner := h.owner + Fill(v.start, v.length, id),
                       pagemap := h.pagemap[tag := id])
  }

  ghost predicate Twins(h: Heap, id: SpanId, victim: SpanId, tag: nat) {
    && id in h.spans && victim in h.spans && id != victim && h.spans[id].Free()
    && h.spans[victim].location == h.spans[id].location
    && (|| (Adjacent(h.spans[victim], h.spans[id]) && tag == h.spans[victim].start)
        || (Adjacent(h.spans[id], h.spans[victim]) && tag == h.spans[victim].Last()))
  }

  lemma AbsorbKeepsInv(h: Heap, id: SpanId, victim: SpanId, tag: nat)
    requires Inv(h, {id}) && Twins(h, id, victim, tag)
    ensures var a := Absorbed(h, id, victim, tag);
            Inv(a, {id}) && a.Pages() == h.Pages() && UsedSpans(a.spans) == UsedSpans(h.spans)
  {
    hide WellFormed, Partition, Tagged, PagesAt, Listed, View, UsedSpans, Coalesced, StateAt;
    FreeBasics(h, {id}, id);
    var u, a := Unlist(h, victim), Absorbed(h, id, victim, tag);
    UnlistKeepsInv(h, {id}, victim);
    assert {id} + {victim} == {id, victim};
    AbsorbShape(u, id, victim, tag);
    AbsorbView(h.spans, h.owner, id, victim, Normal);
    AbsorbView(h.spans, h.owner, id, victim, Returned);
    ListedElsewhere(u.spans, a.spans, a.normal, Normal, {id, victim}, {id});
    ListedElsewhere(u.spans, a.spans, a.returned, Returned, {id, victim}, {id});
    AbsorbCoalesced(h, id, victim, tag);
  }

  lemma AbsorbShape(h: Heap, id: SpanId, victim: SpanId, tag: nat)
    requires Shape(h) && Conserved(h) && Twins(h, id, victim, tag)
    ensures var v := h.spans[victim];
            var a := h.(spans := (h.spans - {victim})[id := Merged(h.spans[id], v)],
                        owner := h.owner + Fill(v.start, v.length, id), pagemap := h.pagemap[tag := id]);
            Shape(a) && Conserved(a)
  {
    hide Partition, Tagged;
    AbsorbPartition(h.spans, h.owner, id, victim);
    AbsorbTags(h.spans, h.owner, h.pagemap, id, victim, tag);
    SameSize(h.owner, h.owner + Fill(h.spans[victim].start, h.spans[victim].length, id));
  }

  lemma AbsorbCoalesced(h: Heap, id: SpanId, victim: SpanId, tag: nat)
    requires Coalesced(h.spans, {id}) && id in h.spans && victim in h.spans
    ensures Coalesced((h.spans - {victim})[id := Merged(h.spans[id], h.spans[victim])], {id})
  {
    var s := (h.spans - {victim})[id := Merged(h.spans[id], h.spans[victim])];
    forall x, y | x in s && y in s && x != id && y != id && Adjacent(s[x], s[y])
      ensures s[x].Free() ==> s[x].location != s[y].location
    {
      assert Adjacent(h.spans[x], h.spans[y]);
    }
  }

  ghost predicate LeftApart(spans: map<SpanId, Span>, id: SpanId)
    requires id in spans
  {
    forall a {:trigger Adjacent(spans[a], spans[id])} | a in spans && Adjacent(spans[a], spans[id]) ::
      spans[a].location != spans[id].location
  }

  ghost predicate RightApart(spans: map<SpanId, Span>, id: SpanId)
    requires id in spans
  {
    forall a {:trigger Adjacent(spans[id], spans[a])} | a in spans && Adjacent(spans[id], spans[a]) ::
      spans[a].location != spans[id].location
  }

  /** After taking in the span before it, `id` has no like neighbour on the left. */
  lemma AbsorbLeftApart(h: Heap, id: SpanId, victim: SpanId)
    requires Coalesced(h.spans, {id}) && victim in h.spans && Twins(h, id, victim, h.spans[victim].start)
    requires Adjacent(h.spans[victim], h.spans[id])
    requires WellFormed(h.spans)
    ensures LeftApart((h.spans - {victim})[id := Merged(h.spans[id], h.spans[victim])], id)
  {
    var s := (h.spans - {victim})[id := Merged(h.spans[id], h.spans[victim])];
    forall a | a in s && Adjacent(s[a], s[id]) ensures s[a].location != s[id].location {
      assert Adjacent(h.spans[a], h.spans[victim]);
    }
  }

  /** After taking in the span after it, `id` has no like neighbour on the right, nor a new one on the left. */
  lemma AbsorbRightApart(h: Heap, id: SpanId, victim: SpanId)
    requires Coalesced(h.spans, {id}) && victim in h.spans && Twins(h, id, victim, h.spans[victim].Last())
    requires Adjacent(h.spans[id], h.spans[victim])
    requires WellFormed(h.spans) && LeftApart(h.spans, id)
    ensures var s := (h.spans - {victim})[id := Merged(h.spans[id], h.spans[victim])];
            RightApart(s, id) && LeftApart(s, id)
  {
    var s := (h.spans - {victim})[id := Merged(h.spans[id], h.spans[victim])];
    forall a | a in s && Adjacent(s[id], s[a]) ensures s[a].location != s[id].location {
      assert Adjacent(h.spans[victim], h.spans[a]);
    }
    forall a | a in s && Adjacent(s[a], s[id]) ensures s[a].location != s[id].location {
      assert Adjacent(h.spans[a], h.spans[id]);
    }
  }

  lemma ApartCoalesced(spans: map<SpanId, Span>, id: SpanId)
    requires Coalesced(spans, {id}) && id in spans && LeftApart(spans, id) && RightApart(spans, id)
    ensures Coalesced(spans, {})
  {
  }

  /** Absorbing never takes away a free span of a given size. */
  lemma AbsorbHasFree(spans: map<SpanId, Span>, id: SpanId, victim: SpanId, n: nat)
    requires id in spans && victim in spans && id != victim && spans[id].Free() && HasFree(spans, n)
    ensures HasFree((spans - {victim})[id := Merged(spans[id], spans[victim])], n)
  {
    var s := (spans - {victim})[id := Merged(spans[id], spans[victim])];
    var x :| x in spans && spans[x].Free() && spans[x].length >= n;
    var y := if x == victim then id else x;
    assert y in s && s[y].Free() && s[y].length >= n;
  }

  /** What looking at the tag on the left tells about the neighbour there. */
  lemma LookLeft(h: Heap, id: SpanId)
    requires Shape(h) && id in h.spans
    ensures h.spans[id].start >= 1
    ensures var p := h.spans[id].start - 1;
            p in h.pagemap ==> var a := h.pagemap[p]; a in h.spans && a != id && Adjacent(h.spans[a], h.spans[id])
    ensures var p := h.spans[id].start - 1;
            (p in h.pagemap ==> h.pagemap[p] in h.spans && h.spans[h.pagemap[p]].location != h.spans[id].location)
              ==> LeftApart(h.spans, id)
  {
    hide Partition, Tagged;
    LeftNeighbour(h.spans, h.owner, h.pagemap, id, id);
    forall a | a in h.spans && Adjacent(h.spans[a], h.spans[id])
      ensures h.spans[id].start - 1 in h.pagemap && h.pagemap[h.spans[id].start - 1] == a
    {
      LeftNeighbour(h.spans, h.owner, h.pagemap, id, a);
    }
  }

  /** What looking at the tag on the right tells about the neighbour there. */
  lemma LookRight(h: Heap, id: SpanId)
    requires Shape(h) && id in h.spans
    ensures var q := h.spans[id].start + h.spans[id].length;
            q in h.pagemap ==> var a := h.pagemap[q]; a in h.spans && a != id && Adjacent(h.spans[id], h.spans[a])
    ensures var q := h.spans[id].start + h.spans[id].length;
            (q in h.pagemap ==> h.pagemap[q] in h.spans && h.spans[h.pagemap[q]].location != h.spans[id].location)
              ==> RightApart(h.spans, id)
  {
    hide Partition, Tagged;
    RightNeighbour(h.spans, h.owner, h.pagemap, id, id);
    forall a | a in h.spans && Adjacent(h.spans[id], h.spans[a])
      ensures h.spans[a].start in h.pagemap && h.pagemap[h.spans[a].start] == a
    {
      RightNeighbour(h.spans, h.owner, h.pagemap, id, a);
    }
  }
}
