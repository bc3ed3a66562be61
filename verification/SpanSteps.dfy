/** What each elementary rewrite of the span structure keeps: cutting a span in
    two, absorbing a neighbour, changing the label of a span, and moving a span
    on or off a free list. */
module SpanSteps {
  import opened Sequences
  import opened Spans

  /** Cutting: `id` keeps the first pages as `a`, the fresh span `rest` gets the others as `b`. */
  lemma CutTags(spans: map<SpanId, Span>, owner: map<nat, SpanId>, pagemap: map<nat, SpanId>, id: SpanId, rest: SpanId,
                a: Span, b: Span)
    requires WellFormed(spans) && Partition(spans, owner) && Tagged(spans, owner, pagemap)
    requires id in spans && rest !in spans && spans[id].sizeclass == 0
    requires a.start == spans[id].start && Adjacent(a, b) && a.length + b.length == spans[id].length
    requires a.length > 0 && b.length > 0 && a.sizeclass == 0 && b.sizeclass == 0
    ensures Tagged(spans[id := a][rest := b], owner + Fill(b.start, b.length, rest),
                   pagemap[b.start := rest][b.Last() := rest][a.Last() := id])
  {
    var s := spans[id := a][rest := b];
    var o := owner + Fill(b.start, b.length, rest);
    var t := pagemap[b.start := rest][b.Last() := rest][a.Last() := id];
    assert EndsTagged(spans, pagemap, id);
    assert spans[id].Has(b.start) && spans[id].Has(b.Last()) && spans[id].Has(a.Last());
    forall x | x in s ensures EndsTagged(s, t, x) {
      if x != id && x != rest {
        assert EndsTagged(spans, pagemap, x);
        assert spans[x].Has(spans[x].start) && spans[x].Has(spans[x].Last());
      }
    }
    forall x, p: nat | x in s && s[x].sizeclass != 0 && s[x].Has(p) ensures p in t && t[p] == x {
      assert spans[x].Has(p) && !spans[id].Has(p);
    }
    assert forall p | p in t :: p in o;
  }

  lemma CutPartition(spans: map<SpanId, Span>, owner: map<nat, SpanId>, id: SpanId, rest: SpanId, a: Span, b: Span)
    requires WellFormed(spans) && Partition(spans, owner)
    requires id in spans && rest !in spans
    requires a.start == spans[id].start && Adjacent(a, b) && a.length + b.length == spans[id].length
    ensures var s := spans[id := a][rest := b]; var o := owner + Fill(b.start, b.length, rest);
            Partition(s, o) && o.Keys == owner.Keys
  {
    var s := spans[id := a][rest := b];
    var o := owner + Fill(b.start, b.length, rest);
    forall p | p in o ensures p in owner && o[p] in s && s[o[p]].Has(p) {
      if Within(p, b.start, b.length) {
        assert spans[id].Has(p);
      } else {
        assert spans[owner[p]].Has(p);
      }
    }
    forall x, p: nat | x in s && s[x].Has(p) ensures p in o && o[p] == x {
      if x == rest {
        assert Within(p, b.start, b.length);
      } else {
        assert spans[x].Has(p);
        if Within(p, b.start, b.length) { assert spans[id].Has(p); }
      }
    }
  }

  /** Cutting is invisible to the count of pages outside the cut span. */
  lemma CutPages(spans: map<SpanId, Span>, owner: map<nat, SpanId>, id: SpanId, rest: SpanId, a: Span, b: Span,
                 loc: Location)
    requires Partition(spans, owner) && id in spans && rest !in spans
    requires a.start == spans[id].start && Adjacent(a, b) && a.length + b.length == spans[id].length
    ensures PagesAt(spans, owner, loc, {id}) ==
            PagesAt(spans[id := a][rest := b], owner + Fill(b.start, b.length, rest), loc, {id, rest})
  {
    forall p: nat | Within(p, b.start, b.length) ensures p in owner && owner[p] == id {
      assert spans[id].Has(p);
    }
  }

  lemma CutView(spans: map<SpanId, Span>, owner: map<nat, SpanId>, id: SpanId, rest: SpanId, a: Span, b: Span)
    requires Partition(spans, owner) && id in spans && rest !in spans && a.location == InUse
    requires a.start == spans[id].start && Adjacent(a, b) && a.length + b.length == spans[id].length
    ensures View(spans[id := a][rest := b], owner + Fill(b.start, b.length, rest)) ==
            View(spans, owner) + Fill(a.start, a.length, Used(id))
              + Fill(b.start, b.length, if b.Free() then Idle(b.location) else Used(rest))
  {
    forall p: nat
      ensures p in owner && owner[p] == id <==> Within(p, a.start, a.length) || Within(p, b.start, b.length)
    {
      assert spans[id].Has(p) <==> Within(p, a.start, a.length) || Within(p, b.start, b.length);
    }
  }

  function Merged(s: Span, victim: Span): Span {
    Span(if s.start < victim.start then s.start else victim.start, s.length + victim.length, s.location, s.sizeclass)
  }

  /** Absorbing: `id` takes over the pages of the free neighbour `victim`; only the outer tag moves. */
  lemma AbsorbTags(spans: map<SpanId, Span>, owner: map<nat, SpanId>, pagemap: map<nat, SpanId>, id: SpanId,
                   victim: SpanId, tag: nat)
    requires WellFormed(spans) && Partition(spans, owner) && Tagged(spans, owner, pagemap)
    requires id in spans && victim in spans && id != victim && spans[id].sizeclass == 0
    requires || (Adjacent(spans[victim], spans[id]) && tag == spans[victim].start)
             || (Adjacent(spans[id], spans[victim]) && tag == spans[victim].Last())
    ensures Tagged((spans - {victim})[id := Merged(spans[id], spans[victim])],
                   owner + Fill(spans[victim].start, spans[victim].length, id), pagemap[tag := id])
  {
    var s := (spans - {victim})[id := Merged(spans[id], spans[victim])];
    var o := owner + Fill(spans[victim].start, spans[victim].length, id);
    var t := pagemap[tag := id];
    assert EndsTagged(spans, pagemap, id) && EndsTagged(spans, pagemap, victim);
    assert spans[victim].Has(tag);
    forall x | x in s ensures EndsTagged(s, t, x) {
      assert EndsTagged(spans, pagemap, x);
      if x != id {
        assert spans[x].Has(spans[x].start) && spans[x].Has(spans[x].Last());
      }
    }
    forall x, p: nat | x in s && s[x].sizeclass != 0 && s[x].Has(p) ensures p in t && t[p] == x {
      assert spans[x].Has(p);
    }
    assert forall p | p in t :: p in o;
  }

  /** Absorbing changes neither the page-by-page picture nor the pages counted elsewhere. */
  lemma AbsorbView(spans: map<SpanId, Span>, owner: map<nat, SpanId>, id: SpanId, victim: SpanId, loc: Location)
    requires Partition(spans, owner)
    requires id in spans && victim in spans && id != victim
    requires spans[id].Free() && spans[victim].location == spans[id].location
    ensures var s := (spans - {victim})[id := Merged(spans[id], spans[victim])];
            var o := owner + Fill(spans[victim].start, spans[victim].length, id);
            && View(s, o) == View(spans, owner) && UsedSpans(s) == UsedSpans(spans)
            && PagesAt(s, o, loc, {id}) == PagesAt(spans, owner, loc, {id, victim})
  {
    var v := spans[victim];
    var s := (spans - {victim})[id := Merged(spans[id], v)];
    var o := owner + Fill(v.start, v.length, id);
    forall p: nat ensures Within(p, v.start, v.length) <==> p in owner && owner[p] == victim {
      assert v.Has(p) <==> Within(p, v.start, v.length);
    }
    assert View(s, o) == View(spans, owner);
  }

  lemma AbsorbPartition(spans: map<SpanId, Span>, owner: map<nat, SpanId>, id: SpanId, victim: SpanId)
    requires WellFormed(spans) && Partition(spans, owner)
    requires id in spans && victim in spans && id != victim
    requires Adjacent(spans[victim], spans[id]) || Adjacent(spans[id], spans[victim])
    ensures var s := (spans - {victim})[id := Merged(spans[id], spans[victim])];
            var o := owner + Fill(spans[victim].start, spans[victim].length, id);
            Partition(s, o) && o.Keys == owner.Keys
  {
    var v := spans[victim];
    var s := (spans - {victim})[id := Merged(spans[id], v)];
    var o := owner + Fill(v.start, v.length, id);
    forall p | p in o ensures p in owner && o[p] in s && s[o[p]].Has(p) {
      if Within(p, v.start, v.length) {
        assert v.Has(p);
      } else {
        assert spans[owner[p]].Has(p);
      }
    }
    forall x, p: nat | x in s && s[x].Has(p) ensures p in o && o[p] == x {
      assert v.Has(p) <==> Within(p, v.start, v.length);
      if x == id {
        assert spans[id].Has(p) || v.Has(p);
      } else {
        assert spans[x].Has(p);
      }
    }
  }

  /** Changing location or size class of one span moves no page. */
  lemma RelabelPartition(spans: map<SpanId, Span>, owner: map<nat, SpanId>, id: SpanId, s: Span)
    requires Partition(spans, owner)
    requires id in spans && s.start == spans[id].start && s.length == spans[id].length
    ensures Partition(spans[id := s], owner)
  {
    forall x, p: nat | x in spans && spans[id := s][x].Has(p) ensures p in owner && owner[p] == x {
      assert spans[x].Has(p);
    }
  }

  lemma RelabelTags(spans: map<SpanId, Span>, owner: map<nat, SpanId>, pagemap: map<nat, SpanId>, id: SpanId, s: Span)
    requires Tagged(spans, owner, pagemap)
    requires id in spans && s.start == spans[id].start && s.length == spans[id].length && s.sizeclass == 0
    ensures Tagged(spans[id := s], owner, pagemap)
  {
    var n := spans[id := s];
    forall x | x in n ensures EndsTagged(n, pagemap, x) { assert EndsTagged(spans, pagemap, x); }
    forall x, p: nat | x in n && n[x].sizeclass != 0 && n[x].Has(p) ensures p in pagemap && pagemap[p] == x {
      assert spans[x].Has(p);
    }
  }

  /** Unlisting a span that is then out of account. */
  lemma UnlistKeeps(spans: map<SpanId, Span>, lists: seq<seq<SpanId>>, loc: Location, ex: set<SpanId>, id: SpanId)
    requires Listed(spans, lists, loc, ex) && id in spans && spans[id].location == loc
    ensures var i := ListIndex(spans[id].length);
            Listed(spans, lists[i := Without(lists[i], id)], loc, ex + {id})
  {
    WithoutKeeps(lists[ListIndex(spans[id].length)], id);
  }

  /** Listing, at the front, a span that was out of account. */
  lemma PrependKeeps(spans: map<SpanId, Span>, lists: seq<seq<SpanId>>, loc: Location, ex: set<SpanId>, id: SpanId)
    requires Listed(spans, lists, loc, ex) && id in ex && id in spans && spans[id].location == loc
    ensures var i := ListIndex(spans[id].length);
            Listed(spans, lists[i := [id] + lists[i]], loc, ex - {id})
  {
    var i := ListIndex(spans[id].length);
    var n := lists[i := [id] + lists[i]];
    assert Distinct(n[i]);
  }

  /** The lists of a location do not see spans elsewhere, nor spans out of account. */
  lemma ListedElsewhere(s1: map<SpanId, Span>, s2: map<SpanId, Span>, lists: seq<seq<SpanId>>, loc: Location,
                        e1: set<SpanId>, e2: set<SpanId>)
    requires Listed(s1, lists, loc, e1)
    requires forall x ::
               (x in s1 && x !in e1 && s1[x].location == loc) <==> (x in s2 && x !in e2 && s2[x].location == loc)
    requires forall x | x in s1 && x !in e1 && s1[x].location == loc :: s2[x].length == s1[x].length
    ensures Listed(s2, lists, loc, e2)
  {
  }
}
