/** Spans, page ownership, boundary tags and free lists as values.

    A span is a contiguous run of pages.  `spans` maps the identity of a span
    (its descriptor) to its fields, `owner` is the true owner of every managed
    page, and `pagemap` is what the allocator really stores: correct at span
    boundaries, possibly stale inside.  Every predicate takes a set `ex` of
    spans that are between two lists, so that it can be stated in the middle of
    an operation. */
module Spans {
  import opened Sequences

  const MAX_PAGES := 128

  type SpanId = nat

  datatype Location = InUse | Normal | Returned

  datatype Span = Span(start: nat, length: nat, location: Location, sizeclass: nat) {
    predicate Has(p: nat) { start <= p < start + length }

    function Last(): nat { if length == 0 then start else start + length - 1 }

    predicate Free() { location != InUse }
  }

  /** What a page is used for, whichever span holds it when it is free. */
  datatype PageState = Used(id: SpanId) | Idle(location: Location)

  predicate Within(p: nat, s: nat, n: nat) { s <= p < s + n }

  function Range(s: nat, n: nat): (r: set<nat>) {
    set p: nat | s <= p < s + n && Within(p, s, n)
  }

  function Fill<V>(s: nat, n: nat, v: V): (r: map<nat, V>) {
    map p: nat | s <= p < s + n && Within(p, s, n) :: v
  }

  /** The list a free span belongs to: an exact-length list, or the large one. */
  function ListIndex(length: nat): (i: nat) {
    if length < MAX_PAGES then length else MAX_PAGES
  }

  ghost predicate WellFormed(spans: map<SpanId, Span>) {
    forall id | id in spans ::
      spans[id].start >= 1 && spans[id].length >= 1 && (spans[id].Free() ==> spans[id].sizeclass == 0)
  }

  /** The spans partition the managed pages. */
  ghost predicate Partition(spans: map<SpanId, Span>, owner: map<nat, SpanId>) {
    && (forall p {:trigger owner[p]} | p in owner :: owner[p] in spans && spans[owner[p]].Has(p))
    && (forall id, p {:trigger spans[id].Has(p)} | id in spans && spans[id].Has(p) :: p in owner && owner[p] == id)
  }

  ghost predicate EndsTagged(spans: map<SpanId, Span>, pagemap: map<nat, SpanId>, id: SpanId)
    requires id in spans
  {
    && spans[id].start in pagemap && pagemap[spans[id].start] == id
    && spans[id].Last() in pagemap && pagemap[spans[id].Last()] == id
  }

  /** Both ends of every span, and every page of a small-object span, are tagged with it. */
  ghost predicate Tagged(spans: map<SpanId, Span>, owner: map<nat, SpanId>, pagemap: map<nat, SpanId>) {
    && (forall p | p in pagemap :: p in owner)
    && (forall id {:trigger EndsTagged(spans, pagemap, id)} | id in spans :: EndsTagged(spans, pagemap, id))
    && (forall id, p {:trigger spans[id].Has(p)} | id in spans && spans[id].sizeclass != 0 && spans[id].Has(p) ::
          p in pagemap && pagemap[p] == id)
  }

  predicate Adjacent(a: Span, b: Span) { a.start + a.length == b.start }

  /** No two neighbouring free spans share a location. */
  ghost predicate Coalesced(spans: map<SpanId, Span>, ex: set<SpanId>) {
    forall a, b {:trigger Adjacent(spans[a], spans[b])} | a in spans && b in spans && a !in ex && b !in ex
        && Adjacent(spans[a], spans[b]) ::
      spans[a].Free() ==> spans[a].location != spans[b].location
  }

  /** Exactly the free spans of location `loc` are listed, each once, on the list for its length. */
  ghost predicate Listed(spans: map<SpanId, Span>, lists: seq<seq<SpanId>>, loc: Location, ex: set<SpanId>) {
    && |lists| == MAX_PAGES + 1
    && (forall i | 0 <= i <= MAX_PAGES :: Distinct(lists[i]))
    && (forall i, id | 0 <= i <= MAX_PAGES && id in lists[i] ::
          id in spans && id !in ex && spans[id].location == loc && ListIndex(spans[id].length) == i)
    && (forall id | id in spans && id !in ex && spans[id].location == loc ::
          id in lists[ListIndex(spans[id].length)])
  }

  ghost function PagesAt(spans: map<SpanId, Span>, owner: map<nat, SpanId>, loc: Location, ex: set<SpanId>): set<nat> {
    set p | p in owner && owner[p] in spans && owner[p] !in ex && spans[owner[p]].location == loc
  }

  ghost function StateAt(spans: map<SpanId, Span>, id: SpanId): PageState {
    if id in spans && spans[id].Free() then Idle(spans[id].location) else Used(id)
  }

  /** The flat page-by-page picture that the span structure stands for. */
  ghost function View(spans: map<SpanId, Span>, owner: map<nat, SpanId>): map<nat, PageState> {
    map p | p in owner :: StateAt(spans, owner[p])
  }

  ghost function UsedSpans(spans: map<SpanId, Span>): map<SpanId, Span> {
    map id | id in spans && spans[id].location == InUse :: spans[id]
  }

  ghost predicate HasFree(spans: map<SpanId, Span>, n: nat) {
    exists id :: id in spans && spans[id].Free() && spans[id].length >= n
  }

  ghost function IdleAt(v: map<nat, PageState>, loc: Location): set<nat> {
    set p | p in v && v[p] == Idle(loc)
  }

  /** Some idle pages of `v` were given back to the system, and nothing else changed. */
  ghost predicate Scavenged(v: map<nat, PageState>, w: map<nat, PageState>) {
    && w.Keys == v.Keys
    && forall p | p in v :: w[p] == v[p] || (v[p] == Idle(Normal) && w[p] == Idle(Returned))
  }

  ghost predicate FreeKept(s: map<SpanId, Span>, t: map<SpanId, Span>) {
    forall n: nat | HasFree(s, n) :: HasFree(t, n)
  }

  lemma {:induction false} RangeSize(s: nat, n: nat)
    ensures |Range(s, n)| == n
  {
    if n == 0 {
      assert Range(s, n) == {};
    } else {
      RangeSize(s, n - 1);
      assert Range(s, n) == Range(s, n - 1) + {s + n - 1};
    }
  }

  /** Taking one span out of account takes exactly its pages out of its location's count. */
  lemma ExcludePages(spans: map<SpanId, Span>, owner: map<nat, SpanId>, loc: Location, ex: set<SpanId>, id: SpanId)
    requires Partition(spans, owner) && id in spans && id !in ex
    ensures |PagesAt(spans, owner, loc, ex)| ==
            |PagesAt(spans, owner, loc, ex + {id})| + (if spans[id].location == loc then spans[id].length else 0)
  {
    var all, rest := PagesAt(spans, owner, loc, ex), PagesAt(spans, owner, loc, ex + {id});
    var s, n := spans[id].start, spans[id].length;
    RangeSize(s, n);
    forall p: nat ensures p in Range(s, n) <==> p in owner && owner[p] == id {
      assert Within(p, s, n) <==> spans[id].Has(p);
    }
    if spans[id].location == loc {
      assert all == rest + Range(s, n);
      assert rest !! Range(s, n);
    } else {
      assert all == rest;
    }
  }

  /** No span is longer than the managed address space. */
  lemma LengthBound(spans: map<SpanId, Span>, owner: map<nat, SpanId>, id: SpanId)
    requires Partition(spans, owner) && id in spans
    ensures spans[id].length <= |owner|
  {
    RangeSize(spans[id].start, spans[id].length);
    assert forall p | p in Range(spans[id].start, spans[id].length) :: spans[id].Has(p);
    assert Range(spans[id].start, spans[id].length) <= owner.Keys;
    SubsetSize(Range(spans[id].start, spans[id].length), owner.Keys);
  }

  /** The tag just before a span is that of the span ending there, if there is one. */
  lemma LeftNeighbour(spans: map<SpanId, Span>, owner: map<nat, SpanId>, pagemap: map<nat, SpanId>, id: SpanId,
                      a: SpanId)
    requires WellFormed(spans) && Partition(spans, owner) && Tagged(spans, owner, pagemap) && id in spans
    ensures var p := spans[id].start - 1;
            p in pagemap ==> pagemap[p] in spans && Adjacent(spans[pagemap[p]], spans[id])
    ensures a in spans && Adjacent(spans[a], spans[id]) ==>
              spans[id].start - 1 in pagemap && pagemap[spans[id].start - 1] == a
  {
    var p := spans[id].start - 1;
    assert a in spans ==> EndsTagged(spans, pagemap, a);
    if p in pagemap {
      var b := owner[p];
      assert spans[id].Has(p + 1);
      assert !spans[b].Has(p + 1);
      assert EndsTagged(spans, pagemap, b);
    }
  }

  /** The tag just after a span is that of the span starting there, if there is one. */
  lemma RightNeighbour(spans: map<SpanId, Span>, owner: map<nat, SpanId>, pagemap: map<nat, SpanId>, id: SpanId,
                       a: SpanId)
    requires WellFormed(spans) && Partition(spans, owner) && Tagged(spans, owner, pagemap) && id in spans
    ensures var q := spans[id].start + spans[id].length;
            q in pagemap ==> pagemap[q] in spans && Adjacent(spans[id], spans[pagemap[q]])
    ensures a in spans && Adjacent(spans[id], spans[a]) ==>
              spans[a].start in pagemap && pagemap[spans[a].start] == a
  {
    var q := spans[id].start + spans[id].length;
    assert a in spans ==> EndsTagged(spans, pagemap, a);
    if q in pagemap {
      var b := owner[q];
      assert spans[id].Has(q - 1);
      assert !spans[b].Has(q - 1);
      assert EndsTagged(spans, pagemap, b);
    }
  }

  /** Two coalesced heaps with the same page-by-page picture and the same spans in use have the
      same free spans: the free lists hold the only maximal decomposition of the free pages. */
  lemma CanonicalForm(s1: map<SpanId, Span>, o1: map<nat, SpanId>, s2: map<SpanId, Span>, o2: map<nat, SpanId>,
                      a: SpanId)
    requires WellFormed(s1) && Partition(s1, o1) && Coalesced(s1, {})
    requires WellFormed(s2) && Partition(s2, o2) && Coalesced(s2, {})
    requires View(s1, o1) == View(s2, o2)
    requires a in s1 && s1[a].Free()
    ensures exists b :: b in s2 && s2[b] == s1[a]
  {
    var s := s1[a];
    assert s.Has(s.start) && s.Has(s.Last());
    assert forall p | s.Has(p) :: p in View(s1, o1) && View(s1, o1)[p] == Idle(s.location);
    var b := o2[s.start];
    SameStart(s1, o1, s2, o2, a, b);
    SameLast(s1, o1, s2, o2, a, b);
    assert s2[b] == s;
  }

  /** The page before a free span is not in a span with the same location, */
  lemma OtherBefore(s: map<SpanId, Span>, o: map<nat, SpanId>, a: SpanId, c: SpanId)
    requires WellFormed(s) && Partition(s, o) && Coalesced(s, {})
    requires a in s && s[a].Free() && s[a].start > 0 && c in s && s[c].Has(s[a].start - 1)
    ensures s[c].location != s[a].location
  {
    assert s[a].Has(s[a].start);
    assert s[c].Has(s[a].start) || Adjacent(s[c], s[a]);
  }

  /** and neither is the page behind it. */
  lemma OtherBehind(s: map<SpanId, Span>, o: map<nat, SpanId>, a: SpanId, c: SpanId)
    requires WellFormed(s) && Partition(s, o) && Coalesced(s, {})
    requires a in s && s[a].Free() && c in s && s[c].Has(s[a].start + s[a].length)
    ensures s[c].location != s[a].location
  {
    assert s[a].Has(s[a].start + s[a].length - 1);
    assert s[c].Has(s[a].start + s[a].length - 1) || Adjacent(s[a], s[c]);
  }

  lemma SameStart(s1: map<SpanId, Span>, o1: map<nat, SpanId>, s2: map<SpanId, Span>, o2: map<nat, SpanId>, a: SpanId,
                  b: SpanId)
    requires WellFormed(s1) && Partition(s1, o1) && Coalesced(s1, {})
    requires WellFormed(s2) && Partition(s2, o2) && Coalesced(s2, {})
    requires View(s1, o1) == View(s2, o2)
    requires a in s1 && s1[a].Free()
    requires b in s2 && s2[b].Has(s1[a].start)
    ensures s2[b].start == s1[a].start && s2[b].location == s1[a].location
  {
    var p := s1[a].start;
    assert s1[a].Has(p);
    assert View(s1, o1)[p] == View(s2, o2)[p];
    if s2[b].start < p {
      assert s2[b].Has(p - 1);
      assert p - 1 in View(s2, o2);
      assert View(s1, o1)[p - 1] == View(s2, o2)[p - 1];
      OtherBefore(s1, o1, a, o1[p - 1]);
    }
  }

  lemma SameLast(s1: map<SpanId, Span>, o1: map<nat, SpanId>, s2: map<SpanId, Span>, o2: map<nat, SpanId>, a: SpanId,
                 b: SpanId)
    requires WellFormed(s1) && Partition(s1, o1) && Coalesced(s1, {})
    requires WellFormed(s2) && Partition(s2, o2) && Coalesced(s2, {})
    requires View(s1, o1) == View(s2, o2)
    requires a in s1 && s1[a].Free()
    requires b in s2 && s2[b].start == s1[a].start && s2[b].location == s1[a].location
    ensures s2[b].length == s1[a].length
  {
    if s1[a].length < s2[b].length {
      NotLonger(s1, o1, s2, o2, a, b);
    } else if s2[b].length < s1[a].length {
      NotLonger(s2, o2, s1, o1, b, a);
    }
  }

  lemma NotLonger(s1: map<SpanId, Span>, o1: map<nat, SpanId>, s2: map<SpanId, Span>, o2: map<nat, SpanId>, a: SpanId,
                  b: SpanId)
    requires WellFormed(s1) && Partition(s1, o1) && Coalesced(s1, {})
    requires WellFormed(s2) && Partition(s2, o2)
    requires View(s1, o1) == View(s2, o2)
    requires a in s1 && s1[a].Free()
    requires b in s2 && s2[b].start == s1[a].start && s2[b].location == s1[a].location
    ensures s2[b].length <= s1[a].length
  {
    if s1[a].length < s2[b].length {
      var q := s1[a].start + s1[a].length;
      assert s2[b].Has(q) && s1[a].Has(q - 1);
      assert q in View(s2, o2);
      assert View(s1, o1)[q] == View(s2, o2)[q];
      OtherBehind(s1, o1, a, o1[q]);
    }
  }

  /** The pages counted at a location are those the picture shows idle there. */
  lemma PagesInView(spans: map<SpanId, Span>, owner: map<nat, SpanId>, loc: Location)
    requires Partition(spans, owner) && loc != InUse
    ensures PagesAt(spans, owner, loc, {}) == IdleAt(View(spans, owner), loc)
  {
  }

  /** Giving back a run of idle pages moves exactly that many pages between the two counts. */
  lemma GiveBackCounts(v: map<nat, PageState>, s: nat, n: nat)
    requires forall p: nat | Within(p, s, n) :: p in v && v[p] == Idle(Normal)
    ensures var w := v + Fill(s, n, Idle(Returned));
            && |IdleAt(w, Normal)| == |IdleAt(v, Normal)| - n
            && |IdleAt(w, Returned)| == |IdleAt(v, Returned)| + n
            && Scavenged(v, w)
  {
    var w := v + Fill(s, n, Idle(Returned));
    RangeSize(s, n);
    assert IdleAt(v, Normal) == IdleAt(w, Normal) + Range(s, n) && IdleAt(w, Normal) !! Range(s, n);
    assert IdleAt(w, Returned) == IdleAt(v, Returned) + Range(s, n) && IdleAt(v, Returned) !! Range(s, n);
  }
}
