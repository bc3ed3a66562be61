/** Steps of the central free lists that move objects in and out of spans, and spans on and off the lists. */
module CentralSpans {
  import opened Wrappers
  import opened Sequences
  import opened CentralFreeList
  import opened CentralInvariant
  import opened CentralSteps
  import opened CentralMoves

  ghost function ToSet(s: seq<Obj>): set<Obj> { set o | o in s }

  lemma {:induction false} DistinctSize(s: seq<Obj>)
    requires Distinct(s)
    ensures |ToSet(s)| == |s|
  {
    if s != [] {
      var r := s[1..];
      assert s == [s[0]] + r;
      TailDistinct(s[0], r);
      DistinctSize(r);
      assert ToSet(s) == ToSet(r) + {s[0]};
    }
  }

  ghost function AllOf(id: SpanId, n: nat): set<Obj> {
    set k: nat | k < n :: Obj(id, k)
  }

  lemma {:induction false} AllOfSize(id: SpanId, n: nat)
    ensures |AllOf(id, n)| == n
  {
    if n == 0 {
      assert AllOf(id, n) == {};
    } else {
      AllOfSize(id, n - 1);
      assert AllOf(id, n) == AllOf(id, n - 1) + {Obj(id, n - 1)};
    }
  }

  /** The objects of a span that are not on its free list. */
  ghost function InUse(s: State, id: SpanId): set<Obj> {
    set o | o in s.loc && o.id == id && s.loc[o] != InSpan
  }

  /** A span counts exactly its objects that are elsewhere. */
  lemma RefcountIsInUse(g: Config, s: State, id: SpanId)
    requires Existing(g, s) && FreePlaces(s) && Refcounts(g, s) && id in s.spans
    ensures s.spans[id].refcount == |InUse(s, id)|
  {
    hide Distinct;
    var sp := s.spans[id];
    var n := g.capacity[sp.cl];
    AllOfSize(id, n);
    DistinctSize(sp.free);
    forall o ensures o in AllOf(id, n) <==> o in s.loc && o.id == id { assert o == Obj(o.id, o.k); }
    assert AllOf(id, n) == ToSet(sp.free) + InUse(s, id);
    assert ToSet(sp.free) !! InUse(s, id);
  }

  /** While an object of a span is elsewhere, the span counts it as in use; if it is the only one
      counted, all others are on the span's free list. */
  lemma InUseCounted(g: Config, s: State, o: Obj)
    requires Existing(g, s) && FreePlaces(s) && Refcounts(g, s) && o in s.loc && s.loc[o] != InSpan
    ensures s.spans[o.id].refcount >= 1
    ensures s.spans[o.id].refcount == 1 ==> forall x | x in s.loc && x.id == o.id && x != o :: s.loc[x] == InSpan
  {
    RefcountIsInUse(g, s, o.id);
    assert o in InUse(s, o.id);
    assert |InUse(s, o.id) - {o}| == |InUse(s, o.id)| - 1;
    if s.spans[o.id].refcount == 1 {
      forall x | x in s.loc && x.id == o.id && x != o ensures s.loc[x] == InSpan {
        assert x !in InUse(s, o.id) - {o};
      }
    }
  }

  // Sums of free-list lengths.

  lemma {:induction false} SumSame(ids: seq<SpanId>, a: map<SpanId, SpanRec>, b: map<SpanId, SpanRec>)
    requires forall id | id in ids :: (id in a <==> id in b) && (id in a ==> |a[id].free| == |b[id].free|)
    ensures SumFree(ids, a) == SumFree(ids, b)
  {
    if ids != [] {
      assert ids[0] in ids;
      SumSame(ids[1..], a, b);
    }
  }

  lemma {:induction false} SumChange(ids: seq<SpanId>, a: map<SpanId, SpanRec>, id: SpanId, r: SpanRec)
    requires Distinct(ids) && id in ids && id in a
    ensures SumFree(ids, a[id := r]) == SumFree(ids, a) - |a[id].free| + |r.free|
  {
    var rest := ids[1..];
    assert forall i, j | 0 <= i < j < |rest| :: rest[i] == ids[i + 1] && rest[j] == ids[j + 1];
    if ids[0] == id {
      assert id !in rest;
      SumSame(rest, a, a[id := r]);
    } else {
      assert id in rest;
      SumChange(rest, a, id, r);
    }
  }

  lemma {:induction false} SumWithout(ids: seq<SpanId>, a: map<SpanId, SpanRec>, id: SpanId)
    requires Distinct(ids) && id in ids && id in a
    ensures SumFree(Without(ids, id), a) == SumFree(ids, a) - |a[id].free|
  {
    var rest := ids[1..];
    assert forall i, j | 0 <= i < j < |rest| :: rest[i] == ids[i + 1] && rest[j] == ids[j + 1];
    if ids[0] != id {
      assert id in rest;
      SumWithout(rest, a, id);
      assert Without(ids, id)[1..] == Without(rest, id);
    }
  }

  /** Changing one span of class `k`, and the lists and counters of that class only. */
  ghost predicate OnlyClass(s: State, k: Class, id: SpanId, s': State) {
    && k < |s.nonempty| && |s.nonempty| == |s.empty| == |s.counter| == |s.numSpans|
    && |s'.nonempty| == |s'.empty| == |s'.counter| == |s'.numSpans| == |s.nonempty|
    && (forall c | 0 <= c < |s.nonempty| && c != k ::
          && s'.nonempty[c] == s.nonempty[c] && s'.empty[c] == s.empty[c]
          && s'.counter[c] == s.counter[c] && s'.numSpans[c] == s.numSpans[c])
    && (forall x | x != id :: (x in s'.spans <==> x in s.spans) && (x in s.spans ==> s'.spans[x] == s.spans[x]))
    && (id in s.spans ==> s.spans[id].cl == k) && (id in s'.spans ==> s'.spans[id].cl == k)
  }

  /** Then only the lists and counters of class `k` need looking at. */
  lemma CountsOf(g: Config, s: State, k: Class, id: SpanId, s': State)
    requires Counts(g, s) && OnlyClass(s, k, id, s')
    requires id in s'.spans && k < |g.capacity| ==>
               s'.spans[id].refcount >= 0 && s'.spans[id].refcount + |s'.spans[id].free| == g.capacity[k]
    requires Distinct(s'.nonempty[k]) && Distinct(s'.empty[k])
    requires forall x :: x in s'.nonempty[k] <==> x in s'.spans && s'.spans[x].cl == k && s'.spans[x].free != []
    requires forall x :: x in s'.empty[k] <==> x in s'.spans && s'.spans[x].cl == k && s'.spans[x].free == []
    requires s'.numSpans[k] == |s'.nonempty[k]| + |s'.empty[k]| && s'.counter[k] == SumFree(s'.nonempty[k], s'.spans)
    ensures Counts(g, s')
  {
    hide Lists, Totals, SumFree, Distinct;
    ListsElsewhere(s, k, id, s');
    TotalsElsewhere(s, k, id, s');
  }

  lemma ListsElsewhere(s: State, k: Class, id: SpanId, s': State)
    requires Lists(s) && OnlyClass(s, k, id, s') && Distinct(s'.nonempty[k]) && Distinct(s'.empty[k])
    requires forall x :: x in s'.nonempty[k] <==> x in s'.spans && s'.spans[x].cl == k && s'.spans[x].free != []
    requires forall x :: x in s'.empty[k] <==> x in s'.spans && s'.spans[x].cl == k && s'.spans[x].free == []
    ensures Lists(s')
  {
    hide Distinct;
    forall c, x | 0 <= c < |s'.nonempty|
      ensures x in s'.nonempty[c] <==> x in s'.spans && s'.spans[x].cl == c && s'.spans[x].free != []
      ensures x in s'.empty[c] <==> x in s'.spans && s'.spans[x].cl == c && s'.spans[x].free == []
    {
      if c != k {
        assert x in s.nonempty[c] <==> x in s.spans && s.spans[x].cl == c && s.spans[x].free != [];
        assert x in s.empty[c] <==> x in s.spans && s.spans[x].cl == c && s.spans[x].free == [];
      }
    }
  }

  lemma TotalsElsewhere(s: State, k: Class, id: SpanId, s': State)
    requires Lists(s) && Totals(s) && OnlyClass(s, k, id, s')
    requires s'.numSpans[k] == |s'.nonempty[k]| + |s'.empty[k]| && s'.counter[k] == SumFree(s'.nonempty[k], s'.spans)
    ensures Totals(s')
  {
    hide Distinct;
    forall c | 0 <= c < |s'.counter|
      ensures s'.numSpans[c] == |s'.nonempty[c]| + |s'.empty[c]| && s'.counter[c] == SumFree(s'.nonempty[c], s'.spans)
    {
      if c != k {
        SumSame(s.nonempty[c], s.spans, s'.spans);
      }
    }
  }

  /** What is known of the lists of one class. */
  lemma ListsOf(g: Config, s: State, k: Class)
    requires Counts(g, s) && k < |s.nonempty|
    ensures |s.nonempty| == |s.empty| == |s.counter| == |s.numSpans|
    ensures Distinct(s.nonempty[k]) && Distinct(s.empty[k])
    ensures forall x :: x in s.nonempty[k] <==> x in s.spans && s.spans[x].cl == k && s.spans[x].free != []
    ensures forall x :: x in s.empty[k] <==> x in s.spans && s.spans[x].cl == k && s.spans[x].free == []
    ensures s.numSpans[k] == |s.nonempty[k]| + |s.empty[k]| && s.counter[k] == SumFree(s.nonempty[k], s.spans)
  {
  }

  lemma RelOneCounts(g: Config, s: State, t: Tid, s': State)
    requires Control(g, s) && Objects(g, s) && Counts(g, s) && ReleaseStep(g, s, RelOne(t), s')
    ensures Counts(g, s')
  {
    hide Locking, Private, Counts, SlotPlaces, Classes, SumFree, Move, Distinct, Existing, FreePlaces, CarriedPlaces;
    hide ThreadPlaces;
    var pc := s.pcs[t];
    var o, k := pc.list[0], pc.k;
    var sp := s.spans[o.id];
    CarriedAt(s, t);
    assert o in pc.Carries();
    PcClassOf(g, s, t);
    CountsRefs(g, s);
    InUseCounted(g, s, o);
    RefOf(g, s, o.id);
    ListsOf(g, s, k);
    var r := s'.spans[o.id];
    if sp.free == [] {
      WithoutKeeps(s.empty[k], o.id);
      SumSame(s.nonempty[k], s.spans, s'.spans);
      SumPrepend(o.id, s.nonempty[k], s'.spans);
      PrependDistinct(o.id, s.nonempty[k]);
    } else {
      SumChange(s.nonempty[k], s.spans, o.id, r);
    }
    CountsOf(g, s, k, o.id, s');
  }

  lemma CountsRefs(g: Config, s: State)
    requires Counts(g, s)
    ensures Refcounts(g, s)
  {
  }

  lemma RefOf(g: Config, s: State, id: SpanId)
    requires Refcounts(g, s) && id in s.spans && s.spans[id].cl < |g.capacity|
    ensures s.spans[id].refcount >= 0 && s.spans[id].refcount + |s.spans[id].free| == g.capacity[s.spans[id].cl]
  {
  }

  lemma SumPrepend(id: SpanId, ids: seq<SpanId>, a: map<SpanId, SpanRec>)
    requires id in a
    ensures SumFree([id] + ids, a) == |a[id].free| + SumFree(ids, a)
  {
    assert ([id] + ids)[1..] == ids;
  }

  lemma PrependDistinct(id: SpanId, ids: seq<SpanId>)
    requires Distinct(ids) && id !in ids
    ensures Distinct([id] + ids)
  {
  }

  // Objects in and out of spans.

  /** All classes stay, and nothing new is in a slot. */
  lemma ClassesKept(s: State, t: Tid, s': State)
    requires Classes(s) && Moves(s, t, s') && s'.slots == s.slots && PcClass(s', s'.pcs[t])
    requires forall x | x in s.spans :: x in s'.spans && s'.spans[x].cl == s.spans[x].cl
    ensures Classes(s')
  {
    forall c, i | 0 <= c < |s'.slots| && 0 <= i < |s'.slots[c]| ensures OfClass(s', s'.slots[c][i], c) {
      assert OfClass(s, s.slots[c][i], c);
    }
    forall u | u in s'.pcs ensures PcClass(s', s'.pcs[u]) {
      assert u != t ==> PcClass(s, s.pcs[u]);
    }
  }

  /** One object changes between being free in its span and being carried; slots do not notice. */
  lemma SlotsUnmoved(s: State, o: Obj, q: Place, s': State)
    requires SlotPlaces(s) && s'.slots == s.slots && o in s.loc && !s.loc[o].InSlot? && !q.InSlot?
    requires s'.loc == s.loc[o := q]
    ensures SlotPlaces(s')
  {
    forall d, i, x | 0 <= d < |s'.slots| && 0 <= i < |s'.slots[d]|
      ensures x in s'.slots[d][i] <==> x in s'.loc && s'.loc[x] == InSlot(d, i)
    {
      assert x in s.slots[d][i] <==> x in s.loc && s.loc[x] == InSlot(d, i);
    }
  }

  lemma ExistingKept(g: Config, s: State, s': State)
    requires Existing(g, s) && s'.loc.Keys == s.loc.Keys && s'.spans.Keys == s.spans.Keys
    requires forall x | x in s.spans :: s'.spans[x].cl == s.spans[x].cl
    ensures Existing(g, s')
  {
    forall o ensures o in s'.loc <==> o in s.loc {
      assert o in s'.loc.Keys <==> o in s.loc.Keys;
    }
  }

  lemma RelOneFree(g: Config, s: State, o: Obj, s': State)
    requires Existing(g, s) && FreePlaces(s) && o in s.loc && s.loc[o] != InSpan && o.id in s.spans
    requires s'.loc == s.loc[o := InSpan]
    requires var sp := s.spans[o.id];
               s'.spans == s.spans[o.id := sp.(free := [o] + sp.free, refcount := sp.refcount - 1)]
    ensures Existing(g, s') && FreePlaces(s')
  {
    hide Existing;
    ExistingKept(g, s, s');
    var sp := s.spans[o.id];
    assert o !in sp.free by { assert o in sp.free <==> o in s.loc && o.id == o.id && s.loc[o] == InSpan; }
    forall id, x | id in s'.spans ensures x in s'.spans[id].free <==> x in s'.loc && x.id == id && s'.loc[x] == InSpan {
      assert x in s.spans[id].free <==> x in s.loc && x.id == id && s.loc[x] == InSpan;
    }
  }

  lemma FetchOneFree(g: Config, s: State, o: Obj, t: Tid, s': State)
    requires Existing(g, s) && FreePlaces(s) && o.id in s.spans && s.spans[o.id].free != []
    requires o == s.spans[o.id].free[0]
    requires s'.loc == s.loc[o := Carried(t)]
    requires var sp := s.spans[o.id];
               s'.spans == s.spans[o.id := sp.(free := sp.free[1..], refcount := sp.refcount + 1)]
    ensures o in s.loc && s.loc[o] == InSpan && Existing(g, s') && FreePlaces(s')
  {
    hide Distinct, Existing;
    var sp := s.spans[o.id];
    assert o in sp.free;
    assert o in s.loc && s.loc[o] == InSpan;
    ExistingKept(g, s, s');
    assert sp.free == [o] + sp.free[1..];
    TailDistinct(o, sp.free[1..]);
    forall id, x | id in s'.spans ensures x in s'.spans[id].free <==> x in s'.loc && x.id == id && s'.loc[x] == InSpan {
      assert x in s.spans[id].free <==> x in s.loc && x.id == id && s.loc[x] == InSpan;
    }
  }

  /** Thread `t` puts down the first object it carries. */
  lemma CarryLess(s: State, t: Tid, o: Obj, q: Place, s': State)
    requires CarriedPlaces(s) && Moves(s, t, s') && !q.Carried? && s'.loc == s.loc[o := q]
    requires s.pcs[t].Carries() == [o] + s'.pcs[t].Carries()
    ensures CarriedPlaces(s')
  {
    hide Pc.Carries, Distinct;
    var all := s.pcs[t].Carries();
    TailDistinct(o, s'.pcs[t].Carries());
    assert o in all;
    forall u, x | u in s'.pcs ensures x in s'.pcs[u].Carries() <==> x in s'.loc && s'.loc[x] == Carried(u) {
      assert x in s.pcs[u].Carries() <==> x in s.loc && s.loc[x] == Carried(u);
      assert o in all <==> o in s.loc && s.loc[o] == Carried(t);
    }
  }

  /** Handling one object less, of spans that keep their classes. */
  lemma RestClass(s: State, pc: Pc, s': State, pc': Pc)
    requires PcClass(s, pc) && pc.Rel? && pc.list != [] && pc'.Rel?
    requires (pc'.k, pc'.list, pc'.then_) == (pc.k, pc.list[1..], pc.then_)
    requires forall x | x in s.spans :: x in s'.spans && s'.spans[x].cl == s.spans[x].cl
    ensures PcClass(s', pc')
  {
  }

  lemma RelOneKeeps(g: Config, s: State, t: Tid, s': State, total: int)
    requires Inv(g, s, total) && ReleaseStep(g, s, RelOne(t), s')
    ensures Inv(g, s', total)
  {
    hide Locking, Existing, FreePlaces, SlotPlaces, CarriedPlaces, ThreadPlaces, Classes, Counts, Cached, Budget, Sum;
    hide Private, PcClass, OfClass, Distinct;
    var pc := s.pcs[t];
    var o := pc.list[0];
    CarriedAt(s, t);
    assert pc.Carries() == [o] + s'.pcs[t].Carries();
    RelOneCounts(g, s, t, s');
    RelOneFree(g, s, o, s');
    ThreadFrame(s, s');
    SlotsUnmoved(s, o, InSpan, s');
    CarryLess(s, t, o, InSpan, s');
    PcClassOf(g, s, t);
    RestClass(s, pc, s', s'.pcs[t]);
    ClassesKept(s, t, s');
    LockSame(s, t, s');
    CachedFrame(g, s, s');
    ShapedFrame(g, s, t, s');
    PrivateSpans(s, t, s');
    BudgetFrame(s, t, s', total);
  }

  lemma PrivateSpans(s: State, t: Tid, s': State)
    requires Private(s) && Moves(s, t, s') && s'.spans.Keys == s.spans.Keys && s'.taken == s.taken
    requires s'.pcs[t].Owns() == s.pcs[t].Owns()
    ensures Private(s')
  {
  }

  lemma BudgetFrame(s: State, t: Tid, s': State, total: int)
    requires Budget(s, total) && Moves(s, t, s') && s'.size == s.size && s'.pcs[t].Gained() == s.pcs[t].Gained()
    ensures Budget(s', total)
  {
    GainersUpdate(s, t, s');
  }

  lemma FetchOneCounts(g: Config, s: State, t: Tid, s': State)
    requires Control(g, s) && Existing(g, s) && Counts(g, s) && RemoveStep(g, s, FetchOne(t), s')
    ensures Counts(g, s')
  {
    hide Locking, Private, Counts, Existing, SumFree, Move, Distinct;
    var pc := s.pcs[t];
    var k := pc.c;
    var id := s.nonempty[k][0];
    ListsOf(g, s, k);
    assert id in s.nonempty[k];
    CountsRefs(g, s);
    RefOf(g, s, id);
    SumChange(s.nonempty[k], s.spans, id, s'.spans[id]);
    var rest := s.nonempty[k][1..];
    assert s.nonempty[k] == [id] + rest;
    TailDistinct(id, rest);
    if |s.spans[id].free| == 1 {
      SumPrepend(id, rest, s'.spans);
      PrependDistinct(id, s.empty[k]);
    }
    CountsOf(g, s, k, id, s');
  }

  lemma FetchOneKeeps(g: Config, s: State, t: Tid, s': State, total: int)
    requires Inv(g, s, total) && RemoveStep(g, s, FetchOne(t), s')
    ensures Inv(g, s', total)
  {
    hide Locking, Existing, FreePlaces, SlotPlaces, CarriedPlaces, ThreadPlaces, Classes, Counts, Cached, Budget, Sum;
    hide Private, PcClass, OfClass;
    var pc := s.pcs[t];
    var id := s.nonempty[pc.c][0];
    var o := s.spans[id].free[0];
    FreeOf(s, id, o);
    FetchOneCounts(g, s, t, s');
    FetchOneFree(g, s, o, t, s');
    ThreadFrame(s, s');
    FetchClass(g, s, t, o, s');
    SlotsUnmoved(s, o, Carried(t), s');
    assert Move(s.loc, [o], Carried(t)) == s'.loc;
    CarryMore(s, t, [o], s');
    ClassesKept(s, t, s');
    LockSame(s, t, s');
    CachedFrame(g, s, s');
    ShapedFrame(g, s, t, s');
    PrivateSpans(s, t, s');
    BudgetFrame(s, t, s', total);
  }

  /** What a thread fetches is of the class it asked for. */
  lemma FetchClass(g: Config, s: State, t: Tid, o: Obj, s': State)
    requires Objects(g, s) && Counts(g, s) && t in s.pcs && s.pcs[t].Fetch? && s.pcs[t].c < |s.nonempty|
    requires o.id in s.nonempty[s.pcs[t].c]
    requires forall x | x in s.spans :: x in s'.spans && s'.spans[x].cl == s.spans[x].cl
    ensures PcClass(s', Fetch(s.pcs[t].c, s.pcs[t].n, [o] + s.pcs[t].list))
  {
    hide Existing, FreePlaces, SlotPlaces, CarriedPlaces, ThreadPlaces, Totals, Refcounts;
    PcClassOf(g, s, t);
  }

  lemma FreeOf(s: State, id: SpanId, o: Obj)
    requires FreePlaces(s) && id in s.spans && o in s.spans[id].free
    ensures o.id == id
  {
  }

  // A span leaves the lists, or joins them.

  /** Dropping a whole span: `o` was the only one of its objects not free in it. */
  ghost predicate Drops(s: State, o: Obj, s': State) {
    && o in s.loc && o.id in s.spans && s'.spans == s.spans - {o.id}
    && s'.loc == (map x | x in s.loc && x.id != o.id :: s.loc[x])
    && (forall x | x in s.loc && x.id == o.id && x != o :: s.loc[x] == InSpan)
  }

  lemma DropFree(g: Config, s: State, o: Obj, s': State)
    requires Existing(g, s) && FreePlaces(s) && Drops(s, o, s')
    ensures Existing(g, s') && FreePlaces(s')
  {
    forall id, x | id in s'.spans ensures x in s'.spans[id].free <==> x in s'.loc && x.id == id && s'.loc[x] == InSpan {
      assert x in s.spans[id].free <==> x in s.loc && x.id == id && s.loc[x] == InSpan;
    }
  }

  lemma DropSlots(s: State, o: Obj, s': State)
    requires SlotPlaces(s) && Drops(s, o, s') && s'.slots == s.slots && !s.loc[o].InSlot?
    ensures SlotPlaces(s')
  {
    forall d, i, x | 0 <= d < |s'.slots| && 0 <= i < |s'.slots[d]|
      ensures x in s'.slots[d][i] <==> x in s'.loc && s'.loc[x] == InSlot(d, i)
    {
      assert x in s.slots[d][i] <==> x in s.loc && s.loc[x] == InSlot(d, i);
    }
  }

  lemma DropCarried(s: State, t: Tid, o: Obj, s': State)
    requires CarriedPlaces(s) && Moves(s, t, s') && Drops(s, o, s')
    requires s.pcs[t].Carries() == [o] + s'.pcs[t].Carries()
    ensures CarriedPlaces(s')
  {
    hide Pc.Carries, Distinct;
    var all := s.pcs[t].Carries();
    TailDistinct(o, s'.pcs[t].Carries());
    assert o in all;
    forall u, x | u in s'.pcs ensures x in s'.pcs[u].Carries() <==> x in s'.loc && s'.loc[x] == Carried(u) {
      assert x in s.pcs[u].Carries() <==> x in s.loc && s.loc[x] == Carried(u);
      assert o in all <==> o in s.loc && s.loc[o] == Carried(t);
    }
  }

  /** The classes of what remains in slots and with threads are unaffected. */
  lemma DropClasses(s: State, t: Tid, o: Obj, s': State)
    requires Classes(s) && SlotPlaces(s) && CarriedPlaces(s) && SlotPlaces(s') && CarriedPlaces(s')
    requires Moves(s, t, s') && Drops(s, o, s') && s'.slots == s.slots
    requires PcClass(s, s'.pcs[t])
    ensures Classes(s')
  {
    hide Distinct;
    forall c, i | 0 <= c < |s'.slots| && 0 <= i < |s'.slots[c]| ensures OfClass(s', s'.slots[c][i], c) {
      assert OfClass(s, s.slots[c][i], c);
      forall x | x in s'.slots[c][i] ensures x in s'.loc {}
    }
    forall u | u in s'.pcs ensures PcClass(s', s'.pcs[u]) {
      assert PcClass(s, s'.pcs[u]);
      CarriedStays(s, s', u, o);
    }
  }

  lemma CarriedStays(s: State, s': State, u: Tid, o: Obj)
    requires CarriedPlaces(s') && u in s'.pcs && Drops(s, o, s') && PcClass(s, s'.pcs[u])
    ensures PcClass(s', s'.pcs[u])
  {
    hide Distinct;
    var pc := s'.pcs[u];
    forall x | x in pc.Carries() ensures x.id != o.id { assert x in s'.loc; }
    if pc.Rel? {
      forall x | x in pc.list ensures x in pc.Carries() {}
      if pc.then_.Insert? { forall x | x in pc.then_.objs ensures x in pc.Carries() {} }
    }
  }

  lemma RelLastCounts(g: Config, s: State, t: Tid, s': State)
    requires Control(g, s) && Objects(g, s) && Counts(g, s) && ReleaseStep(g, s, RelLast(t), s')
    ensures Counts(g, s')
  {
    hide Locking, Private, Counts, Existing, FreePlaces, CarriedPlaces, SlotPlaces, Classes, SumFree, Move;
    var pc := s.pcs[t];
    var o, k := pc.list[0], pc.k;
    PcClassOf(g, s, t);
    CountsRefs(g, s);
    RefOf(g, s, o.id);
    ListsOf(g, s, k);
    WithoutKeeps(s.nonempty[k], o.id);
    WithoutKeeps(s.empty[k], o.id);
    if s.spans[o.id].free != [] {
      SumWithout(s.nonempty[k], s.spans, o.id);
    } else {
      WithoutAbsent(s.nonempty[k], o.id);
    }
    SumSame(s'.nonempty[k], s.spans, s'.spans);
    CountsOf(g, s, k, o.id, s');
  }

  lemma DropPrivate(s: State, t: Tid, id: SpanId, s': State)
    requires Private(s) && Moves(s, t, s') && s.pcs[t].Owns() == None && s'.pcs[t].Owns() == Some(id)
    requires id in s.spans && s'.spans.Keys == s.spans.Keys - {id} && s'.taken == s.taken
    ensures Private(s')
  {
  }

  /** Dropping the lock to give an empty span to the page heap. */
  lemma RelLastKeeps(g: Config, s: State, t: Tid, s': State, total: int)
    requires Inv(g, s, total) && ReleaseStep(g, s, RelLast(t), s')
    ensures Inv(g, s', total)
  {
    hide Locking, Existing, FreePlaces, SlotPlaces, CarriedPlaces, ThreadPlaces, Classes, Counts, Cached, Budget, Sum;
    hide Private, PcClass, OfClass, Distinct;
    var pc := s.pcs[t];
    var o := pc.list[0];
    CarriedAt(s, t);
    assert pc.Carries() == [o] + s'.pcs[t].Carries();
    CountsRefs(g, s);
    InUseCounted(g, s, o);
    RelLastCounts(g, s, t, s');
    DropFree(g, s, o, s');
    DropSlots(s, o, s');
    ThreadFrame(s, s');
    DropCarried(s, t, o, s');
    PcClassOf(g, s, t);
    RestClass(s, pc, s, s'.pcs[t]);
    DropPrivate(s, t, o.id, s');
    DropClasses(s, t, o, s');
    LockDrop(s, t, pc.k, s');
    CachedFrame(g, s, s');
    ShapedFrame(g, s, t, s');
    BudgetFrame(s, t, s', total);
  }

  lemma PublishFree(g: Config, s: State, id: SpanId, c: Class, s': State)
    requires Existing(g, s) && FreePlaces(s) && id !in s.spans && c < |g.capacity|
    requires s'.spans == s.spans[id := SpanRec(c, Fresh(id, g.capacity[c]), 0)]
    requires s'.loc == Move(s.loc, Fresh(id, g.capacity[c]), InSpan)
    ensures Existing(g, s') && FreePlaces(s')
  {
    var f := Fresh(id, g.capacity[c]);
    forall o ensures o in f <==> o.id == id && o.k < |f| {
      if o.id == id && o.k < |f| { assert f[o.k] == o; }
    }
    forall x, o | x in s'.spans ensures o in s'.spans[x].free <==> o in s'.loc && o.id == x && s'.loc[o] == InSpan {
      if x != id { assert o in s.spans[x].free <==> o in s.loc && o.id == x && s.loc[o] == InSpan; }
    }
  }

  lemma PublishElsewhere(g: Config, s: State, t: Tid, id: SpanId, c: Class, s': State)
    requires Existing(g, s) && SlotPlaces(s) && CarriedPlaces(s) && id !in s.spans && c < |g.capacity|
    requires s'.loc == Move(s.loc, Fresh(id, g.capacity[c]), InSpan) && s'.slots == s.slots
    requires Moves(s, t, s') && s'.pcs[t].Carries() == s.pcs[t].Carries()
    ensures SlotPlaces(s') && CarriedPlaces(s')
  {
    hide Distinct, Pc.Carries;
    var f := Fresh(id, g.capacity[c]);
    forall o | o in f ensures o !in s.loc { assert o.id == id; }
    forall d, i, x | 0 <= d < |s'.slots| && 0 <= i < |s'.slots[d]|
      ensures x in s'.slots[d][i] <==> x in s'.loc && s'.loc[x] == InSlot(d, i)
    {
      assert x in s.slots[d][i] <==> x in s.loc && s.loc[x] == InSlot(d, i);
    }
    forall u, x | u in s'.pcs ensures x in s'.pcs[u].Carries() <==> x in s'.loc && s'.loc[x] == Carried(u) {
      assert x in s.pcs[u].Carries() <==> x in s.loc && s.loc[x] == Carried(u);
    }
  }

  lemma PublishThreads(g: Config, s: State, id: SpanId, c: Class, s': State)
    requires Existing(g, s) && ThreadPlaces(s) && id !in s.spans && c < |g.capacity| && s'.cached == s.cached
    requires s'.spans == s.spans[id := SpanRec(c, Fresh(id, g.capacity[c]), 0)]
    requires s'.loc == Move(s.loc, Fresh(id, g.capacity[c]), InSpan)
    ensures ThreadPlaces(s')
  {
    hide ThreadPlaces;
    forall o | o in Fresh(id, g.capacity[c]) ensures o !in s.loc { assert o.id == id; }
    ThreadFrame(s, s');
  }

  lemma PublishCounts(g: Config, s: State, t: Tid, s': State)
    requires t in s.pcs && s.pcs[t].PopPut? && s.pcs[t].got.Some?
    requires Control(g, s) && Counts(g, s) && RemoveStep(g, s, Publish(t), s')
    requires forall c | 0 <= c < |g.capacity| :: g.capacity[c] >= 1
    ensures Counts(g, s')
  {
    hide Locking, Counts, SumFree, Move;
    var pc := s.pcs[t];
    var k, id := pc.c, pc.got.value;
    ListsOf(g, s, k);
    SumSame(s.nonempty[k], s.spans, s'.spans);
    SumPrepend(id, s.nonempty[k], s'.spans);
    PrependDistinct(id, s.nonempty[k]);
    CountsOf(g, s, k, id, s');
  }

  lemma PublishPrivate(s: State, t: Tid, id: SpanId, s': State)
    requires Private(s) && Moves(s, t, s') && s.pcs[t].Owns() == Some(id) && s'.pcs[t].Owns() == None
    requires s'.spans.Keys == s.spans.Keys + {id} && s'.taken == s.taken
    ensures id !in s.spans && Private(s')
  {
  }

  /** A span fetched from the page heap joins the lists with all its objects free. */
  lemma PublishSpan(g: Config, s: State, t: Tid, s': State, total: int)
    requires t in s.pcs && s.pcs[t].PopPut? && s.pcs[t].got.Some?
    requires Inv(g, s, total) && RemoveStep(g, s, Publish(t), s')
    ensures Inv(g, s', total)
  {
    hide Locking, Existing, FreePlaces, SlotPlaces, CarriedPlaces, ThreadPlaces, Classes, Counts, Cached, Budget, Sum;
    hide Move, Private, Fresh;
    var pc := s.pcs[t];
    LockSame(s, t, s');
    PublishPrivate(s, t, pc.got.value, s');
    CachedFrame(g, s, s');
    PublishCounts(g, s, t, s');
    PublishFree(g, s, pc.got.value, pc.c, s');
    PublishElsewhere(g, s, t, pc.got.value, pc.c, s');
    PublishThreads(g, s, pc.got.value, pc.c, s');
    ClassesKept(s, t, s');
    ShapedFrame(g, s, t, s');
    BudgetFrame(s, t, s', total);
  }

  /** With no span there is nothing to publish. */
  lemma PublishNothing(g: Config, s: State, t: Tid, s': State, total: int)
    requires t in s.pcs && s.pcs[t].PopPut? && s.pcs[t].got.None?
    requires Inv(g, s, total) && RemoveStep(g, s, Publish(t), s')
    ensures Inv(g, s', total)
  {
    hide Locking, Existing, FreePlaces, SlotPlaces, CarriedPlaces, ThreadPlaces, Classes, Counts, Cached, Budget, Sum;
    hide Move;
    LockSame(s, t, s');
    CachedFrame(g, s, s');
    ControlStep(g, s, t, s', total);
  }

  lemma PublishKeeps(g: Config, s: State, t: Tid, s': State, total: int)
    requires Inv(g, s, total) && RemoveStep(g, s, Publish(t), s')
    ensures Inv(g, s', total)
  {
    hide Inv, Move;
    if s.pcs[t].got.None? {
      PublishNothing(g, s, t, s', total);
    } else {
      PublishSpan(g, s, t, s', total);
    }
  }
}
