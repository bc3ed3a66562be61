/** Steps of the central free lists that move objects between threads, slots and the application. */
module CentralMoves {
  import opened Sequences
  import opened CentralFreeList
  import opened CentralInvariant
  import opened CentralSteps

  ghost predicate Moved(s: State, objs: seq<Obj>, q: Place, s': State) {
    && (forall o | o in objs :: o in s.loc && s.loc[o] != InSpan)
    && s'.loc == Move(s.loc, objs, q) && q != InSpan && s'.spans == s.spans
  }

  lemma MovedKeys(g: Config, s: State, objs: seq<Obj>, q: Place, s': State)
    requires Existing(g, s) && FreePlaces(s) && Moved(s, objs, q, s')
    ensures Existing(g, s') && FreePlaces(s')
  {
    assert s'.loc.Keys == s.loc.Keys;
    forall id, o | id in s'.spans ensures o in s'.spans[id].free <==> o in s'.loc && o.id == id && s'.loc[o] == InSpan {
      assert o in s.spans[id].free <==> o in s.loc && o.id == id && s.loc[o] == InSpan;
    }
  }

  lemma SlotPush(s: State, c: Class, objs: seq<Obj>, s': State)
    requires SlotPlaces(s) && c < |s.slots| && Distinct(objs) && forall o | o in objs :: o in s.loc && !s.loc[o].InSlot?
    requires s'.slots == s.slots[c := s.slots[c] + [objs]] && s'.loc == Move(s.loc, objs, InSlot(c, |s.slots[c]|))
    ensures SlotPlaces(s')
  {
    forall d, i, o | 0 <= d < |s'.slots| && 0 <= i < |s'.slots[d]|
      ensures o in s'.slots[d][i] <==> o in s'.loc && s'.loc[o] == InSlot(d, i)
    {
      if d == c && i == |s.slots[c]| {
        assert s'.slots[d][i] == objs;
      } else {
        assert s'.slots[d][i] == s.slots[d][i];
        assert o in s.slots[d][i] <==> o in s.loc && s.loc[o] == InSlot(d, i);
      }
    }
    forall d, i | 0 <= d < |s'.slots| && 0 <= i < |s'.slots[d]| ensures Distinct(s'.slots[d][i]) {
      assert s'.slots[d][i] == if d == c && i == |s.slots[c]| then objs else s.slots[d][i];
    }
  }

  lemma SlotPop(s: State, c: Class, q: Place, s': State)
    requires SlotPlaces(s) && c < |s.slots| && s.slots[c] != [] && !q.InSlot?
    requires var last := |s.slots[c]| - 1;
             s'.slots == s.slots[c := s.slots[c][..last]] && s'.loc == Move(s.loc, s.slots[c][last], q)
    ensures SlotPlaces(s')
  {
    var last := |s.slots[c]| - 1;
    forall o | o in s.loc ensures o in s.slots[c][last] <==> s.loc[o] == InSlot(c, last) {}
    forall d, i, o | 0 <= d < |s'.slots| && 0 <= i < |s'.slots[d]|
      ensures o in s'.slots[d][i] <==> o in s'.loc && s'.loc[o] == InSlot(d, i)
    {
      assert s'.slots[d][i] == s.slots[d][i];
      assert o in s.slots[d][i] <==> o in s.loc && s.loc[o] == InSlot(d, i);
    }
    forall d, i | 0 <= d < |s'.slots| && 0 <= i < |s'.slots[d]| ensures Distinct(s'.slots[d][i]) {
      assert s'.slots[d][i] == s.slots[d][i];
    }
  }

  lemma SlotSame(s: State, objs: seq<Obj>, q: Place, s': State)
    requires SlotPlaces(s) && s'.slots == s.slots && s'.loc == Move(s.loc, objs, q) && !q.InSlot?
    requires forall o | o in objs :: o in s.loc && !s.loc[o].InSlot?
    ensures SlotPlaces(s')
  {
    forall d, i, o | 0 <= d < |s'.slots| && 0 <= i < |s'.slots[d]|
      ensures o in s'.slots[d][i] <==> o in s'.loc && s'.loc[o] == InSlot(d, i)
    {
      assert o in s.slots[d][i] <==> o in s.loc && s.loc[o] == InSlot(d, i);
    }
  }

  /** Thread `t` takes up `objs`. */
  lemma CarryMore(s: State, t: Tid, objs: seq<Obj>, s': State)
    requires CarriedPlaces(s) && Moves(s, t, s') && s'.loc == Move(s.loc, objs, Carried(t))
    requires forall o | o in objs :: o in s.loc && !s.loc[o].Carried?
    requires Distinct(objs) && s'.pcs[t].Carries() == objs + s.pcs[t].Carries()
    ensures CarriedPlaces(s')
  {
    hide Pc.Carries;
    forall u, o | u in s'.pcs ensures o in s'.pcs[u].Carries() <==> o in s'.loc && s'.loc[o] == Carried(u) {
      assert o in s.pcs[u].Carries() <==> o in s.loc && s.loc[o] == Carried(u);
    }
    forall o | o in objs ensures o !in s.pcs[t].Carries() {
      assert o in s.pcs[t].Carries() <==> o in s.loc && s.loc[o] == Carried(t);
    }
    DistinctConcat(objs, s.pcs[t].Carries());
  }

  /** Thread `t` hands over all it carries. */
  lemma CarryNone(s: State, t: Tid, q: Place, s': State)
    requires CarriedPlaces(s) && Moves(s, t, s') && s'.loc == Move(s.loc, s.pcs[t].Carries(), q) && !q.Carried?
    requires s'.pcs[t].Carries() == []
    ensures CarriedPlaces(s')
  {
    hide Pc.Carries;
    forall u, o | u in s'.pcs ensures o in s'.pcs[u].Carries() <==> o in s'.loc && s'.loc[o] == Carried(u) {
      assert o in s.pcs[u].Carries() <==> o in s.loc && s.loc[o] == Carried(u);
      assert o in s.pcs[t].Carries() <==> o in s.loc && s.loc[o] == Carried(t);
    }
  }

  lemma CarrySame(s: State, t: Tid, objs: seq<Obj>, q: Place, s': State)
    requires CarriedPlaces(s) && Moves(s, t, s') && s'.loc == Move(s.loc, objs, q) && !q.Carried?
    requires s'.pcs[t].Carries() == s.pcs[t].Carries()
    requires forall o | o in objs :: o in s.loc && !s.loc[o].Carried?
    ensures CarriedPlaces(s')
  {
    hide Pc.Carries;
    forall u, o | u in s'.pcs ensures o in s'.pcs[u].Carries() <==> o in s'.loc && s'.loc[o] == Carried(u) {
      assert o in s.pcs[u].Carries() <==> o in s.loc && s.loc[o] == Carried(u);
    }
  }

  /** What is left to check of a step that moves objects. */
  lemma MoveStep(g: Config, s: State, t: Tid, s': State, total: int)
    requires Inv(g, s, total) && Moves(s, t, s') && Locking(s') && KnownClasses(g, s'.pcs[t]) && Objects(g, s')
    requires Cached(g, s')
    requires |s'.locks| == |s.locks| && |s'.size| == |s'.slots| == |s.size| && s'.taken == s.taken && SameLists(s, s')
    requires s'.pcs[t].Owns() == s.pcs[t].Owns()
    requires (s'.spans, s'.nonempty, s'.empty, s'.counter, s'.numSpans) ==
               (s.spans, s.nonempty, s.empty, s.counter, s.numSpans)
    requires Sum(s'.size) + (if s'.pcs[t].Gained() then 1 else 0) <= Sum(s.size) + (if s.pcs[t].Gained() then 1 else 0)
    ensures Inv(g, s', total)
  {
    hide Locking, Private, Objects, Counts, Cached, Gainers, Sum, KnownClasses;
    ShapedFrame(g, s, t, s');
    PrivateFrame(s, t, s');
    CountsFrame(g, s, s');
    GainersUpdate(s, t, s');
  }

  lemma CarriedAt(s: State, t: Tid)
    requires CarriedPlaces(s) && t in s.pcs
    ensures forall o | o in s.pcs[t].Carries() :: o in s.loc && s.loc[o] == Carried(t)
    ensures Distinct(s.pcs[t].Carries())
  {
  }

  lemma SlotAt(s: State, c: Class, i: nat)
    requires SlotPlaces(s) && c < |s.slots| && i < |s.slots[c]|
    ensures Distinct(s.slots[c][i]) && forall o | o in s.slots[c][i] :: o in s.loc && s.loc[o] == InSlot(c, i)
  {
  }

  lemma ClassesFrame(s: State, t: Tid, s': State)
    requires Classes(s) && Moves(s, t, s') && s'.spans == s.spans && PcClass(s, s'.pcs[t])
    requires |s'.slots| == |s.slots|
    requires forall c, i | 0 <= c < |s'.slots| && 0 <= i < |s'.slots[c]| ::
               (i < |s.slots[c]| && s'.slots[c][i] == s.slots[c][i]) || OfClass(s, s'.slots[c][i], c)
    ensures Classes(s')
  {
    forall c, i | 0 <= c < |s'.slots| && 0 <= i < |s'.slots[c]| ensures OfClass(s', s'.slots[c][i], c) {
      assert i < |s.slots[c]| && s'.slots[c][i] == s.slots[c][i] ==> OfClass(s, s.slots[c][i], c);
    }
    forall u | u in s'.pcs ensures PcClass(s', s'.pcs[u]) {
      assert u != t ==> PcClass(s, s.pcs[u]);
    }
  }

  /** Objects that no thread list holds, before or after, are moved. */
  lemma ThreadSame(s: State, objs: seq<Obj>, q: Place, s': State)
    requires ThreadPlaces(s) && s'.cached == s.cached && s'.spans == s.spans && s'.loc == Move(s.loc, objs, q)
    requires !q.InThread?
    requires forall o | o in objs :: o in s.loc && !s.loc[o].InThread?
    ensures ThreadPlaces(s')
  {
    hide ThreadPlaces;
    ThreadFrame(s, s');
  }

  ghost predicate AllOwned(g: Config, s: State, objs: seq<Obj>, c: Class) { forall o | o in objs :: Owned(g, s, o, c) }

  lemma InsertingKeeps(g: Config, s: State, t: Tid, c: Class, objs: seq<Obj>, s': State, total: int)
    requires Inv(g, s, total) && t in s.pcs && s.pcs[t] == Resting && c < |g.capacity| && Distinct(objs)
    requires AllOwned(g, s, objs, c)
    requires s' == Inserting(s, t, c, objs)
    ensures Inv(g, s', total)
  {
    hide Locking, Private, Existing, FreePlaces, SlotPlaces, CarriedPlaces, ThreadPlaces, Classes, Counts, Cached;
    hide Budget, Sum, Move;
    LockSame(s, t, s');
    CachedFrame(g, s, s');
    MovedKeys(g, s, objs, Carried(t), s');
    SlotSame(s, objs, Carried(t), s');
    ThreadSame(s, objs, Carried(t), s');
    assert objs + [] == objs;
    CarryMore(s, t, objs, s');
    ClassesFrame(s, t, s');
    MoveStep(g, s, t, s', total);
  }

  /** A batch goes into a slot below the limit, whatever happened while the lock was dropped. */
  lemma InsPushKeeps(g: Config, s: State, t: Tid, s': State, total: int)
    requires Inv(g, s, total) && InsertStep(g, s, InsPush(t), s')
    ensures Inv(g, s', total)
    ensures var c := s.pcs[t].c; |s.slots[c]| < s'.size[c] <= g.most[c]
  {
    hide Locking, Private, Existing, FreePlaces, SlotPlaces, CarriedPlaces, ThreadPlaces, Classes, Counts, Budget, Sum;
    hide Move;
    var pc := s.pcs[t];
    LockDrop(s, t, pc.c, s');
    CarriedAt(s, t);
    MovedKeys(g, s, pc.objs, InSlot(pc.c, |s.slots[pc.c]|), s');
    SlotPush(s, pc.c, pc.objs, s');
    ThreadSame(s, pc.objs, InSlot(pc.c, |s.slots[pc.c]|), s');
    CarryNone(s, t, InSlot(pc.c, |s.slots[pc.c]|), s');
    PcClassOf(g, s, t);
    ClassesFrame(s, t, s');
    if pc.gained { SumUpdate(s.size, pc.c, s.size[pc.c] + 1); }
    MoveStep(g, s, t, s', total);
  }

  lemma ShrForceKeeps(g: Config, s: State, t: Tid, s': State, total: int)
    requires Inv(g, s, total) && InsertStep(g, s, ShrForce(t), s')
    ensures Inv(g, s', total)
  {
    hide Locking, Private, Existing, FreePlaces, SlotPlaces, CarriedPlaces, ThreadPlaces, Classes, Counts, Budget, Sum;
    hide Move;
    var pc := s.pcs[t];
    var last := |s.slots[pc.v]| - 1;
    var objs := s.slots[pc.v][last];
    LockSame(s, t, s');
    SlotAt(s, pc.v, last);
    MovedKeys(g, s, objs, Carried(t), s');
    SlotPop(s, pc.v, Carried(t), s');
    ThreadSame(s, objs, Carried(t), s');
    CarryMore(s, t, objs, s');
    PcClassOf(g, s, t);
    SlotClass(s, pc.v, last);
    ClassesFrame(s, t, s');
    SumUpdate(s.size, pc.v, s.size[pc.v] - 1);
    MoveStep(g, s, t, s', total);
  }

  lemma SlotClass(s: State, c: Class, i: nat)
    requires Classes(s) && c < |s.slots| && i < |s.slots[c]|
    ensures OfClass(s, s.slots[c][i], c)
  {
  }

  lemma SlotGivenKeeps(g: Config, s: State, t: Tid, s': State, total: int)
    requires Inv(g, s, total) && t in s.pcs && s.pcs[t].Rem? && s.slots[s.pcs[t].c] != [] && s' == SlotGiven(s, t)
    ensures Inv(g, s', total)
    ensures var c := s.pcs[t].c; var objs := s.slots[c][|s.slots[c]| - 1]; Distinct(objs) && AllOwned(g, s', objs, c)
  {
    hide Locking, Private, Existing, FreePlaces, SlotPlaces, CarriedPlaces, ThreadPlaces, Classes, Counts, Budget, Sum;
    var pc := s.pcs[t];
    var last := |s.slots[pc.c]| - 1;
    LockDrop(s, t, pc.c, s');
    SlotAt(s, pc.c, last);
    SlotClass(s, pc.c, last);
    MovedKeys(g, s, s.slots[pc.c][last], App, s');
    SlotPop(s, pc.c, App, s');
    CarrySame(s, t, s.slots[pc.c][last], App, s');
    ThreadSame(s, s.slots[pc.c][last], App, s');
    ClassesFrame(s, t, s');
    MoveStep(g, s, t, s', total);
  }

  lemma FetchGivenKeeps(g: Config, s: State, t: Tid, s': State, total: int)
    requires Inv(g, s, total) && t in s.pcs && s.pcs[t].Fetch? && s' == FetchGiven(s, t)
    ensures Inv(g, s', total)
    ensures var pc := s.pcs[t]; Distinct(pc.list) && AllOwned(g, s', pc.list, pc.c)
  {
    hide Locking, Private, Existing, FreePlaces, SlotPlaces, CarriedPlaces, ThreadPlaces, Classes, Counts, Cached;
    hide Budget, Sum;
    var pc := s.pcs[t];
    LockDrop(s, t, pc.c, s');
    CachedFrame(g, s, s');
    CarriedAt(s, t);
    PcClassOf(g, s, t);
    MovedKeys(g, s, pc.list, App, s');
    SlotSame(s, pc.list, App, s');
    ThreadSame(s, pc.list, App, s');
    CarryNone(s, t, App, s');
    ClassesFrame(s, t, s');
    MoveStep(g, s, t, s', total);
  }
}
