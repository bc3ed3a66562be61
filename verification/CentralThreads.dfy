/** Steps that move objects between a thread's own lists, the application and the central free lists. */
module CentralThreads {
  import opened Sequences
  import opened CentralFreeList
  import opened CentralInvariant
  import opened CentralSteps
  import opened CentralMoves

  lemma ListAt(s: State, t: Tid, c: Class)
    requires ThreadPlaces(s) && HasList(s, t, c)
    ensures Distinct(s.cached[t][c]) && OfClass(s, s.cached[t][c], c)
    ensures forall o :: o in s.cached[t][c] <==> o in s.loc && s.loc[o] == InThread(t, c)
  {
  }

  /** Lists other than `t`'s of class `c` stay as they are, and so do the places of their objects. */
  ghost predicate OnlyList(s: State, t: Tid, c: Class, s': State) {
    && s'.cached.Keys == s.cached.Keys && s'.spans == s.spans && s'.loc.Keys == s.loc.Keys
    && (forall u | u in s.cached :: |s'.cached[u]| == |s.cached[u]|)
    && (forall u: Tid, d: Class | HasList(s, u, d) && (u, d) != (t, c) :: s'.cached[u][d] == s.cached[u][d])
    && (forall u: Tid, d: Class, o | o in s.loc && (u, d) != (t, c) ::
          s'.loc[o] == InThread(u, d) <==> s.loc[o] == InThread(u, d))
  }

  lemma ThreadUpdate(s: State, t: Tid, c: Class, s': State)
    requires ThreadPlaces(s) && HasList(s, t, c) && OnlyList(s, t, c, s')
    requires Distinct(s'.cached[t][c]) && OfClass(s, s'.cached[t][c], c)
    requires forall o :: o in s'.cached[t][c] <==> o in s'.loc && s'.loc[o] == InThread(t, c)
    ensures ThreadPlaces(s')
  {
    hide Distinct;
    forall u: Tid, d: Class, o | HasList(s', u, d)
      ensures o in s'.cached[u][d] <==> o in s'.loc && s'.loc[o] == InThread(u, d)
    {
      assert HasList(s, u, d);
      if (u, d) != (t, c) {
        assert o in s.cached[u][d] <==> o in s.loc && s.loc[o] == InThread(u, d);
      }
    }
    forall u: Tid, d: Class | HasList(s', u, d) ensures Distinct(s'.cached[u][d]) && OfClass(s', s'.cached[u][d], d) {
      assert HasList(s, u, d);
      assert OfClass(s, s.cached[u][d], d);
    }
    forall o | o in s'.loc && s'.loc[o].InThread? ensures HasList(s', s'.loc[o].t, s'.loc[o].c) {
      var u, d := s'.loc[o].t, s'.loc[o].c;
      if (u, d) != (t, c) {
        assert s.loc[o] == InThread(u, d);
        assert HasList(s, u, d);
      }
    }
  }

  lemma ThreadPop(s: State, t: Tid, c: Class, n: nat, s': State)
    requires ThreadPlaces(s) && HasList(s, t, c) && n <= |s.cached[t][c]| && s' == Popped(s, t, c, n)
    ensures ThreadPlaces(s')
  {
    hide ThreadPlaces, Distinct;
    var a := s.cached[t][c];
    ListAt(s, t, c);
    SplitDistinct(a, n);
    assert forall o | o in a[..n] :: o in a;
    ThreadUpdate(s, t, c, s');
  }

  lemma ThreadPush(s: State, t: Tid, c: Class, objs: seq<Obj>, s': State)
    requires ThreadPlaces(s) && HasList(s, t, c) && Distinct(objs) && OfClass(s, objs, c) && s' == Pushed(s, t, c, objs)
    requires forall o | o in objs :: o in s.loc && s.loc[o] == App
    ensures ThreadPlaces(s')
  {
    hide ThreadPlaces, Distinct;
    ListAt(s, t, c);
    DistinctConcat(objs, s.cached[t][c]);
    ThreadUpdate(s, t, c, s');
  }

  /** A thread's list gives its first objects to the application. */
  lemma PoppedKeeps(g: Config, s: State, t: Tid, c: Class, n: nat, s': State, total: int)
    requires Inv(g, s, total) && t in s.pcs && c < |g.capacity| && n <= |s.cached[t][c]| && s' == Popped(s, t, c, n)
    ensures Inv(g, s', total) && Distinct(s.cached[t][c][..n]) && AllOwned(g, s', s.cached[t][c][..n], c)
  {
    hide Locking, Private, Existing, FreePlaces, SlotPlaces, CarriedPlaces, ThreadPlaces, Classes, Counts, Cached;
    hide Budget, Sum, Distinct;
    var objs := s.cached[t][c][..n];
    ListAt(s, t, c);
    SplitDistinct(s.cached[t][c], n);
    assert forall o | o in objs :: o in s.cached[t][c];
    ListStep(g, s, t, objs, App, s');
    ThreadPop(s, t, c, n, s');
    MoveStep(g, s, t, s', total);
  }

  /** Objects of the application join a thread's list of their class. */
  lemma PushedKeeps(g: Config, s: State, t: Tid, c: Class, objs: seq<Obj>, s': State, total: int)
    requires Inv(g, s, total) && t in s.pcs && c < |g.capacity| && Distinct(objs) && AllOwned(g, s, objs, c)
    requires s' == Pushed(s, t, c, objs)
    ensures Inv(g, s', total)
  {
    hide Locking, Private, Existing, FreePlaces, SlotPlaces, CarriedPlaces, ThreadPlaces, Classes, Counts, Cached;
    hide Budget, Sum, Distinct;
    ListStep(g, s, t, objs, InThread(t, c), s');
    ThreadPush(s, t, c, objs, s');
    MoveStep(g, s, t, s', total);
  }

  /** Everything but the thread lists, when objects go between them and the application. */
  lemma ListStep(g: Config, s: State, t: Tid, objs: seq<Obj>, q: Place, s': State)
    requires Control(g, s) && Objects(g, s) && Cached(g, s) && t in s.pcs && (q.App? || q.InThread?)
    requires forall o | o in objs :: o in s.loc && (s.loc[o].App? || s.loc[o].InThread?)
    requires s'.loc == Move(s.loc, objs, q)
    requires (s'.locks, s'.pageLock, s'.spans, s'.slots, s'.size, s'.pcs) ==
               (s.locks, s.pageLock, s.spans, s.slots, s.size, s.pcs)
    ensures Moves(s, t, s') && Locking(s') && KnownClasses(g, s'.pcs[t]) && Cached(g, s')
    ensures Existing(g, s') && FreePlaces(s') && SlotPlaces(s') && CarriedPlaces(s') && Classes(s')
  {
    hide Locking, Private, Existing, FreePlaces, SlotPlaces, CarriedPlaces, ThreadPlaces, Classes, Cached, Distinct;
    assert s.pcs == s.pcs[t := s.pcs[t]];
    LockSame(s, t, s');
    CachedFrame(g, s, s');
    MovedKeys(g, s, objs, q, s');
    SlotSame(s, objs, q, s');
    CarrySame(s, t, objs, q, s');
    PcClassOf(g, s, t);
    ClassesFrame(s, t, s');
  }

  lemma AllocKeeps(g: Config, s: State, t: Tid, c: Class, s': State, total: int)
    requires Inv(g, s, total) && ThreadStep(g, s, Alloc(t, c), s')
    ensures Inv(g, s', total)
  {
    hide Objects, Counts, Cached, Budget;
    PoppedKeeps(g, s, t, c, 1, s', total);
  }

  lemma FreeKeeps(g: Config, s: State, t: Tid, o: Obj, s': State, total: int)
    requires Inv(g, s, total) && ThreadStep(g, s, Free(t, o), s')
    ensures Inv(g, s', total)
  {
    hide Objects, Counts, Cached, Budget;
    PushedKeeps(g, s, t, s.spans[o.id].cl, [o], s', total);
  }

  lemma FreeDirectKeeps(g: Config, s: State, t: Tid, o: Obj, s': State, total: int)
    requires Inv(g, s, total) && ThreadStep(g, s, FreeDirect(t, o), s')
    ensures Inv(g, s', total)
  {
    hide Objects, Counts, Cached, Budget;
    InsertingKeeps(g, s, t, s.spans[o.id].cl, [o], s', total);
  }

  lemma StartInsertKeeps(g: Config, s: State, t: Tid, c: Class, n: nat, s': State, total: int)
    requires Inv(g, s, total) && ThreadStep(g, s, StartInsert(t, c, n), s')
    ensures Inv(g, s', total)
  {
    hide Objects, Counts, Cached, Budget;
    var s1 := Popped(s, t, c, n);
    PoppedKeeps(g, s, t, c, n, s1, total);
    InsertingKeeps(g, s1, t, c, s.cached[t][c][..n], s', total);
  }

  lemma RestOf(g: Config, s: State, objs: seq<Obj>, c: Class)
    requires Distinct(objs) && AllOwned(g, s, objs, c)
    ensures Distinct(Rest(objs)) && AllOwned(g, s, Rest(objs), c)
  {
    hide Owned;
    if objs != [] { SplitDistinct(objs, 1); }
  }

  /** A range fetched from a slot: its first object goes to the application and the others to the thread's list. */
  lemma RemSlotKeeps(g: Config, s: State, t: Tid, s': State, total: int)
    requires Inv(g, s, total) && RemoveStep(g, s, RemSlot(t), s')
    ensures Inv(g, s', total)
  {
    hide Objects, Counts, Cached, Budget, Distinct;
    var c := s.pcs[t].c;
    var objs := s.slots[c][|s.slots[c]| - 1];
    var s1 := SlotGiven(s, t);
    SlotGivenKeeps(g, s, t, s1, total);
    RestOf(g, s1, objs, c);
    PushedKeeps(g, s1, t, c, Rest(objs), s', total);
  }

  /** A range fetched from spans: its first object goes to the application and the others to the thread's list. */
  lemma FetchDoneKeeps(g: Config, s: State, t: Tid, s': State, total: int)
    requires Inv(g, s, total) && RemoveStep(g, s, FetchDone(t), s')
    ensures Inv(g, s', total)
  {
    hide Objects, Counts, Cached, Budget, Distinct;
    var pc := s.pcs[t];
    var s1 := FetchGiven(s, t);
    FetchGivenKeeps(g, s, t, s1, total);
    RestOf(g, s1, pc.list, pc.c);
    PushedKeeps(g, s1, t, pc.c, Rest(pc.list), s', total);
  }
}
