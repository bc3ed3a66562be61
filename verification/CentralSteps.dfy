/** Every step of the central free lists keeps the invariant. */
module CentralSteps {
  import opened Wrappers
  import opened CentralFreeList
  import opened CentralInvariant

  // Steps that move no object and touch no span.

  lemma ControlStep(g: Config, s: State, t: Tid, s': State, total: int)
    requires Inv(g, s, total) && Moves(s, t, s') && Locking(s') && Private(s') && KnownClasses(g, s'.pcs[t])
    requires (s'.loc, s'.spans, s'.slots, s'.cached) == (s.loc, s.spans, s.slots, s.cached) && |s'.locks| == |s.locks|
    requires |s'.size| == |s.size|
    requires (s'.nonempty, s'.empty, s'.counter, s'.numSpans) == (s.nonempty, s.empty, s.counter, s.numSpans)
    requires s'.pcs[t].Carries() == s.pcs[t].Carries() && PcClass(s, s'.pcs[t])
    requires Cached(g, s')
    requires Sum(s'.size) + (if s'.pcs[t].Gained() then 1 else 0) <= Sum(s.size) + (if s.pcs[t].Gained() then 1 else 0)
    ensures Inv(g, s', total)
  {
    hide Locking, Private, Objects, Counts, Cached, Gainers, Sum, PcClass, KnownClasses;
    ShapedFrame(g, s, t, s');
    ObjectsFrame(g, s, t, s');
    CountsFrame(g, s, s');
    GainersUpdate(s, t, s');
  }

  lemma PcClassOf(g: Config, s: State, t: Tid)
    requires Objects(g, s) && t in s.pcs
    ensures PcClass(s, s.pcs[t])
  {
  }

  lemma StartRemoveKeeps(g: Config, s: State, t: Tid, c: Class, n: nat, s': State, total: int)
    requires Inv(g, s, total) && ThreadStep(g, s, StartRemove(t, c, n), s')
    ensures Inv(g, s', total)
  {
    hide Locking, Private, Objects, Counts, Cached, Budget, Sum;
    LockSame(s, t, s');
    PrivateFrame(s, t, s');
    CachedFrame(g, s, s');
    ControlStep(g, s, t, s', total);
  }

  lemma AcquireKeeps(g: Config, s: State, t: Tid, s': State, total: int)
    requires Inv(g, s, total) && LockStep(g, s, Acquire(t), s')
    ensures Inv(g, s', total)
  {
    hide Locking, Private, Objects, Counts, Cached, Budget, Sum, OfClass;
    LockTake(s, t, s.pcs[t].Wants().value, s');
    PrivateFrame(s, t, s');
    CachedFrame(g, s, s');
    PcClassOf(g, s, t);
    ControlStep(g, s, t, s', total);
  }

  lemma AcquirePageKeeps(g: Config, s: State, t: Tid, s': State, total: int)
    requires Inv(g, s, total) && LockStep(g, s, AcquirePage(t), s')
    ensures Inv(g, s', total)
  {
    hide Locking, Private, Objects, Counts, Cached, Budget, Sum, OfClass;
    PageTake(s, t, s');
    PrivateFrame(s, t, s');
    CachedFrame(g, s, s');
    PcClassOf(g, s, t);
    ControlStep(g, s, t, s', total);
  }

  lemma InsMissKeeps(g: Config, s: State, t: Tid, s': State, total: int)
    requires Inv(g, s, total) && InsertStep(g, s, InsMiss(t), s')
    ensures Inv(g, s', total)
  {
    hide Locking, Private, Objects, Counts, Cached, Budget, Sum, OfClass;
    LockSame(s, t, s');
    PrivateFrame(s, t, s');
    CachedFrame(g, s, s');
    PcClassOf(g, s, t);
    ControlStep(g, s, t, s', total);
  }

  lemma InsTryKeeps(g: Config, s: State, t: Tid, v: Class, s': State, total: int)
    requires Inv(g, s, total) && InsertStep(g, s, InsTry(t, v), s')
    ensures Inv(g, s', total)
  {
    hide Locking, Private, Objects, Counts, Cached, Budget, Sum, OfClass;
    LockDrop(s, t, s.pcs[t].c, s');
    PrivateFrame(s, t, s');
    CachedFrame(g, s, s');
    PcClassOf(g, s, t);
    ControlStep(g, s, t, s', total);
  }

  lemma InsReleaseKeeps(g: Config, s: State, t: Tid, s': State, total: int)
    requires Inv(g, s, total) && InsertStep(g, s, InsRelease(t), s')
    ensures Inv(g, s', total)
  {
    hide Locking, Private, Objects, Counts, Cached, Budget, Sum, OfClass;
    LockSame(s, t, s');
    PrivateFrame(s, t, s');
    CachedFrame(g, s, s');
    PcClassOf(g, s, t);
    ControlStep(g, s, t, s', total);
  }

  lemma ShrFailKeeps(g: Config, s: State, t: Tid, s': State, total: int)
    requires Inv(g, s, total) && InsertStep(g, s, ShrFail(t), s')
    ensures Inv(g, s', total)
  {
    hide Locking, Private, Objects, Counts, Cached, Budget, Sum, OfClass;
    LockDrop(s, t, s.pcs[t].v, s');
    PrivateFrame(s, t, s');
    CachedFrame(g, s, s');
    PcClassOf(g, s, t);
    ControlStep(g, s, t, s', total);
  }

  /** Shrinking another class's cache frees one slot of the budget, which the thread now has. */
  lemma ShrTakeKeeps(g: Config, s: State, t: Tid, s': State, total: int)
    requires Inv(g, s, total) && InsertStep(g, s, ShrTake(t), s')
    ensures Inv(g, s', total)
  {
    hide Locking, Private, Objects, Counts, Budget, Sum, OfClass;
    var v := s.pcs[t].v;
    LockDrop(s, t, v, s');
    PrivateFrame(s, t, s');
    PcClassOf(g, s, t);
    SumUpdate(s.size, v, s.size[v] - 1);
    ControlStep(g, s, t, s', total);
  }

  lemma RelDoneKeeps(g: Config, s: State, t: Tid, s': State, total: int)
    requires Inv(g, s, total) && ReleaseStep(g, s, RelDone(t), s')
    ensures Inv(g, s', total)
  {
    hide Locking, Private, Objects, Counts, Cached, Budget, Sum, OfClass;
    LockDrop(s, t, s.pcs[t].k, s');
    PrivateFrame(s, t, s');
    CachedFrame(g, s, s');
    PcClassOf(g, s, t);
    ControlStep(g, s, t, s', total);
  }

  lemma PageDeleteKeeps(g: Config, s: State, t: Tid, s': State, total: int)
    requires Inv(g, s, total) && ReleaseStep(g, s, PageDelete(t), s')
    ensures Inv(g, s', total)
  {
    hide Locking, Objects, Counts, Cached, Budget, Sum, OfClass;
    PageDrop(s, t, s');
    CachedFrame(g, s, s');
    PcClassOf(g, s, t);
    ControlStep(g, s, t, s', total);
  }

  lemma RemSpansKeeps(g: Config, s: State, t: Tid, s': State, total: int)
    requires Inv(g, s, total) && RemoveStep(g, s, RemSpans(t), s')
    ensures Inv(g, s', total)
  {
    hide Locking, Private, Objects, Counts, Cached, Budget, Sum;
    LockSame(s, t, s');
    PrivateFrame(s, t, s');
    CachedFrame(g, s, s');
    ControlStep(g, s, t, s', total);
  }

  lemma PopStartKeeps(g: Config, s: State, t: Tid, s': State, total: int)
    requires Inv(g, s, total) && RemoveStep(g, s, PopStart(t), s')
    ensures Inv(g, s', total)
  {
    hide Locking, Private, Objects, Counts, Cached, Budget, Sum, OfClass;
    LockDrop(s, t, s.pcs[t].c, s');
    PrivateFrame(s, t, s');
    CachedFrame(g, s, s');
    ControlStep(g, s, t, s', total);
  }

  lemma PageNewKeeps(g: Config, s: State, t: Tid, got: Option<SpanId>, s': State, total: int)
    requires Inv(g, s, total) && RemoveStep(g, s, PageNew(t, got), s')
    ensures Inv(g, s', total)
  {
    hide Locking, Objects, Counts, Cached, Budget, Sum, OfClass;
    PageDrop(s, t, s');
    CachedFrame(g, s, s');
    ControlStep(g, s, t, s', total);
  }
}
