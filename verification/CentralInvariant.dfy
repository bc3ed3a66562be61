/** What every step of the central free lists keeps. */
module CentralInvariant {
  import opened Wrappers
  import opened Sequences
  import opened CentralFreeList

  /** A lock is held by exactly the thread that is inside its critical section. */
  ghost predicate Locking(s: State) {
    && (forall t | t in s.pcs && s.pcs[t].Holds().Some? ::
          s.pcs[t].Holds().value < |s.locks| && s.locks[s.pcs[t].Holds().value] == Some(t))
    && (forall c | 0 <= c < |s.locks| && s.locks[c].Some? ::
          s.locks[c].value in s.pcs && s.pcs[s.locks[c].value].Holds() == Some(c))
    && (forall t | t in s.pcs && s.pcs[t].HoldsPage() :: s.pageLock == Some(t))
    && (s.pageLock.Some? ==> s.pageLock.value in s.pcs && s.pcs[s.pageLock.value].HoldsPage())
  }

  /** The objects are those of the listed spans, and each is where `loc` says, and nowhere else. */
  ghost predicate Existing(g: Config, s: State) {
    && (forall id | id in s.spans :: s.spans[id].cl < |g.capacity|)
    && (forall o ::
          o in s.loc <==> o.id in s.spans && s.spans[o.id].cl < |g.capacity| && o.k < g.capacity[s.spans[o.id].cl])
  }

  ghost predicate FreePlaces(s: State) {
    && (forall id | id in s.spans :: Distinct(s.spans[id].free))
    && (forall id, o | id in s.spans :: o in s.spans[id].free <==> o in s.loc && o.id == id && s.loc[o] == InSpan)
  }

  ghost predicate SlotPlaces(s: State) {
    && (forall c, i | 0 <= c < |s.slots| && 0 <= i < |s.slots[c]| :: Distinct(s.slots[c][i]))
    && (forall c, i, o | 0 <= c < |s.slots| && 0 <= i < |s.slots[c]| ::
          o in s.slots[c][i] <==> o in s.loc && s.loc[o] == InSlot(c, i))
    && (forall o | o in s.loc && s.loc[o].InSlot? :: s.loc[o].c < |s.slots| && s.loc[o].i < |s.slots[s.loc[o].c]|)
  }

  ghost predicate CarriedPlaces(s: State) {
    && (forall t | t in s.pcs :: Distinct(s.pcs[t].Carries()))
    && (forall t, o | t in s.pcs :: o in s.pcs[t].Carries() <==> o in s.loc && s.loc[o] == Carried(t))
    && (forall o | o in s.loc && s.loc[o].Carried? :: s.loc[o].t in s.pcs)
  }

  /** The lists of the thread caches, which hold objects of their own class. */
  ghost predicate ThreadPlaces(s: State) {
    && (forall t: Tid, c: Class | HasList(s, t, c) :: Distinct(s.cached[t][c]) && OfClass(s, s.cached[t][c], c))
    && (forall t: Tid, c: Class, o | HasList(s, t, c) ::
          o in s.cached[t][c] <==> o in s.loc && s.loc[o] == InThread(t, c))
    && (forall o | o in s.loc && s.loc[o].InThread? :: HasList(s, s.loc[o].t, s.loc[o].c))
  }

  /** Objects are only ever handled under the lock of their own class. */
  ghost predicate OfClass(s: State, objs: seq<Obj>, c: Class) {
    forall o | o in objs :: o.id in s.spans && s.spans[o.id].cl == c
  }

  ghost predicate PcClass(s: State, pc: Pc) {
    match pc
    case InsWait(c, objs) => OfClass(s, objs, c)
    case Ins(c, objs, _, _) => OfClass(s, objs, c)
    case ShrWait(c, objs, _, _) => OfClass(s, objs, c)
    case Shr(c, objs, _, _) => OfClass(s, objs, c)
    case InsBack(c, objs, _, _) => OfClass(s, objs, c)
    case Fetch(c, _, list) => OfClass(s, list, c)
    case Rel(k, list, _, then_) => OfClass(s, list, k) && (then_.Insert? ==> OfClass(s, then_.objs, then_.c))
    case _ => true
  }

  ghost predicate Classes(s: State) {
    && (forall c, i | 0 <= c < |s.slots| && 0 <= i < |s.slots[c]| :: OfClass(s, s.slots[c][i], c))
    && (forall t | t in s.pcs :: PcClass(s, s.pcs[t]))
  }

  /** In every span the objects in use and the free ones make up its capacity. */
  ghost predicate Refcounts(g: Config, s: State) {
    forall id | id in s.spans && s.spans[id].cl < |g.capacity| ::
      s.spans[id].refcount >= 0 && s.spans[id].refcount + |s.spans[id].free| == g.capacity[s.spans[id].cl]
  }

  /** A span is on the non-empty list of its class exactly when it has a free object. */
  ghost predicate Lists(s: State) {
    && |s.empty| == |s.nonempty|
    && (forall c | 0 <= c < |s.nonempty| :: Distinct(s.nonempty[c]) && Distinct(s.empty[c]))
    && (forall c, id | 0 <= c < |s.nonempty| ::
          id in s.nonempty[c] <==> id in s.spans && s.spans[id].cl == c && s.spans[id].free != [])
    && (forall c, id | 0 <= c < |s.nonempty| ::
          id in s.empty[c] <==> id in s.spans && s.spans[id].cl == c && s.spans[id].free == [])
  }

  ghost function SumFree(ids: seq<SpanId>, spans: map<SpanId, SpanRec>): int {
    if ids == [] then 0 else (if ids[0] in spans then |spans[ids[0]].free| else 0) + SumFree(ids[1..], spans)
  }

  /** The counters agree with the lists. */
  ghost predicate Totals(s: State) {
    && |s.counter| == |s.numSpans| == |s.nonempty| == |s.empty|
    && forall c | 0 <= c < |s.counter| ::
         s.numSpans[c] == |s.nonempty[c]| + |s.empty[c]| && s.counter[c] == SumFree(s.nonempty[c], s.spans)
  }

  /** Slots in use fit the cache size, and the cache size its limit. */
  ghost predicate Cached(g: Config, s: State) {
    && |s.slots| == |s.size| == |g.most| == |g.batch|
    && (forall c | 0 <= c < |s.slots| :: |s.slots[c]| <= s.size[c] <= g.most[c])
    && (forall c, i | 0 <= c < |s.slots| && 0 <= i < |s.slots[c]| :: |s.slots[c][i]| == g.batch[c])
  }

  ghost function Sum(xs: seq<int>): int {
    if xs == [] then 0 else xs[0] + Sum(xs[1..])
  }

  ghost function Gainers(s: State): set<Tid> { set t | t in s.pcs && s.pcs[t].Gained() }

  /** Cache slots, with those between two classes, never exceed their initial number. */
  ghost predicate Budget(s: State, total: int) { Sum(s.size) + |Gainers(s)| <= total }

  /** Spans between the page heap and the lists are known to one thread. */
  ghost predicate Private(s: State) {
    && (forall id | id in s.spans :: id in s.taken)
    && (forall t | t in s.pcs && s.pcs[t].Owns().Some? ::
          s.pcs[t].Owns().value in s.taken && s.pcs[t].Owns().value !in s.spans)
    && (forall t, u | t in s.pcs && u in s.pcs && s.pcs[t].Owns().Some? && s.pcs[t].Owns() == s.pcs[u].Owns() :: t == u)
  }

  ghost predicate Control(g: Config, s: State) { Shaped(g, s) && Locking(s) && Private(s) }

  ghost predicate Objects(g: Config, s: State) {
    Existing(g, s) && FreePlaces(s) && SlotPlaces(s) && CarriedPlaces(s) && ThreadPlaces(s) && Classes(s)
  }

  ghost predicate Counts(g: Config, s: State) { Refcounts(g, s) && Lists(s) && Totals(s) }

  ghost predicate Inv(g: Config, s: State, total: int) {
    && Control(g, s) && Objects(g, s) && Counts(g, s) && Cached(g, s) && Budget(s, total)
    && forall c | 0 <= c < |g.capacity| :: g.capacity[c] >= 1
  }

  // Frames: what a step leaves alone.

  ghost predicate Moves(s: State, t: Tid, s': State) {
    t in s.pcs && t in s'.pcs && s'.pcs == s.pcs[t := s'.pcs[t]]
  }

  lemma CountsFrame(g: Config, s: State, s': State)
    requires Counts(g, s)
    requires (s'.spans, s'.nonempty, s'.empty, s'.counter, s'.numSpans) ==
               (s.spans, s.nonempty, s.empty, s.counter, s.numSpans)
    ensures Counts(g, s')
  {
  }

  lemma ObjectsFrame(g: Config, s: State, t: Tid, s': State)
    requires Objects(g, s) && Moves(s, t, s')
    requires (s'.loc, s'.spans, s'.slots, s'.cached) == (s.loc, s.spans, s.slots, s.cached)
    requires s'.pcs[t].Carries() == s.pcs[t].Carries() && PcClass(s, s'.pcs[t])
    ensures Objects(g, s')
  {
    hide Existing, FreePlaces, SlotPlaces, CarriedPlaces, ThreadPlaces;
    PlacesFrame(g, s, s');
    ThreadFrame(s, s');
    CarriedFrame(s, t, s');
  }

  lemma PlacesFrame(g: Config, s: State, s': State)
    requires Existing(g, s) && FreePlaces(s) && SlotPlaces(s)
    requires (s'.loc, s'.spans, s'.slots) == (s.loc, s.spans, s.slots)
    ensures Existing(g, s') && FreePlaces(s') && SlotPlaces(s')
  {
  }

  /** Thread lists do not notice what happens to the objects of other places. */
  lemma ThreadFrame(s: State, s': State)
    requires ThreadPlaces(s) && s'.cached == s.cached
    requires forall o | o in s.loc && s.loc[o].InThread? :: o in s'.loc && s'.loc[o] == s.loc[o]
    requires forall o | o in s'.loc && s'.loc[o].InThread? :: o in s.loc && s.loc[o] == s'.loc[o]
    requires forall o | o in s.loc && s.loc[o].InThread? && o.id in s.spans ::
               o.id in s'.spans && s'.spans[o.id].cl == s.spans[o.id].cl
    ensures ThreadPlaces(s')
  {
    hide Distinct;
    forall t: Tid, c: Class, o | HasList(s', t, c)
      ensures o in s'.cached[t][c] <==> o in s'.loc && s'.loc[o] == InThread(t, c)
    {
      assert HasList(s, t, c);
      assert o in s.cached[t][c] <==> o in s.loc && s.loc[o] == InThread(t, c);
    }
    forall t: Tid, c: Class | HasList(s', t, c) ensures Distinct(s'.cached[t][c]) && OfClass(s', s'.cached[t][c], c) {
      assert HasList(s, t, c);
      assert OfClass(s, s.cached[t][c], c);
    }
    forall o | o in s'.loc && s'.loc[o].InThread? ensures HasList(s', s'.loc[o].t, s'.loc[o].c) {
      assert HasList(s, s.loc[o].t, s.loc[o].c);
    }
  }

  lemma CarriedFrame(s: State, t: Tid, s': State)
    requires CarriedPlaces(s) && Moves(s, t, s') && s'.loc == s.loc && s'.pcs[t].Carries() == s.pcs[t].Carries()
    ensures CarriedPlaces(s')
  {
  }

  lemma PrivateFrame(s: State, t: Tid, s': State)
    requires Private(s) && Moves(s, t, s') && (s'.spans, s'.taken) == (s.spans, s.taken)
    requires s'.pcs[t].Owns() == s.pcs[t].Owns()
    ensures Private(s')
  {
  }

  lemma LockSame(s: State, t: Tid, s': State)
    requires Locking(s) && Moves(s, t, s') && (s'.locks, s'.pageLock) == (s.locks, s.pageLock)
    requires s'.pcs[t].Holds() == s.pcs[t].Holds() && s'.pcs[t].HoldsPage() == s.pcs[t].HoldsPage()
    ensures Locking(s')
  {
  }

  lemma LockTake(s: State, t: Tid, c: Class, s': State)
    requires Locking(s) && Moves(s, t, s') && c < |s.locks| && s.locks[c] == None
    requires s'.locks == s.locks[c := Some(t)] && s'.pageLock == s.pageLock
    requires s.pcs[t].Holds() == None && s'.pcs[t].Holds() == Some(c) && s'.pcs[t].HoldsPage() == s.pcs[t].HoldsPage()
    ensures Locking(s')
  {
  }

  lemma LockDrop(s: State, t: Tid, c: Class, s': State)
    requires Locking(s) && Moves(s, t, s') && c < |s.locks|
    requires s'.locks == s.locks[c := None] && s'.pageLock == s.pageLock
    requires s.pcs[t].Holds() == Some(c) && s'.pcs[t].Holds() == None && s'.pcs[t].HoldsPage() == s.pcs[t].HoldsPage()
    ensures Locking(s')
  {
  }

  lemma PageTake(s: State, t: Tid, s': State)
    requires Locking(s) && Moves(s, t, s') && s.pageLock == None && s'.pageLock == Some(t) && s'.locks == s.locks
    requires s'.pcs[t].Holds() == s.pcs[t].Holds() && s'.pcs[t].HoldsPage()
    ensures Locking(s')
  {
  }

  lemma PageDrop(s: State, t: Tid, s': State)
    requires Locking(s) && Moves(s, t, s') && s.pcs[t].HoldsPage() && s'.pageLock == None && s'.locks == s.locks
    requires s'.pcs[t].Holds() == s.pcs[t].Holds() && !s'.pcs[t].HoldsPage()
    ensures Locking(s')
  {
  }

  /** Threads keep one list per class. */
  ghost predicate SameLists(s: State, s': State) {
    s'.cached.Keys == s.cached.Keys && forall u | u in s.cached :: |s'.cached[u]| == |s.cached[u]|
  }

  lemma ShapedFrame(g: Config, s: State, t: Tid, s': State)
    requires Shaped(g, s) && Moves(s, t, s') && KnownClasses(g, s'.pcs[t])
    requires |s'.locks| == |s'.nonempty| == |s'.empty| == |s'.counter| == |s'.numSpans| == |s'.slots| == |s'.size| ==
               |s.locks|
    requires SameLists(s, s')
    ensures Shaped(g, s')
  {
  }

  lemma {:induction false} SumUpdate(xs: seq<int>, c: nat, v: int)
    requires c < |xs|
    ensures Sum(xs[c := v]) == Sum(xs) - xs[c] + v
  {
    if c > 0 {
      SumUpdate(xs[1..], c - 1, v);
      assert xs[c := v][1..] == xs[1..][c - 1 := v];
    } else {
      assert xs[c := v][1..] == xs[1..];
    }
  }

  /** Only thread `t` can start or stop being between two classes. */
  lemma GainersUpdate(s: State, t: Tid, s': State)
    requires Moves(s, t, s')
    ensures |Gainers(s')| - (if s'.pcs[t].Gained() then 1 else 0) == |Gainers(s)| - (if s.pcs[t].Gained() then 1 else 0)
  {
    hide Pc.Gained;
    OneLess(Gainers(s), t);
    OneLess(Gainers(s'), t);
    assert Gainers(s') - {t} == Gainers(s) - {t};
  }

  lemma OneLess(a: set<Tid>, t: Tid)
    ensures |a| == |a - {t}| + (if t in a then 1 else 0)
  {
    if t !in a { assert a - {t} == a; }
  }

  lemma CachedFrame(g: Config, s: State, s': State)
    requires Cached(g, s) && (s'.slots, s'.size) == (s.slots, s.size)
    ensures Cached(g, s')
  {
  }
}
