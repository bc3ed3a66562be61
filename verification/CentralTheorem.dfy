/** The central free lists over whole runs. */
module CentralTheorem {
  import opened Wrappers
  import opened Sequences
  import opened CentralFreeList
  import opened CentralInvariant
  import opened CentralSteps
  import opened CentralMoves
  import opened CentralThreads
  import opened CentralSpans
  import opened CentralApplication

  ghost predicate Init(g: Config, s: State) {
    && Shaped(g, s) && (forall c | 0 <= c < |g.capacity| :: g.capacity[c] >= 1)
    && (forall c | 0 <= c < |s.locks| ::
          && s.locks[c] == None && s.nonempty[c] == [] && s.empty[c] == [] && s.slots[c] == []
          && s.counter[c] == s.numSpans[c] == 0 && s.size[c] == if g.most[c] < 16 then g.most[c] else 16)
    && s.pageLock == None && s.taken == {} && s.spans == map[] && s.loc == map[]
    && (forall t | t in s.pcs :: s.pcs[t] == Resting)
    && (forall t: Tid, c: Class | HasList(s, t, c) :: s.cached[t][c] == [])
  }

  lemma InitInv(g: Config, s: State)
    requires Init(g, s)
    ensures Inv(g, s, Sum(s.size))
  {
    hide Sum;
    assert Gainers(s) == {};
  }

  lemma NextKeepsInv(g: Config, s: State, a: Step, s': State, total: int)
    requires Inv(g, s, total) && Next(g, s, a, s')
    ensures Inv(g, s', total)
  {
    hide Inv, ThreadStep, LockStep, InsertStep, ReleaseStep, RemoveStep;
    match a
    case Alloc(t, c) => AllocKeeps(g, s, t, c, s', total);
    case Free(t, o) => FreeKeeps(g, s, t, o, s', total);
    case FreeDirect(t, o) => FreeDirectKeeps(g, s, t, o, s', total);
    case StartInsert(t, c, n) => StartInsertKeeps(g, s, t, c, n, s', total);
    case StartRemove(t, c, n) => StartRemoveKeeps(g, s, t, c, n, s', total);
    case Acquire(t) => AcquireKeeps(g, s, t, s', total);
    case AcquirePage(t) => AcquirePageKeeps(g, s, t, s', total);
    case InsPush(t) => InsPushKeeps(g, s, t, s', total);
    case InsMiss(t) => InsMissKeeps(g, s, t, s', total);
    case InsTry(t, v) => InsTryKeeps(g, s, t, v, s', total);
    case InsRelease(t) => InsReleaseKeeps(g, s, t, s', total);
    case ShrFail(t) => ShrFailKeeps(g, s, t, s', total);
    case ShrTake(t) => ShrTakeKeeps(g, s, t, s', total);
    case ShrForce(t) => ShrForceKeeps(g, s, t, s', total);
    case RelDone(t) => RelDoneKeeps(g, s, t, s', total);
    case RelOne(t) => RelOneKeeps(g, s, t, s', total);
    case RelLast(t) => RelLastKeeps(g, s, t, s', total);
    case PageDelete(t) => PageDeleteKeeps(g, s, t, s', total);
    case RemSlot(t) => RemSlotKeeps(g, s, t, s', total);
    case RemSpans(t) => RemSpansKeeps(g, s, t, s', total);
    case PopStart(t) => PopStartKeeps(g, s, t, s', total);
    case PageNew(t, got) => PageNewKeeps(g, s, t, got, s', total);
    case Publish(t) => PublishKeeps(g, s, t, s', total);
    case FetchOne(t) => FetchOneKeeps(g, s, t, s', total);
    case FetchDone(t) => FetchDoneKeeps(g, s, t, s', total);
  }

  ghost predicate Run(g: Config, states: seq<State>, steps: seq<Step>) {
    && |states| == |steps| + 1 && Init(g, states[0])
    && forall i | 0 <= i < |steps| :: Shaped(g, states[i]) && Next(g, states[i], steps[i], states[i + 1])
  }

  lemma {:induction false} RunInv(g: Config, states: seq<State>, steps: seq<Step>, i: nat)
    requires Run(g, states, steps) && i < |states|
    ensures Inv(g, states[i], Sum(states[0].size))
  {
    hide Inv, Init, Next, Sum, Shaped;
    if i == 0 {
      InitInv(g, states[0]);
    } else {
      RunInv(g, states, steps, i - 1);
      NextKeepsInv(g, states[i - 1], steps[i - 1], states[i], Sum(states[0].size));
    }
  }

  /** The object is in this place, read off the lists themselves; the application's objects are those handed out. */
  ghost predicate IsAt(s: State, o: Obj, p: Place) {
    match p
    case InSpan => exists id :: id in s.spans && o in s.spans[id].free
    case InSlot(c, i) => c < |s.slots| && i < |s.slots[c]| && o in s.slots[c][i]
    case Carried(t) => t in s.pcs && o in s.pcs[t].Carries()
    case InThread(t, c) => HasList(s, t, c) && o in s.cached[t][c]
    case App => o in Held(s)
  }

  /** No list has an object twice. */
  ghost predicate NoRepeats(s: State) {
    && (forall id | id in s.spans :: Distinct(s.spans[id].free))
    && (forall c, i | 0 <= c < |s.slots| && 0 <= i < |s.slots[c]| :: Distinct(s.slots[c][i]))
    && (forall t | t in s.pcs :: Distinct(s.pcs[t].Carries()))
    && (forall t: Tid, c: Class | HasList(s, t, c) :: Distinct(s.cached[t][c]))
  }

  /** The objects carved from the listed spans. */
  ghost predicate Carved(g: Config, s: State, o: Obj) {
    o.id in s.spans && s.spans[o.id].cl < |g.capacity| && o.k < g.capacity[s.spans[o.id].cl]
  }

  /** In every run, each object carved from a listed span is in exactly one place, and once in it:
      on its span's list, in a slot, in transit, on a thread's list or with the application. */
  lemma OnePlace(g: Config, states: seq<State>, steps: seq<Step>, n: nat, o: Obj)
    requires Run(g, states, steps) && n < |states|
    ensures Carved(g, states[n], o) <==> exists p :: IsAt(states[n], o, p)
    ensures forall p, q | IsAt(states[n], o, p) && IsAt(states[n], o, q) :: p == q
    ensures NoRepeats(states[n])
  {
    hide Run, IsAt, NoRepeats, Carved, Inv;
    RunInv(g, states, steps, n);
    var s, total := states[n], Sum(states[0].size);
    forall p ensures IsAt(s, o, p) <==> o in s.loc && s.loc[o] == p { PlacedOnce(g, s, o, p, total); }
    CarvedIn(g, s, o, total);
    if o in s.loc { assert IsAt(s, o, s.loc[o]); }
  }

  lemma CarvedIn(g: Config, s: State, o: Obj, total: int)
    requires Inv(g, s, total)
    ensures (Carved(g, s, o) <==> o in s.loc) && NoRepeats(s)
  {
    hide Counts, Cached, Budget, Control, Classes, Distinct, Pc.Carries;
  }

  lemma PlacedOnce(g: Config, s: State, o: Obj, p: Place, total: int)
    requires Inv(g, s, total)
    ensures IsAt(s, o, p) <==> o in s.loc && s.loc[o] == p
  {
    hide Counts, Cached, Budget, Control, Classes, Distinct, Pc.Carries;
    match p
    case InSpan =>
      if o in s.loc && s.loc[o] == InSpan { assert o in s.spans[o.id].free; }
    case InSlot(c, i) =>
      if c < |s.slots| && i < |s.slots[c]| { assert o in s.slots[c][i] <==> o in s.loc && s.loc[o] == InSlot(c, i); }
    case Carried(t) =>
      if t in s.pcs { assert o in s.pcs[t].Carries() <==> o in s.loc && s.loc[o] == Carried(t); }
    case InThread(t, c) =>
      if HasList(s, t, c) { assert o in s.cached[t][c] <==> o in s.loc && s.loc[o] == InThread(t, c); }
    case App =>
  }

  /** In every run: no object is lost, the counts of every span and list are right, and what a
      listed span counts as in use are exactly its objects in other places. */
  lemma CountsInEveryRun(g: Config, states: seq<State>, steps: seq<Step>, n: nat)
    requires Run(g, states, steps) && n < |states|
    ensures var s := states[n];
            && (forall o ::
                  o in s.loc <==>
                  o.id in s.spans && s.spans[o.id].cl < |g.capacity| && o.k < g.capacity[s.spans[o.id].cl])
            && (forall id | id in s.spans && s.spans[id].cl < |g.capacity| ::
                  s.spans[id].refcount >= 0 && s.spans[id].refcount + |s.spans[id].free| == g.capacity[s.spans[id].cl])
            && (forall id | id in s.spans :: s.spans[id].refcount == |InUse(s, id)|)
            && Lists(s) && Totals(s)
  {
    hide Sum, SumFree, Lists, Totals, Control, Cached, InUse, FreePlaces, SlotPlaces, CarriedPlaces, ThreadPlaces;
    hide Classes;
    RunInv(g, states, steps, n);
    var s := states[n];
    forall id | id in s.spans ensures s.spans[id].refcount == |InUse(s, id)| { RefcountIsInUse(g, s, id); }
  }

  /** In every run: the transfer caches stay within their limits and, together, within their
      initial number of slots; no thread ever has two size-class locks, or one and the page heap's. */
  lemma CachesAndLocksInEveryRun(g: Config, states: seq<State>, steps: seq<Step>, n: nat)
    requires Run(g, states, steps) && n < |states|
    ensures var s := states[n];
            && |s.slots| == |s.size| == |g.most|
            && (forall c | 0 <= c < |s.slots| :: |s.slots[c]| <= s.size[c] <= g.most[c])
            && Sum(s.size) <= Sum(states[0].size)
            && (forall c, d, t | 0 <= c < |s.locks| && 0 <= d < |s.locks| && s.locks[c] == Some(t)
                  && s.locks[d] == Some(t) :: c == d)
            && (forall c, t | 0 <= c < |s.locks| && s.locks[c] == Some(t) :: s.pageLock != Some(t))
  {
    hide Sum, Objects, Counts;
    RunInv(g, states, steps, n);
  }

  /** In every run, an object is handed out only while the application does not have it, stays with the
      application until it is freed, and is handed out by no other step than an allocation. */
  lemma HandedOutOnce(g: Config, states: seq<State>, steps: seq<Step>, n: nat)
    requires Run(g, states, steps) && n < |steps|
    ensures steps[n].t in states[n].pcs && Settles(states[n], steps[n], states[n + 1])
  {
    hide Inv, Init, Settles;
    RunInv(g, states, steps, n);
    StepSettles(g, states[n], steps[n], states[n + 1], Sum(states[0].size));
  }
}
