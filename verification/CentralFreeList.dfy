/** The central free lists and the thread caches they serve, under any number of threads.

    Every step below is what one thread does between two points where another
    thread can interfere: taking or dropping a lock, or the work inside a
    critical section up to the next such point.  Locks are dropped in the middle
    of operations, as the code does: around the page heap when a span becomes
    empty or a new one is needed, and around another size class when a slot of
    its transfer cache is taken over.  A thread's own lists are touched by no other
    thread, so that what it does with them between central operations is one step. */
module CentralFreeList {
  import opened Wrappers
  import opened Sequences

  type Class = nat
  type Tid = nat
  type SpanId = nat

  /** Per size class: objects per span, objects per transfer-cache slot, most slots. */
  datatype Config = Config(capacity: seq<nat>, batch: seq<nat>, most: seq<nat>)

  /** Object number `k` of a span. */
  datatype Obj = Obj(id: SpanId, k: nat)

  /** A span on the lists of class `cl`: its free objects and the number of the others. */
  datatype SpanRec = SpanRec(cl: Class, free: seq<Obj>, refcount: int)

  /** Where an object is: on its span's free list, in a transfer-cache slot, carried by a
      thread through a central list operation, on a list of a thread cache, or with the application. */
  datatype Place = InSpan | InSlot(c: Class, i: nat) | Carried(t: Tid) | InThread(t: Tid, c: Class) | App

  // Progress of a thread that puts objects back into their spans under the lock of one class.
  datatype Phase = Locked | Dropped(id: SpanId) | Paging(id: SpanId) | Relock

  // What follows: nothing, or going back to insert `objs` into class `c` with a slot gained.
  datatype Then = Done | Insert(c: Class, objs: seq<Obj>, tries: nat)

  datatype Pc =
    | Resting
    | InsWait(c: Class, objs: seq<Obj>)
    | Ins(c: Class, objs: seq<Obj>, tries: nat, gained: bool)
    | ShrWait(c: Class, objs: seq<Obj>, tries: nat, v: Class)
    | Shr(c: Class, objs: seq<Obj>, tries: nat, v: Class)
    | Rel(k: Class, list: seq<Obj>, phase: Phase, then_: Then)
    | InsBack(c: Class, objs: seq<Obj>, tries: nat, gained: bool)
    | RemWait(c: Class, n: nat)
    | Rem(c: Class, n: nat)
    | PopWait(c: Class, n: nat)
    | PopPaging(c: Class, n: nat)
    | PopBack(c: Class, n: nat, got: Option<SpanId>)
    | PopPut(c: Class, n: nat, got: Option<SpanId>)
    | Fetch(c: Class, n: nat, list: seq<Obj>)
  {
    /** The size-class lock the thread has. */
    function Holds(): Option<Class> {
      match this
      case Ins(c, _, _, _) => Some(c)
      case Shr(_, _, _, v) => Some(v)
      case Rel(k, _, phase, _) => if phase == Locked then Some(k) else None
      case Rem(c, _) => Some(c)
      case PopPut(c, _, _) => Some(c)
      case Fetch(c, _, _) => Some(c)
      case _ => None
    }

    predicate HoldsPage() { PopPaging? || (Rel? && phase.Paging?) }

    /** The size-class lock the thread waits for, and what it does once it has it. */
    function Wants(): Option<Class> {
      match this
      case InsWait(c, _) => Some(c)
      case ShrWait(_, _, _, v) => Some(v)
      case Rel(k, _, phase, _) => if phase == Relock then Some(k) else None
      case InsBack(c, _, _, _) => Some(c)
      case RemWait(c, _) => Some(c)
      case PopBack(c, _, _) => Some(c)
      case _ => None
    }

    function OnLock(): Pc {
      match this
      case InsWait(c, objs) => Ins(c, objs, 0, false)
      case ShrWait(c, objs, tries, v) => Shr(c, objs, tries, v)
      case Rel(k, list, _, then_) => Rel(k, list, Locked, then_)
      case InsBack(c, objs, tries, gained) => Ins(c, objs, tries, gained)
      case RemWait(c, n) => Rem(c, n)
      case PopBack(c, n, got) => PopPut(c, n, got)
      case _ => this
    }

    /** The objects the thread carries. */
    function Carries(): seq<Obj> {
      match this
      case InsWait(_, objs) => objs
      case Ins(_, objs, _, _) => objs
      case ShrWait(_, objs, _, _) => objs
      case Shr(_, objs, _, _) => objs
      case Rel(_, list, _, then_) => list + (if then_.Insert? then then_.objs else [])
      case InsBack(_, objs, _, _) => objs
      case Fetch(_, _, list) => list
      case _ => []
    }

    /** The span the thread alone knows about. */
    function Owns(): Option<SpanId> {
      match this
      case Rel(_, _, phase, _) => (match phase case Dropped(id) => Some(id) case Paging(id) => Some(id) case _ => None)
      case PopBack(_, _, got) => got
      case PopPut(_, _, got) => got
      case _ => None
    }

    /** The thread has shrunk another class's cache and not yet grown its own. */
    predicate Gained() {
      (Ins? && gained) || (InsBack? && gained) || (Rel? && then_.Insert?)
    }
  }

  datatype State = State(
    locks: seq<Option<Tid>>,
    pageLock: Option<Tid>,
    taken: set<SpanId>,
    spans: map<SpanId, SpanRec>,
    nonempty: seq<seq<SpanId>>,
    empty: seq<seq<SpanId>>,
    counter: seq<int>,
    numSpans: seq<int>,
    slots: seq<seq<seq<Obj>>>,
    size: seq<int>,
    cached: map<Tid, seq<seq<Obj>>>,
    pcs: map<Tid, Pc>,
    loc: map<Obj, Place>)

  datatype Step =
    | Alloc(t: Tid, c: Class)
    | Free(t: Tid, o: Obj)
    | FreeDirect(t: Tid, o: Obj)
    | StartInsert(t: Tid, c: Class, n: nat)
    | StartRemove(t: Tid, c: Class, n: nat)
    | Acquire(t: Tid)
    | AcquirePage(t: Tid)
    | InsPush(t: Tid)
    | InsMiss(t: Tid)
    | InsTry(t: Tid, v: Class)
    | InsRelease(t: Tid)
    | ShrFail(t: Tid)
    | ShrTake(t: Tid)
    | ShrForce(t: Tid)
    | RelDone(t: Tid)
    | RelOne(t: Tid)
    | RelLast(t: Tid)
    | PageDelete(t: Tid)
    | RemSlot(t: Tid)
    | RemSpans(t: Tid)
    | PopStart(t: Tid)
    | PageNew(t: Tid, got: Option<SpanId>)
    | Publish(t: Tid)
    | FetchOne(t: Tid)
    | FetchDone(t: Tid)

  /** All objects of a new span. */
  function Fresh(id: SpanId, n: nat): (s: seq<Obj>)
    ensures |s| == n && forall k | 0 <= k < n :: s[k] == Obj(id, k)
  {
    seq(n, (k: nat) => Obj(id, k))
  }

  function Move(loc: map<Obj, Place>, objs: seq<Obj>, p: Place): map<Obj, Place> {
    loc + map o | o in objs :: p
  }

  ghost predicate HasList(s: State, t: Tid, c: Class) { t in s.cached && c < |s.cached[t]| }

  /** Thread `t` takes the first `n` objects off its list of class `c`. */
  ghost function Popped(s: State, t: Tid, c: Class, n: nat): State
    requires HasList(s, t, c) && n <= |s.cached[t][c]|
  {
    s.(cached := s.cached[t := s.cached[t][c := s.cached[t][c][n..]]], loc := Move(s.loc, s.cached[t][c][..n], App))
  }

  /** Thread `t` puts `objs` at the head of its list of class `c`. */
  ghost function Pushed(s: State, t: Tid, c: Class, objs: seq<Obj>): State
    requires HasList(s, t, c)
  {
    s.(cached := s.cached[t := s.cached[t][c := objs + s.cached[t][c]]], loc := Move(s.loc, objs, InThread(t, c)))
  }

  /** Thread `t` begins to insert `objs` into central list `c`. */
  ghost function Inserting(s: State, t: Tid, c: Class, objs: seq<Obj>): State {
    s.(pcs := s.pcs[t := InsWait(c, objs)], loc := Move(s.loc, objs, Carried(t)))
  }

  /** All but the first object of a range fetched, which the application gets. */
  function Rest(objs: seq<Obj>): seq<Obj> { if objs == [] then [] else objs[1..] }

  /** The class of an object that the application has. */
  ghost predicate Owned(g: Config, s: State, o: Obj, c: Class) {
    o in s.loc && s.loc[o] == App && o.id in s.spans && s.spans[o.id].cl == c < |g.capacity|
  }

  /** There is one entry per size class everywhere, and threads only mention those classes. */
  ghost predicate Shaped(g: Config, s: State) {
    && |g.batch| == |g.most| == |g.capacity|
    && |s.locks| == |s.nonempty| == |s.empty| == |s.counter| == |s.numSpans| == |s.slots| == |s.size| == |g.capacity|
    && s.cached.Keys == s.pcs.Keys && (forall t | t in s.cached :: |s.cached[t]| == |g.capacity|)
    && (forall t | t in s.pcs :: KnownClasses(g, s.pcs[t]))
  }

  predicate KnownClasses(g: Config, pc: Pc) {
    match pc
    case Resting => true
    case ShrWait(c, _, _, v) => c < |g.capacity| && v < |g.capacity|
    case Shr(c, _, _, v) => c < |g.capacity| && v < |g.capacity|
    case Rel(k, _, _, then_) => k < |g.capacity| && (then_.Insert? ==> then_.c < |g.capacity|)
    case _ => pc.c < |g.capacity|
  }

  ghost predicate Next(g: Config, s: State, a: Step, s': State)
    requires Shaped(g, s)
  {
    match a
    case Alloc(_, _) | Free(_, _) | FreeDirect(_, _) | StartInsert(_, _, _) | StartRemove(_, _, _) =>
      ThreadStep(g, s, a, s')
    case Acquire(_) | AcquirePage(_) =>
      LockStep(g, s, a, s')
    case InsPush(_) | InsMiss(_) | InsTry(_, _) | InsRelease(_) | ShrFail(_) | ShrTake(_) | ShrForce(_) =>
      InsertStep(g, s, a, s')
    case RelDone(_) | RelOne(_) | RelLast(_) | PageDelete(_) =>
      ReleaseStep(g, s, a, s')
    case RemSlot(_) | RemSpans(_) | PopStart(_) | PageNew(_, _) | Publish(_) | FetchOne(_) | FetchDone(_) =>
      RemoveStep(g, s, a, s')
  }

  /** What a thread does outside the central lists, up to entering them. */
  ghost predicate ThreadStep(g: Config, s: State, a: Step, s': State)
    requires Shaped(g, s)
  {
    a.t in s.pcs && var t := a.t; var pc := s.pcs[t];
    match a
    case Alloc(_, c) =>
      pc == Resting && c < |g.capacity| && s.cached[t][c] != [] && s' == Popped(s, t, c, 1)
    // Any thread may free an object of the application, whichever allocated it.
    case Free(_, o) =>
      && pc == Resting && o.id in s.spans && var c := s.spans[o.id].cl;
      && Owned(g, s, o, c) && s' == Pushed(s, t, c, [o])
    // Without a thread cache, an object goes straight to its central list.
    case FreeDirect(_, o) =>
      && pc == Resting && o.id in s.spans && var c := s.spans[o.id].cl;
      && Owned(g, s, o, c) && s' == Inserting(s, t, c, [o])
    case StartInsert(_, c, n) =>
      && pc == Resting && c < |g.capacity| && n <= |s.cached[t][c]|
      && s' == Inserting(Popped(s, t, c, n), t, c, s.cached[t][c][..n])
    case StartRemove(_, c, n) =>
      pc == Resting && c < |g.capacity| && n > 0 && s.cached[t][c] == [] && s' == s.(pcs := s.pcs[t := RemWait(c, n)])
    case _ => false
  }

  /** Taking a lock. */
  ghost predicate LockStep(g: Config, s: State, a: Step, s': State)
    requires Shaped(g, s)
  {
    a.t in s.pcs && var t := a.t; var pc := s.pcs[t];
    match a
    case Acquire(_) =>
      && pc.Wants().Some? && var c := pc.Wants().value;
      && s.locks[c] == None
      && s' == s.(locks := s.locks[c := Some(t)], pcs := s.pcs[t := pc.OnLock()])
    case AcquirePage(_) =>
      && s.pageLock == None && ((pc.Rel? && pc.phase.Dropped?) || pc.PopWait?)
      && var next := if pc.PopWait? then PopPaging(pc.c, pc.n) else Rel(pc.k, pc.list, Paging(pc.phase.id), pc.then_);
      && s' == s.(pageLock := Some(t), pcs := s.pcs[t := next])
    case _ => false
  }

  /** Inserting a range, and shrinking another class's cache for it. */
  ghost predicate InsertStep(g: Config, s: State, a: Step, s': State)
    requires Shaped(g, s)
  {
    a.t in s.pcs && var t := a.t; var pc := s.pcs[t];
    match a
    // A full batch goes into a slot: into a vacant one, or into one gained from another class.
    case InsPush(_) =>
      && pc.Ins? && |pc.objs| == g.batch[pc.c]
      && (if pc.gained then s.size[pc.c] < g.most[pc.c] else pc.tries == 0 && |s.slots[pc.c]| < s.size[pc.c])
      && s' == s.(locks := s.locks[pc.c := None], pcs := s.pcs[t := Resting],
                  size := if pc.gained then s.size[pc.c := s.size[pc.c] + 1] else s.size,
                  slots := s.slots[pc.c := s.slots[pc.c] + [pc.objs]],
                  loc := Move(s.loc, pc.objs, InSlot(pc.c, |s.slots[pc.c]|)))
    // The class tried is this one, or its cache looks unfit without taking its lock.
    case InsMiss(_) =>
      && pc.Ins? && MayTry(g, s, pc) && s' == s.(pcs := s.pcs[t := Ins(pc.c, pc.objs, pc.tries + 1, false)])
    case InsTry(_, v) =>
      && pc.Ins? && MayTry(g, s, pc) && v != pc.c && v < |g.capacity|
      && s' == s.(locks := s.locks[pc.c := None], pcs := s.pcs[t := ShrWait(pc.c, pc.objs, pc.tries + 1, v)])
    case InsRelease(_) =>
      && pc.Ins?
      && (|| |pc.objs| != g.batch[pc.c]
          || (pc.gained && s.size[pc.c] >= g.most[pc.c])
          || (!pc.gained && pc.tries == 0 && |s.slots[pc.c]| >= s.size[pc.c] && s.size[pc.c] == g.most[pc.c])
          || (!pc.gained && pc.tries == 2))
      && s' == s.(pcs := s.pcs[t := Rel(pc.c, pc.objs, Locked, Done)])
    case ShrFail(_) =>
      && pc.Shr?
      && (s.size[pc.v] == 0 || (|s.slots[pc.v]| == s.size[pc.v] && pc.tries == 1))
      && s' == s.(locks := s.locks[pc.v := None], pcs := s.pcs[t := InsBack(pc.c, pc.objs, pc.tries, false)])
    case ShrTake(_) =>
      && pc.Shr? && s.size[pc.v] != 0 && |s.slots[pc.v]| != s.size[pc.v]
      && s' == s.(locks := s.locks[pc.v := None], size := s.size[pc.v := s.size[pc.v] - 1],
                  pcs := s.pcs[t := InsBack(pc.c, pc.objs, pc.tries, true)])
    // The second try may empty a full slot to take it over.
    case ShrForce(_) =>
      && pc.Shr? && s.size[pc.v] != 0 && |s.slots[pc.v]| == s.size[pc.v] && pc.tries == 2
      && var last := |s.slots[pc.v]| - 1;
      && s' == s.(size := s.size[pc.v := s.size[pc.v] - 1], slots := s.slots[pc.v := s.slots[pc.v][..last]],
                  loc := Move(s.loc, s.slots[pc.v][last], Carried(t)),
                  pcs := s.pcs[t := Rel(pc.v, s.slots[pc.v][last], Locked, Insert(pc.c, pc.objs, pc.tries))])
    case _ => false
  }

  /** Putting objects back into their spans. */
  ghost predicate ReleaseStep(g: Config, s: State, a: Step, s': State)
    requires Shaped(g, s)
  {
    a.t in s.pcs && var t := a.t; var pc := s.pcs[t];
    match a
    case RelDone(_) =>
      && pc.Rel? && pc.phase == Locked && pc.list == []
      && s' == s.(locks := s.locks[pc.k := None],
                  pcs := s.pcs[t := match pc.then_
                                    case Done => Resting
                                    case Insert(c, objs, tries) => InsBack(c, objs, tries, true)])
    // One object goes back to a span that keeps others in use.
    case RelOne(_) =>
      && pc.Rel? && pc.phase == Locked && pc.list != []
      && var o := pc.list[0];
      && o.id in s.spans
      && var sp := s.spans[o.id];
      && sp.refcount != 1
      && s' == s.(pcs := s.pcs[t := Rel(pc.k, pc.list[1..], Locked, pc.then_)], loc := s.loc[o := InSpan],
                  spans := s.spans[o.id := sp.(free := [o] + sp.free, refcount := sp.refcount - 1)],
                  counter := s.counter[pc.k := s.counter[pc.k] + 1],
                  nonempty := if sp.free == [] then s.nonempty[pc.k := [o.id] + s.nonempty[pc.k]] else s.nonempty,
                  empty := if sp.free == [] then s.empty[pc.k := Without(s.empty[pc.k], o.id)] else s.empty)
    // The last object in use comes back: the span leaves the lists, and the lock is dropped.
    case RelLast(_) =>
      && pc.Rel? && pc.phase == Locked && pc.list != []
      && var o := pc.list[0];
      && o.id in s.spans
      && var sp := s.spans[o.id];
      && sp.refcount == 1
      && s' == s.(locks := s.locks[pc.k := None],
                  pcs := s.pcs[t := Rel(pc.k, pc.list[1..], Dropped(o.id), pc.then_)],
                  loc := map x | x in s.loc && x.id != o.id :: s.loc[x],
                  spans := s.spans - {o.id},
                  counter := s.counter[pc.k := s.counter[pc.k] + 1 - g.capacity[pc.k]],
                  numSpans := s.numSpans[pc.k := s.numSpans[pc.k] - 1],
                  nonempty := s.nonempty[pc.k := Without(s.nonempty[pc.k], o.id)],
                  empty := s.empty[pc.k := Without(s.empty[pc.k], o.id)])
    case PageDelete(_) =>
      && pc.Rel? && pc.phase.Paging?
      && s' == s.(pageLock := None, taken := s.taken - {pc.phase.id},
                  pcs := s.pcs[t := Rel(pc.k, pc.list, Relock, pc.then_)])
    case _ => false
  }

  /** Removing a range. */
  ghost predicate RemoveStep(g: Config, s: State, a: Step, s': State)
    requires Shaped(g, s)
  {
    a.t in s.pcs && var t := a.t; var pc := s.pcs[t];
    match a
    case RemSlot(_) =>
      && pc.Rem? && pc.n == g.batch[pc.c] && s.slots[pc.c] != []
      && s' == Pushed(SlotGiven(s, t), t, pc.c, Rest(s.slots[pc.c][|s.slots[pc.c]| - 1]))
    case RemSpans(_) =>
      && pc.Rem? && (pc.n != g.batch[pc.c] || s.slots[pc.c] == []) && s.nonempty[pc.c] != []
      && s' == s.(pcs := s.pcs[t := Fetch(pc.c, pc.n, [])])
    case PopStart(_) =>
      && pc.Rem? && (pc.n != g.batch[pc.c] || s.slots[pc.c] == []) && s.nonempty[pc.c] == []
      && s' == s.(locks := s.locks[pc.c := None], pcs := s.pcs[t := PopWait(pc.c, pc.n)])
    case PageNew(_, got) =>
      && pc.PopPaging? && (got.Some? ==> got.value !in s.taken)
      && s' == s.(pageLock := None, pcs := s.pcs[t := PopBack(pc.c, pc.n, got)],
                  taken := if got.Some? then s.taken + {got.value} else s.taken)
    case Publish(_) =>
      && pc.PopPut?
      && var sp := SpanRec(pc.c, if pc.got.Some? then Fresh(pc.got.value, g.capacity[pc.c]) else [], 0);
      && var fetch := s.pcs[t := Fetch(pc.c, pc.n, [])];
      && s' == if pc.got == None then s.(pcs := fetch)
               else s.(pcs := fetch, spans := s.spans[pc.got.value := sp], loc := Move(s.loc, sp.free, InSpan),
                       nonempty := s.nonempty[pc.c := [pc.got.value] + s.nonempty[pc.c]],
                       numSpans := s.numSpans[pc.c := s.numSpans[pc.c] + 1],
                       counter := s.counter[pc.c := s.counter[pc.c] + g.capacity[pc.c]])
    case FetchOne(_) =>
      && pc.Fetch? && |pc.list| < pc.n && s.nonempty[pc.c] != []
      && var id := s.nonempty[pc.c][0];
      && id in s.spans
      && var sp := s.spans[id];
      && sp.free != []
      && var o := sp.free[0];
      && s' == s.(pcs := s.pcs[t := Fetch(pc.c, pc.n, [o] + pc.list)], loc := s.loc[o := Carried(t)],
                  spans := s.spans[id := sp.(free := sp.free[1..], refcount := sp.refcount + 1)],
                  counter := s.counter[pc.c := s.counter[pc.c] - 1],
                  nonempty := if |sp.free| == 1 then s.nonempty[pc.c := s.nonempty[pc.c][1..]] else s.nonempty,
                  empty := if |sp.free| == 1 then s.empty[pc.c := [id] + s.empty[pc.c]] else s.empty)
    case FetchDone(_) =>
      && pc.Fetch? && (|pc.list| == pc.n || s.nonempty[pc.c] == [])
      && s' == Pushed(FetchGiven(s, t), t, pc.c, Rest(pc.list))
    case _ => false
  }

  /** The last slot in use is handed over, and the lock dropped. */
  ghost function SlotGiven(s: State, t: Tid): State
    requires t in s.pcs && s.pcs[t].Rem? && var c := s.pcs[t].c; c < |s.locks| == |s.slots| && s.slots[c] != []
  {
    var c := s.pcs[t].c;
    var last := |s.slots[c]| - 1;
    s.(locks := s.locks[c := None], pcs := s.pcs[t := Resting], slots := s.slots[c := s.slots[c][..last]],
       loc := Move(s.loc, s.slots[c][last], App))
  }

  /** What was fetched from the spans is handed over, and the lock dropped. */
  ghost function FetchGiven(s: State, t: Tid): State
    requires t in s.pcs && s.pcs[t].Fetch? && s.pcs[t].c < |s.locks|
  {
    s.(locks := s.locks[s.pcs[t].c := None], pcs := s.pcs[t := Resting], loc := Move(s.loc, s.pcs[t].list, App))
  }

  /** A full batch, no vacant slot, and room to grow at the first try; at most two tries. */
  ghost predicate MayTry(g: Config, s: State, pc: Pc)
    requires pc.Ins? && Shaped(g, s) && KnownClasses(g, pc)
  {
    && |pc.objs| == g.batch[pc.c] && !pc.gained && pc.tries < 2
    && (pc.tries == 0 ==> |s.slots[pc.c]| >= s.size[pc.c] && s.size[pc.c] != g.most[pc.c])
  }
}
