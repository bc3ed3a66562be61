/** What the application has been given and has not yet returned. */
module CentralApplication {
  import opened Sequences
  import opened CentralFreeList
  import opened CentralInvariant
  import opened CentralMoves
  import opened CentralThreads
  import opened CentralSpans

  ghost function Held(s: State): set<Obj> { set o | o in s.loc && s.loc[o] == App }

  /** The object that a step hands to the application: the head of the thread's list, or the first of
      a range fetched. */
  ghost function Given(s: State, a: Step): set<Obj>
    requires a.t in s.pcs
  {
    var pc := s.pcs[a.t];
    match a
    case Alloc(t, c) => if HasList(s, t, c) && s.cached[t][c] != [] then {s.cached[t][c][0]} else {}
    case RemSlot(_) =>
      if pc.Rem? && pc.c < |s.slots| && s.slots[pc.c] != [] then FirstOf(s.slots[pc.c][|s.slots[pc.c]| - 1]) else {}
    case FetchDone(_) => if pc.Fetch? then FirstOf(pc.list) else {}
    case _ => {}
  }

  ghost function FirstOf(objs: seq<Obj>): set<Obj> { if objs == [] then {} else {objs[0]} }

  ghost function Returned(a: Step): set<Obj> {
    match a
    case Free(_, o) => {o}
    case FreeDirect(_, o) => {o}
    case _ => {}
  }

  /** What a step does with the application's objects. */
  ghost predicate Settles(s: State, a: Step, s': State)
    requires a.t in s.pcs
  {
    Held(s') == Held(s) - Returned(a) + Given(s, a) && Returned(a) <= Held(s) && Given(s, a) !! Held(s)
  }

  lemma StepSettles(g: Config, s: State, a: Step, s': State, total: int)
    requires Inv(g, s, total) && Next(g, s, a, s')
    ensures Settles(s, a, s')
  {
    hide Inv, Settles, Given, Returned, ThreadStep, LockStep, InsertStep, ReleaseStep, RemoveStep;
    match a
    case Alloc(t, c) => AllocSettles(g, s, t, c, s', total);
    case Free(t, o) => ReturnSettles(g, s, a, s', total);
    case FreeDirect(t, o) => ReturnSettles(g, s, a, s', total);
    case StartInsert(t, c, n) => StartInsertSettles(g, s, t, c, n, s', total);
    case InsPush(t) => InsPushSettles(g, s, t, s', total);
    case ShrForce(t) => ShrForceSettles(g, s, t, s', total);
    case RelOne(t) => RelSettles(g, s, a, s', total);
    case RelLast(t) => RelSettles(g, s, a, s', total);
    case RemSlot(t) => RemSlotSettles(g, s, t, s', total);
    case Publish(t) => PublishSettles(g, s, t, s', total);
    case FetchOne(t) => FetchOneSettles(g, s, t, s', total);
    case FetchDone(t) => FetchDoneSettles(g, s, t, s', total);
    case _ => QuietSettles(g, s, a, s', total);
  }

  /** Steps that move no object. */
  ghost predicate Quiet(a: Step) {
    !(a.Alloc? || a.Free? || a.FreeDirect? || a.StartInsert? || a.InsPush? || a.ShrForce? || a.RelOne? || a.RelLast?
      || a.RemSlot? || a.Publish? || a.FetchOne? || a.FetchDone?)
  }

  lemma QuietSettles(g: Config, s: State, a: Step, s': State, total: int)
    requires Inv(g, s, total) && Next(g, s, a, s') && Quiet(a)
    ensures Settles(s, a, s')
  {
    hide Locking, Private, Objects, Counts, Cached, Budget, Move, Popped, Pushed, Inserting, SlotGiven, FetchGiven;
    hide Fresh, Held;
    assert s'.loc == s.loc;
    SameHeld(s, s');
  }

  lemma SameHeld(s: State, s': State)
    requires s'.loc == s.loc
    ensures Held(s') == Held(s)
  {
  }

  /** Objects that the application does not have move, but not to it. */
  lemma MovedPast(s: State, objs: seq<Obj>, q: Place, s': State)
    requires s'.loc == Move(s.loc, objs, q) && q != App && forall o | o in objs :: o in s.loc ==> s.loc[o] != App
    ensures Held(s') == Held(s)
  {
  }

  lemma MoveTwice(loc: map<Obj, Place>, a: seq<Obj>, b: seq<Obj>, q: Place, loc': map<Obj, Place>)
    requires loc' == Move(Move(loc, a, App), b, q)
    ensures forall o :: o in loc' <==> o in loc || o in a || o in b
    ensures forall o | o in loc' :: loc'[o] == if o in b then q else if o in a then App else loc[o]
  {
  }

  lemma FirstAndRest(objs: seq<Obj>)
    requires Distinct(objs)
    ensures forall o :: o in objs <==> o in FirstOf(objs) || o in Rest(objs)
    ensures forall o | o in FirstOf(objs) :: o !in Rest(objs)
  {
    hide Distinct;
    if objs != [] {
      assert objs == [objs[0]] + Rest(objs);
      TailDistinct(objs[0], Rest(objs));
    }
  }

  /** All of `objs` goes to the application, and `Rest(objs)` on from it. */
  lemma FirstGiven(s: State, objs: seq<Obj>, t: Tid, c: Class, s': State)
    requires s'.loc == Move(Move(s.loc, objs, App), Rest(objs), InThread(t, c))
    requires Distinct(objs) && forall o | o in objs :: o in s.loc && s.loc[o] != App
    ensures Held(s') == Held(s) + FirstOf(objs) && FirstOf(objs) !! Held(s)
  {
    hide Distinct, Move, FirstOf, Rest;
    FirstAndRest(objs);
    MoveTwice(s.loc, objs, Rest(objs), InThread(t, c), s'.loc);
  }

  /** One object joins the application. */
  lemma MovedOn(s: State, o: Obj, s': State)
    requires s'.loc == Move(s.loc, [o], App) && o in s.loc && s.loc[o] != App
    ensures Held(s') == Held(s) + {o} && o !in Held(s)
  {
  }

  lemma AllocSettles(g: Config, s: State, t: Tid, c: Class, s': State, total: int)
    requires Inv(g, s, total) && ThreadStep(g, s, Alloc(t, c), s')
    ensures Settles(s, Alloc(t, c), s')
  {
    hide Locking, Private, Counts, Cached, Budget, Existing, FreePlaces, SlotPlaces, CarriedPlaces, ThreadPlaces;
    hide Classes;
    hide Distinct, Move, Held;
    ListAt(s, t, c);
    var o := s.cached[t][c][0];
    assert o in s.cached[t][c] && s.cached[t][c][..1] == [o];
    MovedOn(s, o, s');
  }

  /** One object leaves the application. */
  lemma MovedOff(s: State, o: Obj, q: Place, s': State)
    requires s'.loc == Move(s.loc, [o], q) && q != App && o in s.loc && s.loc[o] == App
    ensures Held(s') == Held(s) - {o} && o in Held(s)
  {
  }

  lemma ReturnSettles(g: Config, s: State, a: Step, s': State, total: int)
    requires Inv(g, s, total) && ThreadStep(g, s, a, s') && (a.Free? || a.FreeDirect?)
    ensures Settles(s, a, s')
  {
    hide Locking, Private, Objects, Counts, Cached, Budget, Move, Held;
    MovedOff(s, a.o, if a.Free? then InThread(a.t, s.spans[a.o.id].cl) else Carried(a.t), s');
  }

  lemma StartInsertSettles(g: Config, s: State, t: Tid, c: Class, n: nat, s': State, total: int)
    requires Inv(g, s, total) && ThreadStep(g, s, StartInsert(t, c, n), s')
    ensures Settles(s, StartInsert(t, c, n), s')
  {
    hide Locking, Private, Counts, Cached, Budget, Existing, FreePlaces, SlotPlaces, CarriedPlaces, ThreadPlaces;
    hide Classes, Distinct, Move;
    ListAt(s, t, c);
    var objs := s.cached[t][c][..n];
    assert forall o | o in objs :: o in s.cached[t][c];
    MovedThrough(s, objs, Carried(t), s');
  }

  lemma MovedThrough(s: State, objs: seq<Obj>, q: Place, s': State)
    requires s'.loc == Move(Move(s.loc, objs, App), objs, q) && q != App
    requires forall o | o in objs :: o in s.loc && s.loc[o] != App
    ensures Held(s') == Held(s)
  {
    hide Move;
    MoveTwice(s.loc, objs, objs, q, s'.loc);
  }

  lemma InsPushSettles(g: Config, s: State, t: Tid, s': State, total: int)
    requires Inv(g, s, total) && InsertStep(g, s, InsPush(t), s')
    ensures Settles(s, InsPush(t), s')
  {
    hide Locking, Private, Counts, Cached, Budget, Existing, FreePlaces, SlotPlaces, CarriedPlaces, ThreadPlaces;
    hide Classes, Distinct, Move, Held;
    CarriedAt(s, t);
    MovedPast(s, s.pcs[t].objs, InSlot(s.pcs[t].c, |s.slots[s.pcs[t].c]|), s');
  }

  lemma ShrForceSettles(g: Config, s: State, t: Tid, s': State, total: int)
    requires Inv(g, s, total) && InsertStep(g, s, ShrForce(t), s')
    ensures Settles(s, ShrForce(t), s')
  {
    hide Locking, Private, Counts, Cached, Budget, Existing, FreePlaces, SlotPlaces, CarriedPlaces, ThreadPlaces;
    hide Classes, Distinct, Move, Held;
    var v := s.pcs[t].v;
    var last := |s.slots[v]| - 1;
    SlotAt(s, v, last);
    MovedPast(s, s.slots[v][last], Carried(t), s');
  }

  lemma RelSettles(g: Config, s: State, a: Step, s': State, total: int)
    requires Inv(g, s, total) && ReleaseStep(g, s, a, s') && (a.RelOne? || a.RelLast?)
    ensures Settles(s, a, s')
  {
    hide Locking, Private, Counts, Cached, Budget, Existing, FreePlaces, SlotPlaces, CarriedPlaces, ThreadPlaces;
    hide Classes, Distinct;
    var o := s.pcs[a.t].list[0];
    CarriedAt(s, a.t);
    assert o in s.pcs[a.t].Carries();
    CountsRefs(g, s);
    InUseCounted(g, s, o);
  }

  lemma RemSlotSettles(g: Config, s: State, t: Tid, s': State, total: int)
    requires Inv(g, s, total) && RemoveStep(g, s, RemSlot(t), s')
    ensures Settles(s, RemSlot(t), s')
  {
    hide Locking, Private, Counts, Cached, Budget, SlotPlaces, Distinct, Move;
    var c := s.pcs[t].c;
    var last := |s.slots[c]| - 1;
    SlotAt(s, c, last);
    FirstGiven(s, s.slots[c][last], t, c, s');
  }

  lemma FetchDoneSettles(g: Config, s: State, t: Tid, s': State, total: int)
    requires Inv(g, s, total) && RemoveStep(g, s, FetchDone(t), s')
    ensures Settles(s, FetchDone(t), s')
  {
    hide Locking, Private, Counts, Cached, Budget, CarriedPlaces, Distinct, Move;
    CarriedAt(s, t);
    FirstGiven(s, s.pcs[t].list, t, s.pcs[t].c, s');
  }

  lemma PublishSettles(g: Config, s: State, t: Tid, s': State, total: int)
    requires Inv(g, s, total) && RemoveStep(g, s, Publish(t), s')
    ensures Settles(s, Publish(t), s')
  {
    hide Counts, Cached, Budget, Locking, FreePlaces, CarriedPlaces, SlotPlaces, ThreadPlaces, Classes, Distinct;
    if s.pcs[t].got.Some? {
      var f := Fresh(s.pcs[t].got.value, g.capacity[s.pcs[t].c]);
      forall o | o in f ensures o !in s.loc { assert o.id == s.pcs[t].got.value; }
      MovedPast(s, f, InSpan, s');
    }
  }

  lemma FetchOneSettles(g: Config, s: State, t: Tid, s': State, total: int)
    requires Inv(g, s, total) && RemoveStep(g, s, FetchOne(t), s')
    ensures Settles(s, FetchOne(t), s')
  {
    hide Counts, Cached, Budget, Locking, Private, CarriedPlaces, SlotPlaces, ThreadPlaces, Classes, Distinct;
    var id := s.nonempty[s.pcs[t].c][0];
    var o := s.spans[id].free[0];
    assert o in s.spans[id].free;
    assert s.loc[o] == InSpan;
  }
}
