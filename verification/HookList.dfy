/** The hook list: Add and Remove under a spin lock, Traverse without one; every
    load and store of shared memory is a step of its own. */
module HookList {
  import opened Wrappers

  type Thread = nat

  /** A hook as a machine word; zero marks an empty slot. */
  type Word = nat

  const SLOTS := 7

  /** Where a thread is, with the values of its local variables. */
  datatype Pc =
    | Idle
    | AddWait(v: Word)
    | AddScan(v: Word, index: nat)
    | AddLoadEnd(v: Word, index: nat)
    | AddStore(v: Word, index: nat, prev: nat)
    | AddStored(v: Word, index: nat, prev: nat)
    | AddFailed(v: Word)
    | RemoveWait(v: Word)
    | RemoveLoadEnd(v: Word)
    | RemoveScan(v: Word, index: nat, end: nat)
    | RemoveStore(v: Word, index: nat, end: nat)
    | RemoveShrink(end: nat)
    | RemoveSetEnd(end: nat)
    | RemoveFailed(v: Word)
    | Unlock
    | TraverseLoadEnd(n: nat)
    | TraverseRead(i: nat, end: nat, n: nat, out: seq<Word>)
    | TraverseDone(out: seq<Word>)

  datatype State = State(data: seq<Word>, end: nat, lock: Option<Thread>, pc: map<Thread, Pc>)

  /** Empty, or with one initial hook. */
  ghost predicate Init(s: State) {
    && |s.data| == SLOTS && s.lock == None && (forall t | t in s.pc :: s.pc[t] == Idle)
    && (forall k | 1 <= k < SLOTS :: s.data[k] == 0)
    && if s.data[0] == 0 then s.end == 0 else s.end == 1
  }

  function Goto(s: State, t: Thread, pc: Pc): State {
    s.(pc := s.pc[t := pc])
  }

  /** A call begins; a zero hook is refused without a step. */
  ghost predicate Call(s: State, t: Thread, n: State) {
    || (exists v :: v != 0 && n == Goto(s, t, AddWait(v)))
    || (exists v :: v != 0 && n == Goto(s, t, RemoveWait(v)))
    || (exists m :: n == Goto(s, t, TraverseLoadEnd(m)))
  }

  predicate InCall(s: State, t: Thread) {
    t in s.pc && !s.pc[t].Idle? && |s.data| == SLOTS
    && (s.pc[t].AddStore? ==> s.pc[t].index < SLOTS) && (s.pc[t].AddScan? ==> s.pc[t].index <= SLOTS)
    && (s.pc[t].RemoveScan? ==> s.pc[t].end <= SLOTS) && (s.pc[t].RemoveStore? ==> s.pc[t].index < SLOTS)
    && (s.pc[t].RemoveShrink? ==> s.pc[t].end <= SLOTS) && (s.pc[t].TraverseRead? ==> s.pc[t].end <= SLOTS)
  }

  /** The next step within a call, unless it waits for the lock. */
  function Step(s: State, t: Thread): Option<State>
    requires InCall(s, t)
  {
    match s.pc[t]
    case AddWait(v) =>
      if s.lock == None then Some(Goto(s, t, AddScan(v, 0)).(lock := Some(t))) else None
    case AddScan(v, index) =>
      if index == SLOTS then Some(Goto(s, t, AddFailed(v)))
      else if s.data[index] != 0 then Some(Goto(s, t, AddScan(v, index + 1)))
      else Some(Goto(s, t, AddLoadEnd(v, index)))
    case AddLoadEnd(v, index) =>
      Some(Goto(s, t, AddStore(v, index, s.end)))
    case AddStore(v, index, prev) =>
      Some(Goto(s, t, AddStored(v, index, prev)).(data := s.data[index := v]))
    case AddStored(v, index, prev) =>
      if prev <= index then Some(Goto(s, t, Unlock).(end := index + 1)) else Some(Goto(s, t, Unlock))
    case RemoveWait(v) =>
      if s.lock == None then Some(Goto(s, t, RemoveLoadEnd(v)).(lock := Some(t))) else None
    case RemoveLoadEnd(v) =>
      Some(Goto(s, t, RemoveScan(v, 0, s.end)))
    case RemoveScan(v, index, end) =>
      if index >= end then Some(Goto(s, t, RemoveFailed(v)))
      else if s.data[index] != v then Some(Goto(s, t, RemoveScan(v, index + 1, end)))
      else Some(Goto(s, t, RemoveStore(v, index, end)))
    case RemoveStore(v, index, end) =>
      var m := s.(data := s.data[index := 0]);
      if end == index + 1 then Some(Goto(m, t, RemoveShrink(index))) else Some(Goto(m, t, Unlock))
    case RemoveShrink(end) =>
      if end > 0 && s.data[end - 1] == 0 then Some(Goto(s, t, RemoveShrink(end - 1)))
      else Some(Goto(s, t, RemoveSetEnd(end)))
    case RemoveSetEnd(end) =>
      Some(Goto(s, t, Unlock).(end := end))
    case TraverseLoadEnd(n) =>
      Some(Goto(s, t, TraverseRead(0, s.end, n, [])))
    case TraverseRead(i, end, n, out) =>
      if i >= end || n == 0 then Some(Goto(s, t, TraverseDone(out)))
      else if s.data[i] != 0 then Some(Goto(s, t, TraverseRead(i + 1, end, n - 1, out + [s.data[i]])))
      else Some(Goto(s, t, TraverseRead(i + 1, end, n, out)))
    case TraverseDone(_) =>
      Some(Goto(s, t, Idle))
    case _ =>
      Some(Goto(s, t, Idle).(lock := None))
  }

  ghost predicate Next(s: State, t: Thread, n: State) {
    t in s.pc && if s.pc[t].Idle? then Call(s, t, n) else InCall(s, t) && Step(s, t) == Some(n)
  }

  ghost predicate Moves(s: State, n: State) {
    exists t :: Next(s, t, n)
  }

  ghost predicate IsRun(run: seq<State>) {
    |run| > 0 && Init(run[0]) && forall i | 0 < i < |run| :: Moves(run[i - 1], run[i])
  }

  /** The thread has the lock. */
  predicate Locked(pc: Pc) {
    !pc.Idle? && !pc.AddWait? && !pc.RemoveWait? && !pc.TraverseLoadEnd? && !pc.TraverseRead? && !pc.TraverseDone?
  }

  predicate NoneBefore(data: seq<Word>, index: nat, v: Word) {
    index <= |data| && forall j | 0 <= j < index :: data[j] != v
  }

  predicate ZeroFrom(data: seq<Word>, index: nat) {
    forall j | index <= j < |data| :: data[j] == 0
  }

  /** What holds where a thread is. */
  predicate PcOk(pc: Pc, data: seq<Word>, end: nat) {
    match pc
    case AddWait(v) => v != 0
    case AddScan(v, index) => v != 0 && NoneBefore(data, index, 0)
    case AddLoadEnd(v, index) => v != 0 && NoneBefore(data, index, 0) && index < |data| && data[index] == 0
    case AddStore(v, index, prev) =>
      v != 0 && NoneBefore(data, index, 0) && index < |data| && data[index] == 0 && prev == end
    case AddStored(v, index, prev) =>
      v != 0 && NoneBefore(data, index, 0) && index < |data| && data[index] == v && prev == end
    case AddFailed(_) => 0 !in data
    case RemoveWait(v) => v != 0
    case RemoveLoadEnd(v) => v != 0
    case RemoveScan(v, index, e) => v != 0 && NoneBefore(data, index, v) && e == end && index <= e
    case RemoveStore(v, index, e) =>
      v != 0 && NoneBefore(data, index, v) && index < e && e == end && index < |data| && data[index] == v
    case RemoveShrink(e) => e <= |data| && e <= end && ZeroFrom(data, e)
    case RemoveSetEnd(e) => e <= |data| && ZeroFrom(data, e) && (e > 0 ==> data[e - 1] != 0)
    case RemoveFailed(v) => v !in data
    case TraverseRead(i, e, n, out) => i <= e <= |data|
    case _ => true
  }

  /** Slots at or past the end are zero, and the last slot before it is not; but the hook stored by a running Add may
      lie past the end, and a running Remove may not have lowered the end yet. */
  ghost predicate EndOk(s: State) {
    && (forall k | s.end <= k < |s.data| :: s.data[k] == 0 || Adding(s, k))
    && (0 < s.end <= |s.data| ==> s.data[s.end - 1] != 0 || Shrinking(s))
  }

  ghost predicate Adding(s: State, k: nat) {
    s.lock.Some? && s.lock.value in s.pc && s.pc[s.lock.value].AddStored? && s.pc[s.lock.value].index == k
  }

  ghost predicate Shrinking(s: State) {
    s.lock.Some? && s.lock.value in s.pc && (s.pc[s.lock.value].RemoveShrink? || s.pc[s.lock.value].RemoveSetEnd?)
  }

  ghost predicate ThreadOk(s: State, t: Thread)
    requires t in s.pc
  {
    (Locked(s.pc[t]) <==> s.lock == Some(t)) && PcOk(s.pc[t], s.data, s.end)
  }

  ghost predicate SharedOk(s: State) {
    && |s.data| == SLOTS && s.end <= SLOTS && EndOk(s)
    && (s.lock.Some? ==> s.lock.value in s.pc)
  }

  ghost predicate Inv(s: State) {
    SharedOk(s) && forall t | t in s.pc :: ThreadOk(s, t)
  }

  lemma InitInv(s: State)
    requires Init(s)
    ensures Inv(s)
  {
  }

  /** A step that changes the list only with the lock leaves the other threads as they should be. */
  lemma OthersOk(s: State, t: Thread, n: State)
    requires Inv(s) && t in s.pc && t in n.pc && n.pc == s.pc[t := n.pc[t]]
    requires n.lock == s.lock || (s.lock in {None, Some(t)} && n.lock in {None, Some(t)})
    requires (n.data == s.data && n.end == s.end) || s.lock == Some(t)
    requires ThreadOk(n, t) && SharedOk(n)
    ensures Inv(n)
  {
    forall u | u in n.pc ensures ThreadOk(n, u) {
      if u != t { assert ThreadOk(s, u); }
    }
  }

  lemma Parts(s: State, t: Thread)
    requires Inv(s) && t in s.pc
    ensures SharedOk(s) && ThreadOk(s, t)
  {
  }

  lemma CallKeeps(s: State, t: Thread, n: State)
    requires Inv(s) && t in s.pc && s.pc[t].Idle? && Call(s, t, n)
    ensures Inv(n)
  {
    hide Inv;
    Parts(s, t);
    OthersOk(s, t, n);
  }

  lemma AddKeeps(s: State, t: Thread, n: State)
    requires Inv(s) && InCall(s, t) && Step(s, t) == Some(n)
    requires s.pc[t].AddWait? || s.pc[t].AddScan? || s.pc[t].AddLoadEnd? || s.pc[t].AddStore? || s.pc[t].AddStored?
    ensures Inv(n)
  {
    hide Inv;
    Parts(s, t);
    OthersOk(s, t, n);
  }

  lemma RemoveKeeps(s: State, t: Thread, n: State)
    requires Inv(s) && InCall(s, t) && Step(s, t) == Some(n)
    requires s.pc[t].RemoveWait? || s.pc[t].RemoveLoadEnd? || s.pc[t].RemoveScan?
             || s.pc[t].RemoveStore? || s.pc[t].RemoveShrink? || s.pc[t].RemoveSetEnd?
    ensures Inv(n)
  {
    hide Inv;
    Parts(s, t);
    OthersOk(s, t, n);
  }

  lemma TraverseKeeps(s: State, t: Thread, n: State)
    requires Inv(s) && InCall(s, t) && Step(s, t) == Some(n)
    requires s.pc[t].TraverseLoadEnd? || s.pc[t].TraverseRead? || s.pc[t].TraverseDone?
             || s.pc[t].Unlock? || s.pc[t].AddFailed? || s.pc[t].RemoveFailed?
    ensures Inv(n)
  {
    hide Inv;
    Parts(s, t);
    OthersOk(s, t, n);
  }

  lemma NextKeepsInv(s: State, t: Thread, n: State)
    requires Inv(s) && Next(s, t, n)
    ensures Inv(n)
  {
    hide Inv, Call, Step;
    match s.pc[t] {
      case Idle => CallKeeps(s, t, n);
      case AddWait(_) | AddScan(_, _) | AddLoadEnd(_, _) | AddStore(_, _, _) | AddStored(_, _, _) => AddKeeps(s, t, n);
      case RemoveWait(_) | RemoveLoadEnd(_) | RemoveScan(_, _, _) => RemoveKeeps(s, t, n);
      case RemoveStore(_, _, _) | RemoveShrink(_) | RemoveSetEnd(_) => RemoveKeeps(s, t, n);
      case _ => TraverseKeeps(s, t, n);
    }
  }

  lemma {:induction false} RunInv(run: seq<State>, i: nat)
    requires IsRun(run) && i < |run|
    ensures Inv(run[i])
  {
    hide Inv, Next, Init;
    if i == 0 {
      InitInv(run[0]);
    } else {
      RunInv(run, i - 1);
      assert Moves(run[i - 1], run[i]);
      var t :| Next(run[i - 1], t, run[i]);
      NextKeepsInv(run[i - 1], t, run[i]);
    }
  }

  /** In every run: no load or store is out of bounds; slots past the end are empty, but for the one a running Add has
      just filled; and while the lock is free the end is zero exactly when there is no hook. */
  lemma EndInEveryRun(run: seq<State>, i: nat, t: Thread)
    requires IsRun(run) && i < |run|
    ensures var s := run[i];
            && (t in s.pc && !s.pc[t].Idle? ==> InCall(s, t))
            && (forall k | s.end <= k < |s.data| :: s.data[k] == 0 || Adding(s, k))
            && (s.lock == None ==> (s.end == 0 <==> forall k | 0 <= k < |s.data| :: s.data[k] == 0))
  {
    RunInv(run, i);
    var s := run[i];
    if t in s.pc {
      assert ThreadOk(s, t);
    }
    if s.lock == None && s.end > 0 {
      assert s.data[s.end - 1] != 0;
    }
  }

  /** The list changes only where an Add fills the first empty slot or a Remove clears the first slot with its hook. */
  lemma ChangesInEveryRun(run: seq<State>, i: nat, t: Thread)
    requires IsRun(run) && i + 1 < |run| && Next(run[i], t, run[i + 1])
    ensures var s, n := run[i], run[i + 1];
            || n.data == s.data
            || (s.pc[t].AddStore? && FirstWith(s.data, 0, s.pc[t].index)
                && n.data == s.data[s.pc[t].index := s.pc[t].v])
            || (s.pc[t].RemoveStore? && FirstWith(s.data, s.pc[t].v, s.pc[t].index)
                && n.data == s.data[s.pc[t].index := 0])
  {
    RunInv(run, i);
    assert ThreadOk(run[i], t);
  }

  ghost predicate FirstWith(data: seq<Word>, v: Word, index: nat) {
    index < |data| && data[index] == v && NoneBefore(data, index, v)
  }

  /** A call fails only with reason: the list is full, or the hook is not on it. */
  lemma FailuresInEveryRun(run: seq<State>, i: nat, t: Thread)
    requires IsRun(run) && i < |run| && t in run[i].pc
    ensures run[i].pc[t].AddFailed? ==> 0 !in run[i].data
    ensures run[i].pc[t].RemoveFailed? ==> run[i].pc[t].v !in run[i].data
  {
    RunInv(run, i);
    assert ThreadOk(run[i], t);
  }

  /** The hook stays in the slot throughout. */
  ghost predicate Stays(run: seq<State>, a: nat, b: nat, k: nat, v: Word) {
    b < |run| && forall i | a <= i <= b :: k < |run[i].data| && run[i].data[k] == v
  }

  lemma EndStays(s: State, t: Thread, n: State, k: nat)
    requires Inv(s) && Next(s, t, n) && k < s.end && k < |s.data| && s.data[k] != 0
    ensures k < n.end
  {
    assert ThreadOk(s, t);
  }

  /** How far a traversal has come that must find hook `v` of slot `k`. */
  ghost predicate Finds(pc: Pc, k: nat, v: Word, room: nat) {
    match pc
    case TraverseLoadEnd(n) => n == room
    case TraverseRead(i, end, n, out) => k < end && n + |out| == room && |out| <= i && (i <= k || v in out)
    case TraverseDone(out) => v in out
    case _ => false
  }

  lemma FindsStep(s: State, u: Thread, n: State, t: Thread, k: nat, v: Word, room: nat)
    requires Inv(s) && Next(s, u, n) && t in s.pc && t in n.pc && !n.pc[t].Idle?
    requires k < s.end && s.data[k] == v && v != 0 && room > k && Finds(s.pc[t], k, v, room)
    ensures Finds(n.pc[t], k, v, room)
  {
    if u == t {
      assert ThreadOk(s, t);
    }
  }

  lemma {:induction false} FindsSoFar(run: seq<State>, t: Thread, k: nat, v: Word, room: nat, a: nat, j: nat)
    requires IsRun(run) && a <= j && Stays(run, a, j, k, v) && v != 0 && k < run[a].end && room > k
    requires t in run[a].pc && run[a].pc[t] == TraverseLoadEnd(room)
    requires forall i | a <= i <= j :: t in run[i].pc && !run[i].pc[t].Idle?
    ensures k < run[j].end && Finds(run[j].pc[t], k, v, room)
    decreases j
  {
    hide Inv, Next, Finds;
    if j == a {
      StartFinds(k, v, room);
    } else {
      FindsSoFar(run, t, k, v, room, a, j - 1);
      RunInv(run, j - 1);
      assert Moves(run[j - 1], run[j]);
      var u :| Next(run[j - 1], u, run[j]);
      EndStays(run[j - 1], u, run[j], k);
      FindsStep(run[j - 1], u, run[j], t, k, v, room);
    }
  }

  lemma StartFinds(k: nat, v: Word, room: nat)
    ensures Finds(TraverseLoadEnd(room), k, v, room)
  {
  }

  /** A hook registered when a traversal begins, and kept until it is done, is returned if there is room for all slots
      up to its own; so one that asks for as many hooks as there are slots misses none. */
  lemma TraverseFindsRegistered(run: seq<State>, t: Thread, k: nat, v: Word, room: nat, a: nat, b: nat)
    requires IsRun(run) && a <= b && Stays(run, a, b, k, v) && v != 0 && k < run[a].end && room > k
    requires t in run[a].pc && run[a].pc[t] == TraverseLoadEnd(room)
    requires forall i | a <= i <= b :: t in run[i].pc && !run[i].pc[t].Idle?
    requires run[b].pc[t].TraverseDone?
    ensures v in run[b].pc[t].out
  {
    FindsSoFar(run, t, k, v, room, a, b);
  }

  /** The thread is at the point of reading slot `i`, which holds hook `w`, with `x` hooks returned before. */
  ghost predicate Reads(s: State, t: Thread, i: nat, x: nat, w: Word) {
    t in s.pc && s.pc[t].TraverseRead? && s.pc[t].i == i < |s.data| && s.data[i] == w != 0 && |s.pc[t].out| == x
  }

  ghost function Output(pc: Pc): seq<Word> {
    match pc
    case TraverseRead(_, _, _, out) => out
    case TraverseDone(out) => out
    case _ => []
  }

  /** A step adds the hook it reads to a traversal's output, or nothing, or ends the call. */
  lemma OutputStep(s: State, u: Thread, n: State, t: Thread)
    requires Next(s, u, n) && t in s.pc && t in n.pc
    ensures var was, now := s.pc[t], n.pc[t];
            || Output(now) == []
            || (Output(now) == Output(was) && (now.TraverseRead? ==> was.TraverseRead? && was.i <= now.i))
            || (now.TraverseRead? && was.TraverseRead? && now.i == was.i + 1 && was.i < |s.data|
                && Reads(s, t, was.i, |was.out|, s.data[was.i]) && now.out == was.out + [s.data[was.i]])
  {
  }

  /** When and where the hooks of an output were read, in order of time and of slots, by the calls of thread `t`. */
  ghost predicate ReadInOrder(run: seq<State>, t: Thread, a: nat, j: nat, out: seq<Word>, at: seq<nat>, slot: seq<nat>)
  {
    && |at| == |slot| == |out| && j < |run|
    && (forall x | 0 <= x < |out| :: a <= at[x] < j && Reads(run[at[x]], t, slot[x], x, out[x]))
    && (forall x, y | 0 <= x < y < |out| :: at[x] < at[y] && slot[x] < slot[y])
    && (t in run[j].pc && run[j].pc[t].TraverseRead? ==> forall x | 0 <= x < |out| :: slot[x] < run[j].pc[t].i)
  }

  /** Every hook that a traversal returns was in the slot that the traversal read, at the step that read it; the
      slots are read in order, each at most once. */
  lemma {:induction false} TraverseReturnsStored(run: seq<State>, t: Thread, a: nat, j: nat)
    returns (at: seq<nat>, slot: seq<nat>)
    requires IsRun(run) && a <= j < |run| && t in run[a].pc && Output(run[a].pc[t]) == []
    requires forall i | a <= i <= j :: t in run[i].pc
    ensures ReadInOrder(run, t, a, j, Output(run[j].pc[t]), at, slot)
    decreases j
  {
    hide Inv, Next, Output, Reads;
    at, slot := [], [];
    if j > a {
      var was, now := run[j - 1].pc[t], run[j].pc[t];
      var at0, slot0 := TraverseReturnsStored(run, t, a, j - 1);
      assert Moves(run[j - 1], run[j]);
      var u :| Next(run[j - 1], u, run[j]);
      OutputStep(run[j - 1], u, run[j], t);
      if Output(now) != [] {
        at, slot := at0, slot0;
        if Output(now) != Output(was) {
          at, slot := at0 + [j - 1], slot0 + [was.i];
          OutputOf(was);
          OutputOf(now);
        }
      }
    }
  }

  lemma OutputOf(pc: Pc)
    requires pc.TraverseRead?
    ensures Output(pc) == pc.out
  {
  }
}
