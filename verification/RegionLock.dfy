/** The recursive lock of MemoryRegionMap, built from two spin locks, for any
    number of threads.  Reads and writes of shared state are steps of their own,
    except where the inner lock is held: the test at the start of a call reads the
    owner and the count, and may change the count, in one step. */
module RegionLock {
  import opened Wrappers

  type Thread = nat

  const MAX_NESTING := 5

  /** Where a thread is. */
  datatype Pc =
    | Out                   // in no call
    | LockEnter             // Lock: about to take the inner lock
    | LockTest              // is the caller the owner?
    | LockBumped            // it is, and the count has been raised
    | LockMiss              // it is not: about to drop the inner lock
    | LockWait              // waiting for the outer lock
    | LockGot               // has the outer lock, wants the inner one
    | LockSet               // about to record the owner
    | LockSetCount          // about to set the count
    | LockLeave             // about to drop the inner lock
    | UnlockEnter           // Unlock: about to take the inner lock
    | UnlockTest            // about to check and lower the count
    | UnlockLowered         // about to release the outer lock, if the count is zero
    | UnlockLeave(last: bool)

  datatype Check = HeldOnReentry | NotTooDeep | CountReset | CountPositive | HeldOnUnlock | ByOwner

  /** The two locks, the shared variables, and for each thread where it is and how many of its Lock
      calls are outstanding. */
  datatype State = State(inner: Option<Thread>, outer: Option<Thread>, owner: Thread, count: int,
                         pc: map<Thread, Pc>, depth: map<Thread, nat>, failed: Option<Check>)

  ghost predicate Init(s: State) {
    && s.inner == None && s.outer == None && s.count == 0 && s.failed == None
    && s.depth.Keys == s.pc.Keys && (forall t | t in s.pc :: s.pc[t] == Out && s.depth[t] == 0)
  }

  function Fail(s: State, ok: bool, c: Check): State {
    if ok then s else s.(failed := Some(c))
  }

  function Goto(s: State, t: Thread, pc: Pc): State {
    s.(pc := s.pc[t := pc])
  }

  /** The next step of thread `t`, if it is not blocked; in no call, it may lock, or unlock what it has locked. */
  function Step(s: State, t: Thread, unlock: bool): Option<State>
    requires t in s.pc && t in s.depth
  {
    match s.pc[t]
    case Out =>
      if !unlock then Some(Goto(s, t, LockEnter))
      else if s.depth[t] > 0 then Some(Goto(s, t, UnlockEnter))
      else None
    case LockEnter =>
      if s.inner == None then Some(Goto(s, t, LockTest).(inner := Some(t))) else None
    case LockTest =>
      if s.count > 0 && s.owner == t then
        Some(Fail(Goto(s, t, LockBumped).(count := s.count + 1), s.outer.Some?, HeldOnReentry))
      else
        Some(Goto(s, t, LockMiss))
    case LockBumped =>
      Some(Fail(Goto(s, t, Out).(inner := None, depth := s.depth[t := s.depth[t] + 1]), s.count <= MAX_NESTING,
          NotTooDeep))
    case LockMiss =>
      Some(Goto(s, t, LockWait).(inner := None))
    case LockWait =>
      if s.outer == None then Some(Goto(s, t, LockGot).(outer := Some(t))) else None
    case LockGot =>
      if s.inner == None then Some(Goto(s, t, LockSet).(inner := Some(t))) else None
    case LockSet =>
      Some(Fail(Goto(s, t, LockSetCount).(owner := t), s.count == 0, CountReset))
    case LockSetCount =>
      Some(Goto(s, t, LockLeave).(count := 1))
    case LockLeave =>
      Some(Goto(s, t, Out).(inner := None, depth := s.depth[t := s.depth[t] + 1]))
    case UnlockEnter =>
      if s.inner == None then Some(Goto(s, t, UnlockTest).(inner := Some(t))) else None
    case UnlockTest =>
      var lowered := Goto(s, t, UnlockLowered).(count := s.count - 1);
      Some(Fail(Fail(Fail(lowered, s.owner == t, ByOwner), s.outer.Some?, HeldOnUnlock), s.count > 0, CountPositive))
    case UnlockLowered =>
      Some(if s.count == 0 then Goto(s, t, UnlockLeave(true)).(outer := None) else Goto(s, t, UnlockLeave(false)))
    case UnlockLeave(_) =>
      Some(Goto(s, t, Out).(inner := None, depth := s.depth[t := if s.depth[t] > 0 then s.depth[t] - 1 else 0]))
  }

  /** A failed check ends the run. */
  ghost predicate Next(s: State, t: Thread, n: State)
    requires t in s.pc && t in s.depth
  {
    s.failed == None && exists unlock :: Step(s, t, unlock) == Some(n)
  }

  ghost predicate IsRun(run: seq<State>) {
    && |run| > 0 && Init(run[0])
    && forall i | 0 < i < |run| :: Moves(run[i - 1], run[i])
  }

  ghost predicate Moves(s: State, n: State) {
    exists t :: t in s.pc && t in s.depth && Next(s, t, n)
  }

  /** The thread is in the section of the inner lock. */
  predicate Inner(pc: Pc) {
    pc.LockTest? || pc.LockBumped? || pc.LockMiss? || pc.LockSet? || pc.LockSetCount? || pc.LockLeave?
    || pc.UnlockTest? || pc.UnlockLowered? || pc.UnlockLeave?
  }

  /** The thread has taken the outer lock and not yet recorded that. */
  predicate Taking(pc: Pc) {
    pc.LockGot? || pc.LockSet? || pc.LockSetCount? || pc.LockLeave?
  }

  /** The thread holds the outer lock. */
  predicate Owns(pc: Pc, depth: nat) {
    Taking(pc) || (depth > 0 && pc != UnlockLeave(true))
  }

  /** The count while thread `t` holds the outer lock. */
  function CountOf(pc: Pc, depth: nat): int {
    match pc
    case LockGot => 0
    case LockSet => 0
    case LockSetCount => 0
    case LockLeave => 1
    case LockBumped => depth + 1
    case UnlockLowered => depth - 1
    case UnlockLeave(_) => depth - 1
    case _ => depth
  }

  /** How many calls a thread at this point may have outstanding. */
  predicate DepthOk(pc: Pc, depth: nat) {
    && (pc.LockMiss? || pc.LockWait? || Taking(pc) ==> depth == 0)
    && (pc.LockBumped? || pc.UnlockEnter? || pc.UnlockTest? || pc.UnlockLowered? || pc.UnlockLeave? ==> depth > 0)
    && (pc == UnlockLeave(true) ==> depth == 1) && (pc == UnlockLeave(false) ==> depth > 1)
  }

  ghost predicate ThreadOk(s: State, t: Thread)
    requires t in s.pc && t in s.depth
  {
    && (Inner(s.pc[t]) <==> s.inner == Some(t))
    && (Owns(s.pc[t], s.depth[t]) <==> s.outer == Some(t))
    && DepthOk(s.pc[t], s.depth[t])
    && (s.pc[t] == UnlockLeave(true) ==> s.count == 0)
  }

  ghost predicate SharedOk(s: State) {
    && s.depth.Keys == s.pc.Keys
    && (s.inner.Some? ==> s.inner.value in s.pc) && (s.outer.Some? ==> s.outer.value in s.pc)
    && s.count == (if s.outer.Some? then CountOf(s.pc[s.outer.value], s.depth[s.outer.value]) else 0)
    && (s.count > 0 ==> s.outer == Some(s.owner))
    && (s.outer.Some? && s.pc[s.outer.value] in {LockSetCount, LockLeave, UnlockLowered} ==> s.owner == s.outer.value)
  }

  ghost predicate Inv(s: State) {
    SharedOk(s) && forall t | t in s.pc :: ThreadOk(s, t)
  }

  /** No check fails but the one on the depth of nesting, and that one only for a client that nests too deep. */
  ghost predicate ChecksOk(s: State) {
    s.failed.Some? ==> s.failed == Some(NotTooDeep) && exists t :: t in s.depth && s.depth[t] > MAX_NESTING
  }

  lemma InitInv(s: State)
    requires Init(s)
    ensures Inv(s) && ChecksOk(s)
  {
  }

  /** A step of `t` that gives or takes a lock only for `t` leaves the other threads as they should be. */
  lemma OthersOk(s: State, t: Thread, n: State)
    requires Inv(s) && t in s.pc && n.pc.Keys == s.pc.Keys && n.depth.Keys == s.depth.Keys
    requires forall u | u in s.pc && u != t :: n.pc[u] == s.pc[u] && n.depth[u] == s.depth[u]
    requires n.inner == s.inner || (s.inner in {None, Some(t)} && n.inner in {None, Some(t)})
    requires n.outer == s.outer || (s.outer in {None, Some(t)} && n.outer in {None, Some(t)})
    requires n.count == s.count || s.inner == Some(t)
    requires ThreadOk(n, t) && SharedOk(n)
    ensures Inv(n)
  {
    hide Owns, DepthOk, CountOf;
    forall u | u in n.pc ensures ThreadOk(n, u) {
      if u != t { assert ThreadOk(s, u); }
    }
  }

  lemma Parts(s: State, t: Thread)
    requires Inv(s) && t in s.pc
    ensures SharedOk(s) && ThreadOk(s, t) && (s.outer.Some? ==> ThreadOk(s, s.outer.value))
  {
  }

  /** A call begins. */
  lemma CallKeeps(s: State, t: Thread, n: State)
    requires Inv(s) && t in s.pc && Next(s, t, n) && s.pc[t].Out?
    ensures Inv(n) && ChecksOk(n)
  {
    hide Inv;
    Parts(s, t);
    OthersOk(s, t, n);
  }

  /** The inner lock is taken. */
  lemma EnteringKeeps(s: State, t: Thread, n: State)
    requires Inv(s) && t in s.pc && Next(s, t, n) && (s.pc[t].LockEnter? || s.pc[t].LockGot? || s.pc[t].UnlockEnter?)
    ensures Inv(n) && ChecksOk(n)
  {
    hide Inv;
    Parts(s, t);
    OthersOk(s, t, n);
  }

  /** Lock by the owner. */
  lemma ReentryKeeps(s: State, t: Thread, n: State)
    requires Inv(s) && t in s.pc && Next(s, t, n) && (s.pc[t].LockTest? || s.pc[t].LockBumped?)
    ensures Inv(n) && ChecksOk(n)
  {
    hide Inv;
    Parts(s, t);
    assert n.failed.Some? ==> n.depth[t] > MAX_NESTING;
    OthersOk(s, t, n);
  }

  /** Lock up to the outer lock. */
  lemma WaitingKeeps(s: State, t: Thread, n: State)
    requires Inv(s) && t in s.pc && Next(s, t, n) && (s.pc[t].LockMiss? || s.pc[t].LockWait?)
    ensures Inv(n) && ChecksOk(n)
  {
    hide Inv;
    Parts(s, t);
    OthersOk(s, t, n);
  }

  /** Lock after it got the outer lock. */
  lemma RecordingKeeps(s: State, t: Thread, n: State)
    requires Inv(s) && t in s.pc && Next(s, t, n)
    requires s.pc[t].LockSet? || s.pc[t].LockSetCount? || s.pc[t].LockLeave?
    ensures Inv(n) && ChecksOk(n)
  {
    hide Inv;
    Parts(s, t);
    OthersOk(s, t, n);
  }

  /** Unlock. */
  lemma UnlockingKeeps(s: State, t: Thread, n: State)
    requires Inv(s) && t in s.pc && Next(s, t, n)
    requires s.pc[t].UnlockTest? || s.pc[t].UnlockLowered? || s.pc[t].UnlockLeave?
    ensures Inv(n) && ChecksOk(n)
  {
    hide Inv;
    Parts(s, t);
    OthersOk(s, t, n);
  }

  lemma NextKeepsInv(s: State, t: Thread, n: State)
    requires Inv(s) && t in s.pc && Next(s, t, n)
    ensures Inv(n) && ChecksOk(n)
  {
    hide Inv, Next, ChecksOk;
    match s.pc[t] {
      case Out => CallKeeps(s, t, n);
      case LockEnter | LockGot | UnlockEnter => EnteringKeeps(s, t, n);
      case LockTest | LockBumped => ReentryKeeps(s, t, n);
      case LockMiss | LockWait => WaitingKeeps(s, t, n);
      case LockSet | LockSetCount | LockLeave => RecordingKeeps(s, t, n);
      case UnlockTest | UnlockLowered | UnlockLeave(_) => UnlockingKeeps(s, t, n);
    }
  }

  lemma {:induction false} RunInv(run: seq<State>, i: nat)
    requires IsRun(run) && i < |run|
    ensures Inv(run[i]) && ChecksOk(run[i])
  {
    hide Inv, Next, ChecksOk, Init;
    if i == 0 {
      InitInv(run[0]);
    } else {
      RunInv(run, i - 1);
      assert Moves(run[i - 1], run[i]);
      var t :| t in run[i - 1].pc && t in run[i - 1].depth && Next(run[i - 1], t, run[i]);
      NextKeepsInv(run[i - 1], t, run[i]);
    }
  }

  /** At most one thread has Lock calls outstanding. */
  lemma MutualExclusion(run: seq<State>, i: nat, t: Thread, u: Thread)
    requires IsRun(run) && i < |run| && t in run[i].depth && u in run[i].depth
    requires run[i].depth[t] > 0 && run[i].depth[u] > 0
    ensures t == u
  {
    hide IsRun;
    RunInv(run, i);
    var s := run[i];
    assert ThreadOk(s, t) && ThreadOk(s, u);
  }

  /** While the outer lock is free the count is zero; a thread outside any call holds the lock if and only if it is the
      recorded owner and the count is positive; and then the count is the number of its outstanding Lock calls. */
  lemma OwnershipInEveryRun(run: seq<State>, i: nat, t: Thread)
    requires IsRun(run) && i < |run| && t in run[i].pc
    ensures var s := run[i];
            && (s.outer == None ==> s.count == 0)
            && t in s.depth
            && (s.pc[t] == Out ==> (s.outer == Some(t) <==> s.owner == t && s.count > 0))
            && (s.pc[t] == Out && s.outer == Some(t) ==> s.count == s.depth[t])
  {
    hide IsRun;
    RunInv(run, i);
    assert ThreadOk(run[i], t);
  }

  /** No thread waits for the lock while it holds it. */
  lemma NeverWaitsForItself(run: seq<State>, i: nat, t: Thread)
    requires IsRun(run) && i < |run| && t in run[i].pc && run[i].pc[t] == LockWait
    ensures run[i].outer != Some(t)
  {
    hide IsRun;
    RunInv(run, i);
    assert ThreadOk(run[i], t);
  }

  /** Clients that nest at most five deep never see a check fail. */
  lemma NoCheckFails(run: seq<State>, i: nat)
    requires IsRun(run) && i < |run| && forall t | t in run[i].depth :: run[i].depth[t] <= MAX_NESTING
    ensures run[i].failed == None
  {
    hide IsRun, Inv;
    RunInv(run, i);
  }

  /** Someone in a call can always go on, unless the holder of the lock is outside any call. */
  lemma NoDeadlock(run: seq<State>, i: nat, t: Thread)
    requires IsRun(run) && i < |run| && t in run[i].pc && run[i].pc[t] != Out
    ensures var s := run[i];
            || (s.outer.Some? && s.outer.value in s.pc && s.pc[s.outer.value] == Out)
            || exists u :: u in s.pc && u in s.depth && s.pc[u] != Out && Step(s, u, false).Some?
  {
    hide IsRun;
    RunInv(run, i);
    var s := run[i];
    assert ThreadOk(s, t);
    if s.inner.Some? {
      assert ThreadOk(s, s.inner.value);
      assert Step(s, s.inner.value, false).Some?;
    } else if s.pc[t] != LockWait || s.outer == None {
      assert Step(s, t, false).Some?;
    } else {
      var h := s.outer.value;
      assert ThreadOk(s, h);
      assert Step(s, h, false).Some?;
    }
  }
}
