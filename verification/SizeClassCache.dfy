/** The page-to-size-class cache under any number of threads.

    The cache is read and written without a lock, forgets entries at any time,
    and is not cleaned when a span is freed.  Nor is the page map, which the page
    heap moreover writes at will for pages that no block has.  The machine below
    takes single steps of span allocation, publication, free and size queries; the
    theorem is that a lookup for the page of a live pointer yields "unknown" or the
    truth, and that the page map names the pointer's block. */
module SizeClassCache {
  import opened PackedCache

  type SpanId = nat
  type Tid = nat

  /** A span handed out by the page heap.  The first `cached` pages have had their
      cache entry written since; `published` spans may hold live objects. */
  datatype Block = Block(start: nat, length: nat, class_: nat, cached: nat, published: bool) {
    predicate Has(p: nat) { start <= p < start + length }

    // Pages whose entry must have been written before publication.
    function ToCache(): nat { if class_ == 0 then 1 else length }
  }

  /** A pointer to an object starting on `page`, in block `id`. */
  datatype Ptr = Ptr(page: nat, id: SpanId, tag: nat)

  datatype Op = Free | GetSize

  datatype Pc =
    | Resting
    | Preparing(id: SpanId)
    | Looking(ptr: Ptr, op: Op)
    | Missed(ptr: Ptr, op: Op)
    | Storing(ptr: Ptr, op: Op, cl: nat)
    | Decided(ptr: Ptr, op: Op, cl: nat)
  {
    predicate Holds() { Looking? || Missed? || Storing? || Decided? }
  }

  datatype State = State(
    blocks: map<SpanId, Block>,
    pagemap: map<nat, SpanId>,
    cache: map<nat, nat>,
    live: set<Ptr>,
    pcs: map<Tid, Pc>)

  datatype Step =
    | Obtain(t: Tid, id: SpanId, block: Block)
    | Trim(t: Tid, id: SpanId, start: nat, length: nat)
    | CachePage(t: Tid)
    | Publish(t: Tid, ptr: Ptr)
    | HandOut(ptr: Ptr)
    | Begin(t: Tid, ptr: Ptr, op: Op)
    | Look(t: Tid)
    | ReadSpan(t: Tid)
    | Store(t: Tid)
    | Finish(t: Tid)
    | DeleteSmall(id: SpanId)

  ghost predicate Apart(s: State, a: Block, id: SpanId) {
    forall x, p | x in s.blocks && x != id && s.blocks[x].Has(p) :: !a.Has(p)
  }

  /** The block has entries at both ends, and a small one at every page. */
  ghost predicate Entered(m: map<nat, SpanId>, id: SpanId, b: Block) {
    forall p: nat | b.Has(p) && (b.class_ != 0 || p == b.start || p + 1 == b.start + b.length) :: p in m && m[p] == id
  }

  /** The page heap keeps the entries of these blocks; all others may go stale or be written over. */
  ghost predicate EntriesKept(blocks: map<SpanId, Block>, m: map<nat, SpanId>, n: map<nat, SpanId>) {
    forall id, p: nat | id in blocks && blocks[id].Has(p) :: (p in n <==> p in m) && (p in m ==> n[p] == m[p])
  }

  ghost predicate Held(s: State, ptr: Ptr) {
    ptr in s.live || exists t :: t in s.pcs && s.pcs[t].Holds() && s.pcs[t].ptr == ptr
  }

  ghost predicate Next(s: State, a: Step, s': State) {
    match a
    case Obtain(_, _, _) | Trim(_, _, _, _) | CachePage(_) | Publish(_, _) | HandOut(_) | DeleteSmall(_) =>
      BlockStep(s, a, s')
    case Begin(_, _, _) | Look(_) | ReadSpan(_) | Store(_) | Finish(_) => PointerStep(s, a, s')
  }

  /** A block is obtained, made ready, carved up or given back. */
  ghost predicate BlockStep(s: State, a: Step, s': State) {
    match a
    // The page heap hands out pages that no other block has, and enters them in the page map; nothing is known about
    // the cache.  Descriptors are used again, so that stale entries may name the new block.
    case Obtain(t, id, b) =>
      && t in s.pcs && s.pcs[t] == Resting && id !in s.blocks && b.length >= 1 && Apart(s, b, id)
      && b.cached == 0 && !b.published
      && Entered(s'.pagemap, id, b) && EntriesKept(s.blocks, s.pagemap, s'.pagemap)
      && s' == s.(blocks := s.blocks[id := b], pcs := s.pcs[t := Preparing(id)], pagemap := s'.pagemap)
    // Aligned allocation keeps a part of a block, under its own or a new descriptor, and gives the rest back.
    case Trim(t, nid, start, length) =>
      && t in s.pcs && s.pcs[t].Preparing? && var id := s.pcs[t].id;
      && id in s.blocks && s.blocks[id].class_ == 0 && s.blocks[id].cached == 0 && length >= 1
      && s.blocks[id].start <= start && start + length <= s.blocks[id].start + s.blocks[id].length
      && (nid == id || nid !in s.blocks)
      && var b := s.blocks[id].(start := start, length := length);
      && Entered(s'.pagemap, nid, b) && EntriesKept(s.blocks - {id}, s.pagemap, s'.pagemap)
      && s' == s.(blocks := (s.blocks - {id})[nid := b], pcs := s.pcs[t := Preparing(nid)], pagemap := s'.pagemap)
    case CachePage(t) =>
      && t in s.pcs && s.pcs[t].Preparing? && var id := s.pcs[t].id;
      && id in s.blocks && s.blocks[id].cached < s.blocks[id].ToCache()
      && LossyPut(s.cache, s.blocks[id].start + s.blocks[id].cached, s.blocks[id].class_, s'.cache)
      && s' == s.(blocks := s.blocks[id := s.blocks[id].(cached := s.blocks[id].cached + 1)], cache := s'.cache)
    // A large block becomes one live pointer, a small one is ready to be carved up.
    case Publish(t, ptr) =>
      && t in s.pcs && s.pcs[t].Preparing? && var id := s.pcs[t].id;
      && id in s.blocks && s.blocks[id].cached == s.blocks[id].ToCache()
      && ptr.id == id && ptr.page == s.blocks[id].start
      && s' == s.(blocks := s.blocks[id := s.blocks[id].(published := true)], pcs := s.pcs[t := Resting],
                  live := if s.blocks[id].class_ == 0 then s.live + {ptr} else s.live)
    case HandOut(ptr) =>
      && ptr.id in s.blocks && s.blocks[ptr.id].published && s.blocks[ptr.id].class_ != 0
      && s.blocks[ptr.id].Has(ptr.page) && !Held(s, ptr)
      && s' == s.(live := s.live + {ptr})
    // A small block goes back to the page heap once none of its objects is out.
    case DeleteSmall(id) =>
      && id in s.blocks && s.blocks[id].published && s.blocks[id].class_ != 0
      && (forall ptr | Held(s, ptr) :: ptr.id != id)
      && EntriesKept(s'.blocks, s.pagemap, s'.pagemap)
      && s' == s.(blocks := s.blocks - {id}, pagemap := s'.pagemap)
    case _ => false
  }

  /** A pointer is freed or measured. */
  ghost predicate PointerStep(s: State, a: Step, s': State) {
    match a
    // Any number of threads may ask for the size of a live pointer, but it is freed once, and not while one asks.
    case Begin(t, ptr, op) =>
      && t in s.pcs && s.pcs[t] == Resting && ptr in s.live
      && (op == Free ==> forall u | u in s.pcs && s.pcs[u].Holds() :: s.pcs[u].ptr != ptr)
      && s' == s.(live := if op == Free then s.live - {ptr} else s.live, pcs := s.pcs[t := Looking(ptr, op)])
    case Look(t) =>
      && t in s.pcs && s.pcs[t].Looking? && var ptr, op := s.pcs[t].ptr, s.pcs[t].op;
      && var cl := Lookup(s.cache, ptr.page);
      && s' == s.(pcs := s.pcs[t := if cl == 0 then Missed(ptr, op) else Decided(ptr, op, cl)])
    case ReadSpan(t) =>
      && t in s.pcs && s.pcs[t].Missed? && var ptr, op := s.pcs[t].ptr, s.pcs[t].op;
      && ptr.page in s.pagemap && var id := s.pagemap[ptr.page];
      && id in s.blocks && var cl := s.blocks[id].class_;
      && s' == s.(pcs := s.pcs[t := if op == GetSize && cl == 0 then Decided(ptr, op, 0) else Storing(ptr, op, cl)])
    case Store(t) =>
      && t in s.pcs && s.pcs[t].Storing?
      && LossyPut(s.cache, s.pcs[t].ptr.page, s.pcs[t].cl, s'.cache)
      && s' == s.(cache := s'.cache, pcs := s.pcs[t := Decided(s.pcs[t].ptr, s.pcs[t].op, s.pcs[t].cl)])
    // Freeing drops the pointer, and a large block with it.
    case Finish(t) =>
      && t in s.pcs && s.pcs[t].Decided?
      && EntriesKept(s'.blocks, s.pagemap, s'.pagemap)
      && s' == s.(pcs := s.pcs[t := Resting], pagemap := s'.pagemap,
                  blocks := if s.pcs[t].op == Free && s.pcs[t].cl == 0 then s.blocks - {s.pcs[t].ptr.id} else s.blocks)
    case _ => false
  }

  // The invariant.

  ghost predicate Disjoint(s: State) {
    forall a, b, p {:trigger s.blocks[a].Has(p), s.blocks[b].Has(p)} |
      a in s.blocks && b in s.blocks && s.blocks[a].Has(p) && s.blocks[b].Has(p) :: a == b
  }

  ghost predicate BlocksOk(s: State) {
    forall id | id in s.blocks ::
      && s.blocks[id].length >= 1 && s.blocks[id].cached <= s.blocks[id].ToCache()
      && (s.blocks[id].published ==> s.blocks[id].cached == s.blocks[id].ToCache())
  }

  /** Every page cached for its block is unknown or truthful. */
  ghost predicate Truthful(s: State) {
    forall id, p | id in s.blocks && s.blocks[id].start <= p < s.blocks[id].start + s.blocks[id].cached ::
      p in s.cache ==> s.cache[p] == s.blocks[id].class_
  }

  ghost predicate Preparers(s: State) {
    && (forall t | t in s.pcs && s.pcs[t].Preparing? :: s.pcs[t].id in s.blocks && !s.blocks[s.pcs[t].id].published)
    && (forall t, u | t in s.pcs && u in s.pcs && s.pcs[t].Preparing? && s.pcs[t] == s.pcs[u] :: t == u)
  }

  ghost predicate PtrOk(s: State, ptr: Ptr) {
    && ptr.id in s.blocks && s.blocks[ptr.id].published && s.blocks[ptr.id].Has(ptr.page)
    && (s.blocks[ptr.id].class_ == 0 ==> ptr.page == s.blocks[ptr.id].start)
  }

  /** Live and held pointers point into published blocks; one being measured is live, and one being freed is
      in no other hands. */
  ghost predicate Pointers(s: State) {
    && (forall ptr | ptr in s.live :: PtrOk(s, ptr))
    && (forall t | t in s.pcs && s.pcs[t].Holds() :: PtrOk(s, s.pcs[t].ptr))
    && (forall t | t in s.pcs && s.pcs[t].Holds() :: s.pcs[t].ptr in s.live <==> s.pcs[t].op == GetSize)
    && (forall t, u | t in s.pcs && u in s.pcs && s.pcs[t].Holds() && s.pcs[u].Holds()
          && s.pcs[t].ptr == s.pcs[u].ptr ::
          t == u || s.pcs[t].op == s.pcs[u].op == GetSize)
  }

  /** A large block has at most one pointer. */
  ghost predicate Single(s: State) {
    forall p, q | Held(s, p) && Held(s, q) && p.id == q.id && p.id in s.blocks && s.blocks[p.id].class_ == 0 :: p == q
  }

  ghost predicate Informed(s: State) {
    forall t | t in s.pcs && (s.pcs[t].Storing? || s.pcs[t].Decided?) ::
      s.pcs[t].ptr.id in s.blocks && s.pcs[t].cl == s.blocks[s.pcs[t].ptr.id].class_
  }

  ghost predicate AllEntered(s: State) { forall id | id in s.blocks :: Entered(s.pagemap, id, s.blocks[id]) }

  ghost predicate Inv(s: State) {
    AllEntered(s) && Disjoint(s) && BlocksOk(s) && Truthful(s) && Preparers(s) && Pointers(s) && Single(s)
        && Informed(s)
  }

  ghost predicate Init(s: State) {
    s.blocks == map[] && s.live == {} && forall t | t in s.pcs :: s.pcs[t] == Resting
  }

  lemma InitInv(s: State)
    requires Init(s)
    ensures Inv(s)
  {
  }

  /** The page map names the block of any live pointer, or of one being freed or measured. */
  lemma PageMapTruth(s: State, ptr: Ptr)
    requires Inv(s) && Held(s, ptr)
    ensures ptr.page in s.pagemap && s.pagemap[ptr.page] == ptr.id && ptr.id in s.blocks
  {
    assert PtrOk(s, ptr);
    assert Entered(s.pagemap, ptr.id, s.blocks[ptr.id]);
  }

  lemma KeepsEntered(s: State, a: Step, s': State)
    requires Inv(s) && Next(s, a, s')
    ensures AllEntered(s')
  {
    hide Truthful, BlocksOk, Pointers, Single, Informed, LossyPut;
    forall id | id in s'.blocks ensures Entered(s'.pagemap, id, s'.blocks[id]) {
      if id in s.blocks { assert Entered(s.pagemap, id, s.blocks[id]); }
    }
  }

  /** The cache never lies about the page of a live pointer, or of one being freed or measured. */
  lemma CacheTruth(s: State, ptr: Ptr)
    requires Inv(s) && Held(s, ptr)
    ensures ptr.id in s.blocks
    ensures Lookup(s.cache, ptr.page) == 0 || Lookup(s.cache, ptr.page) == s.blocks[ptr.id].class_
  {
    assert PtrOk(s, ptr);
  }

  /** The block that a block was part of before a step. */
  ghost function Was(s: State, a: Step, id: SpanId): SpanId {
    if a.Trim? && id == a.id && a.t in s.pcs && s.pcs[a.t].Preparing? then s.pcs[a.t].id else id
  }

  lemma KeepsDisjoint(s: State, a: Step, s': State)
    requires Inv(s) && Next(s, a, s')
    ensures Disjoint(s')
  {
    hide AllEntered, Entered, EntriesKept, Truthful, Pointers, Single, Informed, LossyPut;
    if !a.Obtain? {
      forall x, y, p: nat | x in s'.blocks && y in s'.blocks && s'.blocks[x].Has(p) && s'.blocks[y].Has(p)
        ensures x == y
      {
        assert s.blocks[Was(s, a, x)].Has(p) && s.blocks[Was(s, a, y)].Has(p);
      }
    }
  }

  lemma KeepsBlocksOk(s: State, a: Step, s': State)
    requires Inv(s) && Next(s, a, s')
    ensures BlocksOk(s')
  {
    hide AllEntered, Entered, EntriesKept, Disjoint, Truthful, Single, Informed, LossyPut, Pointers;
  }

  lemma KeepsTruthful(s: State, a: Step, s': State)
    requires Inv(s) && Next(s, a, s')
    ensures Truthful(s')
  {
    hide Inv, BlockStep, PointerStep, Truthful;
    match a
    case CachePage(_) => CachePageTruthful(s, a, s');
    case Obtain(_, _, _) | Trim(_, _, _, _) | Publish(_, _) | HandOut(_) | DeleteSmall(_) => BlocksTruthful(s, a, s');
    case _ => PointersTruthful(s, a, s');
  }

  lemma CachePageTruthful(s: State, a: Step, s': State)
    requires Inv(s) && BlockStep(s, a, s') && a.CachePage?
    ensures Truthful(s')
  {
    hide AllEntered, Entered, EntriesKept, Single, Pointers, Informed;
    var k := s.pcs[a.t].id;
    assert s.blocks[k].Has(s.blocks[k].start + s.blocks[k].cached);
    forall id, p: nat | id in s'.blocks && s'.blocks[id].start <= p < s'.blocks[id].start + s'.blocks[id].cached
        && p in s'.cache
      ensures s'.cache[p] == s'.blocks[id].class_
    {
      assert s.blocks[id].Has(p);
    }
  }

  lemma BlocksTruthful(s: State, a: Step, s': State)
    requires Inv(s) && BlockStep(s, a, s') && !a.CachePage?
    ensures Truthful(s')
  {
    hide AllEntered, Entered, EntriesKept, Single, Pointers, Informed, Disjoint, Preparers;
  }

  lemma PointersTruthful(s: State, a: Step, s': State)
    requires Inv(s) && PointerStep(s, a, s')
    ensures Truthful(s')
  {
    hide AllEntered, Entered, EntriesKept, Single, Preparers;
    if a.Store? {
      var ptr := s.pcs[a.t].ptr;
      assert s.blocks[ptr.id].Has(ptr.page);
      forall id, p: nat | id in s'.blocks && s'.blocks[id].start <= p < s'.blocks[id].start + s'.blocks[id].cached
          && p in s'.cache
        ensures s'.cache[p] == s'.blocks[id].class_
      {
        assert s.blocks[id].Has(p);
      }
    }
  }

  lemma KeepsPreparers(s: State, a: Step, s': State)
    requires Inv(s) && Next(s, a, s')
    ensures Preparers(s')
  {
    hide Inv, BlockStep, PointerStep, Preparers;
    match a
    case Begin(_, _, _) | Look(_) | ReadSpan(_) | Store(_) | Finish(_) => PointersPreparers(s, a, s');
    case _ => BlocksPreparers(s, a, s');
  }

  lemma BlocksPreparers(s: State, a: Step, s': State)
    requires Inv(s) && BlockStep(s, a, s')
    ensures Preparers(s')
  {
    hide AllEntered, Entered, EntriesKept, Disjoint, Truthful, Single, Informed, LossyPut, Pointers, Held;
  }

  lemma PointersPreparers(s: State, a: Step, s': State)
    requires Inv(s) && PointerStep(s, a, s')
    ensures Preparers(s')
  {
    hide AllEntered, Entered, EntriesKept, Disjoint, Truthful, Single, LossyPut, Held;
  }

  /** A pointer in the client's or a thread's hands stays good until it is freed. */
  lemma PtrKept(s: State, a: Step, s': State, ptr: Ptr)
    requires Inv(s) && Next(s, a, s') && Held(s, ptr)
    requires a.Finish? ==> s.pcs[a.t].op == GetSize || s.pcs[a.t].ptr != ptr
    ensures PtrOk(s', ptr)
  {
    hide AllEntered, Entered, EntriesKept, Disjoint, Truthful, BlocksOk, LossyPut;
    assert PtrOk(s, ptr);
    if a.Finish? {
      assert Held(s, s.pcs[a.t].ptr);
    }
  }

  lemma KeepsPointers(s: State, a: Step, s': State)
    requires Inv(s) && Next(s, a, s')
    ensures Pointers(s')
  {
    hide PtrOk, Inv, Next;
    forall ptr | ptr in s'.live ensures PtrOk(s', ptr) {
      if ptr in s.live { LiveKept(s, a, s', ptr); } else { NewPtrOk(s, a, s', ptr); }
    }
    forall t | t in s'.pcs && s'.pcs[t].Holds()
      ensures PtrOk(s', s'.pcs[t].ptr) && (s'.pcs[t].ptr in s'.live <==> s'.pcs[t].op == GetSize)
    {
      HolderKept(s, a, s', t);
    }
    forall t, u | t in s'.pcs && u in s'.pcs && s'.pcs[t].Holds() && s'.pcs[u].Holds() && s'.pcs[t].ptr == s'.pcs[u].ptr
      ensures t == u || s'.pcs[t].op == s'.pcs[u].op == GetSize
    {
      OneHolder(s, a, s', t, u);
    }
  }

  lemma LiveKept(s: State, a: Step, s': State, ptr: Ptr)
    requires Inv(s) && Next(s, a, s') && ptr in s.live
    ensures PtrOk(s', ptr)
  {
    hide PtrOk, AllEntered, EntriesKept, Entered, Disjoint, Truthful, BlocksOk, Preparers, Informed, Single;
    PtrKept(s, a, s', ptr);
  }

  lemma HolderKept(s: State, a: Step, s': State, t: Tid)
    requires Inv(s) && Next(s, a, s') && t in s'.pcs && s'.pcs[t].Holds()
    ensures PtrOk(s', s'.pcs[t].ptr) && (s'.pcs[t].ptr in s'.live <==> s'.pcs[t].op == GetSize)
  {
    hide PtrOk, AllEntered, EntriesKept, Entered, Disjoint, Truthful, BlocksOk;
    var ptr := s'.pcs[t].ptr;
    assert Held(s, ptr);
    HeldPublished(s, ptr);
    PtrKept(s, a, s', ptr);
  }

  lemma OneHolder(s: State, a: Step, s': State, t: Tid, u: Tid)
    requires Inv(s) && Next(s, a, s') && t in s'.pcs && u in s'.pcs
    requires s'.pcs[t].Holds() && s'.pcs[u].Holds() && s'.pcs[t].ptr == s'.pcs[u].ptr
    ensures t == u || s'.pcs[t].op == s'.pcs[u].op == GetSize
  {
    hide PtrOk, AllEntered, EntriesKept, Entered, Disjoint, Truthful, BlocksOk, Preparers, Informed, Single;
  }

  lemma HeldPublished(s: State, ptr: Ptr)
    requires Inv(s) && Held(s, ptr)
    ensures ptr.id in s.blocks && s.blocks[ptr.id].published
  {
    assert PtrOk(s, ptr);
  }

  lemma NewPtrOk(s: State, a: Step, s': State, ptr: Ptr)
    requires Inv(s) && Next(s, a, s') && ptr in s'.live && ptr !in s.live
    ensures PtrOk(s', ptr)
  {
  }

  lemma KeepsSingle(s: State, a: Step, s': State)
    requires Inv(s) && Next(s, a, s')
    ensures Single(s')
  {
    hide Inv, BlockStep, PointerStep, Single;
    match a
    case Begin(_, _, _) | Look(_) | ReadSpan(_) | Store(_) | Finish(_) => PointersSingle(s, a, s');
    case _ => BlocksSingle(s, a, s');
  }

  lemma BlocksSingle(s: State, a: Step, s': State)
    requires Inv(s) && BlockStep(s, a, s')
    ensures Single(s')
  {
    hide AllEntered, Entered, EntriesKept, Disjoint, Truthful, BlocksOk, Informed, LossyPut;
  }

  lemma PointersSingle(s: State, a: Step, s': State)
    requires Inv(s) && PointerStep(s, a, s')
    ensures Single(s')
  {
    hide AllEntered, Entered, EntriesKept, Disjoint, Truthful, BlocksOk, Informed, LossyPut, Preparers;
  }

  lemma KeepsInformed(s: State, a: Step, s': State)
    requires Inv(s) && Next(s, a, s')
    ensures Informed(s')
  {
    hide Inv, BlockStep, PointerStep, Informed;
    match a
    case Begin(_, _, _) | Look(_) | ReadSpan(_) | Store(_) | Finish(_) => PointersInformed(s, a, s');
    case _ => BlocksInformed(s, a, s');
  }

  lemma BlocksInformed(s: State, a: Step, s': State)
    requires Inv(s) && BlockStep(s, a, s')
    ensures Informed(s')
  {
    hide AllEntered, Entered, EntriesKept, Disjoint, Truthful, Single, LossyPut, BlocksOk;
  }

  lemma PointersInformed(s: State, a: Step, s': State)
    requires Inv(s) && PointerStep(s, a, s')
    ensures Informed(s')
  {
    hide Disjoint, Preparers, LossyPut, EntriesKept;
  }

  lemma NextKeepsInv(s: State, a: Step, s': State)
    requires Inv(s) && Next(s, a, s')
    ensures Inv(s')
  {
    hide Next, AllEntered, Disjoint, BlocksOk, Truthful, Preparers, Pointers, Single, Informed;
    KeepsEntered(s, a, s');
    KeepsDisjoint(s, a, s');
    KeepsBlocksOk(s, a, s');
    KeepsTruthful(s, a, s');
    KeepsPreparers(s, a, s');
    KeepsPointers(s, a, s');
    KeepsSingle(s, a, s');
    KeepsInformed(s, a, s');
  }

  /** A run: consecutive states are one step apart. */
  ghost predicate Run(states: seq<State>, steps: seq<Step>) {
    && |states| == |steps| + 1 && Init(states[0])
    && forall i | 0 <= i < |steps| :: Next(states[i], steps[i], states[i + 1])
  }

  lemma {:induction false} RunInv(states: seq<State>, steps: seq<Step>, i: nat)
    requires Run(states, steps) && i < |states|
    ensures Inv(states[i])
  {
    if i == 0 {
      InitInv(states[0]);
    } else {
      RunInv(states, steps, i - 1);
      NextKeepsInv(states[i - 1], steps[i - 1], states[i]);
    }
  }

  /** The page map has an entry for the page, which names a block; and the size class of that block. */
  ghost predicate InPageMap(s: State, page: nat) { page in s.pagemap && s.pagemap[page] in s.blocks }

  ghost function PageMapClass(s: State, page: nat): nat
    requires InPageMap(s, page)
  {
    s.blocks[s.pagemap[page]].class_
  }

  /** In every run, the page map names the block of every pointer in anyone's hands, a lookup for it gives the class
      that the page map has or nothing, and whatever a free or a size query decides on is that class. */
  lemma CacheAgreesWithPageMap(states: seq<State>, steps: seq<Step>, i: nat)
    requires Run(states, steps) && i < |states|
    ensures forall ptr | Held(states[i], ptr) ::
              && InPageMap(states[i], ptr.page) && states[i].pagemap[ptr.page] == ptr.id
              && Lookup(states[i].cache, ptr.page) in {0, PageMapClass(states[i], ptr.page)}
    ensures forall t | t in states[i].pcs && states[i].pcs[t].Decided? ::
              && InPageMap(states[i], states[i].pcs[t].ptr.page)
              && states[i].pcs[t].cl == PageMapClass(states[i], states[i].pcs[t].ptr.page)
  {
    RunInv(states, steps, i);
    var s := states[i];
    forall ptr | Held(s, ptr)
      ensures InPageMap(s, ptr.page) && s.pagemap[ptr.page] == ptr.id
      ensures Lookup(s.cache, ptr.page) in {0, PageMapClass(s, ptr.page)}
    {
      PageMapTruth(s, ptr);
      CacheTruth(s, ptr);
    }
    forall t | t in s.pcs && s.pcs[t].Decided?
      ensures InPageMap(s, s.pcs[t].ptr.page) && s.pcs[t].cl == PageMapClass(s, s.pcs[t].ptr.page)
    {
      PageMapTruth(s, s.pcs[t].ptr);
    }
  }
}
