/** How the thread caches share one budget: creation, growth by claiming or by
    stealing, deletion, and resizing of the whole. */
module ThreadBudget {
  import opened Wrappers
  import opened Sequences

  type Id = nat

  const MIN_SIZE := 0x8_0000
  const MAX_SIZE := 0x40_0000
  const STEAL_AMOUNT := 0x1_0000
  const DEFAULT_OVERALL := 0x200_0000
  const MAX_OVERALL := 0x4000_0000
  const STEAL_TRIES := 10

  /** What the listed caches may hold together. */
  ghost function Total(heaps: seq<Id>, maxSize: map<Id, nat>): nat
    requires forall h | h in heaps :: h in maxSize
  {
    if heaps == [] then 0 else maxSize[heaps[0]] + Total(heaps[1..], maxSize)
  }

  ghost predicate Listed(heaps: seq<Id>, maxSize: map<Id, nat>) {
    Distinct(heaps) && forall h | h in heaps :: h in maxSize
  }

  /** The cache after `h` in the list. */
  function After(heaps: seq<Id>, h: Id): (n: Option<Id>)
    ensures n.Some? ==> n.value in heaps
  {
    if |heaps| < 2 then None
    else if heaps[0] == h then Some(heaps[1])
    else After(heaps[1..], h)
  }

  /** Where a round of tries ends: at the first cache other than `h` that can spare a step, or nowhere; and the place
      after it. The walk goes on at the head of the list when it comes to the end. */
  datatype Walk = Walk(victim: Option<Id>, next: Option<Id>)

  ghost function WalkFrom(heaps: seq<Id>, maxSize: map<Id, nat>, h: Id, at: Option<Id>, tries: nat): Walk
    requires heaps != [] && (forall g | g in heaps :: g in maxSize) && (at.Some? ==> at.value in heaps)
    decreases tries
  {
    if tries == 0 then Walk(None, at)
    else
      var g := if at.Some? then at.value else heaps[0];
      if g != h && maxSize[g] > MIN_SIZE then Walk(Some(g), After(heaps, g))
      else WalkFrom(heaps, maxSize, h, After(heaps, g), tries - 1)
  }

  function Clipped(space: nat): nat {
    if space < MIN_SIZE then MIN_SIZE else if space > MAX_SIZE then MAX_SIZE else space
  }

  class ThreadCaches {
    var heaps: seq<Id>
    var maxSize: map<Id, nat>
    var nextSteal: Option<Id>
    var overall: nat
    var unclaimed: int
    var perThread: nat

    /** What holds of the list alone. */
    ghost predicate ListOk()
      reads this
    {
      Listed(heaps, maxSize) && (nextSteal.Some? ==> nextSteal.value in heaps)
    }

    /** Whenever the lock is free, what is unclaimed and what the listed caches may hold add up to the whole. */
    ghost predicate Valid()
      reads this
    {
      ListOk() && overall >= MIN_SIZE && unclaimed + Total(heaps, maxSize) == overall
    }

    constructor ()
      ensures Valid() && heaps == []
    {
      heaps, maxSize, nextSteal := [], map[], None;
      overall, unclaimed, perThread := DEFAULT_OVERALL, DEFAULT_OVERALL, MAX_SIZE;
    }

    /** Lets cache `h` grow by one step: from what is unclaimed, or from another cache that can spare it, if one of the
        next ten can.  The cache may be listed, or a new one that is not listed yet. */
    method IncreaseCacheLimit(h: Id)
      requires ListOk() && h in maxSize && (heaps == [] ==> unclaimed > 0)
      modifies this`maxSize, this`unclaimed, this`nextSteal
      ensures ListOk() && maxSize.Keys == old(maxSize.Keys)
      ensures unclaimed + Share(heaps, maxSize, h) == old(unclaimed) + Share(heaps, old(maxSize), h)
      ensures old(unclaimed) > 0 ==>
                && unclaimed == old(unclaimed) - STEAL_AMOUNT && nextSteal == old(nextSteal)
                && maxSize == old(maxSize)[h := old(maxSize)[h] + STEAL_AMOUNT]
      ensures old(unclaimed) <= 0 ==>
                && unclaimed == old(unclaimed)
                && Stolen(heaps, old(maxSize), h, old(nextSteal), maxSize, nextSteal)
    {
      if unclaimed > 0 {
        Grow(heaps, maxSize, h, maxSize[h] + STEAL_AMOUNT);
        unclaimed := unclaimed - STEAL_AMOUNT;
        maxSize := maxSize[h := maxSize[h] + STEAL_AMOUNT];
        return;
      }
      Steal(h);
    }

    method Steal(h: Id)
      requires ListOk() && h in maxSize && heaps != []
      modifies this`maxSize, this`nextSteal
      ensures ListOk() && maxSize.Keys == old(maxSize.Keys)
      ensures Share(heaps, maxSize, h) == Share(heaps, old(maxSize), h)
      ensures Stolen(heaps, old(maxSize), h, old(nextSteal), maxSize, nextSteal)
    {
      hide Total;
      for i := 0 to STEAL_TRIES
        invariant ListOk() && maxSize == old(maxSize)
        invariant WalkFrom(heaps, maxSize, h, nextSteal, STEAL_TRIES - i) ==
                    WalkFrom(heaps, maxSize, h, old(nextSteal), STEAL_TRIES)
      {
        if nextSteal == None {
          nextSteal := Some(heaps[0]);
        }
        var g := nextSteal.value;
        if g != h && maxSize[g] > MIN_SIZE {
          Exchange(heaps, maxSize, g, h);
          maxSize := maxSize[g := maxSize[g] - STEAL_AMOUNT];
          maxSize := maxSize[h := maxSize[h] + STEAL_AMOUNT];
          nextSteal := After(heaps, g);
          return;
        }
        nextSteal := After(heaps, g);
      }
    }

    /** A new cache gets one step if it can be had, else the minimum. */
    method NewHeap(h: Id)
      requires Valid() && h !in maxSize
      modifies this
      ensures Valid() && heaps == [h] + old(heaps) && overall == old(overall)
      ensures maxSize.Keys == old(maxSize.Keys) + {h} && maxSize[h] in {STEAL_AMOUNT, MIN_SIZE}
      ensures old(unclaimed) > 0 ==> maxSize[h] == STEAL_AMOUNT
      ensures old(unclaimed) <= 0 ==>
                && old(heaps) != []
                && var w := WalkFrom(old(heaps), old(maxSize)[h := 0], h, old(nextSteal), STEAL_TRIES);
                   maxSize[h] == if w.victim.Some? then STEAL_AMOUNT else MIN_SIZE
      ensures maxSize[h] == MIN_SIZE ==> unclaimed < 0
    {
      hide WalkFrom;
      maxSize := maxSize[h := 0];
      NotListed(heaps, old(maxSize), h, 0);
      IncreaseCacheLimit(h);
      if maxSize[h] == 0 {
        ghost var before := maxSize;
        maxSize := maxSize[h := MIN_SIZE];
        NotListed(heaps, before, h, MIN_SIZE);
        unclaimed := unclaimed - MIN_SIZE;
      }
      if heaps == [] {
        nextSteal := Some(h);
      }
      heaps := [h] + heaps;
    }

    /** A cache is taken off the list and its share goes back. */
    method DeleteCache(h: Id)
      requires Valid() && h in heaps
      modifies this
      ensures Valid() && heaps == Without(old(heaps), h) && overall == old(overall)
      ensures unclaimed == old(unclaimed) + old(maxSize)[h]
      ensures maxSize == old(maxSize) - {h} && (heaps != [] ==> nextSteal.Some?)
    {
      Removed(heaps, maxSize, h);
      var next := After(heaps, h);
      AfterStays(heaps, h);
      heaps := Without(heaps, h);
      if nextSteal == Some(h) {
        nextSteal := next;
      }
      if nextSteal == None && heaps != [] {
        nextSteal := Some(heaps[0]);
      }
      unclaimed := unclaimed + maxSize[h];
      maxSize := maxSize - {h};
    }

    /** Divides the whole among the caches; shares only shrink here, in proportion. */
    method RecomputePerThreadCacheSize()
      requires ListOk() && overall >= MIN_SIZE
      modifies this`maxSize, this`unclaimed, this`perThread
      ensures Valid() && maxSize.Keys == old(maxSize.Keys) && MIN_SIZE <= perThread <= MAX_SIZE
      ensures perThread == Clipped(overall / if |heaps| > 0 then |heaps| else 1)
      ensures forall g | g in maxSize :: maxSize[g] ==
                if g in heaps then Shrunk(old(maxSize)[g],
                    perThread as real / (if old(perThread) > 1 then old(perThread) else 1) as real)
                else old(maxSize)[g]
    {
      hide Shrunk;
      var n := if |heaps| > 0 then |heaps| else 1;
      var space := overall / n;
      if space < MIN_SIZE {
        space := MIN_SIZE;
      }
      if space > MAX_SIZE {
        space := MAX_SIZE;
      }
      var ratio := (space as real) / ((if perThread > 1 then perThread else 1) as real);
      var claimed := Scale(ratio);
      unclaimed := overall - claimed;
      perThread := space;
    }

    /** Shrinks every share by the same ratio, rounding down; tells their sum. */
    method Scale(ratio: real) returns (claimed: nat)
      requires ListOk() && ratio >= 0.0
      modifies this`maxSize
      ensures ListOk() && maxSize.Keys == old(maxSize.Keys) && claimed == Total(heaps, maxSize)
      ensures forall g | g in maxSize ::
                maxSize[g] == if g in heaps then Shrunk(old(maxSize)[g], ratio) else old(maxSize)[g]
    {
      hide Shrunk;
      claimed := 0;
      for i := 0 to |heaps|
        invariant ListOk() && maxSize.Keys == old(maxSize.Keys) && claimed == Total(heaps[..i], maxSize)
        invariant forall g | g in maxSize ::
                    maxSize[g] == if g in heaps[..i] then Shrunk(old(maxSize)[g], ratio) else old(maxSize)[g]
      {
        var h := heaps[i];
        NotListed(heaps[..i], maxSize, h, Shrunk(maxSize[h], ratio));
        maxSize := maxSize[h := Shrunk(maxSize[h], ratio)];
        assert heaps[..i + 1] == heaps[..i] + [h];
        TotalAppend(heaps[..i], maxSize, h);
        claimed := claimed + maxSize[h];
      }
      assert heaps[..|heaps|] == heaps;
    }

    method SetOverallThreadCacheSize(size: nat)
      requires Valid()
      modifies this
      ensures Valid() && heaps == old(heaps) && maxSize.Keys == old(maxSize.Keys)
      ensures overall == if size < MIN_SIZE then MIN_SIZE else if size > MAX_OVERALL then MAX_OVERALL else size
    {
      overall := if size < MIN_SIZE then MIN_SIZE else if size > MAX_OVERALL then MAX_OVERALL else size;
      RecomputePerThreadCacheSize();
    }
  }

  /** What the listed caches and `h` may hold together. */
  ghost function Share(heaps: seq<Id>, maxSize: map<Id, nat>, h: Id): nat
    requires h in maxSize && forall g | g in heaps :: g in maxSize
  {
    Total(heaps, maxSize) + if h in heaps then 0 else maxSize[h]
  }

  /** The outcome of a walk: its victim, if any, has given one step to `h`. */
  ghost predicate Stolen(heaps: seq<Id>, maxSize: map<Id, nat>, h: Id, at: Option<Id>, after: map<Id, nat>,
                         next: Option<Id>)
  {
    && heaps != [] && (forall g | g in heaps :: g in maxSize) && (at.Some? ==> at.value in heaps) && h in maxSize
    && var w := WalkFrom(heaps, maxSize, h, at, STEAL_TRIES);
    && next == w.next
    && (w.victim.None? ==> after == maxSize)
    && (w.victim.Some? ==>
          && w.victim.value in heaps && w.victim.value != h && maxSize[w.victim.value] > MIN_SIZE
          && after == maxSize[w.victim.value := maxSize[w.victim.value] - STEAL_AMOUNT][h := maxSize[h] + STEAL_AMOUNT])
  }

  /** What one cache gives and another takes leaves the sum of shares. */
  lemma Exchange(heaps: seq<Id>, maxSize: map<Id, nat>, g: Id, h: Id)
    requires Listed(heaps, maxSize) && g in heaps && h in maxSize && g != h && maxSize[g] > MIN_SIZE
    ensures var m := maxSize[g := maxSize[g] - STEAL_AMOUNT][h := maxSize[h] + STEAL_AMOUNT];
            Listed(heaps, m) && Share(heaps, m, h) == Share(heaps, maxSize, h)
  {
    hide Total;
    var less := maxSize[g := maxSize[g] - STEAL_AMOUNT];
    Grow(heaps, maxSize, g, maxSize[g] - STEAL_AMOUNT);
    Grow(heaps, less, h, less[h] + STEAL_AMOUNT);
  }

  /** A round of as many tries as there are caches finds a victim if there is one. */
  lemma RoundFindsVictim(heaps: seq<Id>, maxSize: map<Id, nat>, h: Id, at: Option<Id>, tries: nat, v: Id)
    requires Listed(heaps, maxSize) && (at.Some? ==> at.value in heaps) && tries >= |heaps|
    requires v in heaps && v != h && maxSize[v] > MIN_SIZE
    ensures WalkFrom(heaps, maxSize, h, at, tries).victim.Some?
  {
    var j: nat :| j < |heaps| && heaps[j] == v;
    if at == None {
      StartAtHead(heaps, maxSize, h, tries);
      WalkReaches(heaps, maxSize, h, 0, j, tries);
    } else {
      var i: nat :| i < |heaps| && at.value == heaps[i];
      if i <= j {
        WalkReaches(heaps, maxSize, h, i, j, tries);
      } else {
        WalkWraps(heaps, maxSize, h, i, tries);
        StartAtHead(heaps, maxSize, h, tries - (|heaps| - i));
        WalkReaches(heaps, maxSize, h, 0, j, tries - (|heaps| - i));
      }
    }
  }

  lemma {:induction false} AfterAt(heaps: seq<Id>, i: nat)
    requires i < |heaps| && forall j, k | 0 <= j < k < |heaps| :: heaps[j] != heaps[k]
    ensures After(heaps, heaps[i]) == if i + 1 < |heaps| then Some(heaps[i + 1]) else None
  {
    if i > 0 {
      var rest := heaps[1..];
      forall j, k | 0 <= j < k < |rest|
        ensures rest[j] != rest[k]
      {
        assert rest[j] == heaps[j + 1] && rest[k] == heaps[k + 1];
      }
      AfterAt(rest, i - 1);
      assert heaps[0] != heaps[i] && rest[i - 1] == heaps[i];
    }
  }

  lemma StartAtHead(heaps: seq<Id>, maxSize: map<Id, nat>, h: Id, tries: nat)
    requires Listed(heaps, maxSize) && heaps != [] && tries > 0
    ensures WalkFrom(heaps, maxSize, h, None, tries) == WalkFrom(heaps, maxSize, h, Some(heaps[0]), tries)
  {
  }

  lemma {:induction false} WalkReaches(heaps: seq<Id>, maxSize: map<Id, nat>, h: Id, i: nat, j: nat, tries: nat)
    requires Listed(heaps, maxSize) && i <= j < |heaps| && tries > j - i && heaps[j] != h
    requires maxSize[heaps[j]] > MIN_SIZE
    ensures WalkFrom(heaps, maxSize, h, Some(heaps[i]), tries).victim.Some?
    decreases j - i
  {
    AfterAt(heaps, i);
    if i < j {
      WalkReaches(heaps, maxSize, h, i + 1, j, tries - 1);
    }
  }

  /** A walk finds a victim before the end of the list, or goes on at its head. */
  lemma {:induction false} WalkWraps(heaps: seq<Id>, maxSize: map<Id, nat>, h: Id, i: nat, tries: nat)
    requires Listed(heaps, maxSize) && i < |heaps| && tries > |heaps| - i
    ensures WalkFrom(heaps, maxSize, h, Some(heaps[i]), tries).victim.Some?
            || WalkFrom(heaps, maxSize, h, Some(heaps[i]), tries) ==
                WalkFrom(heaps, maxSize, h, None, tries - (|heaps| - i))
    decreases |heaps| - i
  {
    AfterAt(heaps, i);
    if i + 1 < |heaps| {
      WalkWraps(heaps, maxSize, h, i + 1, tries - 1);
    }
  }

  /** Changing one share changes the total by as much, if the cache is listed. */
  lemma {:induction false} Grow(heaps: seq<Id>, maxSize: map<Id, nat>, h: Id, size: nat)
    requires Listed(heaps, maxSize) && h in maxSize
    ensures Listed(heaps, maxSize[h := size])
    ensures Total(heaps, maxSize[h := size]) == if h in heaps then Total(heaps, maxSize) - maxSize[h] + size
              else Total(heaps, maxSize)
  {
    if heaps != [] {
      var rest := heaps[1..];
      assert heaps == [heaps[0]] + rest;
      TailDistinct(heaps[0], rest);
      Grow(rest, maxSize, h, size);
    }
  }

  lemma {:induction false} NotListed(heaps: seq<Id>, maxSize: map<Id, nat>, h: Id, size: nat)
    requires (forall g | g in heaps :: g in maxSize) && h !in heaps
    ensures Total(heaps, maxSize[h := size]) == Total(heaps, maxSize)
  {
    if heaps != [] {
      NotListed(heaps[1..], maxSize, h, size);
    }
  }

  lemma {:induction false} TotalAppend(heaps: seq<Id>, maxSize: map<Id, nat>, h: Id)
    requires (forall g | g in heaps :: g in maxSize) && h in maxSize
    ensures Total(heaps + [h], maxSize) == Total(heaps, maxSize) + maxSize[h]
  {
    if heaps != [] {
      assert (heaps + [h])[1..] == heaps[1..] + [h];
      TotalAppend(heaps[1..], maxSize, h);
    }
  }

  lemma {:induction false} Removed(heaps: seq<Id>, maxSize: map<Id, nat>, h: Id)
    requires Listed(heaps, maxSize) && h in heaps
    ensures Listed(Without(heaps, h), maxSize - {h})
    ensures forall g :: g in Without(heaps, h) <==> g in heaps && g != h
    ensures Total(heaps, maxSize) == Total(Without(heaps, h), maxSize - {h}) + maxSize[h]
  {
    var rest := heaps[1..];
    assert heaps == [heaps[0]] + rest;
    TailDistinct(heaps[0], rest);
    WithoutKeeps(heaps, h);
    if heaps[0] == h {
      SameTotal(rest, maxSize, h);
    } else {
      Removed(rest, maxSize, h);
    }
  }

  lemma {:induction false} SameTotal(heaps: seq<Id>, maxSize: map<Id, nat>, h: Id)
    requires (forall g | g in heaps :: g in maxSize) && h !in heaps
    ensures Total(heaps, maxSize - {h}) == Total(heaps, maxSize)
  {
    if heaps != [] {
      SameTotal(heaps[1..], maxSize, h);
    }
  }

  /** The cache after a removed one is still listed. */
  lemma {:induction false} AfterStays(heaps: seq<Id>, h: Id)
    requires h in heaps && Distinct(heaps)
    ensures After(heaps, h).Some? ==> After(heaps, h).value != h
  {
    if |heaps| >= 2 {
      var rest := heaps[1..];
      assert heaps == [heaps[0]] + rest;
      TailDistinct(heaps[0], rest);
      if heaps[0] != h {
        AfterStays(rest, h);
      }
    }
  }

  /** A share in proportion; raising the whole does not raise it. */
  function Shrunk(size: nat, ratio: real): (r: nat)
    requires ratio >= 0.0
    ensures r <= size
  {
    if ratio < 1.0 then
      assert 0.0 <= size as real * ratio <= size as real;
      (size as real * ratio).Floor
    else size
  }
}
