/** The free lists of one thread cache: how objects come from and go to the central
    lists in batches, and how the lists' allowed lengths adapt. */
module ThreadLists {
  import opened Sequences
  import opened Wrappers
  import opened Arithmetic

  type Class = nat
  type Object = nat

  const MAX_LENGTH := 8192
  const MAX_OVERAGES := 3

  datatype FreeList = FreeList(objects: seq<Object>, lowWater: nat, maxLength: nat, overages: nat)

  /** A chain of objects handed to the central list of a class. */
  datatype Chain = Chain(class_: Class, objects: seq<Object>)

  /** The allowed length grows one by one up to a batch, then batch by batch. */
  predicate LengthOk(length: nat, batch: nat)
    requires batch > 0
  {
    1 <= length <= MAX_LENGTH && (length <= batch || length % batch == 0)
  }

  predicate ListOk(l: FreeList, batch: nat) {
    batch > 0 && l.lowWater <= |l.objects| && LengthOk(l.maxLength, batch) && l.overages <= MAX_OVERAGES
  }

  function Bytes(lists: seq<FreeList>, sizeOf: seq<nat>): nat
    requires |lists| <= |sizeOf|
  {
    if lists == [] then 0 else Bytes(lists[..|lists| - 1], sizeOf) + |lists[|lists| - 1].objects| * sizeOf[|lists| - 1]
  }

  function All(chains: seq<Chain>, c: Class): seq<Object> {
    if chains == [] then []
    else
      var last := chains[|chains| - 1];
      All(chains[..|chains| - 1], c) + (if last.class_ == c then last.objects else [])
  }

  function Min(a: nat, b: nat): nat { if a < b then a else b }

  /** The allowed length after a fetch. */
  function Longer(length: nat, batch: nat): (n: nat)
    requires batch > 0
  {
    if length < batch then length + 1
    else
      var n := Min(length + batch, MAX_LENGTH);
      n - n % batch
  }

  lemma LongerOk(length: nat, batch: nat)
    requires 0 < batch <= MAX_LENGTH && LengthOk(length, batch)
    ensures LengthOk(Longer(length, batch), batch) && (length < MAX_LENGTH - batch ==> Longer(length, batch) > length)
  {
    if length >= batch {
      RoundDown(Min(length + batch, MAX_LENGTH), batch);
      LengthMultiple(length, batch);
      StepMultiple(length, batch);
    }
  }

  /** How long a list may get, and how often in a row it has got longer than that. */
  datatype Allowance = Allowance(length: nat, overages: nat)

  function AllowanceOf(l: FreeList): Allowance { Allowance(l.maxLength, l.overages) }

  /** The allowance after the list has got too long. */
  function Adapted(a: Allowance, batch: nat): Allowance {
    if a.length < batch then a.(length := a.length + 1)
    else if a.length == batch then a
    else if a.overages < MAX_OVERAGES then a.(overages := a.overages + 1)
    else Allowance(a.length - batch, 0)
  }

  function AdaptedBy(n: nat, a: Allowance, batch: nat): Allowance {
    if n == 0 then a else AdaptedBy(n - 1, Adapted(a, batch), batch)
  }

  /** A list that keeps getting too long ends up with an allowance of a batch, and stays there. */
  lemma {:induction false} Converges(a: Allowance, batch: nat) returns (n: nat)
    requires 0 < batch <= MAX_LENGTH && LengthOk(a.length, batch) && a.overages <= MAX_OVERAGES
    ensures forall k: nat | k >= n :: AdaptedBy(k, a, batch).length == batch
    decreases if a.length < batch then batch - a.length else a.length - batch, MAX_OVERAGES - a.overages
  {
    if a.length == batch {
      n := 0;
      forall k: nat ensures AdaptedBy(k, a, batch).length == batch { StaysAdapted(k, a, batch); }
    } else {
      if a.length > batch { ShorterOk(a.length, batch); }
      var m := Converges(Adapted(a, batch), batch);
      n := m + 1;
      forall k: nat | k >= n ensures AdaptedBy(k, a, batch).length == batch {
        assert AdaptedBy(k, a, batch) == AdaptedBy(k - 1, Adapted(a, batch), batch);
      }
    }
  }

  lemma {:induction false} StaysAdapted(k: nat, a: Allowance, batch: nat)
    requires a.length == batch
    ensures AdaptedBy(k, a, batch) == a
  {
    if k > 0 { StaysAdapted(k - 1, a, batch); }
  }

  lemma RoundDown(n: nat, batch: nat)
    requires 0 < batch <= n
    ensures batch <= n - n % batch <= n && (n - n % batch) % batch == 0
  {
    var q, r := n / batch, n % batch;
    Parts(n, batch);
    DivMod(q * batch, batch, q, 0);
    assert q == 0 ==> q * batch == 0;
    assert q >= 1 ==> (q - 1) * batch >= 0 && q * batch == (q - 1) * batch + batch;
  }

  lemma LengthMultiple(length: nat, batch: nat)
    requires batch > 0 && LengthOk(length, batch) && length >= batch
    ensures length % batch == 0
  {
    if length == batch { DivMod(length, batch, 1, 0); }
  }

  lemma ShorterOk(length: nat, batch: nat)
    requires batch > 0 && LengthOk(length, batch) && length > batch
    ensures LengthOk(length - batch, batch) && length - batch >= batch
  {
    LengthMultiple(length, batch);
    DivMod(batch, batch, 1, 0);
    NextMultiple(batch, length, batch);
    var q := length / batch;
    Parts(length, batch);
    assert length - batch == (q - 1) * batch;
    DivMod(length - batch, batch, q - 1, 0);
  }

  lemma {:induction false} BytesUpdate(lists: seq<FreeList>, sizeOf: seq<nat>, c: nat, l: FreeList)
    requires |lists| <= |sizeOf| && c < |lists|
    ensures Bytes(lists[c := l], sizeOf) + |lists[c].objects| * sizeOf[c] == Bytes(lists, sizeOf)
              + |l.objects| * sizeOf[c]
  {
    var n := |lists| - 1;
    if c == n {
      assert lists[c := l][..n] == lists[..n];
    } else {
      BytesUpdate(lists[..n], sizeOf, c, l);
      assert lists[c := l][..n] == lists[..n][c := l];
    }
  }

  lemma AllAppend(chains: seq<Chain>, chain: Chain, c: Class)
    ensures All(chains + [chain], c) == All(chains, c) + (if chain.class_ == c then chain.objects else [])
  {
    assert (chains + [chain])[..|chains|] == chains;
  }

  class ThreadCache {
    const sizeOf: seq<nat>
    const batch: seq<nat>
    var lists: seq<FreeList>
    var size: nat
    var maxSize: nat

    /** Every list is in order, and the size is what the listed objects have together. */
    ghost predicate Valid()
      reads this
    {
      && |lists| == |sizeOf| == |batch|
      && (forall c | 0 <= c < |lists| :: batch[c] <= MAX_LENGTH && ListOk(lists[c], batch[c]))
      && size == Bytes(lists, sizeOf)
    }

    constructor (sizeOf: seq<nat>, batch: seq<nat>, maxSize: nat)
      requires |sizeOf| == |batch| && forall c | 0 <= c < |batch| :: 0 < batch[c] <= MAX_LENGTH
      ensures Valid() && size == 0 && forall c | 0 <= c < |lists| :: lists[c].objects == []
    {
      this.sizeOf, this.batch, this.maxSize, size := sizeOf, batch, maxSize, 0;
      lists := seq(|sizeOf|, _ => FreeList([], 0, 1, 0));
      EmptyBytes(seq(|sizeOf|, _ => FreeList([], 0, 1, 0)), sizeOf);
    }

    /** An object from the list; an empty list is first filled from the central list, which gives `fetched`. */
    method Allocate(c: Class, fetched: seq<Object>) returns (r: Option<Object>)
      requires Valid() && c < |lists| && |fetched| <= Min(lists[c].maxLength, batch[c])
      modifies this`lists, this`size
      ensures Valid() && |lists| == |old(lists)| && forall d | 0 <= d < |lists| && d != c :: lists[d] == old(lists[d])
      ensures old(lists[c].objects) != [] ==> r.Some? && [r.value] + lists[c].objects == old(lists[c].objects)
      ensures old(lists[c].objects) == [] ==> fetched == (if r.Some? then [r.value] else []) + lists[c].objects
      ensures old(lists[c].objects) == [] ==> lists[c].maxLength == Longer(old(lists[c].maxLength), batch[c])
    {
      hide Bytes, LengthOk;
      var l := lists[c];
      if |l.objects| == 0 {
        LongerOk(l.maxLength, batch[c]);
        var longer := Longer(l.maxLength, batch[c]);
        if |fetched| == 0 {
          Replace(c, l.(maxLength := longer));
          return None;
        }
        Replace(c, l.(objects := fetched[1..], maxLength := longer));
        return Some(fetched[0]);
      }
      var rest := l.objects[1..];
      Replace(c, l.(objects := rest, lowWater := Min(l.lowWater, |rest|)));
      return Some(l.objects[0]);
    }

    /** Puts a list in place of another; the size follows. */
    method Replace(c: Class, l: FreeList)
      requires Valid() && c < |lists| && ListOk(l, batch[c])
      modifies this`lists, this`size
      ensures Valid() && lists == old(lists)[c := l]
    {
      hide LengthOk;
      BytesUpdate(lists, sizeOf, c, l);
      size := size + |l.objects| * sizeOf[c] - |lists[c].objects| * sizeOf[c];
      lists := lists[c := l];
    }

    /** Gives the first `count` objects of a list, or all if there are fewer, to the central list, in chains of at
        most a batch. */
    method ReleaseToCentralCache(c: Class, count: nat) returns (released: seq<Chain>)
      requires Valid() && c < |lists|
      modifies this`lists, this`size
      ensures Valid() && Released(old(lists), lists, c, Min(count, |old(lists[c].objects)|), batch[c], released)
      ensures lists[c] == old(lists[c]).(objects := lists[c].objects,
                lowWater := Min(old(lists[c].lowWater), |lists[c].objects|))
    {
      hide Bytes, LengthOk, All;
      var n := Min(count, |lists[c].objects|);
      released := [];
      ghost var done := 0;
      NoChains(c);
      while n > batch[c]
        invariant Valid() && done + n == Min(count, |old(lists[c].objects)|) && |lists| == |old(lists)|
        invariant Released(old(lists), lists, c, done, batch[c], released)
        invariant lists[c] == old(lists[c]).(objects := lists[c].objects,
                    lowWater := Min(old(lists[c].lowWater), |lists[c].objects|))
        decreases n
      {
        released := PopChain(c, batch[c], released, old(lists), done);
        done := done + batch[c];
        n := n - batch[c];
      }
      released := PopChain(c, n, released, old(lists), done);
    }

    method PopChain(c: Class, n: nat, released: seq<Chain>, ghost was: seq<FreeList>, ghost done: nat)
      returns (more: seq<Chain>)
      requires Valid() && c < |lists| == |was| && n <= |lists[c].objects| && n <= batch[c]
      requires Released(was, lists, c, done, batch[c], released)
      modifies this`lists, this`size
      ensures Valid() && Released(was, lists, c, done + n, batch[c], more)
      ensures lists[c] == old(lists[c]).(objects := lists[c].objects,
                lowWater := Min(old(lists[c].lowWater), |lists[c].objects|))
    {
      hide Bytes, LengthOk, All;
      var l := lists[c];
      var chain, rest := l.objects[..n], l.objects[n..];
      AllAppend(released, Chain(c, chain), c);
      more := released + [Chain(c, chain)];
      Replace(c, l.(objects := rest, lowWater := Min(l.lowWater, |rest|)));
      assert was[c].objects[..done + n] == was[c].objects[..done] + chain;
      assert rest == was[c].objects[done + n..];
    }

    /** A list over its length gives up a batch, and its allowed length moves towards one. */
    method ListTooLong(c: Class) returns (released: seq<Chain>)
      requires Valid() && c < |lists|
      modifies this`lists, this`size
      ensures Valid() && Released(old(lists), lists, c, Min(batch[c], |old(lists[c].objects)|), batch[c], released)
      ensures AllowanceOf(lists[c]) == Adapted(AllowanceOf(old(lists[c])), batch[c])
      ensures var was, now := old(lists[c]), lists[c];
              && (now.maxLength < was.maxLength <==> was.maxLength > batch[c] && was.overages == MAX_OVERAGES)
              && (now.maxLength < was.maxLength ==> now.maxLength == was.maxLength - batch[c] && now.overages == 0)
              && (now.maxLength > was.maxLength <==> was.maxLength < batch[c])
    {
      hide Bytes, All, LengthOk;
      released := ReleaseToCentralCache(c, batch[c]);
      var l := lists[c];
      if l.maxLength < batch[c] {
        OneLonger(l.maxLength, batch[c]);
        Replace(c, l.(maxLength := l.maxLength + 1));
      } else if l.maxLength > batch[c] {
        if l.overages + 1 > MAX_OVERAGES {
          ShorterOk(l.maxLength, batch[c]);
          Replace(c, l.(maxLength := l.maxLength - batch[c], overages := 0));
        } else {
          Replace(c, l.(overages := l.overages + 1));
        }
      }
    }

    /** Drops half of what each list did not need since the last time. */
    method Scavenge() returns (released: seq<Chain>)
      requires Valid()
      modifies this`lists, this`size
      ensures Valid() && |lists| == |old(lists)| && Kept(old(lists), lists, released)
      ensures forall c | 0 <= c < |lists| :: Scavenged(old(lists[c]), lists[c], batch[c], All(released, c))
      ensures forall chain | chain in released :: chain.class_ < |lists| && |chain.objects| <= batch[chain.class_]
    {
      hide Bytes, LengthOk, All;
      released := [];
      NoneOf();
      ghost var was := lists;
      for c := 0 to |lists|
        invariant Valid() && |lists| == |was| && forall d | c <= d < |lists| :: lists[d] == was[d]
        invariant forall d | 0 <= d < c :: Scavenged(was[d], lists[d], batch[d], All(released, d))
        invariant forall d | c <= d < |lists| :: All(released, d) == []
        invariant forall chain | chain in released :: chain.class_ < |lists| && |chain.objects| <= batch[chain.class_]
      {
        var chains := ScavengeList(c);
        JoinChains(released, chains, c);
        released := released + chains;
      }
    }

    method ScavengeList(c: Class) returns (released: seq<Chain>)
      requires Valid() && c < |lists|
      modifies this`lists, this`size
      ensures Valid() && |lists| == |old(lists)| && (forall d | 0 <= d < |lists| && d != c :: lists[d] == old(lists[d]))
      ensures Scavenged(old(lists[c]), lists[c], batch[c], All(released, c))
      ensures forall chain | chain in released :: chain.class_ == c && |chain.objects| <= batch[c]
    {
      hide Bytes, LengthOk, All;
      released := [];
      NoChains(c);
      var l := lists[c];
      if l.lowWater > 0 {
        released := ReleaseToCentralCache(c, if l.lowWater > 1 then l.lowWater / 2 else 1);
        l := lists[c];
        if l.maxLength > batch[c] {
          ShorterOk(l.maxLength, batch[c]);
          l := l.(maxLength := if l.maxLength - batch[c] > batch[c] then l.maxLength - batch[c] else batch[c]);
        }
      }
      Replace(c, l.(lowWater := |l.objects|));
    }

    /** Takes an object back; too long a list gives up a batch, too large a cache is scavenged.  No object is lost. */
    method Deallocate(ptr: Object, c: Class) returns (released: seq<Chain>)
      requires Valid() && c < |lists|
      modifies this`lists, this`size
      ensures Valid() && |lists| == |old(lists)|
      ensures Kept(old(lists)[c := old(lists[c]).(objects := [ptr] + old(lists[c].objects))], lists, released)
      ensures forall chain | chain in released :: chain.class_ < |lists| && |chain.objects| <= batch[chain.class_]
      ensures |old(lists[c].objects)| < old(lists[c].maxLength) && Bytes(old(lists), sizeOf) + sizeOf[c] < maxSize ==>
                released == []
    {
      hide LengthOk, All, Bytes, Kept, Released;
      var l := lists[c];
      PushedBytes(lists, sizeOf, c, ptr);
      Replace(c, l.(objects := [ptr] + l.objects));
      ghost var pushed := lists;
      released := [];
      KeptNone(lists);
      if |lists[c].objects| > lists[c].maxLength {
        released := ListTooLong(c);
        KeptReleased(pushed, lists, c, Min(batch[c], |pushed[c].objects|), batch[c], released);
        ChainsOk(pushed, lists, c, Min(batch[c], |pushed[c].objects|), batch[c], released);
      }
      ghost var first, between := released, lists;
      if size >= maxSize {
        var more := Scavenge();
        KeptMore(pushed, between, lists, first, more);
        released := released + more;
      }
    }
  }

  /** Between `was` and `now` the first `n` objects of list `c` have gone into chains of at most a batch, in order. */
  ghost predicate Released(was: seq<FreeList>, now: seq<FreeList>, c: Class, n: nat, batch: nat, chains: seq<Chain>) {
    && |now| == |was| && c < |was| && n <= |was[c].objects|
    && (forall d | 0 <= d < |was| && d != c :: now[d] == was[d])
    && All(chains, c) == was[c].objects[..n] && now[c].objects == was[c].objects[n..]
    && (forall chain | chain in chains :: chain.class_ == c && |chain.objects| <= batch)
  }

  function Drop(lowWater: nat): nat { if lowWater == 0 then 0 else if lowWater > 1 then lowWater / 2 else 1 }

  ghost predicate Scavenged(was: FreeList, now: FreeList, batch: nat, dropped: seq<Object>) {
    var n := Drop(was.lowWater);
    && n <= |was.objects| && dropped == was.objects[..n] && now.objects == was.objects[n..]
        && now.lowWater == |now.objects|
    && now.maxLength == if was.lowWater > 0 && was.maxLength > batch then was.maxLength - batch else was.maxLength
  }

  lemma OneLonger(length: nat, batch: nat)
    requires 0 < batch <= MAX_LENGTH && LengthOk(length, batch) && length < batch
    ensures LengthOk(length + 1, batch)
  {
  }

  lemma NoChains(c: Class)
    ensures All([], c) == []
  {
  }

  lemma NoneOf()
    ensures forall d :: All([], d) == []
  {
  }

  lemma {:induction false} NoneElse(chains: seq<Chain>, c: Class)
    requires forall chain | chain in chains :: chain.class_ == c
    ensures forall d | d != c :: All(chains, d) == []
  {
    if chains != [] {
      assert forall chain | chain in chains[..|chains| - 1] :: chain in chains;
      NoneElse(chains[..|chains| - 1], c);
      assert chains[|chains| - 1] in chains;
    }
  }

  lemma {:induction false} AllConcat(a: seq<Chain>, b: seq<Chain>, c: Class)
    ensures All(a + b, c) == All(a, c) + All(b, c)
  {
    hide All;
    NoChains(c);
    if b == [] {
      assert a + b == a;
    } else {
      var front, last := b[..|b| - 1], b[|b| - 1];
      AllConcat(a, front, c);
      assert a + b == (a + front) + [last] && b == front + [last];
      AllAppend(a + front, last, c);
      AllAppend(front, last, c);
      Associate(All(a, c), All(front, c), if last.class_ == c then last.objects else []);
    }
  }

  /** What the chains have and what is left is, list by list, what there was. */
  ghost predicate Kept(was: seq<FreeList>, now: seq<FreeList>, released: seq<Chain>) {
    |now| == |was| && forall d | 0 <= d < |was| :: All(released, d) + now[d].objects == was[d].objects
  }

  lemma KeptNone(lists: seq<FreeList>)
    ensures Kept(lists, lists, [])
  {
  }

  lemma KeptReleased(was: seq<FreeList>, now: seq<FreeList>, c: Class, n: nat, batch: nat, chains: seq<Chain>)
    requires Released(was, now, c, n, batch, chains)
    ensures Kept(was, now, chains)
  {
    hide All;
    NoneElse(chains, c);
  }

  lemma ChainsOk(was: seq<FreeList>, now: seq<FreeList>, c: Class, n: nat, batch: nat, chains: seq<Chain>)
    requires Released(was, now, c, n, batch, chains)
    ensures |now| == |was| && forall chain | chain in chains :: chain.class_ == c && |chain.objects| <= batch
  {
  }

  lemma KeptMore(was: seq<FreeList>, between: seq<FreeList>, now: seq<FreeList>, first: seq<Chain>, more: seq<Chain>)
    requires Kept(was, between, first) && Kept(between, now, more)
    ensures Kept(was, now, first + more)
  {
    hide All;
    forall d | 0 <= d < |was| ensures All(first + more, d) + now[d].objects == was[d].objects {
      AllConcat(first, more, d);
      Associate(All(first, d), All(more, d), now[d].objects);
    }
  }

  lemma {:induction false} EmptyBytes(lists: seq<FreeList>, sizeOf: seq<nat>)
    requires |lists| <= |sizeOf| && forall l | l in lists :: l.objects == []
    ensures Bytes(lists, sizeOf) == 0
  {
    if lists != [] {
      EmptyBytes(lists[..|lists| - 1], sizeOf);
      assert lists[|lists| - 1] in lists;
    }
  }

  lemma PushedBytes(lists: seq<FreeList>, sizeOf: seq<nat>, c: nat, ptr: Object)
    requires |lists| <= |sizeOf| && c < |lists|
    ensures var l := lists[c].(objects := [ptr] + lists[c].objects);
            Bytes(lists[c := l], sizeOf) == Bytes(lists, sizeOf) + sizeOf[c]
  {
    var l := lists[c].(objects := [ptr] + lists[c].objects);
    BytesUpdate(lists, sizeOf, c, l);
    Distribute(|lists[c].objects|, 1, sizeOf[c]);
  }

  lemma JoinChains(a: seq<Chain>, b: seq<Chain>, c: Class)
    requires forall chain | chain in b :: chain.class_ == c
    ensures forall d :: All(a + b, d) == All(a, d) + (if d == c then All(b, c) else [])
  {
    hide All;
    NoneElse(b, c);
    forall d ensures All(a + b, d) == All(a, d) + (if d == c then All(b, c) else []) { AllConcat(a, b, d); }
  }
}
