/** What a radix page map stands for: a directory of leaves, of which some are
    missing, read as one flat map.  A value of zero stands for the null pointer. */
module RadixTree {
  import opened Arithmetic
  import opened FlatMap

  /** 2^64: keys and lengths are 64-bit words. */
  const WORDS := 0x1_0000_0000_0000_0000

  /** Leaf `i` holds keys `i * leaf` to `(i + 1) * leaf - 1`; a missing leaf is the empty sequence. */
  type Tree = seq<seq<nat>>

  ghost predicate Shaped(t: Tree, leaf: nat) {
    leaf > 0 && forall i | 0 <= i < |t| :: t[i] == [] || |t[i]| == leaf
  }

  ghost predicate Ensured(t: Tree, leaf: nat, k: nat)
    requires leaf > 0
  {
    k / leaf < |t| && t[k / leaf] != []
  }

  ghost function ValueAt(t: Tree, leaf: nat, k: nat): nat
    requires Shaped(t, leaf)
  {
    if Ensured(t, leaf, k) then t[k / leaf][k % leaf] else 0
  }

  /** The number of keys the directory has room for. */
  ghost function Capacity(t: Tree, leaf: nat): nat { leaf * |t| }

  ghost function Flat(t: Tree, leaf: nat): map<nat, nat>
    requires Shaped(t, leaf)
  {
    map k | 0 <= k < Capacity(t, leaf) && ValueAt(t, leaf, k) != 0 :: ValueAt(t, leaf, k)
  }

  /** The value of the least key at or after `k` that has one, or zero. */
  ghost predicate IsNextValue(m: map<nat, nat>, k: nat, v: nat) {
    if v == 0 then IsNext(m, k, Missing) else exists p :: IsNext(m, k, At(p)) && p in m && m[p] == v
  }

  function Zeros(n: nat): seq<nat> { seq(n, _ => 0) }

  /** The last key of a range, as 64-bit arithmetic has it. */
  function Last(start: nat, n: nat): nat {
    (start + n + WORDS - 1) % WORDS
  }

  /** The leaf of a key is in the directory if and only if the key is in the map. */
  lemma InDirectory(leaf: nat, count: nat, k: nat)
    requires leaf > 0
    ensures k < leaf * count <==> k / leaf < count
  {
    var q := k / leaf;
    assert k == q * leaf + k % leaf;
    assert q < count ==> q * leaf <= (count - 1) * leaf == count * leaf - leaf;
    assert q >= count ==> q * leaf >= count * leaf;
  }

  lemma SameKey(leaf: nat, j: nat, k: nat)
    requires leaf > 0 && j / leaf == k / leaf && j % leaf == k % leaf
    ensures j == k
  {
    assert j == (j / leaf) * leaf + j % leaf && k == (k / leaf) * leaf + k % leaf;
  }

  /** The first key of the next leaf. */
  function NextStart(k: nat, leaf: nat): nat
    requires leaf > 0
  {
    (k / leaf + 1) * leaf
  }

  lemma NextLeaf(leaf: nat, k: nat)
    requires leaf > 0
    ensures var next := NextStart(k, leaf);
            && k < next <= k + leaf && next / leaf == k / leaf + 1 && next % leaf == 0
            && forall j: nat | k <= j < next :: j / leaf == k / leaf
  {
    var q := k / leaf;
    assert k == q * leaf + k % leaf && (q + 1) * leaf == q * leaf + leaf;
    DivMod((q + 1) * leaf, leaf, q + 1, 0);
    forall j: nat | k <= j < (q + 1) * leaf ensures j / leaf == q {
      DivMod(j, leaf, q, j - q * leaf);
    }
  }

  /** A lookup in the tree is one in the flat map. */
  lemma FlatAt(t: Tree, leaf: nat, k: nat)
    requires Shaped(t, leaf)
    ensures ValueAt(t, leaf, k) == if k in Flat(t, leaf) then Flat(t, leaf)[k] else 0
  {
    InDirectory(leaf, |t|, k);
  }

  ghost function Update(t: Tree, leaf: nat, k: nat, v: nat): Tree
    requires Shaped(t, leaf) && Ensured(t, leaf, k)
  {
    var row: seq<nat> := t[k / leaf][k % leaf := v];
    t[k / leaf := row]
  }

  /** Storing into a leaf changes one key. */
  lemma Stored(t: Tree, leaf: nat, k: nat, v: nat)
    requires Shaped(t, leaf) && Ensured(t, leaf, k)
    ensures var u := Update(t, leaf, k, v);
            Shaped(u, leaf) && forall j: nat :: ValueAt(u, leaf, j) == if j == k then v else ValueAt(t, leaf, j)
  {
    var u := Update(t, leaf, k, v);
    forall j: nat ensures ValueAt(u, leaf, j) == if j == k then v else ValueAt(t, leaf, j) {
      StoredAt(t, leaf, k, v, j, j / leaf, j % leaf);
    }
  }

  /** The flat map after a store; storing zero forgets the key. */
  ghost function With(m: map<nat, nat>, k: nat, v: nat): map<nat, nat> { if v == 0 then m - {k} else m[k := v] }

  lemma FlatStored(t: Tree, leaf: nat, k: nat, v: nat)
    requires Shaped(t, leaf) && Ensured(t, leaf, k)
    ensures var u := Update(t, leaf, k, v); Shaped(u, leaf) && Flat(u, leaf) == With(Flat(t, leaf), k, v)
  {
    hide ValueAt, Flat, Capacity;
    Stored(t, leaf, k, v);
    EnsuredIn(t, leaf, k);
    FlatFrom(t, Update(t, leaf, k, v), leaf, k, v);
  }

  lemma FlatFrom(t: Tree, u: Tree, leaf: nat, k: nat, v: nat)
    requires Shaped(t, leaf) && Shaped(u, leaf) && |u| == |t| && k < Capacity(t, leaf)
    requires forall j: nat :: ValueAt(u, leaf, j) == if j == k then v else ValueAt(t, leaf, j)
    ensures Flat(u, leaf) == With(Flat(t, leaf), k, v)
  {
    hide ValueAt, Shaped, Capacity;
    SameCapacity(t, u, leaf);
    var f, g := Flat(u, leaf), With(Flat(t, leaf), k, v);
    forall j: nat ensures j in f <==> j in g {}
    forall j: nat | j in f ensures f[j] == g[j] {}
  }

  lemma SameCapacity(t: Tree, u: Tree, leaf: nat)
    requires |u| == |t|
    ensures Capacity(u, leaf) == Capacity(t, leaf)
  {
  }

  lemma EnsuredIn(t: Tree, leaf: nat, k: nat)
    requires leaf > 0 && Ensured(t, leaf, k)
    ensures k < Capacity(t, leaf)
  {
    InDirectory(leaf, |t|, k);
  }

  lemma UpdateShaped(t: Tree, leaf: nat, k: nat, v: nat)
    requires Shaped(t, leaf) && Ensured(t, leaf, k)
    ensures Shaped(Update(t, leaf, k, v), leaf)
  {
  }

  lemma StoredAt(t: Tree, leaf: nat, k: nat, v: nat, j: nat, i: nat, r: nat)
    requires Shaped(t, leaf) && Ensured(t, leaf, k) && i == j / leaf && r == j % leaf && r < leaf
    ensures var u := Update(t, leaf, k, v);
            Shaped(u, leaf) && ValueAt(u, leaf, j) == if j == k then v else ValueAt(t, leaf, j)
  {
    UpdateShaped(t, leaf, k, v);
    var u, x, y := Update(t, leaf, k, v), k / leaf, k % leaf;
    assert ValueAt(u, leaf, j) == if i < |u| && u[i] != [] then u[i][r] else 0;
    assert ValueAt(t, leaf, j) == if i < |t| && t[i] != [] then t[i][r] else 0;
    if i == x && r == y {
      SameKey(leaf, j, k);
    }
  }

  /** `u` has all leaves of `t`, and new ones full of zeros. */
  ghost predicate Grown(t: Tree, u: Tree, leaf: nat) {
    && |u| == |t| && Shaped(t, leaf) && Shaped(u, leaf)
    && (forall i | 0 <= i < |t| :: t[i] != [] ==> u[i] == t[i])
    && (forall i, j | 0 <= i < |t| && t[i] == [] && 0 <= j < |u[i]| :: u[i][j] == 0)
  }

  lemma GrownSame(t: Tree, u: Tree, leaf: nat, k: nat)
    requires Grown(t, u, leaf)
    ensures ValueAt(u, leaf, k) == ValueAt(t, leaf, k) && (Ensured(t, leaf, k) ==> Ensured(u, leaf, k))
  {
  }

  lemma FlatGrown(t: Tree, u: Tree, leaf: nat)
    requires Grown(t, u, leaf)
    ensures Shaped(t, leaf) && Shaped(u, leaf) && Flat(u, leaf) == Flat(t, leaf)
  {
    hide ValueAt;
    forall k: nat ensures ValueAt(u, leaf, k) == ValueAt(t, leaf, k) { GrownSame(t, u, leaf, k); }
  }

  lemma GrowOne(t: Tree, u: Tree, leaf: nat, i: nat)
    requires Grown(t, u, leaf) && i < |u| && u[i] == []
    ensures Grown(t, u[i := Zeros(leaf)], leaf)
  {
  }

  /** How far a range has been ensured, and that every leaf made for it was granted. */
  ghost predicate EnsuredUpTo(t: Tree, u: Tree, leaf: nat, start: nat, key: nat, grant: nat -> bool) {
    && Grown(t, u, leaf) && start <= key
    && (forall k: nat | start <= k < key :: Ensured(u, leaf, k) && (Ensured(t, leaf, k) || grant(k / leaf)))
    && (forall i | 0 <= i < |t| && u[i] != t[i] :: (i + 1) * leaf <= key)
  }

  lemma EnsureStart(t: Tree, leaf: nat, start: nat, grant: nat -> bool)
    requires Shaped(t, leaf)
    ensures EnsuredUpTo(t, t, leaf, start, start, grant)
  {
  }

  /** The leaf of `key` is there, or is made: so are all keys up to the next leaf. */
  lemma EnsureLeaf(t: Tree, u: Tree, leaf: nat, start: nat, key: nat, grant: nat -> bool, v: Tree)
    requires EnsuredUpTo(t, u, leaf, start, key, grant) && key / leaf < |u|
    requires if u[key / leaf] != [] then v == u else grant(key / leaf) && v == u[key / leaf := Zeros(leaf)]
    ensures EnsuredUpTo(t, v, leaf, start, NextStart(key, leaf), grant)
  {
    var i, next := key / leaf, NextStart(key, leaf);
    NextLeaf(leaf, key);
    if u[i] == [] { GrowOne(t, u, leaf, i); }
    forall k: nat | start <= k < next ensures Ensured(v, leaf, k) && (Ensured(t, leaf, k) || grant(k / leaf)) {
      if k < key { assert Ensured(u, leaf, k); }
    }
  }

  /** The call fails only for a key outside the map or a leaf that was not granted. */
  ghost predicate Refused(t: Tree, leaf: nat, start: nat, n: nat, grant: nat -> bool)
    requires leaf > 0
  {
    start + n > Capacity(t, leaf) || exists k: nat :: start <= k < start + n && !Ensured(t, leaf, k) && !grant(k / leaf)
  }

  /** What ensuring a range does: values stay, and the call succeeds if and only if it is not refused.  A range whose
      last key wraps around is empty, and the range of no keys at zero is taken for all keys. */
  ghost predicate EnsureResult(t: Tree, u: Tree, leaf: nat, start: nat, n: nat, grant: nat -> bool, ok: bool) {
    && Grown(t, u, leaf)
    && (Last(start, n) < start ==> ok && u == t)
    && (n > 0 && start + n <= WORDS ==> (ok <==> !Refused(t, leaf, start, n, grant)))
    && (n > 0 && start + n <= WORDS && ok ==> forall k | start <= k < start + n :: Ensured(u, leaf, k))
    && (n == 0 && start == 0 ==> !ok)
  }

  lemma LastKey(start: nat, n: nat)
    requires start < WORDS && n < WORDS
    ensures n > 0 && start + n <= WORDS ==> Last(start, n) == start + n - 1
    ensures n == 0 && start > 0 ==> Last(start, n) == start - 1
    ensures n == 0 && start == 0 ==> Last(start, n) == WORDS - 1
    ensures start + n > WORDS ==> Last(start, n) == start + n - 1 - WORDS
  {
    if n > 0 && start + n <= WORDS {
      DivMod(start + n + WORDS - 1, WORDS, 1, start + n - 1);
    } else if n == 0 && start > 0 {
      DivMod(start + WORDS - 1, WORDS, 1, start - 1);
    } else if start + n > WORDS {
      DivMod(start + n + WORDS - 1, WORDS, 2, start + n - 1 - WORDS);
    } else {
      DivMod(WORDS - 1, WORDS, 0, WORDS - 1);
    }
  }

  lemma EnsureDone(t: Tree, u: Tree, leaf: nat, start: nat, n: nat, key: nat, grant: nat -> bool)
    requires EnsuredUpTo(t, u, leaf, start, key, grant) && start < WORDS && n < WORDS && Capacity(t, leaf) < WORDS
    requires key > Last(start, n) && (Last(start, n) < start ==> u == t)
    ensures EnsureResult(t, u, leaf, start, n, grant, true)
  {
    hide Last, Grown;
    LastKey(start, n);
    SameSize(t, u, leaf);
    InDirectory(leaf, |u|, WORDS - 1);
    if n > 0 && start + n <= WORDS {
      InDirectory(leaf, |u|, start + n - 1);
      assert Ensured(u, leaf, start + n - 1);
    }
    assert n == 0 && start == 0 ==> Ensured(u, leaf, WORDS - 1);
  }

  lemma SameSize(t: Tree, u: Tree, leaf: nat)
    requires Grown(t, u, leaf)
    ensures |u| == |t| && leaf > 0
  {
  }

  lemma EnsureKeepsFlat(t: Tree, u: Tree, leaf: nat, start: nat, n: nat, grant: nat -> bool, ok: bool)
    requires EnsureResult(t, u, leaf, start, n, grant, ok)
    ensures Shaped(t, leaf) && Shaped(u, leaf) && Flat(u, leaf) == Flat(t, leaf)
  {
    FlatGrown(t, u, leaf);
  }

  lemma EnsureFails(t: Tree, u: Tree, leaf: nat, start: nat, n: nat, key: nat, grant: nat -> bool)
    requires EnsuredUpTo(t, u, leaf, start, key, grant) && start < WORDS && n < WORDS
    requires key <= Last(start, n)
    requires key / leaf >= |u| || (u[key / leaf] == [] && !grant(key / leaf))
    ensures EnsureResult(t, u, leaf, start, n, grant, false)
  {
    LastKey(start, n);
    InDirectory(leaf, |t|, key);
    if n > 0 && start + n <= WORDS && key < Capacity(t, leaf) {
      assert start <= key < start + n && !Ensured(t, leaf, key);
    }
  }

  /** No key of the stretch has a value. */
  ghost predicate NoneIn(t: Tree, leaf: nat, a: nat, b: nat)
    requires Shaped(t, leaf)
  {
    forall k: nat | a <= k < b :: ValueAt(t, leaf, k) == 0
  }

  lemma NoneYet(t: Tree, leaf: nat, k: nat)
    requires Shaped(t, leaf)
    ensures NoneIn(t, leaf, k, k)
  {
  }

  lemma FoundNext(t: Tree, leaf: nat, k: nat, p: nat)
    requires Shaped(t, leaf) && k <= p && NoneIn(t, leaf, k, p) && ValueAt(t, leaf, p) != 0
    ensures IsNextValue(Flat(t, leaf), k, ValueAt(t, leaf, p))
  {
    FlatAt(t, leaf, p);
    assert IsNext(Flat(t, leaf), k, At(p));
  }

  lemma NothingNext(t: Tree, leaf: nat, k: nat, p: nat)
    requires Shaped(t, leaf) && p >= Capacity(t, leaf) && NoneIn(t, leaf, k, p)
    ensures IsNextValue(Flat(t, leaf), k, 0)
  {
  }

  /** A missing leaf is skipped. */
  lemma SkipMissing(t: Tree, leaf: nat, k: nat, p: nat)
    requires Shaped(t, leaf) && k <= p && NoneIn(t, leaf, k, p) && p / leaf < |t| && t[p / leaf] == []
    ensures k <= NextStart(p, leaf) && NoneIn(t, leaf, k, NextStart(p, leaf))
  {
    NextLeaf(leaf, p);
  }

  /** Position `i` of the leaf of `p` belongs to this key. */
  lemma KeyInLeaf(t: Tree, leaf: nat, p: nat, i: nat)
    requires Shaped(t, leaf) && p / leaf < |t| && t[p / leaf] != [] && p % leaf <= i < leaf
    ensures var q := p - p % leaf + i; q / leaf == p / leaf && q % leaf == i && ValueAt(t, leaf, q) == t[p / leaf][i]
  {
    var q := p - p % leaf + i;
    assert p == (p / leaf) * leaf + p % leaf;
    DivMod(q, leaf, p / leaf, i);
  }

  /** One key of a leaf: it is the next one, or has no value either. */
  lemma OneKey(t: Tree, leaf: nat, k: nat, p: nat, i: nat)
    requires Shaped(t, leaf) && k <= p && p / leaf < |t| && t[p / leaf] != [] && p % leaf <= i < leaf
    requires NoneIn(t, leaf, k, p - p % leaf + i)
    ensures t[p / leaf][i] != 0 ==> IsNextValue(Flat(t, leaf), k, t[p / leaf][i])
    ensures t[p / leaf][i] == 0 ==> NoneIn(t, leaf, k, p - p % leaf + (i + 1))
  {
    hide Flat, IsNextValue;
    KeyInLeaf(t, leaf, p, i);
    if t[p / leaf][i] != 0 {
      FoundNext(t, leaf, k, p - p % leaf + i);
    }
  }

  lemma LeafStart(leaf: nat, p: nat)
    requires leaf > 0
    ensures p - p % leaf + leaf == NextStart(p, leaf)
  {
    assert p == (p / leaf) * leaf + p % leaf;
  }

  /** The place in the directory of leaf `j` of node `i`. */
  lemma NodeLeaf(n: nat, i: nat, j: nat)
    requires j < n
    ensures (i * n + j) / n == i && (i * n + j) % n == j && (i < n ==> i * n + j < n * n)
  {
    DivMod(i * n + j, n, i, j);
    InDirectory(n, n, i * n + j);
  }

  lemma NodeOf(n: nat, x: nat)
    requires n > 0
    ensures x % n < n && x == (x / n) * n + x % n && (x < n * n <==> x / n < n)
  {
    InDirectory(n, n, x);
  }

  /** A node without leaves is skipped as a whole. */
  lemma SkipNode(t: Tree, leaf: nat, n: nat, k: nat, p: nat)
    requires Shaped(t, leaf) && n > 0 && k <= p && NoneIn(t, leaf, k, p)
    requires forall x | 0 <= x < |t| && x / n == p / leaf / n :: t[x] == []
    ensures leaf * n > 0 && var next := NextStart(p, leaf * n);
            p < next <= p + leaf * n && NoneIn(t, leaf, k, next)
  {
    DivDiv(p, leaf, n);
    NextLeaf(leaf * n, p);
    var next := NextStart(p, leaf * n);
    forall q: nat | k <= q < next ensures ValueAt(t, leaf, q) == 0 {
      if q >= p {
        DivDiv(q, leaf, n);
      }
    }
  }
}
