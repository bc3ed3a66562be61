/** The page maps: a single array, and radix trees of two and of three levels. */
module PageMaps {
  import opened Arithmetic
  import opened RadixTree
  import FlatMap

  const ROOT_LENGTH := 32

  class PageMap1 {
    const values: array<nat>

    ghost function Map(): map<nat, nat>
      reads values
    {
      map k | 0 <= k < values.Length && values[k] != 0 :: values[k]
    }

    constructor (bits: nat)
      ensures fresh(values) && values.Length == Pow2(bits) && Map() == map[]
    {
      values := new nat[Pow2(bits)](_ => 0);
    }

    /** Tells whether a range of keys lies in the map, as 64-bit arithmetic has it. */
    method Ensure(x: nat, n: nat) returns (ok: bool)
      requires x < WORDS && n < WORDS && values.Length < WORDS
      ensures ok <==> n <= Wrapped(values.Length - x)
      ensures (ok <==> x + n <= values.Length) <==> x <= values.Length || n > WORDS - (x - values.Length)
    {
      return n <= Wrapped(values.Length - x);
    }

    method Get(k: nat) returns (v: nat)
      ensures v == if k in Map() then Map()[k] else 0
    {
      if k >= values.Length {
        return 0;
      }
      return values[k];
    }

    method Set(k: nat, v: nat)
      requires k < values.Length
      modifies values
      ensures Map() == With(old(Map()), k, v)
    {
      values[k] := v;
    }

    /** The value of the first key, from `k` on, that has one. */
    method Next(k: nat) returns (v: nat)
      ensures IsNextValue(Map(), k, v)
    {
      var p := k;
      while p < values.Length
        invariant k <= p && forall j | k <= j < p :: j !in Map()
        decreases values.Length - p
      {
        if values[p] != 0 {
          assert FlatMap.IsNext(Map(), k, FlatMap.At(p));
          return values[p];
        }
        p := p + 1;
      }
      return 0;
    }
  }

  /** A difference of 64-bit words. */
  function Wrapped(d: int): nat { d % WORDS }

  /** A range that starts past the end of the map is taken to lie in it, unless it is nearly as long as
      all of memory. */
  lemma PastTheEnd(length: nat, x: nat, n: nat)
    requires length < x < WORDS && n < WORDS
    ensures n <= Wrapped(length - x) <==> n <= WORDS - (x - length)
  {
    assert Wrapped(length - x) == WORDS - (x - length);
  }

  class PageMap2 {
    const leafLength: nat
    const root: array<array?<nat>>

    ghost predicate Valid()
      reads root
    {
      && leafLength > 0 && root.Length == ROOT_LENGTH
      && (forall i | 0 <= i < root.Length && root[i] != null :: root[i].Length == leafLength)
      && (forall i, j | 0 <= i < j < root.Length && root[i] != null :: root[i] != root[j])
    }

    ghost function Leaves(): set<object>
      reads root
    {
      set i | 0 <= i < root.Length && root[i] != null :: root[i]
    }

    ghost function Leaf(i: nat): seq<nat>
      requires i < root.Length
      reads root, Leaves()
    {
      if root[i] == null then [] else root[i][..]
    }

    ghost function View(): (t: Tree)
      requires Valid()
      reads root, Leaves()
      ensures |t| == ROOT_LENGTH && Shaped(t, leafLength)
    {
      seq(root.Length, i requires 0 <= i < root.Length reads root, Leaves() => Leaf(i))
    }

    constructor (bits: nat)
      requires bits >= 5
      ensures Valid() && fresh(root) && leafLength == Pow2(bits - 5) && forall i | 0 <= i < |View()| :: View()[i] == []
    {
      leafLength := Pow2(bits - 5);
      root := new array?<nat>[ROOT_LENGTH](_ => null);
      PowPositive(bits - 5);
    }

    /** Any key may be looked up. */
    method Get(k: nat) returns (v: nat)
      requires Valid()
      ensures v == if k in Flat(View(), leafLength) then Flat(View(), leafLength)[k] else 0
    {
      InDirectory(leafLength, ROOT_LENGTH, k);
      FlatAt(View(), leafLength, k);
      if k >= leafLength * ROOT_LENGTH || root[k / leafLength] == null {
        return 0;
      }
      return root[k / leafLength][k % leafLength];
    }

    method Set(k: nat, v: nat)
      requires Valid() && Ensured(View(), leafLength, k)
      modifies Leaves()
      ensures Valid() && View() == Update(old(View()), leafLength, k, v)
      ensures Flat(View(), leafLength) == With(old(Flat(View(), leafLength)), k, v)
    {
      hide Flat;
      FlatStored(View(), leafLength, k, v);
      root[k / leafLength][k % leafLength] := v;
    }

    /** Makes a leaf, full of zeros, if it is missing and the memory is granted. */
    method MakeLeaf(i: nat, granted: bool) returns (ok: bool)
      requires Valid() && i < ROOT_LENGTH
      modifies root
      ensures Valid() && fresh(Leaves() - old(Leaves())) && ok == (old(View())[i] != [] || granted)
      ensures View() == if ok && old(View())[i] == [] then old(View())[i := Zeros(leafLength)] else old(View())
    {
      ghost var before := View();
      if root[i] == null {
        if !granted {
          return false;
        }
        var leaf := new nat[leafLength](_ => 0);
        root[i] := leaf;
        assert leaf[..] == Zeros(leafLength);
      }
      return true;
    }

    /** Makes the leaf of one key of a range. */
    method EnsureOne(start: nat, key: nat, grant: nat -> bool, ghost t: Tree) returns (ok: bool)
      requires Valid() && leafLength > 0 && EnsuredUpTo(t, View(), leafLength, start, key, grant)
      modifies root
      ensures Valid() && fresh(Leaves() - old(Leaves()))
      ensures ok ==> EnsuredUpTo(t, View(), leafLength, start, NextStart(key, leafLength), grant)
      ensures !ok ==> View() == old(View())
      ensures !ok ==> key / leafLength >= |View()| || (View()[key / leafLength] == [] && !grant(key / leafLength))
    {
      hide EnsuredUpTo, View, Zeros, NextStart;
      var i1 := key / leafLength;
      ghost var before := View();
      if i1 >= ROOT_LENGTH {
        return false;
      }
      ok := MakeLeaf(i1, grant(i1));
      if ok {
        EnsureLeaf(t, before, leafLength, start, key, grant, View());
      }
    }

    /** Allocates the leaves of a range of keys; `grant` says which allocations succeed. */
    method Ensure(start: nat, n: nat, grant: nat -> bool) returns (ok: bool)
      requires Valid() && start < WORDS && n < WORDS && Capacity(View(), leafLength) < WORDS
      modifies root
      ensures Valid() && EnsureResult(old(View()), View(), leafLength, start, n, grant, ok)
      ensures Flat(View(), leafLength) == old(Flat(View(), leafLength))
    {
      hide EnsuredUpTo, EnsureResult, Last, View, NextStart, Capacity, Flat;
      ghost var t := View();
      var key := start;
      EnsureStart(t, leafLength, start, grant);
      while key <= Last(start, n)
        invariant Valid() && fresh(Leaves() - old(Leaves()))
        invariant EnsuredUpTo(t, View(), leafLength, start, key, grant)
        invariant Last(start, n) < start ==> View() == t
        decreases Last(start, n) + leafLength - key
      {
        var made := EnsureOne(start, key, grant, t);
        if !made {
          EnsureFails(t, View(), leafLength, start, n, key, grant);
          EnsureKeepsFlat(t, View(), leafLength, start, n, grant, false);
          return false;
        }
        NextLeaf(leafLength, key);
        key := NextStart(key, leafLength);
      }
      EnsureDone(t, View(), leafLength, start, n, key, grant);
      EnsureKeepsFlat(t, View(), leafLength, start, n, grant, true);
      return true;
    }

    /** The value of the first key, from `k` on, that has one. */
    method Next(k: nat) returns (v: nat)
      requires Valid()
      ensures IsNextValue(Flat(View(), leafLength), k, v)
    {
      hide IsNextValue;
      NoneYet(View(), leafLength, k);
      var p := k;
      while p < leafLength * ROOT_LENGTH
        invariant k <= p && NoneIn(View(), leafLength, k, p)
        decreases leafLength * ROOT_LENGTH + leafLength - p
      {
        InDirectory(leafLength, ROOT_LENGTH, p);
        NextLeaf(leafLength, p);
        var i1 := p / leafLength;
        var leaf := root[i1];
        if leaf != null {
          LeafStart(leafLength, p);
          for i2 := p % leafLength to leafLength
            invariant NoneIn(View(), leafLength, k, p - p % leafLength + i2)
          {
            OneKey(View(), leafLength, k, p, i2);
            if leaf[i2] != 0 {
              return leaf[i2];
            }
          }
        } else {
          SkipMissing(View(), leafLength, k, p);
        }
        p := NextStart(p, leafLength);
      }
      NothingNext(View(), leafLength, k, p);
      return 0;
    }
  }

  class PageMap3 {
    const leafLength: nat
    const interior: nat
    const total: nat
    const span: nat
    const size: nat
    const root: array<array?<array?<nat>>>

    ghost function Nodes(): set<object>
      reads root
    {
      set i | 0 <= i < root.Length && root[i] != null :: root[i]
    }

    ghost predicate Valid()
      reads root, Nodes()
    {
      && leafLength > 0 && interior > 0 && root.Length == interior
      && total == interior * interior && span == leafLength * interior && size == leafLength * total
      && (forall i | 0 <= i < interior && root[i] != null :: root[i].Length == interior)
      && (forall i, j | 0 <= i < j < interior && root[i] != null :: root[i] != root[j])
      && (forall i, p | Has(i, p) :: root[i][p].Length == leafLength)
      && (forall i, p, j, q | Has(i, p) && Has(j, q) && root[i][p] == root[j][q] :: i == j && p == q)
    }

    /** The leaf is there. */
    ghost predicate Has(i: int, p: int)
      reads root, Nodes()
    {
      0 <= i < root.Length && root[i] != null && 0 <= p < root[i].Length && root[i][p] != null
    }

    ghost function Leaves(): set<object>
      reads root, Nodes()
    {
      set i, p | 0 <= i < root.Length && root[i] != null && 0 <= p < root[i].Length && root[i][p] != null :: root[i][p]
    }

    ghost function Leaf(i: int, p: int): seq<nat>
      reads root, Nodes(), Leaves()
    {
      if Has(i, p) then root[i][p][..] else []
    }

    ghost function View(): (t: Tree)
      requires Valid()
      reads root, Nodes(), Leaves()
      ensures |t| == total && Shaped(t, leafLength)
    {
      seq(total, x requires 0 <= x < total reads root, Nodes(), Leaves() => Leaf(x / interior, x % interior))
    }

    constructor (bits: nat)
      requires bits >= 2
      ensures Valid() && fresh(root) && interior == Pow2((bits + 2) / 3)
      ensures leafLength == Pow2(bits - 2 * ((bits + 2) / 3))
      ensures forall i | 0 <= i < |View()| :: View()[i] == []
    {
      leafLength := Pow2(bits - 2 * ((bits + 2) / 3));
      interior := Pow2((bits + 2) / 3);
      total := Pow2((bits + 2) / 3) * Pow2((bits + 2) / 3);
      span := Pow2(bits - 2 * ((bits + 2) / 3)) * Pow2((bits + 2) / 3);
      size := Pow2(bits - 2 * ((bits + 2) / 3)) * (Pow2((bits + 2) / 3) * Pow2((bits + 2) / 3));
      PowPositive((bits + 2) / 3);
      PowPositive(bits - 2 * ((bits + 2) / 3));
      root := new array?<array?<nat>>[Pow2((bits + 2) / 3)](_ => null);
    }

    method Get(k: nat) returns (v: nat)
      requires Valid()
      ensures v == if k in Flat(View(), leafLength) then Flat(View(), leafLength)[k] else 0
    {
      hide Valid, View, Flat;
      FlatAt(View(), leafLength, k);
      Place(k);
      var i1, i2, i3 := k / span, (k / leafLength) % interior, k % leafLength;
      if k >= size || root[i1] == null || root[i1][i2] == null {
        return 0;
      }
      return root[i1][i2][i3];
    }

    /** Where a key belongs, and how the tree sees it. */
    lemma Place(k: nat)
      requires Valid()
      ensures span > 0 && leafLength > 0 && interior > 0 && root.Length == interior
      ensures size == Capacity(View(), leafLength)
      ensures var i1, i2, x := k / span, (k / leafLength) % interior, k / leafLength;
              && i2 < interior && i1 == x / interior && i2 == x % interior
              && (k < size <==> i1 < interior) && (x < |View()| <==> i1 < interior)
              && (i1 < interior ==> View()[x] == Leaf(i1, i2) && (root[i1] != null ==> root[i1].Length == interior))
              && (Has(i1, i2) ==> root[i1][i2].Length == leafLength)
    {
      DivDiv(k, leafLength, interior);
      NodeOf(interior, k / leafLength);
      InDirectory(leafLength, total, k);
    }

    method Set(k: nat, v: nat)
      requires Valid() && Ensured(View(), leafLength, k)
      modifies Leaves()
      ensures Valid() && View() == Update(old(View()), leafLength, k, v)
      ensures Flat(View(), leafLength) == With(old(Flat(View(), leafLength)), k, v)
    {
      hide View, Flat;
      FlatStored(View(), leafLength, k, v);
      Place(k);
      NodeOf(interior, k / leafLength);
      var i1, i2, i3 := k / span, (k / leafLength) % interior, k % leafLength;
      ViewAt();
      ghost var t := Update(View(), leafLength, k, v);
      root[i1][i2][i3] := v;
      forall x | 0 <= x < |t| ensures t[x] == Leaf(x / interior, x % interior) {
        NodeOf(interior, x);
      }
      ViewIs(t);
    }

    lemma LeafView(i: nat, p: nat)
      requires Valid() && i < interior && p < interior
      ensures i * interior + p < |View()| && View()[i * interior + p] == Leaf(i, p)
    {
      NodeLeaf(interior, i, p);
    }

    lemma ViewAt()
      requires Valid()
      ensures forall x | 0 <= x < total :: View()[x] == Leaf(x / interior, x % interior)
    {
    }

    lemma ViewIs(t: Tree)
      requires Valid() && |t| == total && forall x | 0 <= x < |t| :: t[x] == Leaf(x / interior, x % interior)
      ensures View() == t
    {
    }

    method PutNode(i: nat, node: array<array?<nat>>)
      requires Valid() && i < interior && root[i] == null && node !in Nodes() && node.Length == interior
      requires forall p | 0 <= p < interior :: node[p] == null
      modifies root
      ensures Valid() && root[i] == node && View() == old(View()) && Leaves() <= old(Leaves())
      ensures forall j | 0 <= j < interior && j != i :: root[j] == old(root[j])
    {
      hide View;
      ViewAt();
      ghost var t := View();
      root[i] := node;
      forall x | 0 <= x < |t| ensures t[x] == Leaf(x / interior, x % interior) {
        NodeOf(interior, x);
      }
      ViewIs(t);
    }

    method PutLeaf(i: nat, p: nat, leaf: array<nat>)
      requires Valid() && i < interior && p < interior && root[i] != null && root[i][p] == null
      requires leaf !in Leaves() && leaf[..] == Zeros(leafLength)
      modifies root[i]
      ensures Valid() && i * interior + p < |old(View())|
      ensures View() == old(View())[i * interior + p := Zeros(leafLength)]
      ensures root[i][p] == leaf && forall q | 0 <= q < interior && q != p :: root[i][q] == old(root[i][q])
      ensures Leaves() <= old(Leaves()) + {leaf}
    {
      hide View;
      NodeLeaf(interior, i, p);
      ViewAt();
      ghost var t := View()[i * interior + p := Zeros(leafLength)];
      root[i][p] := leaf;
      forall x | 0 <= x < |t| ensures t[x] == Leaf(x / interior, x % interior) {
        NodeOf(interior, x);
      }
      ViewIs(t);
    }

    /** Makes a node, with no leaves, if it is missing and the memory is granted. */
    method MakeNode(i: nat, granted: bool) returns (ok: bool)
      requires Valid() && i < interior
      modifies root
      ensures Valid() && fresh(Nodes() - old(Nodes())) && View() == old(View())
      ensures ok == (old(root[i]) != null || granted) && (ok <==> root[i] != null)
      ensures forall j | 0 <= j < interior && j != i :: root[j] == old(root[j])
      ensures root[i] != null ==> root[i] == old(root[i]) || fresh(root[i])
      ensures Leaves() <= old(Leaves())
    {
      if root[i] == null {
        if !granted {
          return false;
        }
        ghost var t := View();
        var node := new array?<nat>[interior](_ => null);
        assert View() == t;
        PutNode(i, node);
      }
      return true;
    }

    /** Makes a leaf, full of zeros, if it is missing and the memory is granted. */
    method MakeLeaf(i: nat, p: nat, granted: bool) returns (ok: bool)
      requires Valid() && i < interior && p < interior && root[i] != null
      modifies root[i]
      ensures Valid() && i * interior + p < |old(View())| && ok == (old(View())[i * interior + p] != [] || granted)
      ensures View() == if ok && old(View())[i * interior + p] == [] then
                old(View())[i * interior + p := Zeros(leafLength)] else old(View())
      ensures fresh(Leaves() - old(Leaves()))
    {
      NodeLeaf(interior, i, p);
      LeafView(i, p);
      if root[i][p] == null {
        if !granted {
          return false;
        }
        ghost var t := View();
        var leaf := new nat[leafLength](_ => 0);
        assert View() == t;
        assert leaf[..] == Zeros(leafLength);
        PutLeaf(i, p, leaf);
      }
      return true;
    }

    /** Makes the node and the leaf of a place in the directory, as far as the memory is granted. */
    method MakePath(x: nat, i: nat, p: nat, grantNode: bool, grantLeaf: bool) returns (ok: bool)
      requires Valid() && i < interior && p < interior && i == x / interior && p == x % interior
      modifies root, Nodes()
      ensures Valid() && fresh(Nodes() - old(Nodes())) && fresh(Leaves() - old(Leaves())) && x < |old(View())|
      ensures var had := old(View())[x] != [];
              && ok == (had || ((old(root[i]) != null || grantNode) && grantLeaf))
              && View() == if ok && !had then old(View())[x := Zeros(leafLength)] else old(View())
      ensures (root[i] != null <==> old(root[i]) != null || grantNode)
      ensures forall j | 0 <= j < interior && j != i :: root[j] == old(root[j])
    {
      hide View;
      NodeOf(interior, x);
      LeafView(i, p);
      var ok1 := MakeNode(i, grantNode);
      if !ok1 {
        return false;
      }
      ok := MakeLeaf(i, p, grantLeaf);
    }

    ghost function Present(): set<nat>
      reads root
    {
      set i | 0 <= i < root.Length && root[i] != null
    }

    /** The nodes are those that were there and some that were granted. */
    ghost predicate NodesFrom(present: set<nat>, grantNode: nat -> bool)
      reads root
    {
      && (forall i: nat | i < root.Length && root[i] != null :: i in present || grantNode(i))
      && (forall i: nat | i in present :: i < root.Length && root[i] != null)
    }

    /** Makes the node and the leaf of one key of the range. */
    method EnsureOne(start: nat, key: nat, grantNode: nat -> bool, grantLeaf: nat -> bool, ghost t: Tree,
                     ghost present: set<nat>)
      returns (ok: bool)
      requires Valid() && NodesFrom(present, grantNode) && leafLength > 0
      requires EnsuredUpTo(t, View(), leafLength, start, key, Granted(present, interior, grantNode, grantLeaf))
      modifies root, Nodes()
      ensures Valid() && NodesFrom(present, grantNode) && fresh(Nodes() - old(Nodes()))
      ensures fresh(Leaves() - old(Leaves()))
      ensures ok ==>
                EnsuredUpTo(t, View(), leafLength, start, NextStart(key, leafLength),
                Granted(present, interior, grantNode, grantLeaf))
      ensures !ok ==> View() == old(View())
      ensures !ok ==> key / leafLength >= |View()|
                      || (View()[key / leafLength] == []
                          && !Granted(present, interior, grantNode, grantLeaf)(key / leafLength))
    {
      hide EnsuredUpTo, View, Zeros, Granted, Valid, NextStart, Capacity;
      Place(key);
      GrantedAt(present, interior, grantNode, grantLeaf, key / leafLength);
      var i1, i2 := key / span, (key / leafLength) % interior;
      ghost var before := View();
      if i1 >= interior || i2 >= interior {
        return false;
      }
      ok := MakePath(key / leafLength, i1, i2, grantNode(i1), grantLeaf(key / leafLength));
      if ok {
        EnsureLeaf(t, before, leafLength, start, key, Granted(present, interior, grantNode, grantLeaf), View());
      }
    }

    /** Allocates the nodes and leaves of a range of keys; the last two arguments say which allocations succeed. */
    method Ensure(start: nat, n: nat, grantNode: nat -> bool, grantLeaf: nat -> bool) returns (ok: bool)
      requires Valid() && start < WORDS && n < WORDS && size < WORDS
      modifies root, Nodes()
      ensures Valid() && fresh(Nodes() - old(Nodes())) && fresh(Leaves() - old(Leaves()))
      ensures EnsureResult(old(View()), View(), leafLength, start, n,
                Granted(old(Present()), interior, grantNode, grantLeaf), ok)
      ensures Flat(View(), leafLength) == old(Flat(View(), leafLength))
    {
      hide EnsuredUpTo, EnsureResult, Last, View, Granted, Valid, NextStart, Capacity, Flat;
      ghost var t, present, grant := View(), Present(), Granted(Present(), interior, grantNode, grantLeaf);
      var key := start;
      Place(start);
      EnsureStart(t, leafLength, start, grant);
      while key <= Last(start, n)
        invariant Valid() && NodesFrom(present, grantNode) && fresh(Nodes() - old(Nodes()))
        invariant fresh(Leaves() - old(Leaves()))
        invariant EnsuredUpTo(t, View(), leafLength, start, key, grant)
        invariant Last(start, n) < start ==> View() == t
        decreases Last(start, n) + leafLength - key
      {
        var made := EnsureOne(start, key, grantNode, grantLeaf, t, present);
        if !made {
          EnsureFails(t, View(), leafLength, start, n, key, grant);
          EnsureKeepsFlat(t, View(), leafLength, start, n, grant, false);
          return false;
        }
        NextLeaf(leafLength, key);
        key := NextStart(key, leafLength);
      }
      EnsureDone(t, View(), leafLength, start, n, key, grant);
      EnsureKeepsFlat(t, View(), leafLength, start, n, grant, true);
      return true;
    }

    /** The value of the first key, from `k` on, that has one. */
    method Next(k: nat) returns (v: nat)
      requires Valid()
      ensures IsNextValue(Flat(View(), leafLength), k, v)
    {
      hide IsNextValue, View, NoneIn, Flat, Valid, NextStart, Capacity;
      Place(k);
      ghost var t := View();
      NoneYet(t, leafLength, k);
      var p := k;
      while p < size
        invariant Valid() && View() == t && k <= p && NoneIn(t, leafLength, k, p)
        decreases size + span - p
      {
        Place(p);
        PastLeaf(t, k, p);
        var i1, i2 := p / span, (p / leafLength) % interior;
        if root[i1] == null {
          PastNode(t, k, p);
          p := NextStart(p, span);
        } else {
          var leaf := root[i1][i2];
          if leaf != null {
            for i3 := p % leafLength to leafLength
              invariant Valid() && View() == t && leaf[..] == t[p / leafLength]
              invariant NoneIn(t, leafLength, k, p - p % leafLength + i3)
            {
              OneKey(t, leafLength, k, p, i3);
              if leaf[i3] != 0 {
                return leaf[i3];
              }
            }
          }
          p := NextStart(p, leafLength);
        }
      }
      NothingNext(t, leafLength, k, p);
      return 0;
    }

    /** How far the search goes when the node of key `p` is missing, */
    lemma PastNode(t: Tree, k: nat, p: nat)
      requires Valid() && t == View() && leafLength > 0 && span > 0 && k <= p < size && NoneIn(t, leafLength, k, p)
      requires p / span < root.Length && root[p / span] == null
      ensures p < NextStart(p, span) <= p + span && NoneIn(t, leafLength, k, NextStart(p, span))
    {
      hide View, NoneIn, NextStart;
      Place(p);
      NodeMissing(p / span);
      SkipNode(t, leafLength, interior, k, p);
    }

    /** and when the leaf is missing or has been looked at. */
    lemma PastLeaf(t: Tree, k: nat, p: nat)
      requires Valid() && t == View() && leafLength > 0 && k <= p < size && NoneIn(t, leafLength, k, p)
      ensures p / leafLength < |t| && p < NextStart(p, leafLength) <= p + span
      ensures t[p / leafLength] == [] ==> NoneIn(t, leafLength, k, NextStart(p, leafLength))
      ensures p - p % leafLength + leafLength == NextStart(p, leafLength)
    {
      hide View, NoneIn, NextStart;
      Place(p);
      NextLeaf(leafLength, p);
      LeafStart(leafLength, p);
      WiderThanLeaf(leafLength, interior);
      if t[p / leafLength] == [] {
        SkipMissing(t, leafLength, k, p);
      }
    }

    lemma NodeMissing(i: nat)
      requires Valid() && i < interior && root[i] == null
      ensures forall x | 0 <= x < |View()| && x / interior == i :: View()[x] == []
    {
    }
  }

  /** A leaf is granted if its node is there or granted, and it is itself. */
  ghost function Granted(present: set<nat>, interior: nat, grantNode: nat -> bool, grantLeaf: nat -> bool): nat -> bool
  {
    (x: nat) => interior > 0 && (x / interior in present || grantNode(x / interior)) && grantLeaf(x)
  }

  lemma GrantedAt(present: set<nat>, interior: nat, grantNode: nat -> bool, grantLeaf: nat -> bool, x: nat)
    requires interior > 0
    ensures Granted(present, interior, grantNode, grantLeaf)(x) <==>
              (x / interior in present || grantNode(x / interior)) && grantLeaf(x)
  {
  }

  lemma WiderThanLeaf(leaf: nat, interior: nat)
    requires leaf > 0 && interior > 0
    ensures leaf * interior >= leaf
  {
  }
}
