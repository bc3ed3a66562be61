/** Conservative reachability: an object is reached when some word read from a
    root range, or from a reached object, points to its start or into it. */
module Reachability {
  import opened AddressMap

  const WORD := 8

  /** What the heap profile records of an allocation. */
  datatype Alloc = Alloc(bytes: nat, live: bool, ignored: bool)

  type Heap = map<nat, Alloc>

  /** A range of memory to be read, and whether it must itself be a heap object. */
  datatype Root = Root(ptr: nat, size: nat, onHeap: bool)

  /** How memory is read: the word at each address, the distance limit of the pointer lookup, and the alignment. */
  datatype Reader = Reader(word: nat -> nat, limit: nat, align: nat)

  function Bytes(v: Alloc): nat { v.bytes }

  /** The addresses of a range at which a pointer is looked for. */
  predicate Position(ptr: nat, size: nat, align: nat, p: nat) {
    align > 0 && ptr <= p && p + WORD <= ptr + size && p % align == 0
  }

  /** The word `a` points to object `k`, or into it. */
  ghost predicate Hits(c: Heap, m: Reader, a: nat, k: nat) {
    Holds(c, Bytes, k, a) && Near(k, a, m.limit)
  }

  ghost predicate Points(c: Heap, m: Reader, ptr: nat, size: nat, k: nat) {
    exists p :: Position(ptr, size, m.align, p) && Hits(c, m, m.word(p), k)
  }

  /** The root is the object, or has a pointer to it. */
  ghost predicate Starts(c: Heap, m: Reader, r: Root, k: nat) {
    (r.onHeap && r.ptr == k && k in c) || Points(c, m, r.ptr, r.size, k)
  }

  ghost predicate FromRoot(c: Heap, m: Reader, roots: seq<Root>, k: nat) {
    exists i :: 0 <= i < |roots| && Starts(c, m, roots[i], k)
  }

  /** Consecutive objects of the path point to each other. */
  ghost predicate IsPath(c: Heap, m: Reader, path: seq<nat>) {
    && (forall i | 0 <= i < |path| :: path[i] in c)
    && forall i | 0 < i < |path| :: Points(c, m, path[i - 1], c[path[i - 1]].bytes, path[i])
  }

  ghost predicate Reachable(c: Heap, m: Reader, roots: seq<Root>, k: nat) {
    exists path :: |path| > 0 && FromRoot(c, m, roots, path[0]) && IsPath(c, m, path) && path[|path| - 1] == k
  }

  ghost function LiveSet(c: Heap): set<nat> { set k | k in c && c[k].live }

  /** The same objects, of which others may be live. */
  ghost predicate SameObjects(c: Heap, d: Heap) {
    c.Keys == d.Keys && forall k | k in c :: c[k].bytes == d[k].bytes && c[k].ignored == d[k].ignored
  }

  /** All that a live object points to is live. */
  ghost predicate Closed(c: Heap, m: Reader, live: set<nat>) {
    forall a, b | a in live && a in c && Points(c, m, a, c[a].bytes, b) :: b in live
  }

  lemma SamePoints(c: Heap, d: Heap, m: Reader, ptr: nat, size: nat, k: nat)
    requires SameObjects(c, d)
    ensures Points(c, m, ptr, size, k) <==> Points(d, m, ptr, size, k)
  {
    hide SameObjects;
    if Points(c, m, ptr, size, k) {
      var p :| Position(ptr, size, m.align, p) && Hits(c, m, m.word(p), k);
      SameHits(c, d, m, m.word(p), k);
    }
    if Points(d, m, ptr, size, k) {
      var p :| Position(ptr, size, m.align, p) && Hits(d, m, m.word(p), k);
      SameHits(c, d, m, m.word(p), k);
    }
  }

  lemma SameHits(c: Heap, d: Heap, m: Reader, a: nat, k: nat)
    requires SameObjects(c, d)
    ensures Hits(c, m, a, k) <==> Hits(d, m, a, k)
  {
  }

  /** What is reached is reached alike, whatever is live. */
  lemma SameReachable(c: Heap, d: Heap, m: Reader, roots: seq<Root>, k: nat)
    requires SameObjects(c, d) && Reachable(c, m, roots, k)
    ensures Reachable(d, m, roots, k)
  {
    hide Points;
    var path :| |path| > 0 && FromRoot(c, m, roots, path[0]) && IsPath(c, m, path) && path[|path| - 1] == k;
    var i :| 0 <= i < |roots| && Starts(c, m, roots[i], path[0]);
    SamePoints(c, d, m, roots[i].ptr, roots[i].size, path[0]);
    assert FromRoot(d, m, roots, path[0]);
    forall j | 0 < j < |path| ensures Points(d, m, path[j - 1], d[path[j - 1]].bytes, path[j]) {
      SamePoints(c, d, m, path[j - 1], c[path[j - 1]].bytes, path[j]);
    }
  }

  lemma PointsIn(c: Heap, m: Reader, ptr: nat, size: nat, k: nat)
    requires Points(c, m, ptr, size, k)
    ensures k in c
  {
  }

  lemma RootReachable(c: Heap, m: Reader, roots: seq<Root>, k: nat)
    requires FromRoot(c, m, roots, k)
    ensures k in c && Reachable(c, m, roots, k)
  {
    hide Points;
    var i :| 0 <= i < |roots| && Starts(c, m, roots[i], k);
    if !(roots[i].onHeap && roots[i].ptr == k && k in c) { PointsIn(c, m, roots[i].ptr, roots[i].size, k); }
    assert IsPath(c, m, [k]);
  }

  lemma StepReachable(c: Heap, m: Reader, roots: seq<Root>, a: nat, k: nat)
    requires Reachable(c, m, roots, a) && a in c && Points(c, m, a, c[a].bytes, k)
    ensures Reachable(c, m, roots, k)
  {
    hide FromRoot, Points;
    var path :| |path| > 0 && FromRoot(c, m, roots, path[0]) && IsPath(c, m, path) && path[|path| - 1] == a;
    PointsIn(c, m, a, c[a].bytes, k);
    var longer := path + [k];
    forall i | 0 < i < |longer| ensures Points(c, m, longer[i - 1], c[longer[i - 1]].bytes, longer[i]) {
      if i < |path| { assert longer[i] == path[i] && longer[i - 1] == path[i - 1]; }
    }
    assert IsPath(c, m, longer);
    assert longer[0] == path[0] && longer[|longer| - 1] == k;
  }

  /** A closed set with all that the roots point to has everything reachable. */
  lemma {:induction false} ClosedCovers(c: Heap, m: Reader, roots: seq<Root>, live: set<nat>, path: seq<nat>, i: nat)
    requires Closed(c, m, live) && (forall k | FromRoot(c, m, roots, k) :: k in live)
    requires |path| > 0 && FromRoot(c, m, roots, path[0]) && IsPath(c, m, path) && i < |path|
    ensures path[i] in live
  {
    hide FromRoot, Points;
    if i > 0 {
      ClosedCovers(c, m, roots, live, path, i - 1);
      assert Points(c, m, path[i - 1], c[path[i - 1]].bytes, path[i]);
    }
  }

  /** What the roots reach together is what they reach one by one. */
  lemma OneRoot(c: Heap, m: Reader, roots: seq<Root>, k: nat)
    ensures Reachable(c, m, roots, k) <==> exists r :: r in roots && Reachable(c, m, [r], k)
  {
    hide Points, IsPath;
    if Reachable(c, m, roots, k) {
      var path :| |path| > 0 && FromRoot(c, m, roots, path[0]) && IsPath(c, m, path) && path[|path| - 1] == k;
      var i :| 0 <= i < |roots| && Starts(c, m, roots[i], path[0]);
      assert [roots[i]][0] == roots[i];
      assert FromRoot(c, m, [roots[i]], path[0]);
      assert Reachable(c, m, [roots[i]], k);
    }
    if r :| r in roots && Reachable(c, m, [r], k) {
      var path :| |path| > 0 && FromRoot(c, m, [r], path[0]) && IsPath(c, m, path) && path[|path| - 1] == k;
      var i :| 0 <= i < |roots| && roots[i] == r;
      assert FromRoot(c, m, roots, path[0]);
    }
  }

  /** With alignment 1 every position is looked at, so nothing is reached less. */
  lemma FinerReachesMore(c: Heap, m: Reader, roots: seq<Root>, k: nat)
    requires Reachable(c, m, roots, k)
    ensures Reachable(c, m.(align := 1), roots, k)
  {
    hide Points;
    var f := m.(align := 1);
    var path :| |path| > 0 && FromRoot(c, m, roots, path[0]) && IsPath(c, m, path) && path[|path| - 1] == k;
    var i :| 0 <= i < |roots| && Starts(c, m, roots[i], path[0]);
    if Points(c, m, roots[i].ptr, roots[i].size, path[0]) { FinerPoints(c, m, roots[i].ptr, roots[i].size, path[0]); }
    assert FromRoot(c, f, roots, path[0]);
    forall j | 0 < j < |path| ensures Points(c, f, path[j - 1], c[path[j - 1]].bytes, path[j]) {
      FinerPoints(c, m, path[j - 1], c[path[j - 1]].bytes, path[j]);
    }
  }

  lemma FinerPoints(c: Heap, m: Reader, ptr: nat, size: nat, k: nat)
    requires Points(c, m, ptr, size, k)
    ensures Points(c, m.(align := 1), ptr, size, k)
  {
    var p :| Position(ptr, size, m.align, p) && Hits(c, m, m.word(p), k);
    assert Position(ptr, size, 1, p) && Hits(c, m.(align := 1), m.(align := 1).word(p), k);
  }
}
