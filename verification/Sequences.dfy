/** Sequences, with or without repetition, and the size of sets. */
module Sequences {
  ghost predicate Distinct<T(!new)>(s: seq<T>) { forall i, j | 0 <= i < j < |s| :: s[i] != s[j] }

  /** Without the first occurrence of `x`. */
  function Without<T(==)>(s: seq<T>, x: T): seq<T> {
    if s == [] then [] else if s[0] == x then s[1..] else [s[0]] + Without(s[1..], x)
  }

  lemma TailDistinct<T(!new)>(x: T, r: seq<T>)
    requires Distinct([x] + r)
    ensures Distinct(r) && x !in r
  {
    var all := [x] + r;
    forall i | 0 <= i < |r| ensures r[i] != x { assert all[0] == x && all[i + 1] == r[i]; }
    forall i, j | 0 <= i < j < |r| ensures r[i] != r[j] { assert all[i + 1] == r[i] && all[j + 1] == r[j]; }
  }

  lemma DistinctConcat<T(!new)>(a: seq<T>, b: seq<T>)
    requires Distinct(a) && Distinct(b) && forall o | o in a :: o !in b
    ensures Distinct(a + b)
  {
    forall i, j | 0 <= i < j < |a + b| ensures (a + b)[i] != (a + b)[j] {
      if i < |a| && j >= |a| {
        assert (a + b)[i] in a && (a + b)[j] == b[j - |a|];
      }
    }
  }

  lemma SplitDistinct<T(!new)>(a: seq<T>, n: nat)
    requires Distinct(a) && n <= |a|
    ensures Distinct(a[..n]) && Distinct(a[n..]) && forall o :: o in a[n..] <==> o in a && o !in a[..n]
  {
    forall o | o in a[n..] ensures o in a && o !in a[..n] {
      var i :| 0 <= i < |a[n..]| && a[n..][i] == o;
      assert a[n + i] == o;
    }
    assert a == a[..n] + a[n..];
    var b := a[n..];
    forall i, j | 0 <= i < j < |b| ensures b[i] != b[j] { assert b[i] == a[n + i] && b[j] == a[n + j]; }
  }

  lemma {:induction false} WithoutKeeps<T(!new)>(s: seq<T>, x: T)
    requires Distinct(s)
    ensures Distinct(Without(s, x)) && forall y :: y in Without(s, x) <==> y in s && y != x
    ensures |Without(s, x)| == |s| - (if x in s then 1 else 0)
  {
    if s != [] {
      assert s == [s[0]] + s[1..];
      TailDistinct(s[0], s[1..]);
      WithoutKeeps(s[1..], x);
    }
  }

  lemma {:induction false} WithoutAbsent<T>(s: seq<T>, x: T)
    requires x !in s
    ensures Without(s, x) == s
  {
    if s != [] {
      WithoutAbsent(s[1..], x);
    }
  }

  lemma Associate<T>(a: seq<T>, b: seq<T>, c: seq<T>)
    ensures (a + b) + c == a + (b + c)
  {
  }

  lemma SubsetSize<T>(a: set<T>, b: set<T>)
    requires a <= b
    ensures |a| <= |b|
  {
    assert b == a + (b - a);
  }
}
