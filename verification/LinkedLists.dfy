/** The two kinds of linked lists: rings of spans, linked both ways through the
    spans, and chains of free objects, linked through their first words. */
module LinkedLists {
  import opened Sequences

  /** A node; zero is the null pointer. */
  type Ref = nat

  /** The node after position `i` of the ring of `list`, whose head has position -1, */
  function NextIn(list: Ref, s: seq<Ref>, i: int): Ref { if 0 <= i + 1 < |s| then s[i + 1] else list }

  /** and the one before it. */
  function PrevIn(list: Ref, s: seq<Ref>, i: int): Ref {
    if 0 < i <= |s| then s[i - 1] else if i == -1 && s != [] then s[|s| - 1] else list
  }

  function At(list: Ref, s: seq<Ref>, i: int): Ref { if 0 <= i < |s| then s[i] else list }

  /** From the list head through the nodes of `s` and back, in both directions, no node twice. */
  ghost predicate Ring(list: Ref, s: seq<Ref>, next: map<Ref, Ref>, prev: map<Ref, Ref>) {
    && (forall i, j | -1 <= i < j < |s| :: At(list, s, i) != At(list, s, j))
    && (forall i | -1 <= i < |s| :: Linked(list, s, next, prev, i))
  }

  ghost predicate Linked(list: Ref, s: seq<Ref>, next: map<Ref, Ref>, prev: map<Ref, Ref>, i: int) {
    var n := At(list, s, i);
    n != 0 && n in next && n in prev && next[n] == NextIn(list, s, i) && prev[n] == PrevIn(list, s, i)
  }

  class Spans {
    var next: map<Ref, Ref>
    var prev: map<Ref, Ref>

    constructor ()
    {
      next, prev := map[], map[];
    }

    method Init(list: Ref)
      requires list != 0
      modifies this
      ensures Ring(list, [], next, prev) && next == old(next)[list := list] && prev == old(prev)[list := list]
    {
      next := next[list := list];
      prev := prev[list := list];
    }

    /** Takes a node off its ring; only it and its neighbours are written to. */
    method Remove(span: Ref, ghost list: Ref, ghost s: seq<Ref>, ghost i: nat)
      requires Ring(list, s, next, prev) && i < |s| && s[i] == span
      modifies this
      ensures Ring(list, s[..i] + s[i + 1..], next, prev)
      ensures span in next && span in prev && next[span] == 0 && prev[span] == 0
      ensures forall n | n in old(next) && n in old(prev) && n !in s && n != list ::
                n in next && n in prev && next[n] == old(next)[n] && prev[n] == old(prev)[n]
    {
      hide Ring;
      RemoveKeeps(list, s, next, prev, i);
      next := next[prev[span] := next[span]];
      prev := prev[next[span] := prev[span]];
      prev := prev[span := 0];
      next := next[span := 0];
    }

    /** Puts a node first. */
    method Prepend(list: Ref, span: Ref, ghost s: seq<Ref>)
      requires Ring(list, s, next, prev) && span != 0 && span != list && span !in s
      modifies this
      ensures Ring(list, [span] + s, next, prev)
      ensures forall n | n in old(next) && n in old(prev) && n !in s && n != list && n != span ::
                n in next && n in prev && next[n] == old(next)[n] && prev[n] == old(prev)[n]
    {
      hide Ring;
      PrependKeeps(list, s, next, prev, span);
      next := next[span := next[list]];
      prev := prev[span := list];
      prev := prev[next[list] := span];
      next := next[list := span];
    }

    method Length(list: Ref, ghost s: seq<Ref>) returns (n: nat)
      requires Ring(list, s, next, prev)
      ensures n == |s|
    {
      n := 0;
      assert Linked(list, s, next, prev, -1);
      var node := next[list];
      while node != list
        invariant n <= |s| && node == At(list, s, n)
        decreases |s| - n
      {
        assert Linked(list, s, next, prev, n);
        n := n + 1;
        node := next[node];
      }
      assert n < |s| ==> At(list, s, -1) != At(list, s, n);
    }
  }

  lemma RemoveKeeps(list: Ref, s: seq<Ref>, next: map<Ref, Ref>, prev: map<Ref, Ref>, i: nat)
    requires Ring(list, s, next, prev) && i < |s|
    ensures s[i] in next && s[i] in prev && prev[s[i]] in next && next[s[i]] in prev && prev[s[i]] != s[i]
    ensures next[s[i]] != s[i]
    ensures prev[s[i]] in [list] + s && next[s[i]] in [list] + s
    ensures Ring(list, s[..i] + s[i + 1..],
                 next[prev[s[i]] := next[s[i]]][s[i] := 0], prev[next[s[i]] := prev[s[i]]][s[i] := 0])
  {
    hide Ring;
    Around(list, s, next, prev, i);
    RemoveDistinct(list, s, next, prev, i);
    var t := s[..i] + s[i + 1..];
    var n, p := next[prev[s[i]] := next[s[i]]][s[i] := 0], prev[next[s[i]] := prev[s[i]]][s[i] := 0];
    forall j | -1 <= j < |t| ensures Linked(list, t, n, p, j) {
      RemoveLinks(list, s, next, prev, i, j);
    }
    RingFrom(list, t, n, p);
  }

  lemma RingFrom(list: Ref, s: seq<Ref>, next: map<Ref, Ref>, prev: map<Ref, Ref>)
    requires forall i, j | -1 <= i < j < |s| :: At(list, s, i) != At(list, s, j)
    requires forall i | -1 <= i < |s| :: Linked(list, s, next, prev, i)
    ensures Ring(list, s, next, prev)
  {
  }

  lemma Around(list: Ref, s: seq<Ref>, next: map<Ref, Ref>, prev: map<Ref, Ref>, i: nat)
    requires Ring(list, s, next, prev) && i < |s|
    ensures Linked(list, s, next, prev, i) && s[i] != list
    ensures Linked(list, s, next, prev, i - 1) && Linked(list, s, next, prev, if i + 1 < |s| then i + 1 else -1)
    ensures prev[s[i]] == At(list, s, i - 1) && next[s[i]] == At(list, s, i + 1)
    ensures At(list, s, i - 1) != s[i] && At(list, s, i + 1) != s[i]
  {
    assert Linked(list, s, next, prev, i);
    assert At(list, s, i - 1) != At(list, s, i);
    assert At(list, s, -1) != At(list, s, i);
    assert i + 1 < |s| ==> At(list, s, i) != At(list, s, i + 1);
  }

  lemma RemoveDistinct(list: Ref, s: seq<Ref>, next: map<Ref, Ref>, prev: map<Ref, Ref>, i: nat)
    requires Ring(list, s, next, prev) && i < |s|
    ensures var t := s[..i] + s[i + 1..]; forall j, k | -1 <= j < k < |t| :: At(list, t, j) != At(list, t, k)
  {
    var t := s[..i] + s[i + 1..];
    forall j, k | -1 <= j < k < |t| ensures At(list, t, j) != At(list, t, k) {
      assert At(list, t, j) == At(list, s, if j < i then j else j + 1);
      assert At(list, t, k) == At(list, s, if k < i then k else k + 1);
    }
  }

  lemma RemoveLinks(list: Ref, s: seq<Ref>, next: map<Ref, Ref>, prev: map<Ref, Ref>, i: nat, j: int)
    requires Ring(list, s, next, prev) && i < |s| && -1 <= j < |s| - 1
    requires Linked(list, s, next, prev, i) && prev[s[i]] == At(list, s, i - 1) && next[s[i]] == At(list, s, i + 1)
    ensures var t := s[..i] + s[i + 1..];
            Linked(list, t, next[prev[s[i]] := next[s[i]]][s[i] := 0], prev[next[s[i]] := prev[s[i]]][s[i] := 0], j)
  {
    var t := s[..i] + s[i + 1..];
    var k := if j < i then j else j + 1;
    assert Linked(list, s, next, prev, k);
    assert At(list, t, j) == At(list, s, k);
    Apart(list, s, next, prev, k, i);
    Apart(list, s, next, prev, k, i - 1);
    Apart(list, s, next, prev, k, if i + 1 < |s| then i + 1 else -1);
  }

  lemma Apart(list: Ref, s: seq<Ref>, next: map<Ref, Ref>, prev: map<Ref, Ref>, j: int, k: int)
    requires Ring(list, s, next, prev) && -1 <= j < |s| && -1 <= k < |s|
    ensures At(list, s, j) == At(list, s, k) <==> j == k
  {
  }

  lemma PrependKeeps(list: Ref, s: seq<Ref>, next: map<Ref, Ref>, prev: map<Ref, Ref>, span: Ref)
    requires Ring(list, s, next, prev) && span != 0 && span != list && span !in s
    ensures list in next && list in prev && next[list] == At(list, s, 0) && next[list] in next && next[list] in prev
    ensures Ring(list, [span] + s, next[span := next[list]][list := span], prev[span := list][next[list] := span])
  {
    assert Linked(list, s, next, prev, -1);
    assert Linked(list, s, next, prev, if s == [] then -1 else 0);
    var t := [span] + s;
    var n, p := next[span := next[list]][list := span], prev[span := list][next[list] := span];
    forall j, k | -1 <= j < k < |t| ensures At(list, t, j) != At(list, t, k) {
      PrependAt(list, s, span, j);
      PrependAt(list, s, span, k);
      if j != 0 && k != 0 {
        Apart(list, s, next, prev, if j < 0 then -1 else j - 1, k - 1);
      }
    }
    forall j | -1 <= j < |t| ensures Linked(list, t, n, p, j) {
      PrependAt(list, s, span, j);
      if j != 0 {
        var k := if j < 0 then -1 else j - 1;
        assert Linked(list, s, next, prev, k);
        Apart(list, s, next, prev, k, -1);
        Apart(list, s, next, prev, k, if s == [] then -1 else 0);
      }
    }
  }

  lemma PrependAt(list: Ref, s: seq<Ref>, span: Ref, j: int)
    requires -1 <= j <= |s|
    ensures At(list, [span] + s, j) == if j == 0 then span else At(list, s, if j < 0 then -1 else j - 1)
  {
  }

  /** The chain from `head`: each object's first word is the address of the next, the last one's is zero. */
  ghost predicate Chain(head: nat, s: seq<nat>, word: map<nat, nat>) {
    && head == (if s == [] then 0 else s[0])
    && (forall i | 0 <= i < |s| :: s[i] != 0 && s[i] in word)
    && (forall i {:trigger word[s[i]]} | 0 <= i < |s| :: word[s[i]] == if i + 1 < |s| then s[i + 1] else 0)
    && Distinct(s)
  }

  class Memory {
    var word: map<nat, nat>

    constructor ()
    {
      word := map[];
    }

    method Push(head: nat, element: nat, ghost s: seq<nat>) returns (newHead: nat)
      requires Chain(head, s, word) && element != 0 && element !in s
      modifies this
      ensures word == old(word)[element := head] && Chain(newHead, [element] + s, word)
    {
      PushKeeps(head, element, s, word);
      word := word[element := head];
      newHead := element;
    }

    method Pop(head: nat, ghost s: seq<nat>) returns (result: nat, newHead: nat)
      requires Chain(head, s, word) && s != []
      ensures result == s[0] && Chain(newHead, s[1..], word)
    {
      result := head;
      newHead := word[head];
      TailChain(head, s, word, 1);
    }

    /** Takes the first `n` objects off a chain, as a chain of their own. */
    method PopRange(head: nat, n: nat, ghost s: seq<nat>) returns (start: nat, end: nat, newHead: nat)
      requires Chain(head, s, word) && n <= |s|
      modifies this
      ensures Chain(start, s[..n], word) && Chain(newHead, s[n..], word)
      ensures end == if n == 0 then 0 else s[n - 1]
      ensures word == if n == 0 then old(word) else old(word)[s[n - 1] := 0]
    {
      if n == 0 {
        assert s[0..] == s;
        return 0, 0, head;
      }
      var tmp := head;
      for i := 1 to n
        invariant tmp == s[i - 1]
      {
        tmp := word[tmp];
      }
      CutChain(head, s, word, n);
      newHead := word[tmp];
      word := word[tmp := 0];
      return head, tmp, newHead;
    }

    /** Puts a chain in front of another. */
    method PushRange(head: nat, start: nat, end: nat, ghost r: seq<nat>, ghost s: seq<nat>) returns (newHead: nat)
      requires Chain(head, s, word) && Chain(start, r, word) && (forall x | x in r :: x !in s)
      requires r != [] ==> end == r[|r| - 1]
      modifies this
      ensures Chain(newHead, r + s, word) && word == if r == [] then old(word) else old(word)[end := head]
    {
      if start == 0 {
        assert r + s == s;
        return head;
      }
      JoinChains(head, start, r, s, word);
      word := word[end := head];
      newHead := start;
    }

    method Size(head: nat, ghost s: seq<nat>) returns (count: nat)
      requires Chain(head, s, word)
      ensures count == |s|
    {
      count := 0;
      var node := head;
      while node != 0
        invariant count <= |s| && node == if count < |s| then s[count] else 0
        decreases |s| - count
      {
        count := count + 1;
        node := word[node];
      }
    }
  }

  lemma PushKeeps(head: nat, element: nat, s: seq<nat>, word: map<nat, nat>)
    requires Chain(head, s, word) && element != 0 && element !in s
    ensures Chain(element, [element] + s, word[element := head])
  {
    var t := [element] + s;
    assert forall i | 0 < i < |t| :: t[i] == s[i - 1];
  }

  lemma TailChain(head: nat, s: seq<nat>, word: map<nat, nat>, n: nat)
    requires Chain(head, s, word) && n <= |s|
    ensures Chain(if n < |s| then s[n] else 0, s[n..], word)
  {
    var t := s[n..];
    assert forall i | 0 <= i < |t| :: t[i] == s[n + i];
  }

  lemma CutChain(head: nat, s: seq<nat>, word: map<nat, nat>, n: nat)
    requires Chain(head, s, word) && 0 < n <= |s|
    ensures var w := word[s[n - 1] := 0];
            Chain(head, s[..n], w) && Chain(word[s[n - 1]], s[n..], w)
  {
    hide Chain;
    CutFront(head, s, word, n);
    CutBack(head, s, word, n);
  }

  lemma CutFront(head: nat, s: seq<nat>, word: map<nat, nat>, n: nat)
    requires Chain(head, s, word) && 0 < n <= |s|
    ensures Chain(head, s[..n], word[s[n - 1] := 0])
  {
    assert forall i | 0 <= i < n :: s[..n][i] == s[i];
  }

  lemma CutBack(head: nat, s: seq<nat>, word: map<nat, nat>, n: nat)
    requires Chain(head, s, word) && 0 < n <= |s|
    ensures s[n - 1] in word && Chain(word[s[n - 1]], s[n..], word[s[n - 1] := 0])
  {
    var b := s[n..];
    assert forall i | 0 <= i < |b| :: b[i] == s[n + i];
  }

  lemma JoinChains(head: nat, start: nat, r: seq<nat>, s: seq<nat>, word: map<nat, nat>)
    requires Chain(head, s, word) && Chain(start, r, word) && r != [] && (forall x | x in r :: x !in s)
    ensures Chain(start, r + s, word[r[|r| - 1] := head])
  {
    var t, w := r + s, word[r[|r| - 1] := head];
    forall i | 0 <= i < |t|
      ensures t[i] != 0 && t[i] in w && w[t[i]] == if i + 1 < |t| then t[i + 1] else 0
    {
      assert r[|r| - 1] in r;
      if i >= |r| {
        assert t[i] == s[i - |r|] && t[i] in s && word[s[i - |r|]] == w[t[i]];
      } else {
        assert t[i] == r[i] && (i + 1 < |r| ==> word[r[i]] == w[t[i]]);
      }
    }
    DistinctConcat(r, s);
    assert start == t[0];
    assert forall i {:trigger w[t[i]]} | 0 <= i < |t| :: w[t[i]] == if i + 1 < |t| then t[i + 1] else 0;
    assert Chain(start, t, w);
  }
}
