/** A map from addresses to values: clusters of blocks in a chained hash table,
    and one linked list of entries per block. */
module AddressMap {
  import opened Sequences
  import LinkedLists
  import opened Wrappers

  const BLOCK_SIZE := 128
  const CLUSTER_BLOCKS := 8192
  const CLUSTER_SIZE := 0x10_0000
  const HASH_SIZE := 4096
  const ALLOC_COUNT := 64

  // An entry by its identity; 0 is the null pointer.
  type Ref = nat

  datatype Entry<V> = Entry(next: Ref, key: nat, value: V)

  /** Top 12 bits of the low 32 bits of a product with the golden ratio. */
  function HashInt(x: nat): (h: nat)
    ensures h < HASH_SIZE
  {
    x % 0x1_0000_0000 * 2654435769 % 0x1_0000_0000 / 0x10_0000
  }

  function BlockOf(address: nat): nat { address / BLOCK_SIZE }

  function ClusterOf(address: nat): nat { address / CLUSTER_SIZE }

  function ClusterOfBlock(b: nat): nat { b / CLUSTER_BLOCKS }

  /** The linked list from `head` runs through exactly the entries of `s`. */
  ghost predicate IsList<V>(head: Ref, s: seq<Ref>, entries: map<Ref, Entry<V>>) {
    LinkedLists.Chain(head, s, map e | e in entries :: entries[e].next)
  }

  /** A cluster is in the chain of its hash value, and its blocks are the ones that have a list. */
  ghost predicate TableOk(table: seq<seq<nat>>, heads: map<nat, Ref>) {
    && |table| == HASH_SIZE
    && (forall b: nat {:trigger b in heads} :: b in heads <==> ClusterOfBlock(b) in table[HashInt(ClusterOfBlock(b))])
    && (forall h, id | 0 <= h < HASH_SIZE && id in table[h] :: HashInt(id) == h)
    && (forall h | 0 <= h < HASH_SIZE :: Distinct(table[h]))
  }

  ghost predicate ChainsOk<V>(heads: map<nat, Ref>, chains: map<nat, seq<Ref>>, entries: map<Ref, Entry<V>>) {
    chains.Keys == heads.Keys && forall b | b in heads :: IsList(heads[b], chains[b], entries)
  }

  ghost predicate FreeOk<V>(free: Ref, freeList: seq<Ref>, unused: Ref, entries: map<Ref, Entry<V>>) {
    IsList(free, freeList, entries) && unused >= 1 && forall e | e in entries :: e < unused
  }

  /** The entry of a key is in the list of its block, and serves no other purpose. */
  ghost predicate KeysOk<V>(chains: map<nat, seq<Ref>>, entries: map<Ref, Entry<V>>, at: map<nat, Ref>,
                            freeList: seq<Ref>)
  {
    && (forall k | k in at ::
          BlockOf(k) in chains && at[k] in chains[BlockOf(k)] && at[k] in entries && entries[at[k]].key == k)
    && (forall b, e | b in chains && e in chains[b] ::
          e in entries && BlockOf(entries[e].key) == b && entries[e].key in at && at[entries[e].key] == e)
    && (forall b, e | b in chains && e in chains[b] :: e !in freeList)
  }

  ghost function ContentsOf<V>(at: map<nat, Ref>, entries: map<Ref, Entry<V>>): map<nat, V> {
    map k | k in at && at[k] in entries :: entries[at[k]].value
  }

  // How lists change.

  /** A list depends only on the links of its own entries. */
  lemma ListFrame<V>(head: Ref, s: seq<Ref>, a: map<Ref, Entry<V>>, b: map<Ref, Entry<V>>)
    requires IsList(head, s, a) && forall e | e in s :: e in b && b[e].next == a[e].next
    ensures IsList(head, s, b)
  {
  }

  lemma ListTail<V>(e: Ref, rest: seq<Ref>, entries: map<Ref, Entry<V>>)
    requires IsList(e, [e] + rest, entries)
    ensures e in entries && IsList(entries[e].next, rest, entries) && e !in rest
  {
    var s := [e] + rest;
    assert entries[s[0]].next == if rest == [] then 0 else rest[0];
    forall i | 0 <= i < |rest| ensures rest[i] == s[i + 1] {}
    forall i | 0 <= i < |rest| ensures entries[rest[i]].next == if i + 1 < |rest| then rest[i + 1] else 0 {
      assert entries[s[i + 1]].next == if i + 2 < |s| then s[i + 2] else 0;
    }
    forall i | 0 <= i < |rest| ensures rest[i] != e { assert s[0] != s[i + 1]; }
    forall i, j | 0 <= i < j < |rest| ensures rest[i] != rest[j] { assert s[i + 1] != s[j + 1]; }
  }

  lemma ListPrepend<V>(e: Ref, head: Ref, s: seq<Ref>, entries: map<Ref, Entry<V>>)
    requires IsList(head, s, entries) && e in entries && e != 0 && entries[e].next == head && e !in s
    ensures IsList(e, [e] + s, entries)
  {
    var l := [e] + s;
    forall i | 0 <= i < |l| ensures entries[l[i]].next == if i + 1 < |l| then l[i + 1] else 0 {
      if i > 0 { assert l[i] == s[i - 1]; }
    }
  }

  /** Linking around the entry at position `i`. */
  lemma {:induction false} ListUnlink<V>(head: Ref, s: seq<Ref>, i: nat, a: map<Ref, Entry<V>>, b: map<Ref, Entry<V>>)
    requires IsList(head, s, a) && i < |s|
    requires forall e | e in s && e != s[i] && (i == 0 || e != s[i - 1]) :: e in b && b[e].next == a[e].next
    requires i > 0 ==> s[i - 1] in b && b[s[i - 1]].next == a[s[i]].next
    ensures IsList(if i == 0 then a[s[0]].next else head, s[..i] + s[i + 1..], b)
    decreases i
  {
    hide IsList;
    var e, rest := s[0], s[1..];
    assert s == [e] + rest;
    ListHead(head, s, a);
    ListTail(e, rest, a);
    if i == 0 {
      ListFrame(a[e].next, rest, a, b);
      assert s[..i] + s[i + 1..] == rest;
    } else {
      ListUnlink(a[e].next, rest, i - 1, a, b);
      var r := rest[..i - 1] + rest[i..];
      Around(s, i);
      ListHead(a[e].next, rest, a);
      ListPrepend(e, if i == 1 then a[rest[0]].next else a[e].next, r, b);
    }
  }

  lemma Around(s: seq<Ref>, i: nat)
    requires 0 < i < |s| && s[0] !in s[1..]
    ensures s[..i] + s[i + 1..] == [s[0]] + (s[1..][..i - 1] + s[1..][i..])
    ensures s[0] !in s[1..][..i - 1] + s[1..][i..]
    ensures s[i] in s[1..] && (i > 1 ==> s[i - 1] in s[1..])
  {
    assert s[i] == s[1..][i - 1];
    if i > 1 { assert s[i - 1] == s[1..][i - 2]; }
  }

  lemma ListHead<V>(head: Ref, s: seq<Ref>, entries: map<Ref, Entry<V>>)
    requires IsList(head, s, entries)
    ensures s != [] ==> head == s[0] && s[0] != 0 && s[0] in entries
  {
  }

  lemma ListLinks<V>(head: Ref, s: seq<Ref>, entries: map<Ref, Entry<V>>)
    requires IsList(head, s, entries)
    ensures head == (if s == [] then 0 else s[0]) && forall i | 0 <= i < |s| :: s[i] != 0 && s[i] in entries
    ensures forall i | 0 <= i < |s| :: entries[s[i]].next == if i + 1 < |s| then s[i + 1] else 0
    ensures Distinct(s)
  {
  }

  /** The entry with a given key on a list, or null, and its position. */
  method Search<V>(head: Ref, key: nat, entries: map<Ref, Entry<V>>, ghost s: seq<Ref>)
    returns (e: Ref, prev: Ref, ghost i: nat)
    requires IsList(head, s, entries)
    ensures e == 0 ==> forall x | x in s :: entries[x].key != key
    ensures e != 0 ==> i < |s| && e == s[i] && entries[e].key == key && prev == if i == 0 then 0 else s[i - 1]
  {
    i := 0;
    e, prev := head, 0;
    while e != 0
      invariant 0 <= i <= |s| && e == (if i < |s| then s[i] else 0) && prev == (if i == 0 then 0 else s[i - 1])
      invariant forall j | 0 <= j < i :: entries[s[j]].key != key
      decreases |s| - i
    {
      if entries[e].key == key {
        return;
      }
      prev, e, i := e, entries[e].next, i + 1;
    }
  }

  function ClusterFill<T>(id: nat, v: T): map<nat, T> {
    map b: nat | id * CLUSTER_BLOCKS <= b < (id + 1) * CLUSTER_BLOCKS && ClusterOfBlock(b) == id :: v
  }

  lemma NewCluster(table: seq<seq<nat>>, heads: map<nat, Ref>, id: nat)
    requires TableOk(table, heads) && id !in table[HashInt(id)]
    ensures TableOk(table[HashInt(id) := [id] + table[HashInt(id)]], heads + ClusterFill<Ref>(id, 0))
    ensures forall b: nat | ClusterOfBlock(b) == id :: b !in heads && b in ClusterFill<Ref>(id, 0)
  {
    hide HashInt;
    var h := HashInt(id);
    var t, hd := table[h := [id] + table[h]], heads + ClusterFill<Ref>(id, 0);
    forall b: nat ensures b in hd <==> ClusterOfBlock(b) in t[HashInt(ClusterOfBlock(b))] {
      assert b in ClusterFill<Ref>(id, 0) <==> ClusterOfBlock(b) == id;
      assert b in heads <==> ClusterOfBlock(b) in table[HashInt(ClusterOfBlock(b))];
    }
  }

  lemma NewClusterChains<V>(heads: map<nat, Ref>, chains: map<nat, seq<Ref>>, entries: map<Ref, Entry<V>>,
                            at: map<nat, Ref>, freeList: seq<Ref>, id: nat)
    requires ChainsOk(heads, chains, entries) && KeysOk(chains, entries, at, freeList)
    requires forall b: nat | ClusterOfBlock(b) == id :: b !in heads
    ensures ChainsOk(heads + ClusterFill<Ref>(id, 0), chains + ClusterFill<seq<Ref>>(id, []), entries)
    ensures KeysOk(chains + ClusterFill<seq<Ref>>(id, []), entries, at, freeList)
  {
    hide IsList, ChainsOk;
    NewClusterLists(heads, chains, entries, id);
    NewClusterBlocks(heads, chains, entries, id);
  }

  lemma NewClusterBlocks<V>(heads: map<nat, Ref>, chains: map<nat, seq<Ref>>, entries: map<Ref, Entry<V>>, id: nat)
    requires ChainsOk(heads, chains, entries)
    ensures heads.Keys == chains.Keys
  {
  }

  lemma NewClusterLists<V>(heads: map<nat, Ref>, chains: map<nat, seq<Ref>>, entries: map<Ref, Entry<V>>, id: nat)
    requires ChainsOk(heads, chains, entries) && forall b: nat | ClusterOfBlock(b) == id :: b !in heads
    ensures ChainsOk(heads + ClusterFill<Ref>(id, 0), chains + ClusterFill<seq<Ref>>(id, []), entries)
  {
  }

  /** Changing values, or entries on no list, leaves all lists alone. */
  lemma ChainsFrame<V>(heads: map<nat, Ref>, chains: map<nat, seq<Ref>>, a: map<Ref, Entry<V>>, b: map<Ref, Entry<V>>)
    requires ChainsOk(heads, chains, a)
    requires forall x, e | x in chains && e in chains[x] :: e in a && e in b && b[e].next == a[e].next
    ensures ChainsOk(heads, chains, b)
  {
    hide IsList;
    forall x | x in heads ensures IsList(heads[x], chains[x], b) { ListFrame(heads[x], chains[x], a, b); }
  }

  lemma StoreKeeps<V>(heads: map<nat, Ref>, chains: map<nat, seq<Ref>>, entries: map<Ref, Entry<V>>, at: map<nat, Ref>,
                      free: Ref, freeList: seq<Ref>, unused: Ref, e: Ref, v: V)
    requires ChainsOk(heads, chains, entries) && FreeOk(free, freeList, unused, entries)
    requires KeysOk(chains, entries, at, freeList)
    requires e in entries && entries[e].key in at && at[entries[e].key] == e
    ensures var n := entries[e := entries[e].(value := v)];
            && ChainsOk(heads, chains, n) && FreeOk(free, freeList, unused, n) && KeysOk(chains, n, at, freeList)
            && ContentsOf(at, n) == ContentsOf(at, entries)[entries[e].key := v]
  {
    hide IsList, KeysOk, ContentsOf;
    var n := entries[e := entries[e].(value := v)];
    ListIn(free, freeList, entries);
    ListFrame(free, freeList, entries, n);
    StoreKeys(chains, entries, at, freeList, e, v);
    ChainsFrame(heads, chains, entries, n);
  }

  lemma StoreKeys<V>(chains: map<nat, seq<Ref>>, entries: map<Ref, Entry<V>>, at: map<nat, Ref>, freeList: seq<Ref>,
                     e: Ref, v: V)
    requires KeysOk(chains, entries, at, freeList) && e in entries && entries[e].key in at && at[entries[e].key] == e
    ensures var n := entries[e := entries[e].(value := v)];
            && KeysOk(chains, n, at, freeList) && ContentsOf(at, n) == ContentsOf(at, entries)[entries[e].key := v]
    ensures forall x, y | x in chains && y in chains[x] :: y in entries
  {
  }

  lemma ListIn<V>(head: Ref, s: seq<Ref>, entries: map<Ref, Entry<V>>)
    requires IsList(head, s, entries)
    ensures forall e | e in s :: e in entries && e != 0
  {
  }

  /** A free entry is taken for a new key and put first in the list of its block. */
  lemma LinkKeeps<V>(heads: map<nat, Ref>, chains: map<nat, seq<Ref>>, entries: map<Ref, Entry<V>>, at: map<nat, Ref>,
                     freeList: seq<Ref>, unused: Ref, e: Ref, rest: seq<Ref>, key: nat, v: V)
    requires ChainsOk(heads, chains, entries) && FreeOk(e, freeList, unused, entries)
    requires KeysOk(chains, entries, at, freeList)
    requires freeList == [e] + rest && key !in at && BlockOf(key) in heads
    ensures e in entries && e !in rest
    ensures var b := BlockOf(key); var n := entries[e := Entry(heads[b], key, v)];
            && ChainsOk(heads[b := e], chains[b := [e] + chains[b]], n) && FreeOk(entries[e].next, rest, unused, n)
            && KeysOk(chains[b := [e] + chains[b]], n, at[key := e], rest)
            && ContentsOf(at[key := e], n) == ContentsOf(at, entries)[key := v]
  {
    hide IsList;
    var b := BlockOf(key);
    var n := entries[e := Entry(heads[b], key, v)];
    ListIn(e, freeList, entries);
    ListTail(e, rest, entries);
    ListFrame(entries[e].next, rest, entries, n);
    forall x | x in chains ensures e !in chains[x] { assert e in freeList; }
    ChainsFrame(heads, chains, entries, n);
    ListPrepend(e, heads[b], chains[b], n);
    LinkKeys(chains, entries, at, freeList, e, rest, key, Entry(heads[b], key, v));
  }

  lemma LinkContents<V>(entries: map<Ref, Entry<V>>, at: map<nat, Ref>, e: Ref, key: nat, r: Entry<V>)
    requires key !in at && (forall k | k in at :: at[k] in entries && at[k] != e)
    ensures ContentsOf(at[key := e], entries[e := r]) == ContentsOf(at, entries)[key := r.value]
  {
  }

  lemma LinkKeys<V>(chains: map<nat, seq<Ref>>, entries: map<Ref, Entry<V>>, at: map<nat, Ref>,
                    freeList: seq<Ref>, e: Ref, rest: seq<Ref>, key: nat, r: Entry<V>)
    requires KeysOk(chains, entries, at, freeList) && freeList == [e] + rest && e !in rest && key !in at
    requires BlockOf(key) in chains && r.key == key
    ensures var b := BlockOf(key); var n := entries[e := r];
            && KeysOk(chains[b := [e] + chains[b]], n, at[key := e], rest)
            && ContentsOf(at[key := e], n) == ContentsOf(at, entries)[key := r.value]
  {
    hide ContentsOf;
    var b := BlockOf(key);
    var c := chains[b := [e] + chains[b]];
    forall x | x in chains ensures e !in chains[x] { assert e in freeList; }
    forall x, y | x in c && y in c[x] ensures y !in rest && (y == e || (x in chains && y in chains[x])) {
      assert y in rest ==> y in freeList;
    }
    forall k | k in at ensures at[k] in entries && at[k] != e {}
    LinkContents(entries, at, e, key, r);
  }

  /** The links after the entry at position `i` of list `s` has been unlinked and put first on the free list. */
  function Relinked<V>(entries: map<Ref, Entry<V>>, s: seq<Ref>, i: nat, free: Ref): map<Ref, Entry<V>>
    requires i < |s| && s[i] in entries && (i > 0 ==> s[i - 1] in entries)
  {
    (if i == 0 then entries else entries[s[i - 1] := entries[s[i - 1]].(next := entries[s[i]].next)])
      [s[i] := entries[s[i]].(next := free)]
  }

  lemma UnlinkKeeps<V>(heads: map<nat, Ref>, chains: map<nat, seq<Ref>>, entries: map<Ref, Entry<V>>, at: map<nat, Ref>,
                       free: Ref, freeList: seq<Ref>, unused: Ref, b: nat, i: nat)
    requires ChainsOk(heads, chains, entries) && FreeOk(free, freeList, unused, entries)
    requires KeysOk(chains, entries, at, freeList)
    requires b in chains && i < |chains[b]| && b in heads && chains[b][i] in entries
    requires (i > 0 ==> chains[b][i - 1] in entries)
    ensures var s := chains[b]; var e := s[i]; var key := entries[e].key; var c := chains[b := s[..i] + s[i + 1..]];
            var n := Relinked(entries, s, i, free);
            && ChainsOk(if i == 0 then heads[b := entries[e].next] else heads, c, n)
            && FreeOk(e, [e] + freeList, unused, n) && KeysOk(c, n, at - {key}, [e] + freeList)
            && ContentsOf(at - {key}, n) == ContentsOf(at, entries) - {key}
  {
    hide IsList, KeysOk, ChainsOk, FreeOk, ContentsOf, Relinked;
    var s := chains[b];
    ListOf(heads, chains, entries, b);
    ListApart(heads[b], s, entries, i);
    RelinkedFields(entries, s, i, free);
    UnlinkFree(chains, entries, at, free, freeList, unused, b, i);
    UnlinkChains(heads, chains, entries, at, free, freeList, b, i);
    UnlinkKeys(chains, entries, at, freeList, b, i, Relinked(entries, s, i, free));
    UnlinkContents(chains, entries, at, freeList, b, s[i], Relinked(entries, s, i, free));
  }

  lemma RelinkedFields<V>(entries: map<Ref, Entry<V>>, s: seq<Ref>, i: nat, free: Ref)
    requires i < |s| && s[i] in entries && (i > 0 ==> s[i - 1] in entries && s[i - 1] != s[i])
    ensures var n := Relinked(entries, s, i, free);
            && n.Keys == entries.Keys
            && (forall e | e in entries :: n[e].key == entries[e].key && n[e].value == entries[e].value)
            && n[s[i]].next == free && (i > 0 ==> n[s[i - 1]].next == entries[s[i]].next)
            && (forall e | e in entries && e != s[i] && (i > 0 ==> e != s[i - 1]) :: n[e].next == entries[e].next)
  {
  }

  lemma UnlinkFree<V>(chains: map<nat, seq<Ref>>, entries: map<Ref, Entry<V>>, at: map<nat, Ref>,
                      free: Ref, freeList: seq<Ref>, unused: Ref, b: nat, i: nat)
    requires FreeOk(free, freeList, unused, entries) && KeysOk(chains, entries, at, freeList)
    requires b in chains && i < |chains[b]| && chains[b][i] in entries && chains[b][i] != 0
    requires i > 0 ==> chains[b][i - 1] in entries && chains[b][i - 1] != chains[b][i]
    ensures FreeOk(chains[b][i], [chains[b][i]] + freeList, unused, Relinked(entries, chains[b], i, free))
  {
    hide IsList, Relinked;
    var s := chains[b];
    var n := Relinked(entries, s, i, free);
    RelinkedFields(entries, s, i, free);
    assert s[i] in s && (i > 0 ==> s[i - 1] in s);
    ListIn(free, freeList, entries);
    ListFrame(free, freeList, entries, n);
    ListPrepend(s[i], free, freeList, n);
  }

  lemma UnlinkChains<V>(heads: map<nat, Ref>, chains: map<nat, seq<Ref>>, entries: map<Ref, Entry<V>>,
                        at: map<nat, Ref>, free: Ref, freeList: seq<Ref>, b: nat, i: nat)
    requires ChainsOk(heads, chains, entries) && KeysOk(chains, entries, at, freeList)
    requires b in heads && b in chains && i < |chains[b]| && chains[b][i] in entries
    requires i > 0 ==> chains[b][i - 1] in entries && chains[b][i - 1] != chains[b][i]
    ensures ChainsOk(if i == 0 then heads[b := entries[chains[b][i]].next] else heads,
                     chains[b := chains[b][..i] + chains[b][i + 1..]], Relinked(entries, chains[b], i, free))
  {
    hide IsList, Relinked, KeysOk;
    var s := chains[b];
    var n := Relinked(entries, s, i, free);
    RelinkedFields(entries, s, i, free);
    ListHead(heads[b], s, entries);
    ListIn(heads[b], s, entries);
    assert s[i] in s && (i > 0 ==> s[i - 1] in s);
    ListUnlink(heads[b], s, i, entries, n);
    UnlinkOthers(heads, chains, entries, at, freeList, b, i, n);
  }

  lemma UnlinkContents<V>(chains: map<nat, seq<Ref>>, entries: map<Ref, Entry<V>>, at: map<nat, Ref>,
                          freeList: seq<Ref>, b: nat, e: Ref, n: map<Ref, Entry<V>>)
    requires KeysOk(chains, entries, at, freeList) && b in chains && e in chains[b] && e in entries
    requires n.Keys == entries.Keys
    requires forall e | e in entries :: n[e].key == entries[e].key && n[e].value == entries[e].value
    ensures ContentsOf(at - {entries[e].key}, n) == ContentsOf(at, entries) - {entries[e].key}
  {
  }

  lemma ListApart<V>(head: Ref, s: seq<Ref>, entries: map<Ref, Entry<V>>, i: nat)
    requires IsList(head, s, entries) && i < |s|
    ensures s[i] !in s[..i] + s[i + 1..] && (i > 0 ==> s[i - 1] != s[i])
  {
  }

  lemma UnlinkOthers<V>(heads: map<nat, Ref>, chains: map<nat, seq<Ref>>, entries: map<Ref, Entry<V>>,
                        at: map<nat, Ref>, freeList: seq<Ref>, b: nat, i: nat, n: map<Ref, Entry<V>>)
    requires ChainsOk(heads, chains, entries) && KeysOk(chains, entries, at, freeList) && b in heads && b in chains
    requires i < |chains[b]|
    requires forall e | e in entries && e !in chains[b] :: e in n && n[e].next == entries[e].next
    ensures forall x | x in heads && x != b :: IsList(heads[x], chains[x], n)
  {
    hide IsList;
    forall x | x in heads && x != b ensures IsList(heads[x], chains[x], n) {
      forall e | e in chains[x] ensures e in entries && e !in chains[b] {}
      ListFrame(heads[x], chains[x], entries, n);
    }
  }

  lemma UnlinkKeys<V>(chains: map<nat, seq<Ref>>, entries: map<Ref, Entry<V>>, at: map<nat, Ref>,
                      freeList: seq<Ref>, b: nat, i: nat, n: map<Ref, Entry<V>>)
    requires KeysOk(chains, entries, at, freeList) && b in chains && i < |chains[b]| && chains[b][i] in entries
    requires chains[b][i] !in chains[b][..i] + chains[b][i + 1..]
    requires n.Keys == entries.Keys
    requires forall e | e in entries :: n[e].key == entries[e].key && n[e].value == entries[e].value
    ensures var s := chains[b]; var e := s[i];
            KeysOk(chains[b := s[..i] + s[i + 1..]], n, at - {entries[e].key}, [e] + freeList)
  {
    var s := chains[b];
    var e := s[i];
    var rest := s[..i] + s[i + 1..];
    assert e in s;
    RestOf(s, i);
    UnlinkMap(chains, entries, at, freeList, b, e, rest, n);
  }

  lemma RestOf(s: seq<Ref>, i: nat)
    requires i < |s| && s[i] !in s[..i] + s[i + 1..]
    ensures forall x :: x in s[..i] + s[i + 1..] <==> x in s && x != s[i]
  {
    var rest := s[..i] + s[i + 1..];
    forall x ensures x in rest <==> x in s && x != s[i] {
      if x in s && x != s[i] {
        var j :| 0 <= j < |s| && s[j] == x;
        assert rest[if j < i then j else j - 1] == x;
      }
    }
  }

  lemma UnlinkMap<V>(chains: map<nat, seq<Ref>>, entries: map<Ref, Entry<V>>, at: map<nat, Ref>,
                     freeList: seq<Ref>, b: nat, e: Ref, rest: seq<Ref>, n: map<Ref, Entry<V>>)
    requires KeysOk(chains, entries, at, freeList) && b in chains && e in chains[b] && e in entries
    requires forall x :: x in rest <==> x in chains[b] && x != e
    requires n.Keys == entries.Keys
    requires forall e | e in entries :: n[e].key == entries[e].key && n[e].value == entries[e].value
    ensures KeysOk(chains[b := rest], n, at - {entries[e].key}, [e] + freeList)
  {
    var key := entries[e].key;
    var c := chains[b := rest];
    forall x, y | x in c && y in c[x] ensures x in chains && y in chains[x] && y != e {}
    forall k | k in at && k != key ensures at[k] != e {}
  }

  lemma NoCluster(table: seq<seq<nat>>, heads: map<nat, Ref>, address: nat)
    requires TableOk(table, heads) && BlockOf(address) !in heads
    ensures |table| == HASH_SIZE && ClusterOf(address) !in table[HashInt(ClusterOf(address))]
  {
    assert ClusterOf(address) == ClusterOfBlock(BlockOf(address));
  }

  ghost predicate Batch<V>(was: map<Ref, Entry<V>>, entries: map<Ref, Entry<V>>, base: Ref) {
    && base >= 1 && (forall e | e in was :: e < base)
    && (forall e: nat :: e in entries <==> e in was || base <= e < base + ALLOC_COUNT)
    && (forall e | e in was :: entries[e] == was[e])
    && (forall e: nat {:trigger entries[e]} | base <= e < base + ALLOC_COUNT ::
          entries[e].next == if e + 1 < base + ALLOC_COUNT then e + 1 else 0)
  }

  lemma BatchKeeps<V>(heads: map<nat, Ref>, chains: map<nat, seq<Ref>>, was: map<Ref, Entry<V>>,
                      entries: map<Ref, Entry<V>>, at: map<nat, Ref>, base: Ref, list: seq<Ref>)
    requires ChainsOk(heads, chains, was) && KeysOk(chains, was, at, []) && Batch(was, entries, base)
    requires |list| == ALLOC_COUNT && forall j | 0 <= j < |list| :: list[j] == base + j
    ensures ChainsOk(heads, chains, entries) && FreeOk(base, list, base + ALLOC_COUNT, entries)
    ensures KeysOk(chains, entries, at, list) && ContentsOf(at, entries) == ContentsOf(at, was)
  {
    hide IsList, ChainsOk;
    BatchList(was, entries, base, list);
    ChainsFrame(heads, chains, was, entries);
    forall b, e | b in chains && e in chains[b] ensures e !in list {
      assert e in was;
    }
  }

  lemma BatchList<V>(was: map<Ref, Entry<V>>, entries: map<Ref, Entry<V>>, base: Ref, list: seq<Ref>)
    requires Batch(was, entries, base) && |list| == ALLOC_COUNT && forall j | 0 <= j < |list| :: list[j] == base + j
    ensures IsList(base, list, entries)
  {
  }

  lemma FreeNone<V>(free: Ref, freeList: seq<Ref>, unused: Ref, entries: map<Ref, Entry<V>>)
    requires FreeOk(free, freeList, unused, entries) && free == 0
    ensures freeList == []
  {
  }

  /** Which clusters exist does not depend on what their lists hold. */
  lemma TableFrame(table: seq<seq<nat>>, heads: map<nat, Ref>, other: map<nat, Ref>)
    requires TableOk(table, heads) && other.Keys == heads.Keys
    ensures TableOk(table, other)
  {
    forall b: nat ensures b in other <==> ClusterOfBlock(b) in table[HashInt(ClusterOfBlock(b))] {
      assert b in heads <==> b in other;
    }
  }

  lemma FreeSplit<V>(free: Ref, freeList: seq<Ref>, unused: Ref, entries: map<Ref, Entry<V>>)
    requires FreeOk(free, freeList, unused, entries) && free != 0
    ensures freeList != [] && freeList == [free] + freeList[1..] && free in entries
  {
  }

  lemma ChainKeys<V>(heads: map<nat, Ref>, chains: map<nat, seq<Ref>>, entries: map<Ref, Entry<V>>)
    requires ChainsOk(heads, chains, entries)
    ensures chains.Keys == heads.Keys
  {
  }

  lemma ListOf<V>(heads: map<nat, Ref>, chains: map<nat, seq<Ref>>, entries: map<Ref, Entry<V>>, b: nat)
    requires ChainsOk(heads, chains, entries) && b in heads
    ensures b in chains && IsList(heads[b], chains[b], entries)
    ensures forall e | e in chains[b] :: e in entries && e != 0
  {
  }

  /** What the search of the list of a key's block tells. */
  lemma SearchMeans<V>(chains: map<nat, seq<Ref>>, entries: map<Ref, Entry<V>>, at: map<nat, Ref>, freeList: seq<Ref>,
                       key: nat, e: Ref)
    requires KeysOk(chains, entries, at, freeList) && BlockOf(key) in chains
    requires e == 0 ==> forall x | x in chains[BlockOf(key)] && x in entries :: entries[x].key != key
    requires e != 0 ==> e in chains[BlockOf(key)] && e in entries && entries[e].key == key
    ensures key in ContentsOf(at, entries) <==> e != 0
    ensures if e != 0 then key in at && at[key] == e && ContentsOf(at, entries)[key] == entries[e].value else key !in at
  {
  }

  lemma SearchNone<V>(heads: map<nat, Ref>, chains: map<nat, seq<Ref>>, entries: map<Ref, Entry<V>>, at: map<nat, Ref>,
                      freeList: seq<Ref>, key: nat)
    requires ChainsOk(heads, chains, entries) && KeysOk(chains, entries, at, freeList) && BlockOf(key) !in heads
    ensures key !in ContentsOf(at, entries)
  {
  }

  class AddressMap<V(0)> {
    // Per hash value, the chain of cluster ids; per block of an existing cluster, its list head.
    var table: seq<seq<nat>>
    var heads: map<nat, Ref>
    var entries: map<Ref, Entry<V>>
    var free: Ref
    // Identities from here on have not been used.
    var unused: Ref

    ghost var chains: map<nat, seq<Ref>>
    ghost var freeList: seq<Ref>
    ghost var at: map<nat, Ref>

    ghost predicate Valid()
      reads this
    {
      && TableOk(table, heads) && ChainsOk(heads, chains, entries)
      && FreeOk(free, freeList, unused, entries) && KeysOk(chains, entries, at, freeList)
    }

    /** The finite map that the structure stands for. */
    ghost function Contents(): map<nat, V>
      reads this
    {
      ContentsOf(at, entries)
    }

    constructor ()
      ensures Valid() && Contents() == map[]
    {
      table := seq(HASH_SIZE, _ => []);
      heads, entries, free, unused := map[], map[], 0, 1;
      chains, freeList, at := map[], [], map[];
    }

    /** Is there a cluster for the address? */
    method FindCluster(address: nat) returns (found: bool)
      requires TableOk(table, heads)
      ensures found <==> BlockOf(address) in heads
    {
      var id := ClusterOf(address);
      assert id == ClusterOfBlock(BlockOf(address));
      var chain := table[HashInt(id)];
      for j := 0 to |chain|
        invariant id !in chain[..j]
      {
        if chain[j] == id {
          return true;
        }
      }
      assert BlockOf(address) in heads ==> id in chain;
      return false;
    }

    /** The entry for a key, or null. */
    method FindMutable(key: nat) returns (e: Ref)
      requires Valid()
      ensures if key in at then e == at[key] && e != 0 else e == 0
      ensures e != 0 ==> e in entries && entries[e].key == key
    {
      hide TableOk, FreeOk, IsList;
      var found := FindCluster(key);
      if found {
        ListOf(heads, chains, entries, BlockOf(key));
        ghost var i;
        var prev;
        e, prev, i := Search(heads[BlockOf(key)], key, entries, chains[BlockOf(key)]);
        return;
      }
      return 0;
    }

    /** Makes sure that there is a cluster for the address; a new one has empty lists. */
    method EnsureCluster(address: nat)
      requires Valid()
      modifies this`table, this`heads, this`chains
      ensures Valid() && BlockOf(address) in heads
    {
      hide TableOk, ChainsOk, KeysOk, FreeOk, HashInt, ClusterFill;
      var found := FindCluster(address);
      if !found {
        var id := ClusterOf(address);
        assert id == ClusterOfBlock(BlockOf(address));
        NoCluster(table, heads, address);
        NewCluster(table, heads, id);
        NewClusterChains(heads, chains, entries, at, freeList, id);
        var h := HashInt(id);
        table := table[h := [id] + table[h]];
        heads := heads + ClusterFill<Ref>(id, 0);
        chains := chains + ClusterFill<seq<Ref>>(id, []);
      }
    }

    /** Adds a batch of new entries to the empty free list. */
    method AllocBatch()
      requires Valid() && free == 0
      modifies this`entries, this`free, this`unused, this`freeList
      ensures Valid() && free != 0
      ensures Contents() == old(Contents())
    {
      hide TableOk, ChainsOk, KeysOk, ContentsOf, IsList;
      ghost var was := entries;
      FreeNone(free, freeList, unused, entries);
      var base := unused;
      var v: V := *;
      var i := 0;
      while i < ALLOC_COUNT
        modifies this`entries
        invariant 0 <= i <= ALLOC_COUNT
        invariant forall e: nat :: e in entries <==> e in was || base <= e < base + i
        invariant forall e | e in was :: entries[e] == was[e]
        invariant forall e: nat | base <= e < base + i ::
                    entries[e].next == if e + 1 < base + ALLOC_COUNT then e + 1 else 0
      {
        entries := entries[base + i := Entry(if i < ALLOC_COUNT - 1 then base + i + 1 else free, 0, v)];
        i := i + 1;
      }
      assert Batch(was, entries, base);
      free, unused := base, base + ALLOC_COUNT;
      freeList := seq(ALLOC_COUNT, (j: nat) => base + j);
      BatchKeeps(heads, chains, was, entries, at, base, freeList);
    }

    /** Overwrites the value of the entry found for a key. */
    method Store(e: Ref, value: V)
      requires Valid() && e in entries && entries[e].key in at && at[entries[e].key] == e
      modifies this`entries
      ensures Valid() && Contents() == old(Contents())[old(entries[e]).key := value]
    {
      hide TableOk, ChainsOk, KeysOk, FreeOk, ContentsOf;
      StoreKeeps(heads, chains, entries, at, free, freeList, unused, e, value);
      entries := entries[e := entries[e].(value := value)];
    }

    /** Associates a value with a key, forgetting any old value. */
    method Insert(key: nat, value: V)
      requires Valid()
      modifies this
      ensures Valid() && Contents() == old(Contents())[key := value]
    {
      hide TableOk, ChainsOk, KeysOk, FreeOk, ContentsOf;
      EnsureCluster(key);
      var b := BlockOf(key);
      var found := FindMutable(key);
      if found != 0 {
        Store(found, value);
        return;
      }
      if free == 0 {
        AllocBatch();
      }
      FreeSplit(free, freeList, unused, entries);
      LinkKeeps(heads, chains, entries, at, freeList, unused, free, freeList[1..], key, value);
      ChainKeys(heads, chains, entries);
      var e := free;
      free := entries[e].next;
      entries := entries[e := Entry(heads[b], key, value)];
      TableFrame(table, heads, heads[b := e]);
      heads := heads[b := e];
      chains, freeList, at := chains[b := [e] + chains[b]], freeList[1..], at[key := e];
    }

    /** Takes the entry `e`, which follows `prev` in the list of block `b`, out of use. */
    method Unlink(b: nat, e: Ref, prev: Ref, ghost i: nat)
      requires Valid() && b in heads && b in chains && i < |chains[b]| && e == chains[b][i] && e in entries
      requires entries[e].key in at
      requires prev == (if i == 0 then 0 else chains[b][i - 1]) && (i > 0 ==> prev in entries && prev != 0 && prev != e)
      modifies this
      ensures Valid() && Contents() == old(Contents()) - {old(entries[e]).key}
    {
      hide TableOk, ChainsOk, KeysOk, FreeOk, IsList, ContentsOf;
      UnlinkKeeps(heads, chains, entries, at, free, freeList, unused, b, i);
      TableFrame(table, heads, heads[b := entries[e].next]);
      ghost var relinked := Relinked(entries, chains[b], i, free);
      ghost var key := entries[e].key;
      if prev == 0 {
        heads := heads[b := entries[e].next];
      } else {
        entries := entries[prev := entries[prev].(next := entries[e].next)];
      }
      entries := entries[e := entries[e].(next := free)];
      assert entries == relinked;
      free := e;
      chains, freeList, at := chains[b := chains[b][..i] + chains[b][i + 1..]], [e] + freeList, at - {key};
    }

    /** Forgets a key, returning the value it had. */
    method FindAndRemove(key: nat) returns (r: Option<V>)
      requires Valid()
      modifies this
      ensures Valid() && Contents() == old(Contents()) - {key}
      ensures r == if key in old(Contents()) then Some(old(Contents())[key]) else None
    {
      hide TableOk, ChainsOk, KeysOk, FreeOk, IsList, ContentsOf;
      r := None;
      var found := FindCluster(key);
      if found {
        var b := BlockOf(key);
        ListOf(heads, chains, entries, b);
        ghost var i;
        var e, prev;
        e, prev, i := Search(heads[b], key, entries, chains[b]);
        SearchMeans(chains, entries, at, freeList, key, e);
        if e != 0 {
          ListApart(heads[b], chains[b], entries, i);
          r := Some(entries[e].value);
          Unlink(b, e, prev, i);
        }
      } else {
        SearchNone(heads, chains, entries, at, freeList, key);
      }
    }

    /** Looks in the list of one block for the range holding `key`; also tells whether a range starts at
        or before it. */
    method ScanBlock(b: nat, key: nat, size: V -> nat) returns (hit: Option<nat>, smaller: bool)
      requires Valid() && b in heads
      ensures hit.Some? ==> BlockOf(hit.value) == b && Holds(Contents(), size, hit.value, key)
      ensures hit.None? ==> forall k | k in Contents() && BlockOf(k) == b :: !Holds(Contents(), size, k, key)
      ensures hit.None? ==> (smaller <==> exists k :: k in Contents() && BlockOf(k) == b && k <= key)
    {
      hide TableOk, FreeOk, ChainsOk, KeysOk, ContentsOf, IsList;
      ListOf(heads, chains, entries, b);
      ghost var s := chains[b];
      ListLinks(heads[b], s, entries);
      BlockKeys(chains, entries, at, freeList, b);
      smaller := false;
      var e := heads[b];
      ghost var i := 0;
      while e != 0
        invariant 0 <= i <= |s| && e == (if i < |s| then s[i] else 0)
        invariant forall j | 0 <= j < i :: !Holds(Contents(), size, entries[s[j]].key, key)
        invariant smaller <==> exists j :: 0 <= j < i && entries[s[j]].key <= key
        decreases |s| - i
      {
        assert e in s;
        var start := entries[e].key;
        if start <= key {
          if start == key || key < start + size(entries[e].value) {
            return Some(start), true;
          }
          smaller := true;
        }
        e, i := entries[e].next, i + 1;
      }
      hit := None;
    }

    /** Searches the blocks of one cluster downwards from the block of `from`. */
    method ScanCluster(from: nat, maxSize: nat, key: nat, size: V -> nat) returns (done: bool, r: Option<nat>, num: nat)
      requires Valid() && Apart(Contents(), size) && BlockOf(from) in heads && Above(Contents(), key, BlockOf(from))
      requires Cursor(from, key, maxSize)
      ensures done ==> Answer(Contents(), size, maxSize, key, r)
      ensures !done ==> num <= from && Cursor(num, key, maxSize) && ClusterOf(num) == ClusterOf(from)
      ensures !done ==> Above(Contents(), key, ClusterOf(num) * CLUSTER_BLOCKS - 1)
    {
      hide TableOk, FreeOk, ChainsOk, KeysOk, ContentsOf, Apart, Above, Answer, Holds, BlockEnd;
      num := from;
      while true
        invariant num <= from && ClusterOf(num) == ClusterOf(from) && Cursor(num, key, maxSize)
        invariant Above(Contents(), key, BlockOf(num))
        decreases num
      {
        var block := BlockOf(num) % CLUSTER_BLOCKS;
        ClusterHeads(table, heads, from, num);
        var hit, smaller := ScanBlock(BlockOf(num), key, size);
        if hit.Some? {
          HitAnswers(Contents(), size, maxSize, key, num, hit.value);
          return true, hit, num;
        }
        if smaller {
          SmallerAnswers(Contents(), size, maxSize, key, num);
          return true, None, num;
        }
        NextBelow(Contents(), key, num);
        if block == 0 {
          assert BlockOf(num) == ClusterOf(num) * CLUSTER_BLOCKS;
          return false, None, num;
        }
        BlockBelow(num, key, maxSize);
        num := BlockOf(num) * BLOCK_SIZE - 1;
        if key - num > maxSize {
          FarAnswers(Contents(), size, maxSize, key, num);
          return true, None, num;
        }
      }
    }

    /** The range that holds `key`, as long as its block ends no more than `maxSize` before `key`. */
    method FindInside(size: V -> nat, maxSize: nat, key: nat) returns (r: Option<nat>)
      requires Valid() && Apart(Contents(), size)
      ensures Answer(Contents(), size, maxSize, key, r)
    {
      hide TableOk, FreeOk, ChainsOk, KeysOk, ContentsOf, Apart, Above, Answer, BlockEnd;
      StartSearch(Contents(), key, maxSize);
      var num: nat := key;
      while true
        invariant Cursor(num, key, maxSize) && Above(Contents(), key, BlockOf(num))
        decreases num
      {
        var found := FindCluster(num);
        if found {
          var done;
          done, r, num := ScanCluster(num, maxSize, key, size);
          if done {
            return;
          }
        } else {
          NoKeysInCluster(table, heads, chains, entries, at, freeList, num, key);
        }
        if num < CLUSTER_SIZE {
          NothingBelow(Contents(), size, maxSize, key, num);
          return None;
        }
        ClusterBelow(num, key, maxSize);
        num := ClusterOf(num) * CLUSTER_SIZE - 1;
        if key - num > maxSize {
          FarAnswers(Contents(), size, maxSize, key, num);
          return None;
        }
      }
    }

    /** The entries on the list of one block, in list order. */
    method IterateBlock(b: nat) returns (out: seq<nat>)
      requires Valid() && b in heads
      ensures Visits(out, KeysInBlock(Contents(), b))
    {
      hide TableOk, FreeOk, ChainsOk, KeysOk, ContentsOf, Visits;
      ListOf(heads, chains, entries, b);
      ghost var s := chains[b];
      out := [];
      var e := heads[b];
      while e != 0
        invariant |out| <= |s| && e == (if |out| < |s| then s[|out|] else 0)
        invariant forall j | 0 <= j < |out| :: out[j] == entries[s[j]].key
        decreases |s| - |out|
      {
        assert e in s;
        out := out + [entries[e].key];
        e := entries[e].next;
      }
      BlockVisits(chains, entries, at, freeList, b, heads[b], out);
    }

    /** The keys in all blocks of one cluster. */
    method IterateCluster(id: nat) returns (out: seq<nat>)
      requires Valid() && id in table[HashInt(id)]
      ensures Visits(out, KeysInCluster(Contents(), id))
    {
      hide FreeOk, ChainsOk, KeysOk, ContentsOf, Visits;
      out := [];
      VisitNone();
      assert (set k | k in Contents() && id * CLUSTER_BLOCKS <= BlockOf(k) < id * CLUSTER_BLOCKS + 0) == {};
      for b := 0 to CLUSTER_BLOCKS
        invariant Visits(out, set k | k in Contents() && id * CLUSTER_BLOCKS <= BlockOf(k) < id * CLUSTER_BLOCKS + b)
      {
        var block := id * CLUSTER_BLOCKS + b;
        assert ClusterOfBlock(block) == id;
        var more := IterateBlock(block);
        ghost var seen := set k | k in Contents() && id * CLUSTER_BLOCKS <= BlockOf(k) < block;
        ghost var here := KeysInBlock(Contents(), block);
        VisitMore(out, seen, more, here);
        out := out + more;
        assert seen + here == set k | k in Contents() && id * CLUSTER_BLOCKS <= BlockOf(k) < block + 1;
      }
      ClusterSpan(id);
      assert (set k | k in Contents() && id * CLUSTER_BLOCKS <= BlockOf(k) < id * CLUSTER_BLOCKS + CLUSTER_BLOCKS)
          == KeysInCluster(Contents(), id);
    }

    /** Every key of the map, once. */
    method Iterate() returns (out: seq<nat>)
      requires Valid()
      ensures Visits(out, Contents().Keys)
    {
      hide FreeOk, ChainsOk, KeysOk, ContentsOf, Visits, HashInt;
      out := [];
      VisitNone();
      ghost var seen: set<nat> := {};
      for h := 0 to HASH_SIZE
        invariant Visits(out, seen) && seen == set k | k in Contents() && HashInt(ClusterOf(k)) < h
      {
        var chain := table[h];
        ghost var before := seen;
        for j := 0 to |chain|
          invariant Visits(out, seen)
          invariant seen == before + set k | k in Contents() && ClusterOf(k) in chain[..j]
        {
          assert chain[j] in table[h];
          var more := IterateCluster(chain[j]);
          ghost var here := KeysInCluster(Contents(), chain[j]);
          VisitMore(out, seen, more, here);
          out := out + more;
          seen := seen + here;
          assert chain[..j + 1] == chain[..j] + [chain[j]];
        }
        HashedKeys(table, heads, chains, entries, at, freeList, h);
        assert chain[..|chain|] == chain;
      }
      assert seen == Contents().Keys;
    }
  }

  /** The range stored at `k` holds `key`: inside it, or at its start, even if it is empty. */
  ghost predicate Holds<V>(c: map<nat, V>, size: V -> nat, k: nat, key: nat) {
    k in c && k <= key && (k == key || key < k + size(c[k]))
  }

  /** The keys of a block are those of the entries on its list. */
  lemma BlockKeys<V>(chains: map<nat, seq<Ref>>, entries: map<Ref, Entry<V>>, at: map<nat, Ref>, freeList: seq<Ref>,
                     b: nat)
    requires KeysOk(chains, entries, at, freeList) && b in chains
    ensures forall e | e in chains[b] ::
              e in entries && BlockOf(entries[e].key) == b && entries[e].key in ContentsOf(at, entries)
                                         && ContentsOf(at, entries)[entries[e].key] == entries[e].value
    ensures forall k | k in ContentsOf(at, entries) && BlockOf(k) == b :: exists i ::
              0 <= i < |chains[b]| && chains[b][i] in entries && entries[chains[b][i]].key == k
  {
  }

  /** Ranges do not overlap. */
  ghost predicate Apart<V>(c: map<nat, V>, size: V -> nat) {
    forall a, b | a in c && b in c && a < b :: a + size(c[a]) <= b
  }

  /** The block of `k` is that of `key`, or ends at most `maxSize` before `key`. */
  predicate Near(k: nat, key: nat, maxSize: nat) {
    BlockOf(k) == BlockOf(key) || key - (BlockOf(k) * BLOCK_SIZE + BLOCK_SIZE - 1) <= maxSize
  }

  /** Exactly the near range that holds `key`, or none if there is none. */
  ghost predicate Answer<V>(c: map<nat, V>, size: V -> nat, maxSize: nat, key: nat, r: Option<nat>) {
    match r
    case Some(k) => Holds(c, size, k, key) && Near(k, key, maxSize)
    case None => forall k | Holds(c, size, k, key) :: !Near(k, key, maxSize)
  }

  /** All ranges that start at or before `key` start in block `b` or below. */
  ghost predicate Above<V>(c: map<nat, V>, key: nat, b: int) {
    forall k | k in c && k <= key :: BlockOf(k) <= b
  }

  /** The search is at `key` itself, or at the last address of a block at most `maxSize` below. */
  predicate Cursor(num: nat, key: nat, maxSize: nat) {
    num == key || (BlockEnd(num, key) && key - num <= maxSize)
  }

  predicate BlockEnd(num: nat, key: nat) {
    num < key && num % BLOCK_SIZE == BLOCK_SIZE - 1 && BlockOf(num) < BlockOf(key)
  }

  lemma StartSearch<V>(c: map<nat, V>, key: nat, maxSize: nat)
    ensures Cursor(key, key, maxSize) && Above(c, key, BlockOf(key))
  {
  }

  lemma HitAnswers<V>(c: map<nat, V>, size: V -> nat, maxSize: nat, key: nat, num: nat, k: nat)
    requires Cursor(num, key, maxSize) && BlockOf(k) == BlockOf(num) && Holds(c, size, k, key)
    ensures Answer(c, size, maxSize, key, Some(k))
  {
  }

  /** A range at or before `key` that does not hold it rules out all ranges before. */
  lemma SmallerAnswers<V>(c: map<nat, V>, size: V -> nat, maxSize: nat, key: nat, num: nat)
    requires Apart(c, size) && Above(c, key, BlockOf(num))
    requires forall k | k in c && BlockOf(k) == BlockOf(num) :: !Holds(c, size, k, key)
    requires exists k :: k in c && BlockOf(k) == BlockOf(num) && k <= key
    ensures Answer(c, size, maxSize, key, None)
  {
    var s :| s in c && BlockOf(s) == BlockOf(num) && s <= key;
    forall k: nat | k in c && k <= key ensures !Holds(c, size, k, key) {
      if k < s {
        assert k + size(c[k]) <= s;
      } else {
        assert BlockOf(k) == BlockOf(num);
      }
    }
  }

  lemma NextBelow<V>(c: map<nat, V>, key: nat, num: nat)
    requires Above(c, key, BlockOf(num)) && !exists k :: k in c && BlockOf(k) == BlockOf(num) && k <= key
    ensures Above(c, key, BlockOf(num) - 1)
  {
  }

  lemma BlockBelow(num: nat, key: nat, maxSize: nat)
    requires Cursor(num, key, maxSize) && BlockOf(num) % CLUSTER_BLOCKS != 0
    ensures var n := BlockOf(num) * BLOCK_SIZE - 1;
            0 <= n < num && BlockEnd(n, key) && BlockOf(n) == BlockOf(num) - 1 && ClusterOf(n) == ClusterOf(num)
  {
  }

  lemma FarAnswers<V>(c: map<nat, V>, size: V -> nat, maxSize: nat, key: nat, num: nat)
    requires BlockEnd(num, key) && key - num > maxSize && Above(c, key, BlockOf(num))
    ensures Answer(c, size, maxSize, key, None)
  {
    forall k: nat | Holds(c, size, k, key) ensures !Near(k, key, maxSize) {
      assert BlockOf(k) <= BlockOf(num);
      assert BlockOf(k) * BLOCK_SIZE + BLOCK_SIZE - 1 <= num;
    }
  }

  lemma NothingBelow<V>(c: map<nat, V>, size: V -> nat, maxSize: nat, key: nat, num: nat)
    requires num < CLUSTER_SIZE && Above(c, key, ClusterOf(num) * CLUSTER_BLOCKS - 1)
    ensures Answer(c, size, maxSize, key, None)
  {
    assert ClusterOf(num) == 0;
  }

  lemma ClusterBelow(num: nat, key: nat, maxSize: nat)
    requires Cursor(num, key, maxSize) && num >= CLUSTER_SIZE
    ensures var n := ClusterOf(num) * CLUSTER_SIZE - 1;
            0 <= n < num && BlockEnd(n, key) && BlockOf(n) == ClusterOf(num) * CLUSTER_BLOCKS - 1
  {
  }

  lemma ClusterHeads(table: seq<seq<nat>>, heads: map<nat, Ref>, a: nat, b: nat)
    requires TableOk(table, heads) && BlockOf(a) in heads && ClusterOf(a) == ClusterOf(b)
    ensures BlockOf(b) in heads
  {
    assert ClusterOf(a) == ClusterOfBlock(BlockOf(a)) && ClusterOf(b) == ClusterOfBlock(BlockOf(b));
  }

  /** A missing cluster has no keys. */
  lemma NoKeysInCluster<V>(table: seq<seq<nat>>, heads: map<nat, Ref>, chains: map<nat, seq<Ref>>,
                           entries: map<Ref, Entry<V>>, at: map<nat, Ref>, freeList: seq<Ref>, num: nat, key: nat)
    requires TableOk(table, heads) && ChainsOk(heads, chains, entries) && KeysOk(chains, entries, at, freeList)
    requires BlockOf(num) !in heads && Above(ContentsOf(at, entries), key, BlockOf(num))
    ensures Above(ContentsOf(at, entries), key, ClusterOf(num) * CLUSTER_BLOCKS - 1)
  {
    hide IsList, TableOk;
    var c := ContentsOf(at, entries);
    forall k | k in c && k <= key ensures BlockOf(k) <= ClusterOf(num) * CLUSTER_BLOCKS - 1 {
      assert BlockOf(k) in heads;
      if ClusterOf(k) == ClusterOf(num) { ClusterHeads(table, heads, k, num); }
      assert BlockOf(k) <= BlockOf(num);
      ClusterOrder(k, num);
    }
  }

  lemma ClusterOrder(k: nat, num: nat)
    requires BlockOf(k) <= BlockOf(num) && ClusterOf(k) != ClusterOf(num)
    ensures BlockOf(k) <= ClusterOf(num) * CLUSTER_BLOCKS - 1
  {
  }

  /** With ranges no longer than `maxSize`, every range that holds `key` is near: the search misses none. */
  lemma ExactWhenBounded<V>(c: map<nat, V>, size: V -> nat, maxSize: nat, key: nat, r: Option<nat>)
    requires Answer(c, size, maxSize, key, r) && forall k | k in c :: size(c[k]) <= maxSize
    ensures r.None? ==> forall k: nat :: !Holds(c, size, k, key)
  {
    if r.None? {
      forall k: nat ensures !Holds(c, size, k, key) {
        assert Holds(c, size, k, key) ==> Near(k, key, maxSize);
      }
    }
  }

  /** At most one range holds an address. */
  lemma OneHolder<V>(c: map<nat, V>, size: V -> nat, key: nat, a: nat, b: nat)
    requires Apart(c, size) && Holds(c, size, a, key) && Holds(c, size, b, key)
    ensures a == b
  {
  }

  /** The sequence runs through exactly the set, visiting each element once. */
  ghost predicate Visits(out: seq<nat>, keys: set<nat>) {
    && (forall k :: k in out <==> k in keys)
    && Distinct(out)
  }

  ghost function KeysInBlock<V>(c: map<nat, V>, b: nat): set<nat> { set k | k in c && BlockOf(k) == b }

  ghost function KeysInCluster<V>(c: map<nat, V>, id: nat): set<nat> { set k | k in c && ClusterOf(k) == id }

  lemma VisitNone()
    ensures Visits([], {})
  {
  }

  lemma VisitMore(a: seq<nat>, s: set<nat>, b: seq<nat>, t: set<nat>)
    requires Visits(a, s) && Visits(b, t) && s !! t
    ensures Visits(a + b, s + t)
  {
    forall i, j | 0 <= i < j < |a + b| ensures (a + b)[i] != (a + b)[j] {
      if i < |a| <= j {
        assert (a + b)[i] in s && (a + b)[j] in t;
      }
    }
  }

  lemma BlockVisits<V>(chains: map<nat, seq<Ref>>, entries: map<Ref, Entry<V>>, at: map<nat, Ref>, freeList: seq<Ref>,
                       b: nat, head: Ref, out: seq<nat>)
    requires KeysOk(chains, entries, at, freeList) && b in chains && IsList(head, chains[b], entries)
    requires |out| == |chains[b]| && forall j | 0 <= j < |out| :: out[j] == entries[chains[b][j]].key
    ensures Visits(out, KeysInBlock(ContentsOf(at, entries), b))
  {
    hide IsList, KeysOk;
    var s := chains[b];
    BlockKeys(chains, entries, at, freeList, b);
    ListLinks(head, s, entries);
    forall i, j | 0 <= i < j < |out| ensures out[i] != out[j] {
      KeysApart(chains, entries, at, freeList, b, s[i], s[j]);
    }
    forall k ensures k in out <==> k in ContentsOf(at, entries) && BlockOf(k) == b {
      if k in ContentsOf(at, entries) && BlockOf(k) == b {
        var i :| 0 <= i < |s| && s[i] in entries && entries[s[i]].key == k;
        assert out[i] == k;
      }
      if k in out {
        var i :| 0 <= i < |out| && out[i] == k;
        assert s[i] in s;
      }
    }
  }

  lemma KeysApart<V>(chains: map<nat, seq<Ref>>, entries: map<Ref, Entry<V>>, at: map<nat, Ref>, freeList: seq<Ref>,
                     b: nat, d: Ref, e: Ref)
    requires KeysOk(chains, entries, at, freeList) && b in chains && d in chains[b] && e in chains[b] && d != e
    ensures d in entries && e in entries && entries[d].key != entries[e].key
  {
  }

  lemma ClusterSpan(id: nat)
    ensures forall k: nat ::
              id * CLUSTER_BLOCKS <= BlockOf(k) < id * CLUSTER_BLOCKS + CLUSTER_BLOCKS <==> ClusterOf(k) == id
  {
  }

  /** The keys whose cluster has hash value `h` are those of the clusters in chain `h`. */
  lemma HashedKeys<V>(table: seq<seq<nat>>, heads: map<nat, Ref>, chains: map<nat, seq<Ref>>,
                      entries: map<Ref, Entry<V>>, at: map<nat, Ref>, freeList: seq<Ref>, h: nat)
    requires TableOk(table, heads) && ChainsOk(heads, chains, entries) && KeysOk(chains, entries, at, freeList)
    requires h < HASH_SIZE
    ensures forall k | k in ContentsOf(at, entries) :: HashInt(ClusterOf(k)) == h <==> ClusterOf(k) in table[h]
  {
    hide IsList, HashInt;
    forall k | k in ContentsOf(at, entries) ensures HashInt(ClusterOf(k)) == h <==> ClusterOf(k) in table[h] {
      assert BlockOf(k) in heads;
      assert ClusterOf(k) == ClusterOfBlock(BlockOf(k));
    }
  }
}
