/** The direct-mapped cache from page number to size class, down to its packed entries. */
module PackedCache {

  const KEY_LIMIT := 0x8_0000_0000
  const VALUE_LIMIT := 0x80
  const SLOTS := 0x1_0000

  // What a cache knows, as a map.

  function Lookup(cache: map<nat, nat>, page: nat): nat { if page in cache then cache[page] else 0 }

  /** Writing one pair may make the cache forget others, as a direct-mapped cache does. */
  ghost predicate LossyPut(c: map<nat, nat>, page: nat, cl: nat, d: map<nat, nat>) {
    && page in d && d[page] == cl
    && forall p | p in d && p != page :: p in c && d[p] == c[p]
  }

  // 64-bit addresses: 35-bit keys stored whole, above a 7-bit value, in 64-bit entries.

  /** Shifting the key over the value and masking it out again are multiplication and division. */
  lemma PackedBits(key: bv64, value: bv64)
    requires key <= 0x7_FFFF_FFFF && value <= 0x7F
    ensures (key << 7) | value == key * 128 + value
    ensures ((key << 7) | value) >> 7 == key && ((key << 7) | value) & 0x7F == value
  {
  }

  function Pack(key: nat, value: nat): nat { key * VALUE_LIMIT + value }

  predicate KeyMatch(entry: nat, key: nat) { entry / VALUE_LIMIT == key }

  function EntryToValue(entry: nat): nat { entry % VALUE_LIMIT }

  // 32-bit addresses: 19-bit keys, of which the slot gives 16 bits and the 16-bit entry the other 3.

  function KeyToUpper32(key: bv32): bv32 { (key >> 9) & 0xFFFF & 0x380 }

  predicate KeyMatch32(entry: bv32, key: bv32) { (KeyToUpper32(key) ^ entry) & 0x380 == 0 }

  /** A partial key, together with the slot it is found in, determines the whole key. */
  lemma PartialKey(key: bv32, value: bv32, other: bv32)
    requires key & 0x7_FFFF == key && other & 0x7_FFFF == other && value & 0x7F == value
    requires key & 0xFFFF == other & 0xFFFF && KeyMatch32(KeyToUpper32(key) | value, other)
    ensures other == key
  {
  }

  lemma PartialEntry(key: bv32, value: bv32)
    requires value & 0x7F == value
    ensures KeyMatch32(KeyToUpper32(key) | value, key) && (KeyToUpper32(key) | value) & 0x7F == value
  {
  }

  class Cache {
    const entries: array<nat>

    ghost predicate Valid() { entries.Length == SLOTS }

    function Slot(key: nat): (i: nat)
      requires Valid()
      ensures i < entries.Length
    {
      key % SLOTS
    }

    predicate Has(key: nat)
      requires Valid()
      reads entries
    {
      KeyMatch(entries[Slot(key)], key)
    }

    function GetOrDefault(key: nat, default: nat): (v: nat)
      requires Valid()
      reads entries
      ensures if Has(key) then v == GetOrDefault(key, 0) else v == default
    {
      var entry := entries[Slot(key)];
      if KeyMatch(entry, key) then EntryToValue(entry) else default
    }

    ghost function View(): (m: map<nat, nat>)
      requires Valid()
      reads entries
      ensures forall key: nat :: (key in m <==> Has(key)) && GetOrDefault(key, 0) == Lookup(m, key)
    {
      var keys := set i | 0 <= i < entries.Length :: entries[i] / VALUE_LIMIT;
      assert forall key: nat | Has(key) :: entries[Slot(key)] / VALUE_LIMIT in keys;
      map key | key in keys && Has(key) :: GetOrDefault(key, 0)
    }

    /** A new cache knows nothing but `value`. */
    constructor (value: nat)
      requires value < VALUE_LIMIT
      ensures Valid() && fresh(entries)
      ensures forall key: nat :: Has(key) <==> key < SLOTS
      ensures forall key: nat :: GetOrDefault(key, value) == value
    {
      entries := new nat[SLOTS];
      new;
      Clear(value);
    }

    /** As if `value` had been put for every key that is its own slot number. */
    method Clear(value: nat)
      requires Valid() && value < VALUE_LIMIT
      modifies entries
      ensures forall key: nat :: Has(key) <==> key < SLOTS
      ensures forall key: nat :: GetOrDefault(key, value) == value
    {
      for i := 0 to SLOTS
        invariant forall j | 0 <= j < i :: entries[j] == Pack(j, value)
      {
        entries[i] := Pack(i, value);
      }
      forall key: nat ensures (Has(key) <==> key < SLOTS) && GetOrDefault(key, value) == value {
        PackDecodes(Slot(key), value);
      }
    }

    /** Stores one pair.  Another key keeps its value or is forgotten, and none is made up. */
    method Put(key: nat, value: nat)
      requires Valid() && key < KEY_LIMIT && value < VALUE_LIMIT
      modifies entries
      ensures Has(key) && forall d: nat :: GetOrDefault(key, d) == value
      ensures forall k: nat | k != key && Has(k) :: old(Has(k)) && GetOrDefault(k, 0) == old(GetOrDefault(k, 0))
      ensures LossyPut(old(View()), key, value, View())
      ensures forall k: nat | k % SLOTS != key % SLOTS :: Has(k) == old(Has(k))
    {
      PackDecodes(key, value);
      entries[Slot(key)] := Pack(key, value);
    }
  }

  /** An entry decodes to exactly the key and value packed into it. */
  lemma PackDecodes(key: nat, value: nat)
    requires value < VALUE_LIMIT
    ensures EntryToValue(Pack(key, value)) == value && forall k: nat :: KeyMatch(Pack(key, value), k) <==> k == key
  {
  }
}
