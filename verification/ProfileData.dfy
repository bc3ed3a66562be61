/** The CPU profile collector: a hash table of traces with small buckets, a buffer
    of evicted entries, and the file the buffer is written to. */
module ProfileData {
  import opened Wrappers
  import opened ProfileFormat

  const MAX_STACK_DEPTH := 64
  const ASSOCIATIVITY := 4
  const BUCKETS := 1024
  const TABLE_SIZE := 4096
  const BUFFER_LENGTH := 0x4_0000
  const WORD_SIZE := 8

  /** One step of the hash, on 64-bit words: rotate by eight bits, then add. */
  function Mix(h: nat, slot: Word): nat {
    ((h % 0x100_0000_0000_0000) * 256 + h / 0x100_0000_0000_0000 + slot * 41) % 0x1_0000_0000_0000_0000
  }

  function Hash(stack: seq<Word>): nat {
    if stack == [] then 0 else Mix(Hash(stack[..|stack| - 1]), stack[|stack| - 1])
  }

  function BucketOf(stack: seq<Word>): nat { Hash(stack) % BUCKETS }

  const EMPTY := Entry(0, [])

  predicate EntryOk(e: Entry) {
    (e.count > 0 <==> e.stack != []) && |e.stack| <= MAX_STACK_DEPTH
  }

  /** Each trace is in its bucket, and nowhere twice. */
  ghost predicate TableOk(t: seq<Entry>) {
    && |t| == TABLE_SIZE
    && (forall i | 0 <= i < |t| :: EntryOk(t[i]) && (t[i].count > 0 ==> BucketOf(t[i].stack) == i / ASSOCIATIVITY))
    && (forall i, j | 0 <= i < j < |t| && t[i].count > 0 :: t[i].stack != t[j].stack)
  }

  ghost predicate LogOk(log: seq<Entry>) {
    forall e | e in log :: e.count > 0 && EntryOk(e)
  }

  /** Nothing is lost and nothing invented: what was added of a trace is what was evicted plus what is in the table. */
  ghost predicate Conserved(t: seq<Entry>, log: seq<Entry>, added: multiset<seq<Word>>) {
    forall s :: added[s] == Tally(log, s) + Tally(t, s)
  }

  function Truncated(stack: seq<Word>): seq<Word> {
    if |stack| > MAX_STACK_DEPTH then stack[..MAX_STACK_DEPTH] else stack
  }

  class ProfileData {
    var enabled: bool
    var out: seq<Word>
    var table: array<Entry>
    var evict: array<Word>
    var numEvicted: nat
    var count: nat
    var evictions: nat
    var totalBytes: nat
    ghost var period: nat
    ghost var log: seq<Entry>
    ghost var added: multiset<seq<Word>>

    /** All words given out so far, whether written or still in the buffer. */
    ghost function Emitted(): seq<Word>
      requires numEvicted <= evict.Length
      reads this, evict
    {
      out + evict[..numEvicted]
    }

    ghost predicate BufferOk()
      reads this, evict
    {
      evict.Length == BUFFER_LENGTH && numEvicted <= BUFFER_LENGTH
    }

    ghost predicate Valid()
      reads this, table, evict
    {
      enabled ==>
        && BufferOk() && Emitted() == Header(period) + EncodeAll(log) && LogOk(log)
        && TableOk(table[..]) && Conserved(table[..], log, added) && count == |added|
    }

    constructor ()
      ensures Valid() && !enabled
    {
      enabled, out, numEvicted, count, evictions, totalBytes := false, [], 0, 0, 0, 0;
      table := new Entry[0];
      evict := new Word[0];
    }

    /** Opens a profile; its first record is the header. */
    method Start(fileOpened: bool, frequency: nat) returns (ok: bool)
      requires Valid() && frequency != 0
      modifies this
      ensures Valid() && ok == (!old(enabled) && fileOpened)
      ensures ok ==> enabled && added == multiset{} && log == [] && period == 1000000 / frequency
      ensures ok ==> fresh(table) && fresh(evict)
      ensures !ok ==> unchanged(this)
    {
      hide TableOk, Conserved, Tally, EncodeAll, LogOk;
      if enabled || !fileOpened {
        return false;
      }
      out, numEvicted, count, evictions, totalBytes := [], 0, 0, 0, 0;
      table := new Entry[TABLE_SIZE](_ => EMPTY);
      evict := new Word[BUFFER_LENGTH];
      Write([0, 3, 0, 1000000 / frequency, 0]);
      period, log, added := 1000000 / frequency, [], multiset{};
      enabled := true;
      EmptyTable(table[..]);
      EmptyLog(period);
      return true;
    }

    /** Puts words at the end of the buffer. */
    method Write(words: seq<Word>)
      requires BufferOk() && numEvicted + |words| <= BUFFER_LENGTH
      modifies this`numEvicted, evict
      ensures BufferOk() && numEvicted == old(numEvicted) + |words| && Emitted() == old(Emitted()) + words
    {
      ghost var before := evict[..numEvicted];
      for i := 0 to |words|
        modifies evict
        invariant evict[..numEvicted + i] == before + words[..i]
      {
        evict[numEvicted + i] := words[i];
        assert evict[..numEvicted + i + 1] == evict[..numEvicted + i] + [words[i]];
      }
      assert words[..|words|] == words;
      numEvicted := numEvicted + |words|;
    }

    method FlushEvicted()
      requires BufferOk()
      modifies this`numEvicted, this`out, this`totalBytes
      ensures BufferOk() && Emitted() == old(Emitted()) && numEvicted == 0
      ensures totalBytes == old(totalBytes) + WORD_SIZE * old(numEvicted)
    {
      if numEvicted > 0 {
        totalBytes := totalBytes + WORD_SIZE * numEvicted;
        out := out + evict[..numEvicted];
      }
      numEvicted := 0;
    }

    /** Moves an entry to the buffer, which is written out first if the entry does not fit. */
    method Evict(e: Entry)
      requires BufferOk() && |e.stack| <= MAX_STACK_DEPTH
      modifies this`numEvicted, this`out, this`totalBytes, evict
      ensures BufferOk() && Emitted() == old(Emitted()) + Encode(e)
    {
      if numEvicted + |e.stack| + 2 > BUFFER_LENGTH {
        FlushEvicted();
      }
      Write([e.count, |e.stack|]);
      Write(e.stack);
    }

    /** The entry of a trace in its bucket, if there is one. */
    method Find(trace: seq<Word>, bucket: nat) returns (found: Option<nat>)
      requires table.Length == TABLE_SIZE && bucket < BUCKETS
      ensures found.Some? ==>
                bucket * ASSOCIATIVITY <= found.value < (bucket + 1) * ASSOCIATIVITY
                && table[found.value].stack == trace
      ensures found.None? ==> forall i | bucket * ASSOCIATIVITY <= i < (bucket + 1) * ASSOCIATIVITY ::
                table[i].stack != trace
    {
      var base := bucket * ASSOCIATIVITY;
      for a := 0 to ASSOCIATIVITY
        invariant forall i | base <= i < base + a :: table[i].stack != trace
      {
        var e := table[base + a];
        if |e.stack| == |trace| {
          var match_ := true;
          var i := 0;
          while i < |trace| && match_
            invariant i <= |trace| && (match_ ==> forall j | 0 <= j < i :: e.stack[j] == trace[j])
            invariant !match_ ==> e.stack != trace
            decreases |trace| - i, match_
          {
            if e.stack[i] != trace[i] {
              match_ := false;
            } else {
              i := i + 1;
            }
          }
          if match_ {
            assert e.stack == trace;
            return Some(base + a);
          }
        }
      }
      return None;
    }

    /** The entry of a bucket with the smallest count. */
    method Smallest(bucket: nat) returns (e: nat)
      requires table.Length == TABLE_SIZE && bucket < BUCKETS
      ensures IsSmallest(table[..], bucket, e)
    {
      var base := bucket * ASSOCIATIVITY;
      e := base;
      for a := 1 to ASSOCIATIVITY
        invariant base <= e < base + a && forall i | base <= i < base + a :: table[e].count <= table[i].count
      {
        if table[base + a].count < table[e].count {
          e := base + a;
        }
      }
    }

    /** Counts a trace.  One that is not in the table takes the place of the least seen trace of its bucket. */
    method Add(stack: seq<Word>)
      requires Valid() && stack != []
      modifies this, table, evict
      ensures Valid() && enabled == old(enabled) && table == old(table) && evict == old(evict) && period == old(period)
      ensures enabled ==> added == old(added) + multiset{Truncated(stack)}
      ensures enabled ==> old(Emitted()) <= Emitted()
      ensures enabled ==> Counted(old(table[..]), old(log), Truncated(stack), table[..], log)
      ensures !enabled ==> unchanged(this) && unchanged(table) && unchanged(evict)
    {
      hide TableOk, Conserved, LogOk, Counted, IsSmallest, EncodeAll, Hash, Replaced;
      if !enabled {
        return;
      }
      var depth := if |stack| > MAX_STACK_DEPTH then MAX_STACK_DEPTH else |stack|;
      var trace := stack[..depth];
      assert trace == Truncated(stack);
      var bucket := HashBucket(trace);
      count := count + 1;
      added := added + multiset{trace};
      TableFacts(table[..], bucket);
      var found := Find(trace, bucket);
      if found.Some? {
        var i := found.value;
        BumpKeeps(table[..], log, old(added), i, trace);
        table[i] := Entry(table[i].count + 1, table[i].stack);
      } else {
        Replace(trace, bucket);
        ReplaceKeeps(old(table[..]), old(log), old(added), trace, table[..], log);
      }
    }

    /** Gives a trace the place of the least seen one of its bucket. */
    method Replace(trace: seq<Word>, bucket: nat)
      requires enabled && BufferOk() && Emitted() == Header(period) + EncodeAll(log) && LogOk(log)
      requires TableOk(table[..]) && bucket == BucketOf(trace) && trace != [] && |trace| <= MAX_STACK_DEPTH
      requires forall i | bucket * ASSOCIATIVITY <= i < (bucket + 1) * ASSOCIATIVITY && i < table.Length ::
                 table[i].stack != trace
      modifies this`numEvicted, this`out, this`totalBytes, this`evictions, this`log, table, evict
      ensures BufferOk() && Emitted() == Header(period) + EncodeAll(log) && old(Emitted()) <= Emitted()
      ensures Counted(old(table[..]), old(log), trace, table[..], log)
      ensures Replaced(old(table[..]), old(log), trace, table[..], log)
    {
      hide TableOk, LogOk, Counted, EncodeAll, Encode, IsSmallest, Replaced;
      TableFacts(table[..], bucket);
      var e := Smallest(bucket);
      SmallestFacts(table[..], bucket, e);
      ReplaceCounts(table[..], log, trace, e);
      if table[e].count > 0 {
        evictions := evictions + 1;
        EncodeAppend(log, table[e]);
        Evict(table[e]);
        log := log + [table[e]];
      }
      table[e] := Entry(1, trace);
    }

    /** Moves the whole table to the file and goes on with an empty one. */
    method FlushTable()
      requires Valid()
      modifies this, table, evict
      ensures Valid() && enabled == old(enabled) && table == old(table) && evict == old(evict) && period == old(period)
      ensures enabled ==> added == old(added) && numEvicted == 0 && out == Header(period) + EncodeAll(log)
      ensures enabled ==> forall s :: Tally(log, s) == added[s] && Tally(table[..], s) == 0
      ensures !enabled ==> unchanged(this) && unchanged(table) && unchanged(evict)
    {
      hide TableOk, Conserved, LogOk, EncodeAll, Encode, Tally;
      if !enabled {
        return;
      }
      TableFacts(table[..], 0);
      for i := 0 to TABLE_SIZE
        invariant enabled && Valid() && table == old(table) && evict == old(evict) && period == old(period)
        invariant added == old(added)
        invariant table.Length == TABLE_SIZE && forall j | 0 <= j < i :: table[j].count == 0
      {
        if table[i].count > 0 {
          ClearOne(i);
        }
      }
      FlushEvicted();
      AllLogged(table[..], log, added);
    }

    /** Moves one entry out of the table. */
    method ClearOne(i: nat)
      requires enabled && Valid() && i < table.Length && table[i].count > 0
      modifies this`numEvicted, this`out, this`totalBytes, this`log, table, evict
      ensures Valid() && table[..] == old(table[..])[i := EMPTY]
    {
      hide TableOk, Conserved, LogOk, EncodeAll, Encode;
      TableFacts(table[..], 0);
      ClearKeeps(table[..], log, added, i);
      EncodeAppend(log, table[i]);
      Evict(table[i]);
      log := log + [table[i]];
      table[i] := EMPTY;
    }

    /** Ends the profile: what has been written is a profile that says of each trace how often it was added. */
    method Stop()
      requires Valid()
      modifies this, table, evict
      ensures !enabled && Valid()
      ensures old(enabled) ==> period == old(period) && forall s :: Tally(log, s) == old(added)[s]
      ensures old(enabled) ==> forall rest :: Decode(out + rest) == Some((Profile(period, log), rest))
      ensures !old(enabled) ==> unchanged(this)
    {
      hide TableOk, Conserved, LogOk, EncodeAll, Encode, Tally, Decode;
      if !enabled {
        return;
      }
      TableFacts(table[..], 0);
      ghost var before := log;
      NoneTallied(before, table[..]);
      for i := 0 to TABLE_SIZE
        invariant enabled && BufferOk() && table == old(table) && evict == old(evict) && period == old(period)
        invariant added == old(added)
        invariant table[..] == old(table[..]) && table.Length == TABLE_SIZE
        invariant Emitted() == Header(period) + EncodeAll(log) && LogOk(log)
        invariant forall s :: Tally(log, s) == Tally(before, s) + Tally(table[..i], s)
      {
        TallyNext(table[..], i, before, log);
        if table[i].count > 0 {
          LogMore(table[..], i, log);
          EncodeAppend(log, table[i]);
          Evict(table[i]);
          log := log + [table[i]];
        }
      }
      assert table[..TABLE_SIZE] == table[..];
      if numEvicted + 3 > BUFFER_LENGTH {
        FlushEvicted();
      }
      Write(TRAILER);
      FlushEvicted();
      Ended(out, period, log);
      Totals(table[..], before, log, added);
      Reset();
    }

    /** Forgets the profile; the file keeps what was written. */
    method Reset()
      modifies this
      ensures !enabled && Valid() && out == old(out) && log == old(log) && period == old(period) && added == old(added)
      ensures count == old(count) && evictions == old(evictions) && totalBytes == old(totalBytes)
    {
      if !enabled {
        return;
      }
      table := new Entry[0];
      evict := new Word[0];
      numEvicted := 0;
      enabled := false;
    }

    /** The hash, word by word. */
    method HashBucket(trace: seq<Word>) returns (bucket: nat)
      ensures bucket == BucketOf(trace)
    {
      var h := 0;
      for i := 0 to |trace|
        invariant h == Hash(trace[..i])
      {
        assert trace[..i + 1][..i] == trace[..i];
        h := Mix(h, trace[i]);
      }
      assert trace[..|trace|] == trace;
      bucket := h % BUCKETS;
    }
  }

  ghost predicate IsSmallest(t: seq<Entry>, bucket: nat, e: nat) {
    && e < |t| && e / ASSOCIATIVITY == bucket
    && forall i | 0 <= i < |t| && i / ASSOCIATIVITY == bucket :: t[e].count <= t[i].count
  }

  /** The effect of counting a trace on the table and on what was evicted. */
  ghost predicate Counted(t: seq<Entry>, log: seq<Entry>, trace: seq<Word>, u: seq<Entry>, newLog: seq<Entry>) {
    || (exists i :: 0 <= i < |t| && t[i].stack == trace && u == t[i := Entry(t[i].count + 1, trace)] && newLog == log)
    || (exists i: nat ::
          && IsSmallest(t, BucketOf(trace), i) && (forall j | 0 <= j < |t| :: t[j].stack != trace)
          && u == t[i := Entry(1, trace)] && newLog == if t[i].count > 0 then log + [t[i]] else log)
  }

  lemma TableFacts(t: seq<Entry>, bucket: nat)
    requires TableOk(t)
    ensures |t| == TABLE_SIZE && forall i | 0 <= i < |t| :: |t[i].stack| <= MAX_STACK_DEPTH
  {
  }

  lemma SmallestFacts(t: seq<Entry>, bucket: nat, e: nat)
    requires IsSmallest(t, bucket, e)
    ensures e < |t|
  {
  }

  lemma BumpKeeps(t: seq<Entry>, log: seq<Entry>, added: multiset<seq<Word>>, i: nat, trace: seq<Word>)
    requires TableOk(t) && Conserved(t, log, added) && i < |t| && t[i].stack == trace && trace != []
    ensures var u := t[i := Entry(t[i].count + 1, trace)];
            TableOk(u) && Conserved(u, log, added + multiset{trace}) && Counted(t, log, trace, u, log)
  {
    hide Tally, BucketOf;
    var e := Entry(t[i].count + 1, trace);
    forall s ensures (added + multiset{trace})[s] == Tally(log, s) + Tally(t[i := e], s) {
      TallyUpdate(t, i, e, s);
    }
  }

  /** The trace that comes in, the entry that goes out. */
  ghost predicate Replaced(t: seq<Entry>, log: seq<Entry>, trace: seq<Word>, u: seq<Entry>, newLog: seq<Entry>) {
    exists i :: 0 <= i < |t| && i / ASSOCIATIVITY == BucketOf(trace) && (forall j | 0 <= j < |t| :: t[j].stack != trace)
                && u == t[i := Entry(1, trace)] && newLog == if t[i].count > 0 then log + [t[i]] else log
  }

  lemma ReplaceCounts(t: seq<Entry>, log: seq<Entry>, trace: seq<Word>, i: nat)
    requires TableOk(t) && trace != [] && IsSmallest(t, BucketOf(trace), i)
    requires var b := BucketOf(trace);
             forall j | b * ASSOCIATIVITY <= j < (b + 1) * ASSOCIATIVITY && j < |t| :: t[j].stack != trace
    ensures var u, newLog := t[i := Entry(1, trace)], if t[i].count > 0 then log + [t[i]] else log;
            Replaced(t, log, trace, u, newLog) && Counted(t, log, trace, u, newLog)
  {
    hide BucketOf;
    forall j | 0 <= j < |t| ensures t[j].stack != trace {
      assert EntryOk(t[j]);
    }
  }

  lemma ReplaceKeeps(t: seq<Entry>, log: seq<Entry>, added: multiset<seq<Word>>, trace: seq<Word>, u: seq<Entry>,
                     newLog: seq<Entry>)
    requires TableOk(t) && LogOk(log) && Conserved(t, log, added) && trace != [] && |trace| <= MAX_STACK_DEPTH
    requires Replaced(t, log, trace, u, newLog)
    ensures TableOk(u) && LogOk(newLog) && Conserved(u, newLog, added + multiset{trace})
  {
    hide Tally, BucketOf;
    var i :| 0 <= i < |t| && i / ASSOCIATIVITY == BucketOf(trace) && (forall j | 0 <= j < |t| :: t[j].stack != trace)
             && u == t[i := Entry(1, trace)] && newLog == if t[i].count > 0 then log + [t[i]] else log;
    forall s ensures (added + multiset{trace})[s] == Tally(newLog, s) + Tally(u, s) {
      TallyUpdate(t, i, Entry(1, trace), s);
      TallyAppend(log, t[i], s);
    }
  }

  lemma ClearKeeps(t: seq<Entry>, log: seq<Entry>, added: multiset<seq<Word>>, i: nat)
    requires TableOk(t) && LogOk(log) && Conserved(t, log, added) && i < |t| && t[i].count > 0
    ensures TableOk(t[i := EMPTY]) && LogOk(log + [t[i]]) && Conserved(t[i := EMPTY], log + [t[i]], added)
  {
    hide Tally, BucketOf;
    forall s ensures added[s] == Tally(log + [t[i]], s) + Tally(t[i := EMPTY], s) {
      TallyUpdate(t, i, EMPTY, s);
      TallyAppend(log, t[i], s);
    }
    assert EntryOk(EMPTY);
  }

  lemma AllLogged(t: seq<Entry>, log: seq<Entry>, added: multiset<seq<Word>>)
    requires Conserved(t, log, added) && forall j | 0 <= j < |t| :: t[j].count == 0
    ensures forall s :: Tally(log, s) == added[s] && Tally(t, s) == 0
  {
    hide Tally;
    forall s ensures Tally(t, s) == 0 { TallyZero(t, s); }
  }

  lemma NoneTallied(log: seq<Entry>, t: seq<Entry>)
    ensures forall s :: Tally(log, s) == Tally(log, s) + Tally(t[..0], s)
  {
  }

  lemma TallyNext(t: seq<Entry>, i: nat, before: seq<Entry>, log: seq<Entry>)
    requires i < |t| && forall s :: Tally(log, s) == Tally(before, s) + Tally(t[..i], s)
    ensures var more := if t[i].count > 0 then log + [t[i]] else log;
            forall s :: Tally(more, s) == Tally(before, s) + Tally(t[..i + 1], s)
  {
    hide Tally;
    var more := if t[i].count > 0 then log + [t[i]] else log;
    assert t[..i + 1] == t[..i] + [t[i]];
    forall s ensures Tally(more, s) == Tally(before, s) + Tally(t[..i + 1], s) {
      TallyAppend(t[..i], t[i], s);
      TallyAppend(log, t[i], s);
    }
  }

  lemma LogMore(t: seq<Entry>, i: nat, log: seq<Entry>)
    requires TableOk(t) && LogOk(log) && i < |t| && t[i].count > 0
    ensures LogOk(log + [t[i]])
  {
  }

  lemma Ended(out: seq<Word>, period: nat, log: seq<Entry>)
    requires out == Header(period) + EncodeAll(log) + TRAILER && LogOk(log)
    ensures forall rest :: Decode(out + rest) == Some((Profile(period, log), rest))
  {
    hide EncodeAll, Decode;
    forall rest ensures Decode(out + rest) == Some((Profile(period, log), rest)) {
      RoundTrip(Profile(period, log), rest);
      assert out + rest == Header(period) + EncodeAll(log) + TRAILER + rest;
    }
  }

  lemma Totals(t: seq<Entry>, before: seq<Entry>, log: seq<Entry>, added: multiset<seq<Word>>)
    requires Conserved(t, before, added) && forall s :: Tally(log, s) == Tally(before, s) + Tally(t, s)
    ensures forall s :: Tally(log, s) == added[s]
  {
  }

  lemma EmptyLog(period: nat)
    ensures LogOk([]) && Header(period) + EncodeAll([]) == Header(period)
  {
  }

  lemma EmptyTable(t: seq<Entry>)
    requires |t| == TABLE_SIZE && forall i | 0 <= i < |t| :: t[i] == EMPTY
    ensures TableOk(t) && Conserved(t, [], multiset{})
  {
    hide Tally;
    forall s ensures Tally(t, s) == 0 && Tally([], s) == 0 {
      TallyZero(t, s);
      TallyZero([], s);
    }
  }
}
