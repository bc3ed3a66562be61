/** The word format of a CPU profile: a header, one record per trace, an end marker. */
module ProfileFormat {
  import opened Sequences
  import opened Wrappers

  type Word = nat

  /** A call trace and how often it was seen. */
  datatype Entry = Entry(count: nat, stack: seq<Word>)

  function Header(period: nat): seq<Word> { [0, 3, 0, period, 0] }

  function Encode(e: Entry): seq<Word> { [e.count, |e.stack|] + e.stack }

  function EncodeAll(records: seq<Entry>): seq<Word> {
    if records == [] then [] else EncodeAll(records[..|records| - 1]) + Encode(records[|records| - 1])
  }

  const TRAILER: seq<Word> := [0, 1, 0]

  /** Reads records up to the end marker; gives them and what follows. */
  function DecodeRecords(w: seq<Word>): Option<(seq<Entry>, seq<Word>)>
    decreases |w|
  {
    if |w| < 2 then None
    else if w[0] == 0 then if TRAILER <= w then Some(([], w[3..])) else None
    else if w[1] + 2 > |w| then None
    else
      match DecodeRecords(w[w[1] + 2..])
      case None => None
      case Some((records, rest)) => Some(([Entry(w[0], w[2..w[1] + 2])] + records, rest))
  }

  datatype Profile = Profile(period: nat, records: seq<Entry>)

  /** Reads a whole profile; gives it and what follows. */
  function Decode(w: seq<Word>): Option<(Profile, seq<Word>)> {
    if |w| < 5 || Header(w[3]) != w[..5] then None
    else
      match DecodeRecords(w[5..])
      case None => None
      case Some((records, rest)) => Some((Profile(w[3], records), rest))
  }

  lemma {:induction false} EncodeFront(e: Entry, records: seq<Entry>)
    ensures EncodeAll([e] + records) == Encode(e) + EncodeAll(records)
  {
    hide EncodeAll, Encode;
    var all := [e] + records;
    EncodeNone();
    if records == [] {
      EncodeAppend([], e);
      assert all == [] + [e];
    } else {
      var front, last := records[..|records| - 1], records[|records| - 1];
      EncodeFront(e, front);
      assert all == ([e] + front) + [last] && records == front + [last];
      EncodeAppend([e] + front, last);
      EncodeAppend(front, last);
      Associate(Encode(e), EncodeAll(front), Encode(last));
    }
  }

  lemma EncodeNone()
    ensures EncodeAll([]) == []
  {
  }

  lemma EncodeAppend(records: seq<Entry>, e: Entry)
    ensures EncodeAll(records + [e]) == EncodeAll(records) + Encode(e)
  {
    assert (records + [e])[..|records|] == records;
  }

  /** What is written is what is read, whatever follows it. */
  lemma {:induction false} RecordsRoundTrip(records: seq<Entry>, rest: seq<Word>)
    requires forall e | e in records :: e.count > 0
    ensures DecodeRecords(EncodeAll(records) + TRAILER + rest) == Some((records, rest))
  {
    var w := EncodeAll(records) + TRAILER + rest;
    if records == [] {
      assert w == TRAILER + rest && w[..3] == TRAILER && w[3..] == rest;
    } else {
      var e, more := records[0], records[1..];
      assert records == [e] + more;
      EncodeFront(e, more);
      RecordsRoundTrip(more, rest);
      SplitRecord(e, EncodeAll(more) + TRAILER + rest);
      assert w == Encode(e) + (EncodeAll(more) + TRAILER + rest);
    }
  }

  lemma SplitRecord(e: Entry, rest: seq<Word>)
    ensures var w := Encode(e) + rest;
            && |w| >= |e.stack| + 2 && w[0] == e.count && w[1] == |e.stack|
            && w[2..|e.stack| + 2] == e.stack && w[|e.stack| + 2..] == rest
  {
  }

  /** What is read can only have been written as it is. */
  lemma {:induction false} RecordsUnique(w: seq<Word>)
    requires DecodeRecords(w).Some?
    ensures var (records, rest) := DecodeRecords(w).value;
            (forall e | e in records :: e.count > 0) && w == EncodeAll(records) + TRAILER + rest
    decreases |w|
  {
    var (records, rest) := DecodeRecords(w).value;
    if w[0] == 0 {
      assert w == TRAILER + w[3..];
    } else {
      var tail := w[w[1] + 2..];
      RecordsUnique(tail);
      var (more, after) := DecodeRecords(tail).value;
      var e := Entry(w[0], w[2..w[1] + 2]);
      FirstRecord(w, e);
      EncodeFront(e, more);
      Joined(w, e, more, after, tail);
    }
  }

  lemma FirstRecord(w: seq<Word>, e: Entry)
    requires |w| >= 2 && w[1] + 2 <= |w| && e == Entry(w[0], w[2..w[1] + 2])
    ensures w == Encode(e) + w[w[1] + 2..]
  {
  }

  lemma Joined(w: seq<Word>, e: Entry, records: seq<Entry>, rest: seq<Word>, tail: seq<Word>)
    requires w == Encode(e) + tail && tail == EncodeAll(records) + TRAILER + rest
    requires EncodeAll([e] + records) == Encode(e) + EncodeAll(records)
    ensures w == EncodeAll([e] + records) + TRAILER + rest
  {
    hide Encode, EncodeAll;
  }

  lemma RoundTrip(p: Profile, rest: seq<Word>)
    requires forall e | e in p.records :: e.count > 0
    ensures Decode(Header(p.period) + EncodeAll(p.records) + TRAILER + rest) == Some((p, rest))
  {
    var body := EncodeAll(p.records) + TRAILER + rest;
    var w := Header(p.period) + EncodeAll(p.records) + TRAILER + rest;
    RecordsRoundTrip(p.records, rest);
    assert w == Header(p.period) + body;
    assert w[..5] == Header(p.period) && w[5..] == body;
  }

  lemma Unique(w: seq<Word>)
    requires Decode(w).Some?
    ensures var (p, rest) := Decode(w).value; w == Header(p.period) + EncodeAll(p.records) + TRAILER + rest
  {
    RecordsUnique(w[5..]);
    assert w == w[..5] + w[5..];
  }

  /** How often the entries have seen a trace. */
  function Weight(e: Entry, trace: seq<Word>): nat {
    if e.stack == trace then e.count else 0
  }

  function Tally(t: seq<Entry>, trace: seq<Word>): nat {
    if t == [] then 0 else Tally(t[..|t| - 1], trace) + Weight(t[|t| - 1], trace)
  }

  lemma TallyAppend(t: seq<Entry>, e: Entry, trace: seq<Word>)
    ensures Tally(t + [e], trace) == Tally(t, trace) + Weight(e, trace)
  {
    assert (t + [e])[..|t|] == t;
  }

  lemma {:induction false} TallyUpdate(t: seq<Entry>, i: nat, e: Entry, trace: seq<Word>)
    requires i < |t|
    ensures Tally(t[i := e], trace) + Weight(t[i], trace) == Tally(t, trace) + Weight(e, trace)
  {
    var n := |t| - 1;
    if i == n {
      assert t[i := e][..n] == t[..n];
    } else {
      TallyUpdate(t[..n], i, e, trace);
      assert t[i := e][..n] == t[..n][i := e];
    }
  }

  lemma {:induction false} TallyZero(t: seq<Entry>, trace: seq<Word>)
    requires forall e | e in t :: e.count == 0
    ensures Tally(t, trace) == 0
  {
    if t != [] {
      TallyZero(t[..|t| - 1], trace);
    }
  }
}
