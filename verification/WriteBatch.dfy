/** WriteBatch and its bytes (db/write_batch.cc): a sequence number, a count, and the
    operations; what MemTableInserter makes of them. */
module WriteBatches {
  import opened Format
  import opened Fixed
  import opened Tables
  import opened Slices
  import opened History

  const HEADER: nat := 12

  datatype Call = PutCall(key: Bytes, value: Bytes) | DeleteCall(key: Bytes)

  // ---- operations as bytes ----

  function Written(c: Call): (b: Bytes)
    ensures b != []
  {
    match c
    case PutCall(key, value) => [1] + Prefixed(key) + Prefixed(value)
    case DeleteCall(key) => [0] + Prefixed(key)
  }

  function Flatten(parts: seq<Bytes>): Bytes {
    if parts == [] then [] else Flatten(parts[..|parts| - 1]) + parts[|parts| - 1]
  }

  lemma PartsEnd(a: seq<Bytes>, b: seq<Bytes>)
    requires b != []
    ensures (a + b)[..|a + b| - 1] == a + b[..|b| - 1] && (a + b)[|a + b| - 1] == b[|b| - 1]
  {
  }

  lemma {:induction false} FlattenAppend(a: seq<Bytes>, b: seq<Bytes>)
    ensures Flatten(a + b) == Flatten(a) + Flatten(b)
    decreases |b|
  {
    if b == [] {
      assert a + b == a;
    } else {
      var init, last := b[..|b| - 1], b[|b| - 1];
      PartsEnd(a, b);
      FlattenAppend(a, init);
      assert Flatten(a + b) == Flatten(a) + Flatten(init) + last;
    }
  }

  function Parts(cs: seq<Call>): seq<Bytes> {
    seq(|cs|, i requires 0 <= i < |cs| => Written(cs[i]))
  }

  function Data(cs: seq<Call>): Bytes {
    Flatten(Parts(cs))
  }

  lemma DataAppend(a: seq<Call>, b: seq<Call>)
    ensures Data(a + b) == Data(a) + Data(b)
  {
    assert Parts(a + b) == Parts(a) + Parts(b);
    FlattenAppend(Parts(a), Parts(b));
  }

  lemma DataOne(c: Call)
    ensures Data([c]) == Written(c)
  {
    var w := Written(c);
    assert Parts([c]) == [w];
    assert [w][..0] == [];
    assert Flatten([w]) == Flatten([]) + w;
  }

  lemma DataCons(cs: seq<Call>, rest: Bytes)
    requires cs != []
    ensures Data(cs) + rest == Written(cs[0]) + (Data(cs[1..]) + rest)
  {
    assert cs == [cs[0]] + cs[1..];
    DataAppend([cs[0]], cs[1..]);
    DataOne(cs[0]);
  }

  function TakeCall(input: Bytes): (t: Taken<Call>)
    requires input != []
    ensures t.Some? ==> |t.value.1| < |input|
  {
    var key := TakeSlice(input[1..]);
    if (input[0] != 0 && input[0] != 1) || key.None? then None
    else if input[0] == 0 then Some((DeleteCall(key.value.0), key.value.1))
    else
      var value := TakeSlice(key.value.1);
      if value.None? then None else Some((PutCall(key.value.0, value.value.0), value.value.1))
  }

  /** The calls Iterate makes on its handler, and whether it got to the end. */
  function Calls(input: Bytes): (seq<Call>, bool)
    decreases |input|
  {
    if input == [] then ([], true)
    else
      var c := TakeCall(input);
      if c.None? then ([], false)
      else
        var (more, ok) := Calls(c.value.1);
        ([c.value.0] + more, ok)
  }

  predicate Fits(c: Call) {
    |c.key| < TWO32 && (c.PutCall? ==> |c.value| < TWO32)
  }

  lemma BehindTag(tag: byte, a: Bytes, rest: Bytes)
    ensures ([tag] + a + rest)[0] == tag && ([tag] + a + rest)[1..] == a + rest
  {
  }

  lemma Joins(a: Bytes, b: Bytes, c: Bytes, d: Bytes)
    ensures a + b + c + d == a + b + (c + d)
  {
  }

  lemma PutBack(key: Bytes, value: Bytes, rest: Bytes)
    requires |key| < TWO32 && |value| < TWO32
    ensures TakeCall(Written(PutCall(key, value)) + rest) == Some((PutCall(key, value), rest))
  {
    var a, b := Prefixed(key), Prefixed(value);
    Joins([1], a, b, rest);
    BehindTag(1, a, b + rest);
    TakeSliceBack(key, b + rest);
    TakeSliceBack(value, rest);
  }

  lemma DeleteBack(key: Bytes, rest: Bytes)
    requires |key| < TWO32
    ensures TakeCall(Written(DeleteCall(key)) + rest) == Some((DeleteCall(key), rest))
  {
    BehindTag(0, Prefixed(key), rest);
    TakeSliceBack(key, rest);
  }

  lemma TakeCallBack(c: Call, rest: Bytes)
    requires Fits(c)
    ensures TakeCall(Written(c) + rest) == Some((c, rest))
  {
    match c
    case PutCall(key, value) => PutBack(key, value, rest);
    case DeleteCall(key) => DeleteBack(key, rest);
  }

  lemma CallsStep(c: Call, rest: Bytes)
    requires Fits(c)
    ensures Calls(Written(c) + rest) == ([c] + Calls(rest).0, Calls(rest).1)
  {
    TakeCallBack(c, rest);
  }

  lemma Front(s: seq<Call>, t: seq<Call>)
    requires s != []
    ensures [s[0]] + (s[1..] + t) == s + t
  {
  }

  /** What was written before malformed bytes is still handed to the handler. */
  lemma {:induction false} CallsBack(cs: seq<Call>, rest: Bytes)
    requires forall c :: c in cs ==> Fits(c)
    ensures Calls(Data(cs) + rest) == (cs + Calls(rest).0, Calls(rest).1)
    decreases |cs|
  {
    if cs == [] {
      assert Data(cs) + rest == rest && cs + Calls(rest).0 == Calls(rest).0;
    } else {
      DataCons(cs, rest);
      CallsBack(cs[1..], rest);
      CallsStep(cs[0], Data(cs[1..]) + rest);
      Front(cs, Calls(rest).0);
    }
  }

  lemma CallsOfData(cs: seq<Call>)
    requires forall c :: c in cs ==> Fits(c)
    ensures Calls(Data(cs)) == (cs, true)
  {
    CallsBack(cs, []);
    assert Data(cs) + [] == Data(cs) && cs + [] == cs;
  }

  /** Anything is handed over exactly when the first operation is well formed, whatever
      is behind it. */
  lemma HandsOver(input: Bytes)
    ensures Calls(input).0 != [] <==> input != [] && TakeCall(input).Some?
  {
  }

  /** An operation, and behind it bytes that are none: the operation is handed over, then
      Iterate fails. */
  lemma HandedBeforeBadTag(c: Call, rest: Bytes)
    requires Fits(c) && IsBadTag(rest)
    ensures Calls(Written(c) + rest) == ([c], false)
  {
    BadTag(rest);
    OneThenNothing(c, rest);
  }

  lemma OneThenNothing(c: Call, rest: Bytes)
    requires Fits(c) && Calls(rest) == ([], false)
    ensures Calls(Written(c) + rest) == ([c], false)
  {
    CallsStep(c, rest);
    assert [c] + [] == [c];
  }

  /** One byte that is neither kTypeDeletion nor kTypeValue. */
  predicate IsBadTag(rest: Bytes) {
    |rest| == 1 && rest[0] > 1
  }

  lemma BadTag(rest: Bytes)
    requires IsBadTag(rest)
    ensures Calls(rest) == ([], false)
  {
  }

  // ---- operations on the store ----

  function OpOf(rank: Bytes -> UserKey, c: Call): Op {
    match c
    case PutCall(key, value) => Put(rank(key), value)
    case DeleteCall(key) => Delete(rank(key))
  }

  function OpsOf(rank: Bytes -> UserKey, cs: seq<Call>): seq<Op> {
    seq(|cs|, i requires 0 <= i < |cs| => OpOf(rank, cs[i]))
  }

  // ---- batches ----

  lemma HeaderStays(rep: Bytes, more: Bytes)
    requires |rep| >= HEADER
    ensures (rep + more)[..8] == rep[..8] && (rep + more)[8..12] == rep[8..12]
    ensures (rep + more)[HEADER..] == rep[HEADER..] + more
  {
  }

  lemma CountUp(m: nat, n: nat)
    ensures (m % TWO32 + n % TWO32) % TWO32 == (m + n) % TWO32 && 1 % TWO32 == 1
  {
  }

  lemma CountIs(n: nat)
    requires n < TWO32
    ensures n % TWO32 == n
  {
  }

  class WriteBatch {
    var rep: Bytes

    ghost predicate Valid()
      reads this
    {
      |rep| >= HEADER
    }

    function Count(): Word
      requires Valid()
      reads this
    {
      Unfixed32(rep[8..12])
    }

    function Sequence(): Long
      requires Valid()
      reads this
    {
      Unfixed64(rep[..8])
    }

    /** The batch holds these operations and no others. */
    ghost predicate Holds(cs: seq<Call>)
      reads this
    {
      Valid() && rep[HEADER..] == Data(cs) && Count() == |cs| % TWO32
    }

    constructor ()
      ensures Holds([]) && Sequence() == 0
    {
      rep := seq(HEADER, i => 0);
    }

    method Clear()
      modifies this
      ensures Holds([]) && Sequence() == 0
    {
      rep := seq(HEADER, i => 0);
    }

    method SetCount(n: Word)
      requires Valid()
      modifies this
      ensures Valid() && Count() == n && Sequence() == old(Sequence()) && rep[HEADER..] == old(rep[HEADER..])
    {
      FixedRoundTrip(n);
      ghost var before := rep;
      rep := rep[..8] + Fixed32(n) + rep[HEADER..];
      assert rep[..8] == before[..8] && rep[8..12] == Fixed32(n);
    }

    method SetSequence(s: Long)
      requires Valid()
      modifies this
      ensures Valid() && Sequence() == s && Count() == old(Count()) && rep[HEADER..] == old(rep[HEADER..])
    {
      Fixed64RoundTrip(s);
      ghost var before := rep;
      rep := Fixed64(s) + rep[8..];
      assert rep[..8] == Fixed64(s) && rep[8..12] == before[8..12] && rep[HEADER..] == before[HEADER..];
    }

    /** One more operation in place of `cs`. */
    method Extend(bytes: Bytes, ghost cs: seq<Call>, ghost c: Call)
      requires Valid() && bytes == Written(c)
      modifies this
      ensures Valid() && Sequence() == old(Sequence()) && (old(Holds(cs)) ==> Holds(cs + [c]))
    {
      SetCount((Count() + 1) % TWO32);
      DataAppend(cs, [c]);
      DataOne(c);
      HeaderStays(rep, bytes);
      CountUp(|cs|, 1);
      rep := rep + bytes;
    }

    method Put(key: Bytes, value: Bytes, ghost cs: seq<Call>)
      requires Valid()
      modifies this
      ensures Valid() && Sequence() == old(Sequence()) && (old(Holds(cs)) ==> Holds(cs + [PutCall(key, value)]))
    {
      Extend([1] + Prefixed(key) + Prefixed(value), cs, PutCall(key, value));
    }

    method Delete(key: Bytes, ghost cs: seq<Call>)
      requires Valid()
      modifies this
      ensures Valid() && Sequence() == old(Sequence()) && (old(Holds(cs)) ==> Holds(cs + [DeleteCall(key)]))
    {
      Extend([0] + Prefixed(key), cs, DeleteCall(key));
    }

    method Append(source: WriteBatch, ghost a: seq<Call>, ghost b: seq<Call>)
      requires Valid() && source.Valid()
      modifies this
      ensures Valid() && Sequence() == old(Sequence()) && (old(Holds(a) && source.Holds(b)) ==> Holds(a + b))
    {
      var more := source.rep[HEADER..];
      SetCount((Count() + source.Count()) % TWO32);
      DataAppend(a, b);
      HeaderStays(rep, more);
      CountUp(|a|, |b|);
      rep := rep + more;
    }

    method Iterate() returns (calls: seq<Call>, ok: bool)
      ensures |rep| < HEADER ==> calls == [] && !ok
      ensures |rep| >= HEADER ==> calls == Calls(rep[HEADER..]).0
      ensures |rep| >= HEADER ==> (ok <==> Calls(rep[HEADER..]).1 && |calls| == Count())
    {
      calls := [];
      if |rep| < HEADER {
        return calls, false;
      }
      var input := rep[HEADER..];
      while input != []
        invariant calls + Calls(input).0 == Calls(rep[HEADER..]).0 && Calls(input).1 == Calls(rep[HEADER..]).1
        decreases |input|
      {
        var c := TakeCall(input);
        if c.None? {
          return calls, false;
        }
        calls := calls + [c.value.0];
        input := c.value.1;
      }
      ok := |calls| == Count();
    }

    /** MemTableInserter: every call made gets the next sequence number. */
    method InsertInto(mem: seq<Entry>, rank: Bytes -> UserKey) returns (mem': seq<Entry>, ok: bool)
      requires Valid()
      ensures mem' == InsertAll(mem, Numbered(OpsOf(rank, Calls(rep[HEADER..]).0), Sequence()))
      ensures ok <==> Calls(rep[HEADER..]).1 && |Calls(rep[HEADER..]).0| == Count()
    {
      var calls;
      calls, ok := Iterate();
      mem' := InsertOps(mem, OpsOf(rank, calls), Sequence());
    }

    /** A batch that holds operations is the log record of those operations. */
    lemma IsRecord(rank: Bytes -> UserKey, cs: seq<Call>)
      requires Holds(cs) && |cs| < TWO32 && forall c :: c in cs ==> Fits(c)
      ensures Calls(rep[HEADER..]) == (cs, true) && Count() == |cs|
      ensures Numbered(OpsOf(rank, Calls(rep[HEADER..]).0), Sequence()) == EntriesOf(Record(Sequence(), OpsOf(rank, cs)))
    {
      CallsOfData(cs);
      CountIs(|cs|);
    }
  }

  /** WriteBatchInternal::SetContents of a log record, and inserting it, as recovery does:
      the entries are those of the batch that was logged. */
  method ReplayRecord(batch: WriteBatch, ghost cs: seq<Call>, mem: seq<Entry>, rank: Bytes -> UserKey)
      returns (mem': seq<Entry>, ok: bool)
    requires batch.Holds(cs) && |cs| < TWO32 && forall c :: c in cs ==> Fits(c)
    ensures ok && mem' == InsertAll(mem, EntriesOf(Record(batch.Sequence(), OpsOf(rank, cs))))
  {
    var again := new WriteBatch();
    again.rep := batch.rep;
    again.IsRecord(rank, cs);
    mem', ok := again.InsertInto(mem, rank);
  }
}
