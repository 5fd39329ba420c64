/** Write batches as log records, their entries, and memtables (db/write_batch.cc,
    db/memtable.cc). */
module History {
  import opened Format

  datatype Op = Put(user: UserKey, value: Bytes) | Delete(user: UserKey)

  /** A log record: a write batch with its starting sequence number. */
  datatype Record = Record(first: nat, ops: seq<Op>)

  /** MemTableInserter: the i-th operation gets sequence number first + i. */
  function EntryOf(op: Op, sequence: nat): Entry {
    match op
    case Put(u, v) => Entry(InternalKey(u, sequence, Value), v)
    case Delete(u) => Entry(InternalKey(u, sequence, Deletion), [])
  }

  function Numbered(ops: seq<Op>, first: nat): seq<Entry> {
    if ops == [] then [] else Numbered(ops[..|ops| - 1], first) + [EntryOf(ops[|ops| - 1], first + |ops| - 1)]
  }

  function EntriesOf(r: Record): seq<Entry> {
    Numbered(r.ops, r.first)
  }

  /** All operations of the records, in commit order. */
  function Flat(rs: seq<Record>): seq<Entry> {
    if rs == [] then [] else Flat(rs[..|rs| - 1]) + EntriesOf(rs[|rs| - 1])
  }

  lemma AppendEnds(a: seq<Record>, b: seq<Record>)
    requires b != []
    ensures (a + b)[..|a + b| - 1] == a + b[..|b| - 1] && (a + b)[|a + b| - 1] == b[|b| - 1]
  {
  }

  lemma {:induction false} FlatAppend(a: seq<Record>, b: seq<Record>)
    ensures Flat(a + b) == Flat(a) + Flat(b)
    decreases |b|
  {
    if b == [] {
      assert a + b == a;
    } else {
      var b', es := b[..|b| - 1], EntriesOf(b[|b| - 1]);
      FlatAppend(a, b');
      AppendEnds(a, b);
      assert Flat(a + b) == Flat(a + b') + es;
      assert Flat(b) == Flat(b') + es;
    }
  }

  lemma FlatSplit(rs: seq<Record>, i: nat)
    requires i <= |rs|
    ensures Flat(rs) == Flat(rs[..i]) + Flat(rs[i..])
  {
    var a, b := rs[..i], rs[i..];
    assert rs == a + b;
    FlatAppend(a, b);
  }

  lemma FlatOne(r: Record)
    ensures Flat([r]) == EntriesOf(r)
  {
    assert [r][..0] == [];
  }

  ghost predicate Bounded(es: seq<Entry>, s: nat) {
    forall e :: e in es ==> e.key.sequence <= s
  }

  /** Everything in a comes before everything in b. */
  ghost predicate Earlier(a: seq<Entry>, b: seq<Entry>) {
    forall x, y :: x in a && y in b ==> x.key.sequence < y.key.sequence
  }

  lemma IncreasingSplit(a: seq<Entry>, b: seq<Entry>)
    ensures Increasing(a + b) <==> Increasing(a) && Increasing(b) && Earlier(a, b)
  {
    var c := a + b;
    if Increasing(c) {
      forall i, j | 0 <= i < j < |a| ensures a[i].key.sequence < a[j].key.sequence {
        assert c[i] == a[i] && c[j] == a[j];
      }
      forall i, j | 0 <= i < j < |b| ensures b[i].key.sequence < b[j].key.sequence {
        assert c[|a| + i] == b[i] && c[|a| + j] == b[j];
      }
      forall x, y | x in a && y in b ensures x.key.sequence < y.key.sequence {
        var i :| 0 <= i < |a| && a[i] == x;
        var j :| 0 <= j < |b| && b[j] == y;
        assert c[i] == x && c[|a| + j] == y;
      }
    }
  }

  lemma {:induction false} NumberedIncreasing(ops: seq<Op>, first: nat)
    ensures Increasing(Numbered(ops, first))
    ensures forall e :: e in Numbered(ops, first) ==> first <= e.key.sequence < first + |ops|
  {
    if ops != [] {
      NumberedIncreasing(ops[..|ops| - 1], first);
      IncreasingSplit(Numbered(ops[..|ops| - 1], first), [EntryOf(ops[|ops| - 1], first + |ops| - 1)]);
    }
  }

  // ---- memtables ----

  /** SkipList::Insert into the memtable, seen as its sorted list. */
  function InsertEntry(es: seq<Entry>, e: Entry): (r: seq<Entry>)
    ensures forall x :: x in r <==> x in es || x == e
    ensures Sorted(es) && (forall x :: x in es ==> Before(x.key, e.key) || Before(e.key, x.key)) ==> Sorted(r)
  {
    if es == [] || Before(e.key, es[0].key) then
      [e] + es
    else
      var t := InsertEntry(es[1..], e);
      assert es == [es[0]] + es[1..];
      assert forall i :: 0 <= i < |t| ==> t[i] in t;
      [es[0]] + t
  }

  /** WriteBatchInternal::InsertInto, entry by entry. */
  function InsertAll(mem: seq<Entry>, es: seq<Entry>): seq<Entry> {
    if es == [] then mem else InsertEntry(InsertAll(mem, es[..|es| - 1]), es[|es| - 1])
  }

  lemma InsertStep(mem: seq<Entry>, ops: seq<Op>, first: nat, i: nat)
    requires i < |ops|
    ensures InsertAll(mem, Numbered(ops[..i + 1], first))
         == InsertEntry(InsertAll(mem, Numbered(ops[..i], first)), EntryOf(ops[i], first + i))
  {
    assert ops[..i + 1][..i] == ops[..i];
    var es, e := Numbered(ops[..i], first), EntryOf(ops[i], first + i);
    assert Numbered(ops[..i + 1], first) == es + [e];
    assert (es + [e])[..|es|] == es;
  }

  /** MemTableInserter: one memtable insertion per operation, numbered in order. */
  method InsertOps(mem: seq<Entry>, ops: seq<Op>, first: nat) returns (mem': seq<Entry>)
    ensures mem' == InsertAll(mem, Numbered(ops, first))
  {
    mem' := mem;
    var sequence: nat := first;
    for i := 0 to |ops|
      invariant sequence == first + i && mem' == InsertAll(mem, Numbered(ops[..i], first))
    {
      InsertStep(mem, ops, first, i);
      mem' := InsertEntry(mem', EntryOf(ops[i], sequence));
      sequence := sequence + 1;
    }
    assert ops[..|ops|] == ops;
  }

  function MemOf(rs: seq<Record>): seq<Entry> {
    if rs == [] then [] else InsertAll(MemOf(rs[..|rs| - 1]), EntriesOf(rs[|rs| - 1]))
  }

  lemma InsertNewest(m: seq<Entry>, e: Entry)
    requires Sorted(m) && forall x :: x in m ==> x.key.sequence < e.key.sequence
    ensures Sorted(InsertEntry(m, e)) && SetOf(InsertEntry(m, e)) == SetOf(m) + {e}
  {
  }

  lemma {:induction false} InsertAllSorted(mem: seq<Entry>, es: seq<Entry>)
    requires Sorted(mem) && Increasing(es) && Earlier(mem, es)
    ensures Sorted(InsertAll(mem, es)) && SetOf(InsertAll(mem, es)) == SetOf(mem) + SetOf(es)
    decreases |es|
  {
    if es != [] {
      var init, last := es[..|es| - 1], es[|es| - 1];
      assert es == init + [last];
      IncreasingSplit(init, [last]);
      InsertAllSorted(mem, init);
      var m := InsertAll(mem, init);
      assert SetOf(es) == SetOf(init) + {last};
      forall x | x in m ensures x.key.sequence < last.key.sequence {
        assert x in SetOf(m);
        assert last in [last];
      }
      InsertNewest(m, last);
    }
  }

  lemma {:induction false} MemOfSorted(rs: seq<Record>)
    requires Increasing(Flat(rs))
    ensures Sorted(MemOf(rs)) && SetOf(MemOf(rs)) == SetOf(Flat(rs))
    decreases |rs|
  {
    if rs != [] {
      var init, r := rs[..|rs| - 1], rs[|rs| - 1];
      IncreasingSplit(Flat(init), EntriesOf(r));
      MemOfSorted(init);
      forall x, y | x in MemOf(init) && y in EntriesOf(r) ensures x.key.sequence < y.key.sequence {
        assert x in SetOf(MemOf(init));
      }
      InsertAllSorted(MemOf(init), EntriesOf(r));
    }
  }

  lemma MemOfAppend(rs: seq<Record>, r: Record)
    ensures MemOf(rs + [r]) == InsertAll(MemOf(rs), EntriesOf(r))
  {
    assert (rs + [r])[..|rs|] == rs;
  }

  // ---- reading a history ----

  lemma {:induction false} ReplayBounded(h: seq<Entry>, s: nat, t: nat)
    requires Bounded(h, s) && s <= t
    ensures Replay(h, s) == Replay(h, t)
  {
    if h != [] {
      assert h[|h| - 1] in h;
      ReplayBounded(h[..|h| - 1], s, t);
    }
  }

  /** Later operations do not change what an earlier snapshot shows. */
  lemma {:induction false} ReplayExtends(h: seq<Entry>, later: seq<Entry>, s: nat)
    requires forall e :: e in later ==> e.key.sequence > s
    ensures Replay(h + later, s) == Replay(h, s)
    decreases |later|
  {
    if later == [] {
      assert h + later == h;
    } else {
      var init, e := later[..|later| - 1], later[|later| - 1];
      ReplayExtends(h, init, s);
      assert (h + later)[..|h + later| - 1] == h + init;
      assert e in later;
    }
  }

  lemma ReadsBounded(es: set<Entry>, u: UserKey, s: nat, t: nat, r: Outcome)
    requires s <= t && forall e :: e in es ==> e.key.sequence <= s
    ensures Reads(es, u, s, r) <==> Reads(es, u, t, r)
  {
    assert Unseen(es, u, s) <==> Unseen(es, u, t);
    forall e ensures IsTop(es, u, s, e) <==> IsTop(es, u, t, e) {
    }
  }
}
