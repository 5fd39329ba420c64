/** NewIterator (db/db_impl.cc): what a scan of the whole store shows. */
module Scan {
  import opened Format
  import opened Tables
  import opened CompactionWork
  import opened Tree
  import B = Builder
  import opened Cursor
  import opened Merger
  import opened InputIterator
  import opened History
  import opened Database
  import opened DbIter

  /** In every state in order, the pairs a DBIter yields at a snapshot not older than the
      smallest are exactly the map of that snapshot. */
  lemma ScanShowsImage(db: Db, es: seq<Entry>, s: nat, u: UserKey, value: Bytes)
    requires Inv(db) && s >= SmallestSnapshot(db)
    requires Sorted(es) && SetOf(es) == Everything(db)
    ensures (exists i :: 0 <= i < |es| && Live(es, s, i) && es[i].key.user == u && es[i].value == value)
       <==> Answer(Replay(Flat(db.history), s), u) == Found(value)
  {
    StoreAnswers(db);
    PartsSorted(db);
    var r := Answer(Replay(Flat(db.history), s), u);
    assert Reads(SetOf(es), u, s, r);
    if i :| 0 <= i < |es| && Live(es, s, i) && es[i].key.user == u && es[i].value == value {
      LiveIsAnswer(es, s, i);
      assert Reads(SetOf(es), u, s, Found(value));
      ReadsUnique(SetOf(es), u, s, Found(value), r);
    }
    if r == Found(value) {
      var e :| IsTop(SetOf(es), u, s, e) && r == OutcomeOf(e);
      var i :| 0 <= i < |es| && es[i] == e;
      LiveIsAnswer(es, s, i);
    }
  }

  // ---- NewInternalIterator ----

  /** Version::AddIterators: the level-0 files, then the levels below n that hold any. */
  ghost function VersionRuns(v: Version, n: nat): seq<seq<Entry>>
    requires 1 <= n <= |v|
  {
    if n == 1 then EntriesEach(v[0])
    else VersionRuns(v, n - 1) + if v[n - 1] == [] then [] else [Flatten(v[n - 1])]
  }

  ghost predicate StoredBelow(v: Version, n: nat, e: Entry)
    requires n <= |v|
  {
    exists l, f :: 0 <= l < n && f in v[l] && e in f.entries
  }

  ghost predicate InSome(runs: seq<seq<Entry>>, e: Entry) {
    exists i :: 0 <= i < |runs| && e in runs[i]
  }

  lemma InSomeSnoc(runs: seq<seq<Entry>>, run: seq<Entry>, e: Entry)
    ensures InSome(runs + [run], e) <==> InSome(runs, e) || e in run
  {
    var all := runs + [run];
    if InSome(runs, e) {
      var i :| 0 <= i < |runs| && e in runs[i];
      assert e in all[i];
    }
    if e in run { assert e in all[|runs|]; }
  }

  lemma Level0Members(v: Version, e: Entry)
    requires 1 <= |v|
    ensures InSome(EntriesEach(v[0]), e) <==> StoredBelow(v, 1, e)
  {
    var runs := EntriesEach(v[0]);
    if f :| f in v[0] && e in f.entries {
      var i :| 0 <= i < |v[0]| && v[0][i] == f;
      assert e in runs[i];
    }
  }

  lemma {:induction false} VersionMembers(v: Version, n: nat, e: Entry)
    requires 1 <= n <= |v|
    ensures InSome(VersionRuns(v, n), e) <==> StoredBelow(v, n, e)
  {
    if n == 1 {
      Level0Members(v, e);
    } else {
      VersionMembers(v, n - 1, e);
      StoredStep(v, n, e);
      LastRun(v, n);
      if v[n - 1] != [] { InSomeSnoc(VersionRuns(v, n - 1), Flatten(v[n - 1]), e); }
    }
  }

  lemma StoredStep(v: Version, n: nat, e: Entry)
    requires 1 < n <= |v|
    ensures StoredBelow(v, n, e) <==> StoredBelow(v, n - 1, e) || e in Flatten(v[n - 1])
  {
    FlattenMember(v[n - 1], e);
    if f :| f in v[n - 1] && e in f.entries { assert StoredBelow(v, n, e); }
  }

  lemma LastRun(v: Version, n: nat)
    requires 1 < n <= |v|
    ensures v[n - 1] == [] ==> VersionRuns(v, n) == VersionRuns(v, n - 1) && Flatten(v[n - 1]) == []
    ensures v[n - 1] != [] ==> VersionRuns(v, n) == VersionRuns(v, n - 1) + [Flatten(v[n - 1])]
  {
    assert VersionRuns(v, n - 1) + [] == VersionRuns(v, n - 1);
  }

  lemma ApartSnoc(runs: seq<seq<Entry>>, run: seq<Entry>)
    requires RunsApart(runs) && Sorted(run)
    requires forall a, b :: InSome(runs, a) && b in run ==> PairApart(a, b)
    ensures RunsApart(runs + [run])
  {
    forall i | 0 <= i < |runs| ensures AllApart(runs[i], run) {
      forall a, b | a in runs[i] && b in run ensures PairApart(a, b) { assert InSome(runs, a); }
    }
  }

  lemma {:induction false} VersionRunsApart(v: Version, n: nat)
    requires TreeInvariant(v) && OrderedLevels(v) && 1 <= n <= |v|
    ensures RunsApart(VersionRuns(v, n))
  {
    if n == 1 {
      assert B.Ordered(v[0]);
      Level0Apart(v, v[0]);
    } else {
      VersionRunsApart(v, n - 1);
      LastRun(v, n);
      if v[n - 1] != [] { LevelApart(v, n - 1, VersionRuns(v, n - 1), Flatten(v[n - 1])); }
    }
  }

  lemma CrossApart(v: Version, n: nat, a: Entry, b: Entry)
    requires TreeInvariant(v) && 1 <= n < |v| && InSome(VersionRuns(v, n), a) && b in Flatten(v[n])
    ensures PairApart(a, b)
  {
    VersionMembers(v, n, a);
    EntriesApart(v, n, a, b);
  }

  lemma LevelApart(v: Version, n: nat, runs: seq<seq<Entry>>, run: seq<Entry>)
    requires TreeInvariant(v) && 1 <= n < |v| && runs == VersionRuns(v, n) && run == Flatten(v[n]) && RunsApart(runs)
    ensures RunsApart(runs + [run])
  {
    LevelSorted(v, n);
    forall a, b | InSome(runs, a) && b in run ensures PairApart(a, b) { CrossApart(v, n, a, b); }
    ApartSnoc(runs, run);
  }

  lemma LevelSorted(v: Version, l: nat)
    requires TreeInvariant(v) && 1 <= l < |v|
    ensures Sorted(Flatten(v[l]))
  {
    FlattenSorted(v[l]);
  }

  lemma EntriesApart(v: Version, n: nat, a: Entry, b: Entry)
    requires TreeInvariant(v) && n < |v| && StoredBelow(v, n, a) && b in Flatten(v[n])
    ensures PairApart(a, b)
  {
    FlattenMember(v[n], b);
    var l, f :| 0 <= l < n && f in v[l] && a in f.entries;
    var g :| g in v[n] && b in g.entries;
    FilesPairApart(v, l, f, n, g);
  }

  /** The tables, then the immutable memtable, then the memtable. */
  ghost function StoreRuns(mem: seq<Entry>, imm: Option<seq<Entry>>, v: Version): seq<seq<Entry>>
    requires |v| == NUM_LEVELS
  {
    VersionRuns(v, NUM_LEVELS) + (if imm.Some? then [imm.value] else []) + [mem]
  }

  lemma StoreRunsApart(db: Db)
    requires Inv(db)
    ensures RunsApart(StoreRuns(db.mem, db.imm, db.version))
    ensures forall e :: InSome(StoreRuns(db.mem, db.imm, db.version), e) <==> e in Everything(db)
  {
    var runs := VersionRuns(db.version, NUM_LEVELS);
    PartsSorted(db);
    VersionRunsApart(db.version, NUM_LEVELS);
    forall e ensures InSome(runs, e) <==> e in Stored(db.version) { VersionMembers(db.version, NUM_LEVELS, e); }
    var with := runs;
    if db.imm.Some? {
      LaterApart(runs, Stored(db.version), db.imm.value);
      with := runs + [db.imm.value];
      forall e ensures InSome(with, e) <==> e in Stored(db.version) + SetOf(db.imm.value) { InSomeSnoc(runs, db.imm.value, e); }
    }
    LaterApart(with, Stored(db.version) + (if db.imm.Some? then SetOf(db.imm.value) else {}), db.mem);
    forall e ensures InSome(with + [db.mem], e) <==> e in Everything(db) { InSomeSnoc(with, db.mem, e); }
    assert StoreRuns(db.mem, db.imm, db.version) == with + [db.mem];
  }

  lemma LaterApart(runs: seq<seq<Entry>>, all: set<Entry>, run: seq<Entry>)
    requires RunsApart(runs) && Sorted(run) && (forall e :: InSome(runs, e) <==> e in all)
    requires forall x, y :: x in all && y in SetOf(run) ==> x.key.sequence < y.key.sequence
    ensures RunsApart(runs + [run])
  {
    forall a, b | InSome(runs, a) && b in run ensures PairApart(a, b) { assert a in all && b in SetOf(run); }
    ApartSnoc(runs, run);
  }

  method AddIterators(v: Version) returns (runs: seq<seq<Entry>>)
    requires |v| == NUM_LEVELS
    ensures runs == VersionRuns(v, NUM_LEVELS)
  {
    runs := [];
    for i := 0 to |v[0]|
      invariant runs == EntriesEach(v[0])[..i]
    {
      runs := runs + [v[0][i].entries];
    }
    for l := 1 to NUM_LEVELS
      invariant runs == VersionRuns(v, l)
    {
      if v[l] != [] {
        var es := Concat(v[l]);
        runs := runs + [es];
      }
    }
  }

  /** NewIterator at a snapshot, and SeekToFirst and Next to its end: every pair of the
      snapshot's map, once, in key order. */
  method ScanStore(mem: seq<Entry>, imm: Option<seq<Entry>>, version: Version, s: nat, ghost db: Db)
    returns (pairs: seq<(UserKey, Bytes)>)
    requires Inv(db) && s >= SmallestSnapshot(db) && mem == db.mem && imm == db.imm && version == db.version
    ensures forall u, value :: (u, value) in pairs <==> Answer(Replay(Flat(db.history), s), u) == Found(value)
    ensures forall i, j :: 0 <= i < j < |pairs| ==> pairs[i].0 < pairs[j].0
  {
    var es := ReadStore(mem, imm, version, db);
    ghost var at;
    pairs, at := ReadLive(es, s);
    forall u, value ensures (u, value) in pairs <==> Answer(Replay(Flat(db.history), s), u) == Found(value) {
      LivePairs(es, s, at, pairs, u, value);
      ScanShowsImage(db, es, s, u, value);
    }
  }

  method InternalRuns(mem: seq<Entry>, imm: Option<seq<Entry>>, version: Version) returns (runs: seq<seq<Entry>>)
    requires |version| == NUM_LEVELS
    ensures runs == StoreRuns(mem, imm, version)
  {
    runs := AddIterators(version);
    if imm.Some? {
      runs := runs + [imm.value];
    }
    runs := runs + [mem];
  }

  /** The internal iterator, read to its end. */
  method ReadStore(mem: seq<Entry>, imm: Option<seq<Entry>>, version: Version, ghost db: Db) returns (es: seq<Entry>)
    requires Inv(db) && mem == db.mem && imm == db.imm && version == db.version
    ensures Sorted(es) && SetOf(es) == Everything(db)
  {
    var runs := InternalRuns(mem, imm, version);
    StoreRunsApart(db);
    es := ReadMerged(runs);
    MergedIsStored(runs, es, db);
  }

  lemma MergedIsStored(runs: seq<seq<Entry>>, merged: seq<Entry>, db: Db)
    requires Merges(runs, merged) && forall e :: InSome(runs, e) <==> e in Everything(db)
    ensures SetOf(merged) == Everything(db)
  {
    forall e ensures e in merged <==> e in Everything(db) { assert e in merged <==> InSome(runs, e); }
  }

  /** `at` lists the live entries, in order. */
  ghost predicate ListsLive(es: seq<Entry>, s: nat, at: seq<nat>, end: nat) {
    && (forall i :: 0 <= i < |at| ==> at[i] < end && at[i] < |es| && Live(es, s, at[i]))
    && (forall i, j :: 0 <= i < j < |at| ==> at[i] < at[j])
    && (forall k :: 0 <= k < end && k < |es| && Live(es, s, k) ==> k in at)
  }

  ghost predicate PairsAt(es: seq<Entry>, at: seq<nat>, pairs: seq<(UserKey, Bytes)>) {
    && |at| == |pairs|
    && forall i :: 0 <= i < |at| ==> at[i] < |es| && pairs[i] == (es[at[i]].key.user, es[at[i]].value)
  }

  lemma LivePairs(es: seq<Entry>, s: nat, at: seq<nat>, pairs: seq<(UserKey, Bytes)>, u: UserKey, value: Bytes)
    requires ListsLive(es, s, at, |es|) && PairsAt(es, at, pairs)
    ensures (u, value) in pairs
       <==> exists i :: 0 <= i < |es| && Live(es, s, i) && es[i].key.user == u && es[i].value == value
  {
    if (u, value) in pairs {
      var i :| 0 <= i < |pairs| && pairs[i] == (u, value);
      assert Live(es, s, at[i]);
    }
    if k :| 0 <= k < |es| && Live(es, s, k) && es[k].key.user == u && es[k].value == value {
      var i :| 0 <= i < |at| && at[i] == k;
      assert pairs[i] == (u, value);
    }
  }

  lemma OneMoreLive(es: seq<Entry>, s: nat, at: seq<nat>, cur: nat, next: nat)
    requires ListsLive(es, s, at, cur) && cur < |es| && Live(es, s, cur) && FirstLive(es, s, cur + 1, next)
    ensures ListsLive(es, s, at + [cur], next)
  {
    var all := at + [cur];
    assert all[|at|] == cur;
    forall k | 0 <= k < next && k < |es| && Live(es, s, k) ensures k in all {
      if k < cur { assert k in at; }
    }
  }

  method ReadLive(es: seq<Entry>, s: nat) returns (pairs: seq<(UserKey, Bytes)>, ghost at: seq<nat>)
    requires Sorted(es)
    ensures ListsLive(es, s, at, |es|) && PairsAt(es, at, pairs)
    ensures forall i, j :: 0 <= i < j < |pairs| ==> pairs[i].0 < pairs[j].0
  {
    var inner := new RunIterator(es);
    var iter := new DBIter(inner, s);
    iter.SeekToFirst();
    pairs, at := [], [];
    while iter.valid
      invariant fresh(inner) && fresh(iter) && iter.Ok() && iter.iter == inner && inner.es == es && iter.sequence == s
      invariant ListsLive(es, s, at, iter.cur) && PairsAt(es, at, pairs)
      decreases |es| - iter.cur
    {
      pairs := pairs + [iter.Current()];
      ghost var cur := iter.cur;
      iter.Next();
      OneMoreLive(es, s, at, cur, iter.cur);
      at := at + [cur];
    }
    forall i, j | 0 <= i < j < |pairs| ensures pairs[i].0 < pairs[j].0 { LiveInOrder(es, s, at[i], at[j]); }
  }
}
