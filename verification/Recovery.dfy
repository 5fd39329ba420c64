/** A crash, and the recovery of the next DB::Open (db/db_impl.cc Recover and
    RecoverLogFile, db/version_set.cc Recover). */
module Recovery {
  import opened Format
  import opened Tables
  import opened Builder
  import opened Tree
  import opened History
  import opened Database
  import opened Steps

  // ---- the crash ----

  /** The newest log loses its last records: the reader stops at a torn tail. */
  function TornLogs(logs: seq<Log>, lost: nat): seq<Log>
    requires logs != [] && lost <= |logs[|logs| - 1].records|
  {
    var last := logs[|logs| - 1];
    logs[..|logs| - 1] + [Log(last.number, last.records[..|last.records| - lost])]
  }

  predicate CanLose(disk: Disk, lost: nat) {
    disk.logs != [] && lost <= |disk.logs[|disk.logs| - 1].records|
  }

  /** Empty logs and unreferenced tables that interrupted recoveries and compactions
      may have left behind. */
  function CrashedDisk(disk: Disk, lost: nat, strays: seq<Log>, orphans: set<nat>): Disk
    requires CanLose(disk, lost)
  {
    disk.(logs := TornLogs(disk.logs, lost) + strays, tables := disk.tables + orphans)
  }

  ghost predicate StrayLogs(disk: Disk, strays: seq<Log>)
    requires disk.logs != []
  {
    && LogsOrdered(strays)
    && forall l :: l in strays ==> l.records == [] && l.number > disk.logs[|disk.logs| - 1].number
  }

  // ---- replaying the logs ----

  /** Records replayed into one memtable and written as table `number`. */
  datatype Chunk = Chunk(number: nat, records: seq<Record>)

  function ChunksOf(cuts: seq<seq<Record>>, next: nat): seq<Chunk> {
    if cuts == [] then [] else ChunksOf(cuts[..|cuts| - 1], next) + [Chunk(next + |cuts| - 1, cuts[|cuts| - 1])]
  }

  function Join(cuts: seq<seq<Record>>): seq<Record> {
    if cuts == [] then [] else Join(cuts[..|cuts| - 1]) + cuts[|cuts| - 1]
  }

  function Joined(cs: seq<Chunk>): seq<Record> {
    if cs == [] then [] else Joined(cs[..|cs| - 1]) + cs[|cs| - 1].records
  }

  function Max(a: nat, b: nat): nat { if a < b then b else a }

  /** A log with its records cut into the memtables they fill during recovery. */
  datatype CutLog = CutLog(number: nat, cuts: seq<seq<Record>>)

  /** The file number counter after RecoverLogFile for each log in turn: every memtable
      takes a number, and the log's own number is marked used afterwards. */
  function NextAfter(cl: seq<CutLog>, next: nat): nat {
    if cl == [] then next
    else
      var last := cl[|cl| - 1];
      Max(NextAfter(cl[..|cl| - 1], next) + |last.cuts|, last.number + 1)
  }

  function AllChunks(cl: seq<CutLog>, next: nat): seq<Chunk> {
    if cl == [] then []
    else
      var init := cl[..|cl| - 1];
      AllChunks(init, next) + ChunksOf(cl[|cl| - 1].cuts, NextAfter(init, next))
  }

  ghost predicate CutsOf(logs: seq<Log>, cl: seq<CutLog>) {
    |cl| == |logs| && forall i :: 0 <= i < |logs| ==> cl[i].number == logs[i].number && Join(cl[i].cuts) == logs[i].records
  }

  ghost predicate NumberedFrom(cs: seq<Chunk>, low: nat, high: nat) {
    && (forall i :: 0 <= i < |cs| ==> low <= cs[i].number < high)
    && (forall i, j :: 0 <= i < j < |cs| ==> cs[i].number < cs[j].number)
  }

  lemma {:induction false} ChunksOfFacts(cuts: seq<seq<Record>>, next: nat)
    ensures NumberedFrom(ChunksOf(cuts, next), next, next + |cuts|) && Joined(ChunksOf(cuts, next)) == Join(cuts)
  {
    if cuts != [] {
      ChunksOfFacts(cuts[..|cuts| - 1], next);
      var cs := ChunksOf(cuts, next);
      assert cs[..|cs| - 1] == ChunksOf(cuts[..|cuts| - 1], next);
    }
  }

  lemma {:induction false} JoinedAppend(a: seq<Chunk>, b: seq<Chunk>)
    ensures Joined(a + b) == Joined(a) + Joined(b)
    decreases |b|
  {
    if b == [] {
      assert a + b == a;
    } else {
      var b', c := b[..|b| - 1], b[|b| - 1];
      JoinedAppend(a, b');
      assert (a + b)[..|a + b| - 1] == a + b';
    }
  }

  lemma NumberedAppend(a: seq<Chunk>, b: seq<Chunk>, low: nat, mid: nat, high: nat)
    requires NumberedFrom(a, low, mid) && NumberedFrom(b, mid, high) && low <= mid <= high
    ensures NumberedFrom(a + b, low, high)
  {
  }

  lemma NumberedWiden(a: seq<Chunk>, low: nat, mid: nat, high: nat)
    requires NumberedFrom(a, low, mid) && mid <= high
    ensures NumberedFrom(a, low, high)
  {
  }

  lemma {:induction false} AllChunksNumbered(cl: seq<CutLog>, next: nat)
    ensures NextAfter(cl, next) >= next && NumberedFrom(AllChunks(cl, next), next, NextAfter(cl, next))
    ensures forall c :: c in cl ==> c.number < NextAfter(cl, next)
  {
    if cl != [] {
      var init, last := cl[..|cl| - 1], cl[|cl| - 1];
      var n := NextAfter(init, next);
      AllChunksNumbered(init, next);
      ChunksOfFacts(last.cuts, n);
      NumberedAppend(AllChunks(init, next), ChunksOf(last.cuts, n), next, n, n + |last.cuts|);
      NumberedWiden(AllChunks(cl, next), next, n + |last.cuts|, NextAfter(cl, next));
      assert cl == init + [last];
    }
  }

  /** Every record of the logs is replayed, in order. */
  lemma {:induction false} AllChunksRecords(logs: seq<Log>, cl: seq<CutLog>, next: nat)
    requires CutsOf(logs, cl)
    ensures Joined(AllChunks(cl, next)) == ConcatLogs(logs, 0)
    decreases |logs|
  {
    if logs != [] {
      var k := |logs| - 1;
      AllChunksRecords(logs[..k], cl[..k], next);
      var mine := ChunksOf(cl[k].cuts, NextAfter(cl[..k], next));
      ChunksOfFacts(cl[k].cuts, NextAfter(cl[..k], next));
      JoinedAppend(AllChunks(cl[..k], next), mine);
      assert ConcatLogs(logs, 0) == ConcatLogs(logs[..k], 0) + logs[k].records;
    }
  }

  /** WriteBatchInternal::Sequence + Count - 1, the largest over the records. */
  function MaxSequence(rs: seq<Record>): nat {
    if rs == [] then 0
    else
      var r := rs[|rs| - 1];
      Max(MaxSequence(rs[..|rs| - 1]), if r.first + |r.ops| == 0 then 0 else r.first + |r.ops| - 1)
  }

  lemma {:induction false} MaxSequenceBounds(rs: seq<Record>, s: nat)
    requires RecordsBelow(rs, s)
    ensures MaxSequence(rs) <= s && Bounded(Flat(rs), MaxSequence(rs)) && RecordsBelow(rs, MaxSequence(rs))
    decreases |rs|
  {
    if rs != [] {
      var init, r := rs[..|rs| - 1], rs[|rs| - 1];
      assert rs == init + [r] && r in rs;
      MaxSequenceBounds(init, s);
      NumberedIncreasing(r.ops, r.first);
    }
  }

  // ---- the level-0 tables ----

  /** WriteLevel0Table with no base version: level 0, and nothing if there are no entries. */
  function Level0Tables(cs: seq<Chunk>, size: seq<Entry> -> nat): seq<File> {
    if cs == [] then []
    else
      var c := cs[|cs| - 1];
      var es := MemOf(c.records);
      Level0Tables(cs[..|cs| - 1], size) + if es == [] then [] else [TableOf(c.number, es, size(es))]
  }

  function RecoveryEdit(fs: seq<File>): Edit {
    Edit({}, seq(|fs|, i requires 0 <= i < |fs| => (0, fs[i])))
  }

  /** Files in number order, each later than the ones before. */
  ghost predicate Level0Order(fs: seq<File>) {
    && (forall f :: f in fs ==> ValidFile(f))
    && forall i, j :: 0 <= i < j < |fs| ==> fs[i].number < fs[j].number && Earlier(fs[i].entries, fs[j].entries)
  }

  lemma {:induction false} TableHasChunk(cs: seq<Chunk>, size: seq<Entry> -> nat, f: File)
    requires f in Level0Tables(cs, size)
    ensures exists c :: c in cs && c.number == f.number
    decreases |cs|
  {
    var init, c := cs[..|cs| - 1], cs[|cs| - 1];
    assert cs == init + [c];
    if f in Level0Tables(init, size) {
      TableHasChunk(init, size, f);
    }
  }

  lemma FilesSetSnoc(fs: seq<File>, f: File)
    ensures FilesSet(fs + [f]) == FilesSet(fs) + SetOf(f.entries)
  {
    assert f in fs + [f];
    forall e | e in FilesSet(fs) ensures e in FilesSet(fs + [f]) {
      var g :| g in fs && e in g.entries;
      assert g in fs + [f];
    }
  }

  /** The tables hold exactly the replayed entries. */
  lemma {:induction false} TablesHold(cs: seq<Chunk>, size: seq<Entry> -> nat)
    requires Increasing(Flat(Joined(cs)))
    ensures FilesSet(Level0Tables(cs, size)) == SetOf(Flat(Joined(cs)))
    decreases |cs|
  {
    if cs != [] {
      var init, c := cs[..|cs| - 1], cs[|cs| - 1];
      var es := MemOf(c.records);
      FlatAppend(Joined(init), c.records);
      IncreasingSplit(Flat(Joined(init)), Flat(c.records));
      TablesHold(init, size);
      MemOfSorted(c.records);
      assert SetOf(Flat(Joined(cs))) == SetOf(Flat(Joined(init))) + SetOf(es);
      if es == [] {
        assert Level0Tables(cs, size) == Level0Tables(init, size);
      } else {
        FilesSetSnoc(Level0Tables(init, size), TableOf(c.number, es, size(es)));
      }
    }
  }

  lemma OrderSnoc(fs: seq<File>, f: File)
    requires Level0Order(fs) && ValidFile(f)
    requires forall g :: g in fs ==> g.number < f.number
    requires forall x, y :: x in FilesSet(fs) && y in f.entries ==> x.key.sequence < y.key.sequence
    ensures Level0Order(fs + [f])
  {
    forall i | 0 <= i < |fs| ensures fs[i].number < f.number && Earlier(fs[i].entries, f.entries) {
      assert fs[i] in fs;
      forall x, y | x in fs[i].entries && y in f.entries ensures x.key.sequence < y.key.sequence {
        assert x in FilesSet(fs);
      }
    }
  }

  lemma {:induction false} TablesOrdered(cs: seq<Chunk>, size: seq<Entry> -> nat, low: nat, high: nat)
    requires NumberedFrom(cs, low, high) && Increasing(Flat(Joined(cs)))
    ensures Level0Order(Level0Tables(cs, size))
    decreases |cs|
  {
    if cs != [] {
      var init, c := cs[..|cs| - 1], cs[|cs| - 1];
      var fs, es := Level0Tables(init, size), MemOf(c.records);
      FlatAppend(Joined(init), c.records);
      IncreasingSplit(Flat(Joined(init)), Flat(c.records));
      TablesOrdered(init, size, low, high);
      TablesHold(init, size);
      MemOfSorted(c.records);
      if es != [] {
        forall g | g in fs ensures g.number < c.number { TableHasChunk(init, size, g); }
        forall x, y | x in FilesSet(fs) && y in es ensures x.key.sequence < y.key.sequence {
          assert x in SetOf(Flat(Joined(init))) && y in SetOf(es);
        }
        OrderSnoc(fs, TableOf(c.number, es, size(es)));
      }
    }
  }

  // ---- the tree after recovery ----

  ghost predicate AddsAll(v: Version, fs: seq<File>, v': Version) {
    && |v| == |v'| == NUM_LEVELS
    && OrderedLevels(v')
    && forall l, g :: 0 <= l < NUM_LEVELS ==> (g in v'[l] <==> Arrives(v, fs, l, g))
  }

  predicate Arrives(v: Version, fs: seq<File>, l: nat, g: File)
    requires l < |v|
  {
    g in v[l] || (l == 0 && g in fs)
  }

  lemma ArrivesMember(v: Version, fs: seq<File>, v': Version, l: nat, g: File)
    requires AddsAll(v, fs, v') && l < NUM_LEVELS
    ensures g in v'[l] <==> Arrives(v, fs, l, g)
  {
  }

  lemma RecoveryInstalls(v: Version, fs: seq<File>, v': Version)
    requires |v| == NUM_LEVELS && Installs(v, RecoveryEdit(fs), v')
    ensures AddsAll(v, fs, v')
  {
    var edit := RecoveryEdit(fs);
    forall l, g | 0 <= l < NUM_LEVELS
      ensures Ordered(v'[l]) && (g in v'[l] <==> Arrives(v, fs, l, g))
    {
      assert g in AddedAt(edit, l) <==> l == 0 && g in fs by {
        if g in fs {
          var i :| 0 <= i < |fs| && fs[i] == g;
          assert edit.added[i] == (0, g);
        }
      }
      assert Saved(v[l], DeletedAt(edit, l) - Numbers(AddedAt(edit, l)), AddedAt(edit, l), v'[l]);
    }
  }

  ghost predicate AllNew(v: Version, fs: seq<File>) {
    && (forall l, g, f :: 0 <= l < |v| && g in v[l] && f in fs ==> g.number < f.number)
    && forall x, y :: x in Stored(v) && y in FilesSet(fs) ==> x.key.sequence < y.key.sequence
  }

  lemma NewOverOld(v: Version, fs: seq<File>, f: File, m: nat, h: File)
    requires AllNew(v, fs) && f in fs && m < |v| && h in v[m]
    ensures Newer(f.entries, h.entries)
  {
    forall a, b | a in f.entries && b in h.entries ensures a.key.sequence > b.key.sequence {
      assert a in FilesSet(fs) && b in Stored(v);
    }
  }

  lemma ArrivalsNewer(v: Version, fs: seq<File>, l: nat, f: File, m: nat, g: File)
    requires TreeInvariant(v) && Level0Order(fs) && AllNew(v, fs)
    requires l <= m < NUM_LEVELS && (l < m || (l == m == 0 && f.number > g.number))
    requires Arrives(v, fs, l, f) && Arrives(v, fs, m, g)
    ensures Newer(f.entries, g.entries)
  {
    if f in fs && l == 0 {
      if g in v[m] {
        NewOverOld(v, fs, f, m, g);
      } else {
        var i :| 0 <= i < |fs| && fs[i] == f;
        var j :| 0 <= j < |fs| && fs[j] == g;
        assert j < i;
      }
    }
  }

  lemma ArrivalLevels(v: Version, fs: seq<File>, v': Version)
    requires LevelsValid(v) && Level0Order(fs) && AllNew(v, fs) && AddsAll(v, fs, v')
    ensures LevelsValid(v')
  {
    forall l, f | 0 <= l < NUM_LEVELS && f in v'[l] ensures ValidFile(f) {
      ArrivesMember(v, fs, v', l, f);
    }
    forall l, m, f, g | 0 <= l < NUM_LEVELS && 0 <= m < NUM_LEVELS && f in v'[l] && g in v'[m] && f.number == g.number
      ensures l == m && f == g
    {
      ArrivesMember(v, fs, v', l, f);
      ArrivesMember(v, fs, v', m, g);
    }
    forall l | 1 <= l < NUM_LEVELS ensures Disjoint(v'[l]) {
      forall f, g | f in v'[l] && g in v'[l] && f != g ensures PairDisjoint(f, g) {
        ArrivesMember(v, fs, v', l, f);
        ArrivesMember(v, fs, v', l, g);
        DisjointPairs(v[l], f, g);
      }
      PairwiseDisjoint(v'[l]);
    }
  }

  lemma RecoveryKeepsTree(v: Version, fs: seq<File>, v': Version)
    requires TreeInvariant(v) && Level0Order(fs) && AllNew(v, fs) && AddsAll(v, fs, v')
    ensures TreeInvariant(v')
  {
    ArrivalLevels(v, fs, v');
    forall l, m, f, g | 0 <= l <= m < NUM_LEVELS && f in v'[l] && g in v'[m]
                        && (l < m || (l == m == 0 && f.number > g.number))
      ensures Newer(f.entries, g.entries)
    {
      ArrivesMember(v, fs, v', l, f);
      ArrivesMember(v, fs, v', m, g);
      ArrivalsNewer(v, fs, l, f, m, g);
    }
  }

  lemma RecoveryStored(v: Version, fs: seq<File>, v': Version)
    requires AddsAll(v, fs, v')
    ensures Stored(v') == Stored(v) + FilesSet(fs)
  {
    forall e | e in Stored(v') ensures e in Stored(v) + FilesSet(fs) {
      var l, g :| 0 <= l < |v'| && g in v'[l] && e in g.entries;
      ArrivesMember(v, fs, v', l, g);
    }
    forall e | e in FilesSet(fs) ensures e in Stored(v') {
      var f :| f in fs && e in f.entries;
      ArrivesMember(v, fs, v', 0, f);
    }
    forall e | e in Stored(v) ensures e in Stored(v') {
      var l, g :| 0 <= l < |v| && g in v[l] && e in g.entries;
      ArrivesMember(v, fs, v', l, g);
    }
  }

  // ---- recovery of the whole store ----

  /** DB::Open over what the crash left: the manifest's version gets the replayed
      tables, a new log is started, and everything is registered in one edit.
      `archived` are the batches in the manifest's tables; it is only carried along. */
  function Recover(disk: Disk, archived: seq<Record>, cl: seq<CutLog>, v: Version): Db {
    var records := ConcatLogs(disk.logs, disk.logNumber);
    var newLog := NextAfter(cl, disk.nextFile + 1);
    var lastSequence := Max(disk.lastSequence, MaxSequence(records));
    var numbers := set c | c in AllChunks(cl, disk.nextFile + 1) :: c.number;
    var history := archived + records;
    Db([], None, v, lastSequence, newLog, newLog, newLog + 1, [], [],
       Disk(v, newLog, lastSequence, newLog + 1, disk.logs + [Log(newLog, [])], disk.tables + numbers),
       history, |history|, |history|)
  }

  ghost predicate CanRecover(disk: Disk, cl: seq<CutLog>, size: seq<Entry> -> nat, v: Version) {
    && |disk.version| == NUM_LEVELS
    && CutsOf(DropLogs(disk.logs, disk.logNumber), cl)
    && Installs(disk.version, RecoveryEdit(Level0Tables(AllChunks(cl, disk.nextFile + 1), size)), v)
  }

  /** What a crash leaves recoverable: `archived` in the tables, the rest in the logs. */
  ghost predicate DiskHolds(disk: Disk, archived: seq<Record>, floor: nat) {
    var h := archived + ConcatLogs(disk.logs, disk.logNumber);
    && TreeInvariant(disk.version) && OrderedLevels(disk.version)
    && NumbersBelow(disk.version, disk.nextFile) && disk.logNumber < disk.nextFile
    && LogsOrdered(disk.logs)
    && Increasing(Flat(h)) && RecordsBelow(h, MAX_SEQUENCE - 1) && disk.lastSequence < MAX_SEQUENCE
    && Bounded(Flat(archived), disk.lastSequence) && RecordsBelow(archived, disk.lastSequence)
    && Stored(disk.version) <= SetOf(Flat(archived))
    && AnswersFrom(Stored(disk.version), Flat(archived), floor)
    && OnDisk(disk.version, disk.tables)
  }

  lemma {:induction false} ConcatAll(logs: seq<Log>, min: nat)
    requires forall l :: l in logs ==> l.number >= min
    ensures ConcatLogs(logs, 0) == ConcatLogs(logs, min)
  {
    if logs != [] {
      assert logs[|logs| - 1] in logs;
      ConcatAll(logs[..|logs| - 1], min);
    }
  }

  lemma KeptRecords(disk: Disk, cl: seq<CutLog>)
    requires LogsOrdered(disk.logs) && CutsOf(DropLogs(disk.logs, disk.logNumber), cl)
    ensures Joined(AllChunks(cl, disk.nextFile + 1)) == ConcatLogs(disk.logs, disk.logNumber)
    ensures forall l :: l in disk.logs && l.number >= disk.logNumber ==> l.number < NextAfter(cl, disk.nextFile + 1)
  {
    var kept, next := DropLogs(disk.logs, disk.logNumber), disk.nextFile + 1;
    DropLogsFacts(disk.logs, disk.logNumber);
    forall l | l in kept ensures l.number >= disk.logNumber { DropLogsMember(disk.logs, disk.logNumber, l); }
    ConcatAll(kept, disk.logNumber);
    AllChunksRecords(kept, cl, next);
    AllChunksNumbered(cl, next);
    forall l | l in disk.logs && l.number >= disk.logNumber ensures l.number < NextAfter(cl, next) {
      DropLogsMember(disk.logs, disk.logNumber, l);
      var i :| 0 <= i < |kept| && kept[i] == l;
      assert cl[i] in cl;
    }
  }

  lemma RecoverHistory(disk: Disk, archived: seq<Record>, floor: nat, cl: seq<CutLog>, v: Version)
    requires DiskHolds(disk, archived, floor)
    ensures var db := Recover(disk, archived, cl, v);
            HistoryOk(db) && MemOk(db) && SnapshotsOk(db) && db.lastSequence >= disk.lastSequence
  {
    var records := ConcatLogs(disk.logs, disk.logNumber);
    var h := archived + records;
    var s := Max(disk.lastSequence, MaxSequence(records));
    FlatAppend(archived, records);
    assert RecordsBelow(records, MAX_SEQUENCE - 1) by {
      forall r | r in records ensures r in h { }
    }
    MaxSequenceBounds(records, MAX_SEQUENCE - 1);
    assert h[|h|..] == [] && h[|h|..|h|] == [];
    forall r | r in h ensures 1 <= r.first && r.first + |r.ops| <= s + 1 {
      assert r in archived || r in records;
    }
  }

  lemma LowerFloor(es: set<Entry>, h: seq<Entry>, floor: nat, s: nat)
    requires AnswersFrom(es, h, floor) && Bounded(h, s) && es <= SetOf(h)
    ensures AnswersFrom(es, h, s)
  {
    forall u, t | t >= s ensures Reads(es, u, t, Answer(Replay(h, t), u)) {
      var top := Max(t, floor);
      ReplayBounded(h, t, top);
      ReadsBounded(es, u, t, top, Answer(Replay(h, top), u));
    }
  }

  lemma ReplayedTables(disk: Disk, cl: seq<CutLog>, size: seq<Entry> -> nat)
    requires LogsOrdered(disk.logs) && CutsOf(DropLogs(disk.logs, disk.logNumber), cl)
    requires Increasing(Flat(ConcatLogs(disk.logs, disk.logNumber)))
    ensures var cs := AllChunks(cl, disk.nextFile + 1);
            Joined(cs) == ConcatLogs(disk.logs, disk.logNumber)
            && NumberedFrom(cs, disk.nextFile + 1, NextAfter(cl, disk.nextFile + 1))
            && Level0Order(Level0Tables(cs, size)) && FilesSet(Level0Tables(cs, size)) == SetOf(Flat(Joined(cs)))
  {
    var cs := AllChunks(cl, disk.nextFile + 1);
    KeptRecords(disk, cl);
    AllChunksNumbered(cl, disk.nextFile + 1);
    TablesOrdered(cs, size, disk.nextFile + 1, NextAfter(cl, disk.nextFile + 1));
    TablesHold(cs, size);
  }

  lemma HoldsParts(disk: Disk, archived: seq<Record>, floor: nat)
    requires DiskHolds(disk, archived, floor)
    ensures var records := ConcatLogs(disk.logs, disk.logNumber);
            Flat(archived + records) == Flat(archived) + Flat(records)
            && Increasing(Flat(archived) + Flat(records)) && Increasing(Flat(records)) && Earlier(Flat(archived), Flat(records))
  {
    var records := ConcatLogs(disk.logs, disk.logNumber);
    FlatAppend(archived, records);
    IncreasingSplit(Flat(archived), Flat(records));
  }

  lemma RecoverTables(disk: Disk, archived: seq<Record>, floor: nat, cl: seq<CutLog>, size: seq<Entry> -> nat, v: Version)
    requires DiskHolds(disk, archived, floor) && CanRecover(disk, cl, size, v)
    ensures var fs, records := Level0Tables(AllChunks(cl, disk.nextFile + 1), size), ConcatLogs(disk.logs, disk.logNumber);
            Level0Order(fs) && FilesSet(fs) == SetOf(Flat(records)) && AllNew(disk.version, fs) && AddsAll(disk.version, fs, v)
  {
    var cs := AllChunks(cl, disk.nextFile + 1);
    HoldsParts(disk, archived, floor);
    ReplayedTables(disk, cl, size);
    RecoveryInstalls(disk.version, Level0Tables(cs, size), v);
    TablesAreNew(disk, archived, cs, size, NextAfter(cl, disk.nextFile + 1));
  }

  lemma TablesAreNew(disk: Disk, archived: seq<Record>, cs: seq<Chunk>, size: seq<Entry> -> nat, high: nat)
    requires NumbersBelow(disk.version, disk.nextFile) && NumberedFrom(cs, disk.nextFile + 1, high)
    requires Stored(disk.version) <= SetOf(Flat(archived))
    requires FilesSet(Level0Tables(cs, size)) == SetOf(Flat(Joined(cs))) && Earlier(Flat(archived), Flat(Joined(cs)))
    ensures AllNew(disk.version, Level0Tables(cs, size))
  {
    forall l, g, f | 0 <= l < |disk.version| && g in disk.version[l] && f in Level0Tables(cs, size)
      ensures g.number < f.number
    {
      TableHasChunk(cs, size, f);
    }
  }

  lemma RecoverReads(disk: Disk, archived: seq<Record>, floor: nat, cl: seq<CutLog>, size: seq<Entry> -> nat, v: Version)
    requires DiskHolds(disk, archived, floor) && CanRecover(disk, cl, size, v)
    ensures TreeInvariant(v) && ReadsOk(Recover(disk, archived, cl, v))
  {
    var fs := Level0Tables(AllChunks(cl, disk.nextFile + 1), size);
    RecoverTables(disk, archived, floor, cl, size, v);
    RecoveryKeepsTree(disk.version, fs, v);
    RecoveryStored(disk.version, fs, v);
    RecoveredAnswers(disk, archived, floor, cl, v);
  }

  lemma RecoveredAnswers(disk: Disk, archived: seq<Record>, floor: nat, cl: seq<CutLog>, v: Version)
    requires DiskHolds(disk, archived, floor)
    requires Stored(v) == Stored(disk.version) + SetOf(Flat(ConcatLogs(disk.logs, disk.logNumber)))
    ensures ReadsOk(Recover(disk, archived, cl, v))
  {
    var db, records := Recover(disk, archived, cl, v), ConcatLogs(disk.logs, disk.logNumber);
    HoldsParts(disk, archived, floor);
    LowerFloor(Stored(disk.version), Flat(archived), floor, disk.lastSequence);
    ExtendAll(Stored(disk.version), Flat(archived), Flat(records), disk.lastSequence);
    assert db.history[..db.flushed] == archived + records;
  }

  lemma RecoveredNumbers(disk: Disk, cl: seq<CutLog>, size: seq<Entry> -> nat, f: File)
    requires f in Level0Tables(AllChunks(cl, disk.nextFile + 1), size)
    ensures f.number < NextAfter(cl, disk.nextFile + 1)
    ensures f.number in (set c | c in AllChunks(cl, disk.nextFile + 1) :: c.number)
  {
    TableHasChunk(AllChunks(cl, disk.nextFile + 1), size, f);
    AllChunksNumbered(cl, disk.nextFile + 1);
  }

  lemma RecoverFiles(disk: Disk, archived: seq<Record>, cl: seq<CutLog>, size: seq<Entry> -> nat, v: Version)
    requires NumbersBelow(disk.version, disk.nextFile) && OnDisk(disk.version, disk.tables)
    requires AddsAll(disk.version, Level0Tables(AllChunks(cl, disk.nextFile + 1), size), v) && TreeInvariant(v)
    ensures TreeOk(Recover(disk, archived, cl, v)) && FilesOk(Recover(disk, archived, cl, v))
  {
    var db, fs := Recover(disk, archived, cl, v), Level0Tables(AllChunks(cl, disk.nextFile + 1), size);
    AllChunksNumbered(cl, disk.nextFile + 1);
    forall l, f | 0 <= l < NUM_LEVELS && f in v[l]
      ensures f.number < db.nextFile && f.number in db.disk.tables
    {
      ArrivesMember(disk.version, fs, v, l, f);
      if f !in disk.version[l] {
        RecoveredNumbers(disk, cl, size, f);
      }
    }
  }

  lemma RecoverDisk(disk: Disk, archived: seq<Record>, floor: nat, cl: seq<CutLog>, v: Version)
    requires DiskHolds(disk, archived, floor) && CutsOf(DropLogs(disk.logs, disk.logNumber), cl)
    ensures DiskOk(Recover(disk, archived, cl, v))
  {
    var db := Recover(disk, archived, cl, v);
    var newLog := db.logNumber;
    RecoverHistory(disk, archived, floor, cl, v);
    KeptRecords(disk, cl);
    AllChunksNumbered(cl, disk.nextFile + 1);
    forall l | l in disk.logs ensures l.number < newLog { }
    OrderedSnoc(disk.logs, Log(newLog, []));
    ConcatLast(db.disk.logs);
    assert db.history[db.flushed..] == [] && db.history[db.switched..] == [];
    assert db.history[..db.flushed] == db.history;
  }

  lemma TornConcat(logs: seq<Log>, lost: nat, min: nat)
    requires logs != [] && lost <= |logs[|logs| - 1].records| && logs[|logs| - 1].number >= min
    ensures var all := ConcatLogs(logs, min);
            lost <= |all| && ConcatLogs(TornLogs(logs, lost), min) == all[..|all| - lost]
  {
    assert TornLogs(logs, lost)[..|logs| - 1] == logs[..|logs| - 1];
  }

  lemma {:induction false} StraysAddNothing(logs: seq<Log>, strays: seq<Log>, min: nat)
    requires forall l :: l in strays ==> l.records == []
    ensures ConcatLogs(logs + strays, min) == ConcatLogs(logs, min)
    decreases |strays|
  {
    if strays == [] {
      assert logs + strays == logs;
    } else {
      var init, last := strays[..|strays| - 1], strays[|strays| - 1];
      assert last in strays;
      StraysAddNothing(logs, init, min);
      assert (logs + strays)[..|logs + strays| - 1] == logs + init;
    }
  }

  lemma CrashedLogs(disk: Disk, lost: nat, strays: seq<Log>)
    requires LogsOrdered(disk.logs) && disk.logs != [] && lost <= |disk.logs[|disk.logs| - 1].records|
    requires StrayLogs(disk, strays)
    ensures LogsOrdered(TornLogs(disk.logs, lost) + strays)
  {
    forall i | 0 <= i < |strays| ensures strays[i].number > disk.logs[|disk.logs| - 1].number {
      assert strays[i] in strays;
    }
  }

  lemma PrefixJoin<T>(h: seq<T>, i: nat, n: nat)
    requires i <= n <= |h|
    ensures h[..i] + h[i..n] == h[..n]
  {
  }

  lemma PrefixOk(h: seq<Record>, n: nat, s: nat)
    requires n <= |h| && Increasing(Flat(h)) && RecordsBelow(h, s) && s < MAX_SEQUENCE
    ensures Increasing(Flat(h[..n])) && RecordsBelow(h[..n], MAX_SEQUENCE - 1)
  {
    FlatSplit(h, n);
    IncreasingSplit(Flat(h[..n]), Flat(h[n..]));
    forall r | r in h[..n] ensures r in h { }
  }

  lemma HistoryPrefix(h: seq<Record>, flushed: nat, n: nat, s: nat)
    requires flushed <= n <= |h| && Increasing(Flat(h)) && RecordsBelow(h, s) && s < MAX_SEQUENCE
    ensures h[..flushed] + h[flushed..n] == h[..n]
    ensures Increasing(Flat(h[..flushed] + h[flushed..n])) && RecordsBelow(h[..flushed] + h[flushed..n], MAX_SEQUENCE - 1)
  {
    PrefixOk(h, n, s);
    PrefixJoin(h, flushed, n);
  }

  lemma CrashedRecords(db: Db, lost: nat, strays: seq<Log>, orphans: set<nat>)
    requires db.flushed <= db.switched <= |db.history| && DiskOk(db)
    requires CanLose(db.disk, lost) && StrayLogs(db.disk, strays)
    ensures var disk := CrashedDisk(db.disk, lost, strays, orphans);
            lost <= |db.history| - db.switched
            && ConcatLogs(disk.logs, disk.logNumber) == db.history[db.flushed..|db.history| - lost]
            && LogsOrdered(disk.logs)
  {
    TornConcat(db.disk.logs, lost, db.logNumber);
    StraysAddNothing(TornLogs(db.disk.logs, lost), strays, db.logNumber);
    CrashedLogs(db.disk, lost, strays);
    var all := db.history[db.flushed..];
    assert all[..|all| - lost] == db.history[db.flushed..|db.history| - lost];
  }

  lemma CrashedHolds(db: Db, disk: Disk, n: nat)
    requires TreeOk(db) && HistoryOk(db) && DiskOk(db) && ReadsOk(db) && FilesOk(db) && db.flushed <= n <= |db.history|
    requires disk.version == db.disk.version && disk.logNumber == db.disk.logNumber
    requires disk.lastSequence == db.disk.lastSequence && disk.nextFile == db.disk.nextFile
    requires disk.tables >= db.disk.tables && LogsOrdered(disk.logs)
    requires ConcatLogs(disk.logs, disk.logNumber) == db.history[db.flushed..n]
    ensures DiskHolds(disk, db.history[..db.flushed], SmallestSnapshot(db))
    ensures db.history[..db.flushed] + ConcatLogs(disk.logs, disk.logNumber) == db.history[..n]
  {
    HistoryPrefix(db.history, db.flushed, n, db.lastSequence);
  }

  /** A crash at any reachable moment leaves a recoverable disk. */
  lemma CrashedDiskHolds(db: Db, lost: nat, strays: seq<Log>, orphans: set<nat>, disk: Disk)
    requires TreeOk(db) && HistoryOk(db) && DiskOk(db) && ReadsOk(db) && FilesOk(db)
    requires CanLose(db.disk, lost) && StrayLogs(db.disk, strays) && disk == CrashedDisk(db.disk, lost, strays, orphans)
    ensures lost <= |db.history| - db.switched
    ensures db.history[..db.flushed] + ConcatLogs(disk.logs, disk.logNumber) == db.history[..|db.history| - lost]
    ensures DiskHolds(disk, db.history[..db.flushed], SmallestSnapshot(db))
  {
    CrashedRecords(db, lost, strays, orphans);
    CrashedSame(db.disk, lost, strays, orphans);
    CrashedHolds(db, disk, |db.history| - lost);
  }

  lemma CrashedSame(d: Disk, lost: nat, strays: seq<Log>, orphans: set<nat>)
    requires CanLose(d, lost)
    ensures var disk := CrashedDisk(d, lost, strays, orphans);
            disk.version == d.version && disk.logNumber == d.logNumber && disk.lastSequence == d.lastSequence
            && disk.nextFile == d.nextFile && disk.tables >= d.tables
  {
  }

  /** Opening a recoverable disk brings the store up in order. */
  lemma RecoverEstablishes(disk: Disk, archived: seq<Record>, floor: nat, cl: seq<CutLog>, size: seq<Entry> -> nat, v: Version)
    requires DiskHolds(disk, archived, floor) && CanRecover(disk, cl, size, v)
    ensures Inv(Recover(disk, archived, cl, v))
  {
    RecoverReads(disk, archived, floor, cl, size, v);
    RecoverTables(disk, archived, floor, cl, size, v);
    RecoverFiles(disk, archived, cl, size, v);
    RecoverDisk(disk, archived, floor, cl, v);
    RecoverHistory(disk, archived, floor, cl, v);
  }

  function AfterCrash(db: Db, lost: nat, strays: seq<Log>, orphans: set<nat>, cl: seq<CutLog>, v: Version): Db
    requires CanLose(db.disk, lost) && db.flushed <= |db.history|
  {
    Recover(CrashedDisk(db.disk, lost, strays, orphans), db.history[..db.flushed], cl, v)
  }

  /** Recovery after a crash: the store is in order again, and its history is what was
      committed, short of at most the lost records of the newest log. */
  lemma RecoverKeepsInv(db: Db, lost: nat, strays: seq<Log>, orphans: set<nat>,
                        cl: seq<CutLog>, size: seq<Entry> -> nat, v: Version)
    requires Inv(db) && CanLose(db.disk, lost) && StrayLogs(db.disk, strays)
    requires CanRecover(CrashedDisk(db.disk, lost, strays, orphans), cl, size, v)
    ensures lost <= |db.history| - db.switched
    ensures Inv(AfterCrash(db, lost, strays, orphans, cl, v))
    ensures AfterCrash(db, lost, strays, orphans, cl, v).history == db.history[..|db.history| - lost]
  {
    var disk := CrashedDisk(db.disk, lost, strays, orphans);
    CrashedDiskHolds(db, lost, strays, orphans, disk);
    RecoverEstablishes(disk, db.history[..db.flushed], SmallestSnapshot(db), cl, size, v);
  }
}
