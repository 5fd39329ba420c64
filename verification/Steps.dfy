/** The steps of a running store (db/db_impl.cc): commit, memtable switch, flush,
    trivial move, compaction, snapshots, version pins, file deletion. */
module Steps {
  import opened Format
  import opened Tables
  import opened Builder
  import opened DropRule
  import opened Compactions
  import opened Tree
  import opened History
  import opened Database

  // ---- Write ----

  function AppendRecord(logs: seq<Log>, r: Record): seq<Log>
    requires logs != []
  {
    var last := logs[|logs| - 1];
    logs[..|logs| - 1] + [Log(last.number, last.records + [r])]
  }

  function NextRecord(db: Db, ops: seq<Op>): Record {
    Record(db.lastSequence + 1, ops)
  }

  /** One group of batches: one log record, then the memtable, then the sequence. */
  function DoWrite(db: Db, ops: seq<Op>): Db
    requires db.disk.logs != []
  {
    var r := NextRecord(db, ops);
    db.(mem := InsertAll(db.mem, EntriesOf(r)),
        lastSequence := db.lastSequence + |ops|,
        disk := db.disk.(logs := AppendRecord(db.disk.logs, r)),
        history := db.history + [r])
  }

  lemma ConcatAppend(logs: seq<Log>, r: Record, min: nat)
    requires logs != [] && logs[|logs| - 1].number >= min
    ensures ConcatLogs(AppendRecord(logs, r), min) == ConcatLogs(logs, min) + [r]
  {
    assert AppendRecord(logs, r)[..|logs| - 1] == logs[..|logs| - 1];
  }

  /** Steps that leave the version and its files alone. */
  lemma SameFiles(db: Db, db': Db)
    requires TreeOk(db) && FilesOk(db)
    requires db'.version == db.version && db'.pins == db.pins && db'.disk.tables == db.disk.tables
    requires db'.disk.nextFile == db.disk.nextFile && db'.nextFile >= db.nextFile
    ensures TreeOk(db') && FilesOk(db')
  {
  }

  /** Steps that commit nothing and leave the memtables and snapshots alone. */
  lemma SameHistory(db: Db, db': Db)
    requires HistoryOk(db) && MemOk(db) && SnapshotsOk(db)
    requires db'.history == db.history && db'.flushed == db.flushed && db'.switched == db.switched
    requires db'.mem == db.mem && db'.imm == db.imm && db'.lastSequence == db.lastSequence
    requires db'.snapshots == db.snapshots
    ensures HistoryOk(db') && MemOk(db') && SnapshotsOk(db')
  {
  }

  lemma RecordIsNext(db: Db, ops: seq<Op>)
    requires HistoryOk(db)
    ensures var es := EntriesOf(NextRecord(db, ops));
            Flat(db.history + [NextRecord(db, ops)]) == Flat(db.history) + es
            && Increasing(Flat(db.history) + es) && Increasing(es) && Earlier(Flat(db.history), es)
            && forall e :: e in es ==> db.lastSequence < e.key.sequence <= db.lastSequence + |ops|
  {
    var r := NextRecord(db, ops);
    FlatAppend(db.history, [r]);
    FlatOne(r);
    NumberedIncreasing(ops, r.first);
    IncreasingSplit(Flat(db.history), EntriesOf(r));
  }

  lemma WriteHistory(db: Db, ops: seq<Op>)
    requires HistoryOk(db) && db.disk.logs != [] && db.lastSequence + |ops| < MAX_SEQUENCE
    ensures HistoryOk(DoWrite(db, ops))
  {
    RecordIsNext(db, ops);
  }

  lemma WriteMem(db: Db, ops: seq<Op>)
    requires db.flushed <= db.switched <= |db.history| && MemOk(db) && db.disk.logs != []
    ensures MemOk(DoWrite(db, ops))
  {
    var r := NextRecord(db, ops);
    MemOfAppend(db.history[db.switched..], r);
    OneMoreRecord(db.history, r, db.flushed, db.switched);
  }

  lemma OneMoreRecord(h: seq<Record>, r: Record, flushed: nat, switched: nat)
    requires flushed <= switched <= |h|
    ensures (h + [r])[switched..] == h[switched..] + [r]
    ensures (h + [r])[flushed..switched] == h[flushed..switched]
  {
  }

  lemma WriteDisk(db: Db, ops: seq<Op>)
    requires db.flushed <= db.switched <= |db.history| && DiskOk(db)
    ensures DiskOk(DoWrite(db, ops))
  {
    var r := NextRecord(db, ops);
    ConcatAppend(db.disk.logs, r, db.logNumber);
    assert (db.history + [r])[..db.flushed] == db.history[..db.flushed];
    assert (db.history + [r])[db.flushed..] == db.history[db.flushed..] + [r];
    assert (db.history + [r])[db.switched..] == db.history[db.switched..] + [r];
  }

  lemma WriteReads(db: Db, ops: seq<Op>)
    requires db.flushed <= |db.history| && ReadsOk(db) && db.disk.logs != []
    ensures ReadsOk(DoWrite(db, ops))
  {
    assert DoWrite(db, ops).history[..db.flushed] == db.history[..db.flushed];
  }

  lemma WriteSnapshots(db: Db, ops: seq<Op>)
    requires HistoryOk(db) && SnapshotsOk(db) && db.disk.logs != []
    ensures SnapshotsOk(DoWrite(db, ops))
  {
    RecordIsNext(db, ops);
    forall i | 0 <= i < |db.snapshots|
      ensures db.snapshots[i].image == Replay(Flat(DoWrite(db, ops).history), db.snapshots[i].sequence)
    {
      ReplayExtends(Flat(db.history), EntriesOf(NextRecord(db, ops)), db.snapshots[i].sequence);
    }
  }

  lemma WriteKeepsInv(db: Db, ops: seq<Op>)
    requires Inv(db) && db.lastSequence + |ops| < MAX_SEQUENCE
    ensures Inv(DoWrite(db, ops))
  {
    WriteHistory(db, ops);
    WriteMem(db, ops);
    WriteDisk(db, ops);
    WriteReads(db, ops);
    WriteSnapshots(db, ops);
    SameFiles(db, DoWrite(db, ops));
  }

  // ---- MakeRoomForWrite ----

  function DoSwitch(db: Db): Db {
    db.(mem := [], imm := Some(db.mem),
        logFileNumber := db.nextFile, nextFile := db.nextFile + 1,
        disk := db.disk.(logs := db.disk.logs + [Log(db.nextFile, [])]),
        switched := |db.history|)
  }

  lemma ConcatNewLog(logs: seq<Log>, l: Log, min: nat)
    ensures ConcatLogs(logs + [l], min) == ConcatLogs(logs, min) + if l.number >= min then l.records else []
  {
    assert (logs + [l])[..|logs|] == logs;
  }

  lemma SwitchMemAndDisk(db: Db)
    requires db.flushed <= db.switched <= |db.history| && MemOk(db) && DiskOk(db) && db.imm.None?
    ensures MemOk(DoSwitch(db)) && DiskOk(DoSwitch(db))
  {
    assert db.history[|db.history|..] == [];
    assert db.history[db.flushed..|db.history|] == db.history[db.switched..];
    ConcatNewLog(db.disk.logs, Log(db.nextFile, []), db.logNumber);
  }

  lemma SwitchKeepsInv(db: Db)
    requires Inv(db) && db.imm.None?
    ensures Inv(DoSwitch(db))
  {
    var db' := DoSwitch(db);
    SwitchMemAndDisk(db);
    SameFiles(db, db');
    assert HistoryOk(db') && SnapshotsOk(db') && ReadsOk(db');
  }

  // ---- LogAndApply ----

  /** Installing a version: the manifest records it with the counters of the moment. */
  function Install(db: Db, v: Version, logNumber: nat, nextFile: nat, newTables: set<nat>): Db {
    db.(version := v, logNumber := logNumber, nextFile := nextFile,
        disk := db.disk.(version := v, logNumber := logNumber, lastSequence := db.lastSequence,
                         nextFile := nextFile, tables := db.disk.tables + newTables))
  }

  // ---- CompactMemTable ----

  function TableOf(number: nat, es: seq<Entry>, size: nat): File
    requires es != []
  {
    File(number, size, es[0].key, es[|es| - 1].key, es)
  }

  /** An empty memtable makes no table. */
  function FlushEdit(number: nat, es: seq<Entry>, size: nat, level: nat): Edit {
    if es == [] then Edit({}, []) else Edit({}, [(level, TableOf(number, es, size))])
  }

  function FlushedTables(db: Db): set<nat> {
    if db.imm == Some([]) then {} else {db.nextFile}
  }

  function DoFlush(db: Db, v: Version): Db {
    Install(db, v, db.logFileNumber, db.nextFile + 1, FlushedTables(db)).(imm := None, flushed := db.switched)
  }

  /** The level PickLevelForMemTableOutput may return. */
  ghost predicate FlushLevel(v: Version, level: nat, es: seq<Entry>)
    requires |v| == NUM_LEVELS
  {
    level < NUM_LEVELS
    && (es != [] && level > 0 ==> forall l :: 0 <= l <= level ==> NoOverlap(v[l], TableOf(0, es, 0)))
  }

  ghost predicate CanFlush(db: Db, level: nat, size: nat, v: Version) {
    && db.imm.Some? && |db.version| == NUM_LEVELS
    && FlushLevel(db.version, level, db.imm.value)
    && Installs(db.version, FlushEdit(db.nextFile, db.imm.value, size, level), v)
  }

  lemma {:induction false} ConcatLast(logs: seq<Log>)
    requires LogsOrdered(logs) && logs != []
    ensures ConcatLogs(logs, logs[|logs| - 1].number) == logs[|logs| - 1].records
  {
    var last := logs[|logs| - 1];
    ConcatNone(logs[..|logs| - 1], last.number);
  }

  lemma {:induction false} ConcatNone(logs: seq<Log>, min: nat)
    requires forall i :: 0 <= i < |logs| ==> logs[i].number < min
    ensures ConcatLogs(logs, min) == []
  {
    if logs != [] { ConcatNone(logs[..|logs| - 1], min); }
  }

  lemma InstallNothing(v: Version, v': Version)
    requires |v| == NUM_LEVELS && OrderedLevels(v) && Installs(v, Edit({}, []), v')
    ensures v' == v
  {
    forall l | 0 <= l < NUM_LEVELS ensures v'[l] == v[l] {
      var edit := Edit({}, []);
      assert Saved(v[l], DeletedAt(edit, l) - Numbers(AddedAt(edit, l)), AddedAt(edit, l), v'[l]);
      OrderedUnique(v'[l], v[l]);
    }
  }

  /** The tree after a flush, and what it stores. */
  lemma FlushTree(db: Db, level: nat, size: nat, v: Version)
    requires TreeOk(db) && CanFlush(db, level, size, v) && Sorted(db.imm.value)
    requires forall x, y :: x in Stored(db.version) && y in SetOf(db.imm.value) ==> x.key.sequence < y.key.sequence
    ensures TreeInvariant(v) && OrderedLevels(v) && Stored(v) == Stored(db.version) + SetOf(db.imm.value)
  {
    var es := db.imm.value;
    if es == [] {
      InstallNothing(db.version, v);
      assert Stored(v) == Stored(db.version) + SetOf(es);
    } else {
      var f := TableOf(db.nextFile, es, size);
      assert ValidFile(f);
      FlushMembers(db, level, f, v);
      FlushKeepsTree(db.version, level, f, v);
    }
  }

  lemma FlushFiles(db: Db, level: nat, size: nat, v: Version)
    requires |db.version| == NUM_LEVELS && OrderedLevels(db.version) && CanFlush(db, level, size, v)
    ensures forall l, f :: 0 <= l < NUM_LEVELS && f in v[l] ==> f.number in FlushedTables(db) || f in db.version[l]
  {
    if db.imm.value == [] {
      InstallNothing(db.version, v);
    } else {
      FlushMembers(db, level, TableOf(db.nextFile, db.imm.value, size), v);
    }
  }

  lemma FlushMembers(db: Db, level: nat, f: File, v: Version)
    requires |db.version| == NUM_LEVELS && level < NUM_LEVELS && Installs(db.version, Edit({}, [(level, f)]), v)
    ensures OrderedLevels(v)
    ensures forall l, g :: 0 <= l < NUM_LEVELS && g in v[l] ==> g == f || g in db.version[l]
  {
    InstallAdds(db.version, level, f, v);
    forall l, g | 0 <= l < NUM_LEVELS && g in v[l] ensures g == f || g in db.version[l] {
      AddedMember(db.version, level, f, v, l, g);
    }
  }

  lemma SwitchedPrefix(db: Db)
    requires HistoryOk(db)
    ensures var f, m := Flat(db.history[..db.flushed]), Flat(db.history[db.flushed..db.switched]);
            Flat(db.history[..db.switched]) == f + m && Increasing(f + m) && Increasing(m)
    ensures Bounded(Flat(db.history[..db.switched]), db.lastSequence)
  {
    HistoryParts(db);
    FlatSplit(db.history[..db.switched], db.flushed);
    assert db.history[..db.switched][..db.flushed] == db.history[..db.flushed];
    assert db.history[..db.switched][db.flushed..] == db.history[db.flushed..db.switched];
  }

  lemma FlushReads(db: Db, v: Version)
    requires HistoryOk(db) && MemOk(db) && ReadsOk(db) && db.imm.Some?
    requires Stored(v) == Stored(db.version) + SetOf(db.imm.value)
    ensures ReadsOk(DoFlush(db, v))
  {
    SwitchedPrefix(db);
    var f, m := Flat(db.history[..db.flushed]), Flat(db.history[db.flushed..db.switched]);
    MemOfSorted(db.history[db.flushed..db.switched]);
    ExtendAll(Stored(db.version), f, m, SmallestSnapshot(db));
    assert SmallestSnapshot(DoFlush(db, v)) == SmallestSnapshot(db);
  }

  lemma FlushDisk(db: Db, v: Version)
    requires HistoryOk(db) && DiskOk(db)
    ensures DiskOk(DoFlush(db, v))
  {
    SwitchedPrefix(db);
    ConcatLast(db.disk.logs);
  }

  /** Installing a version whose files are new tables or files it had. */
  lemma InstallFiles(db: Db, v: Version, logNumber: nat, nextFile: nat, newTables: set<nat>)
    requires TreeOk(db) && FilesOk(db) && TreeInvariant(v) && OrderedLevels(v)
    requires nextFile >= db.nextFile && forall n :: n in newTables ==> n < nextFile
    requires forall l, f :: 0 <= l < NUM_LEVELS && f in v[l] ==>
      f.number in newTables || exists m :: 0 <= m < NUM_LEVELS && f in db.version[m]
    ensures TreeOk(Install(db, v, logNumber, nextFile, newTables))
    ensures FilesOk(Install(db, v, logNumber, nextFile, newTables))
  {
  }

  lemma FlushTables(db: Db, level: nat, size: nat, v: Version)
    requires TreeOk(db) && FilesOk(db) && CanFlush(db, level, size, v) && TreeInvariant(v) && OrderedLevels(v)
    ensures TreeOk(DoFlush(db, v)) && FilesOk(DoFlush(db, v))
  {
    FlushFiles(db, level, size, v);
    InstallFiles(db, v, db.logFileNumber, db.nextFile + 1, FlushedTables(db));
    SameFiles(Install(db, v, db.logFileNumber, db.nextFile + 1, FlushedTables(db)), DoFlush(db, v));
  }

  lemma FlushKeepsInv(db: Db, level: nat, size: nat, v: Version)
    requires Inv(db) && CanFlush(db, level, size, v)
    ensures Inv(DoFlush(db, v))
  {
    assert TreeOk(DoFlush(db, v)) && FilesOk(DoFlush(db, v)) && ReadsOk(DoFlush(db, v)) by {
      PartsSorted(db);
      FlushTree(db, level, size, v);
      FlushReads(db, v);
      FlushTables(db, level, size, v);
    }
    FlushDisk(db, v);
    FlushHistory(db, v);
  }

  lemma FlushHistory(db: Db, v: Version)
    requires HistoryOk(db) && MemOk(db) && SnapshotsOk(db)
    ensures HistoryOk(DoFlush(db, v)) && MemOk(DoFlush(db, v)) && SnapshotsOk(DoFlush(db, v))
  {
  }

  // ---- BackgroundCompaction ----

  function DoMove(db: Db, v: Version): Db {
    Install(db, v, db.logNumber, db.nextFile, {})
  }

  ghost predicate CanMove(db: Db, level: nat, f: File, v: Version) {
    && |db.version| == NUM_LEVELS && Chosen(db.version, level, [f], [])
    && Installs(db.version, CompactionEdit(level, [f], [], [f]), v)
  }

  lemma InstallDisk(db: Db, v: Version, nextFile: nat, newTables: set<nat>)
    requires HistoryOk(db) && DiskOk(db) && nextFile >= db.nextFile
    ensures DiskOk(Install(db, v, db.logNumber, nextFile, newTables))
  {
    HistoryParts(db);
  }

  lemma MoveKeepsInv(db: Db, level: nat, f: File, v: Version)
    requires Inv(db) && CanMove(db, level, f, v)
    ensures Inv(DoMove(db, v))
  {
    var db' := DoMove(db, v);
    TrivialMoveKeepsTree(db.version, level, f, v);
    MoveMembers(db.version, level, f, v);
    InstallDisk(db, v, db.nextFile, {});
    InstallFiles(db, v, db.logNumber, db.nextFile, {});
    SameHistory(db, db');
    assert ReadsOk(db');
  }

  lemma MoveMembers(v: Version, level: nat, f: File, v': Version)
    requires TreeInvariant(v) && Chosen(v, level, [f], []) && Installs(v, CompactionEdit(level, [f], [], [f]), v')
    ensures OrderedLevels(v')
    ensures forall l, g :: 0 <= l < NUM_LEVELS && g in v'[l] ==> exists m :: 0 <= m < NUM_LEVELS && g in v[m]
  {
    assert f in [f];
    InstallReplaces(v, level, [f], [], [f], v');
    forall l, g | 0 <= l < NUM_LEVELS && g in v'[l] ensures exists m :: 0 <= m < NUM_LEVELS && g in v[m] {
      ReplacedMember(v, level, [f], [], [f], v', l, g);
    }
  }

  function TableNumbers(outs: seq<File>): set<nat> {
    set f | f in outs :: f.number
  }

  function DoCompact(db: Db, outs: seq<File>, v: Version): Db {
    Install(db, v, db.logNumber, db.nextFile + |outs|, TableNumbers(outs))
  }

  /** A compaction as the code makes it. */
  ghost predicate Compacts(db: Db, level: nat, in0: seq<File>, in1: seq<File>, input: seq<Entry>,
                           outs: seq<File>, v: Version)
  {
    && |db.version| == NUM_LEVELS && Chosen(db.version, level, in0, in1) && IsMerge(input, in0, in1)
    && CompactionOutputs(db.version, level, input, SmallestSnapshot(db), db.nextFile, outs)
    && Installs(db.version, CompactionEdit(level, in0, in1, outs), v)
  }

  /** A compaction that brings no deleted value back. */
  ghost predicate CanCompact(db: Db, level: nat, in0: seq<File>, in1: seq<File>, input: seq<Entry>,
                             outs: seq<File>, v: Version)
  {
    Compacts(db, level, in0, in1, input, outs, v)
    && NoResurrection(db.version, level, in1, input, SmallestSnapshot(db))
  }

  lemma CompactTree(db: Db, level: nat, in0: seq<File>, in1: seq<File>, input: seq<Entry>, outs: seq<File>, v: Version)
    requires Inv(db) && Compacts(db, level, in0, in1, input, outs, v)
    ensures TreeInvariant(v)
    ensures Stored(v) == Compacted(db.version, level, in0, in1, input, SmallestSnapshot(db))
  {
    CompactionKeepsTree(db.version, level, in0, in1, input, SmallestSnapshot(db), db.nextFile, outs, v);
  }

  lemma CompactMembers(db: Db, level: nat, in0: seq<File>, in1: seq<File>, input: seq<Entry>, outs: seq<File>, v: Version)
    requires TreeOk(db) && Compacts(db, level, in0, in1, input, outs, v)
    ensures OrderedLevels(v)
    ensures forall l, g :: 0 <= l < NUM_LEVELS && g in v[l] ==> g in outs || g in db.version[l]
  {
    InstallReplaces(db.version, level, in0, in1, outs, v);
    forall l, g | 0 <= l < NUM_LEVELS && g in v[l] ensures g in outs || g in db.version[l] {
      ReplacedMember(db.version, level, in0, in1, outs, v, l, g);
    }
  }

  lemma OutputNumbers(v: Version, level: nat, input: seq<Entry>, snap: nat, first: nat, outs: seq<File>)
    requires |v| == NUM_LEVELS && CompactionOutputs(v, level, input, snap, first, outs)
    ensures forall n :: n in TableNumbers(outs) ==> n < first + |outs|
  {
  }

  lemma CompactFiles(db: Db, outs: seq<File>, v: Version)
    requires TreeOk(db) && FilesOk(db) && TreeInvariant(v) && OrderedLevels(v)
    requires forall l, g :: 0 <= l < NUM_LEVELS && g in v[l] ==> g in outs || g in db.version[l]
    requires forall n :: n in TableNumbers(outs) ==> n < db.nextFile + |outs|
    ensures TreeOk(DoCompact(db, outs, v)) && FilesOk(DoCompact(db, outs, v))
  {
    InstallFiles(db, v, db.logNumber, db.nextFile + |outs|, TableNumbers(outs));
  }

  lemma IsCompacting(db: Db, level: nat, in0: seq<File>, in1: seq<File>, input: seq<Entry>, outs: seq<File>, v: Version)
    requires TreeOk(db) && HistoryOk(db) && ReadsOk(db) && Compacts(db, level, in0, in1, input, outs, v)
    ensures Compacting(db.version, level, in0, in1, input)
    ensures Increasing(Flat(db.history[..db.flushed]))
  {
    HistoryParts(db);
    IncreasingIsUnique(Flat(db.history[..db.flushed]));
  }

  lemma CompactReads(db: Db, level: nat, in0: seq<File>, in1: seq<File>, input: seq<Entry>, outs: seq<File>, v: Version)
    requires TreeOk(db) && HistoryOk(db) && ReadsOk(db) && CanCompact(db, level, in0, in1, input, outs, v)
    requires Stored(v) == Compacted(db.version, level, in0, in1, input, SmallestSnapshot(db))
    ensures ReadsOk(DoCompact(db, outs, v))
  {
    var snap := SmallestSnapshot(db);
    IsCompacting(db, level, in0, in1, input, outs, v);
    CompactionKeepsReads(db.version, level, in0, in1, input, snap);
    CompactionSetting(db.version, level, in0, in1, input);
    AfterIsSmaller(Untouched(db.version, level, in0, in1), input, BaseKeys(db.version, level), snap);
    assert SmallestSnapshot(DoCompact(db, outs, v)) == snap;
  }

  lemma CompactKeepsInv(db: Db, level: nat, in0: seq<File>, in1: seq<File>, input: seq<Entry>, outs: seq<File>, v: Version)
    requires Inv(db) && CanCompact(db, level, in0, in1, input, outs, v)
    ensures Inv(DoCompact(db, outs, v))
  {
    var db' := DoCompact(db, outs, v);
    assert ReadsOk(db') && TreeOk(db') && FilesOk(db') by {
      CompactTree(db, level, in0, in1, input, outs, v);
      CompactReads(db, level, in0, in1, input, outs, v);
      CompactMembers(db, level, in0, in1, input, outs, v);
      OutputNumbers(db.version, level, input, SmallestSnapshot(db), db.nextFile, outs);
      CompactFiles(db, outs, v);
    }
    InstallDisk(db, v, db.nextFile + |outs|, TableNumbers(outs));
    SameHistory(db, db');
  }

  /** The check AddBoundaryInputs makes for `level`, made for level+1 too, is enough. */
  lemma ClosedBelowCanCompact(db: Db, level: nat, in0: seq<File>, in1: seq<File>, input: seq<Entry>, outs: seq<File>, v: Version)
    requires Inv(db) && Compacts(db, level, in0, in1, input, outs, v) && ClosedBelow(db.version, level, in1)
    ensures CanCompact(db, level, in0, in1, input, outs, v)
  {
    IsCompacting(db, level, in0, in1, input, outs, v);
    ClosedBelowIsSafe(db.version, level, in0, in1, input, SmallestSnapshot(db));
  }

  lemma SameAnswers(a: set<Entry>, b: set<Entry>, h: seq<Entry>, floor: nat)
    requires Increasing(h) && a <= SetOf(h) && b <= SetOf(h) && AnswersFrom(a, h, floor) && AnswersFrom(b, h, floor)
    ensures SameReads(a, b, floor)
  {
    IncreasingIsUnique(h);
    forall u, s, r | s >= floor ensures Reads(a, u, s, r) <==> Reads(b, u, s, r) {
      var x := Answer(Replay(h, s), u);
      assert Reads(a, u, s, x) && Reads(b, u, s, x);
      if Reads(a, u, s, r) { ReadsUnique(a, u, s, r, x); }
      if Reads(b, u, s, r) { ReadsUnique(b, u, s, r, x); }
    }
  }

  /** A compaction as the code makes it leaves the store in order exactly when it brings
      no deleted value back. */
  lemma CompactionIsSafeExactly(db: Db, level: nat, in0: seq<File>, in1: seq<File>, input: seq<Entry>, outs: seq<File>, v: Version)
    requires Inv(db) && Compacts(db, level, in0, in1, input, outs, v)
    ensures Inv(DoCompact(db, outs, v)) <==> NoResurrection(db.version, level, in1, input, SmallestSnapshot(db))
  {
    if NoResurrection(db.version, level, in1, input, SmallestSnapshot(db)) {
      CompactKeepsInv(db, level, in0, in1, input, outs, v);
    }
    if Inv(DoCompact(db, outs, v)) {
      SafeReads(db, level, in0, in1, input, outs, v);
    }
  }

  lemma SafeReads(db: Db, level: nat, in0: seq<File>, in1: seq<File>, input: seq<Entry>, outs: seq<File>, v: Version)
    requires Inv(db) && Compacts(db, level, in0, in1, input, outs, v)
    requires ReadsOk(DoCompact(db, outs, v))
    ensures NoResurrection(db.version, level, in1, input, SmallestSnapshot(db))
  {
    var snap, h := SmallestSnapshot(db), Flat(db.history[..db.flushed]);
    CompactTree(db, level, in0, in1, input, outs, v);
    IsCompacting(db, level, in0, in1, input, outs, v);
    SameAnswers(Stored(db.version), Stored(v), h, snap);
    CompactionKeepsReads(db.version, level, in0, in1, input, snap);
  }

  // ---- snapshots, pins, file deletion ----

  function DoSnapshot(db: Db): Db {
    db.(snapshots := db.snapshots + [Snapshot(db.lastSequence, Current(db))])
  }

  /** Only snapshots and pins differ. */
  lemma SameStore(db: Db, snapshots: seq<Snapshot>, pins: seq<Version>)
    requires HistoryOk(db) && MemOk(db) && DiskOk(db)
    ensures var db' := db.(snapshots := snapshots, pins := pins);
            HistoryOk(db') && MemOk(db') && DiskOk(db')
  {
  }

  lemma SameTables(db: Db, snapshots: seq<Snapshot>)
    requires TreeOk(db) && FilesOk(db) && db.flushed <= |db.history| && ReadsOk(db)
    ensures var db' := db.(snapshots := snapshots);
            TreeOk(db') && FilesOk(db') && (SmallestSnapshot(db') >= SmallestSnapshot(db) ==> ReadsOk(db'))
  {
  }

  lemma SnapshotsAfterNew(db: Db)
    requires SnapshotsOk(db)
    ensures SnapshotsOk(DoSnapshot(db)) && SmallestSnapshot(DoSnapshot(db)) == SmallestSnapshot(db)
  {
  }

  lemma SnapshotKeepsInv(db: Db)
    requires Inv(db)
    ensures Inv(DoSnapshot(db))
  {
    SnapshotsAfterNew(db);
    SameStore(db, DoSnapshot(db).snapshots, db.pins);
    SameTables(db, DoSnapshot(db).snapshots);
  }

  function DoRelease(db: Db, i: nat): Db
    requires i < |db.snapshots|
  {
    db.(snapshots := db.snapshots[..i] + db.snapshots[i + 1..])
  }

  lemma SnapshotsAfterRelease(db: Db, i: nat)
    requires SnapshotsOk(db) && i < |db.snapshots|
    ensures SnapshotsOk(DoRelease(db, i)) && SmallestSnapshot(DoRelease(db, i)) >= SmallestSnapshot(db)
  {
  }

  lemma ReleaseKeepsInv(db: Db, i: nat)
    requires Inv(db) && i < |db.snapshots|
    ensures Inv(DoRelease(db, i))
  {
    SnapshotsAfterRelease(db, i);
    SameStore(db, DoRelease(db, i).snapshots, db.pins);
    SameTables(db, DoRelease(db, i).snapshots);
  }

  /** A reader or iterator takes a reference to the current version. */
  function DoPin(db: Db): Db {
    db.(pins := db.pins + [db.version])
  }

  function DoUnpin(db: Db, i: nat): Db
    requires i < |db.pins|
  {
    db.(pins := db.pins[..i] + db.pins[i + 1..])
  }

  lemma NewPins(db: Db, pins: seq<Version>)
    requires Inv(db) && forall v :: v in pins ==> v == db.version || v in db.pins
    ensures Inv(db.(pins := pins))
  {
    var db' := db.(pins := pins);
    SameStore(db, db.snapshots, pins);
    assert TreeOk(db') && FilesOk(db') && ReadsOk(db') && SnapshotsOk(db');
  }

  lemma PinKeepsInv(db: Db)
    requires Inv(db)
    ensures Inv(DoPin(db))
  {
    NewPins(db, DoPin(db).pins);
  }

  lemma UnpinKeepsInv(db: Db, i: nat)
    requires Inv(db) && i < |db.pins|
    ensures Inv(DoUnpin(db, i))
  {
    NewPins(db, DoUnpin(db, i).pins);
  }

  function LiveFiles(v: Version): set<nat> {
    set l, f | 0 <= l < |v| && f in v[l] :: f.number
  }

  /** AddLiveFiles over the linked list of versions. */
  function AllLive(db: Db): set<nat> {
    LiveFiles(db.version) + set v, n | v in db.pins && n in LiveFiles(v) :: n
  }

  function DropLogs(logs: seq<Log>, min: nat): seq<Log> {
    if logs == [] then []
    else
      var last := logs[|logs| - 1];
      DropLogs(logs[..|logs| - 1], min) + if last.number >= min then [last] else []
  }

  function DoDeleteObsolete(db: Db): Db {
    db.(disk := db.disk.(logs := DropLogs(db.disk.logs, db.logNumber), tables := db.disk.tables * AllLive(db)))
  }

  lemma LiveExactly(db: Db, n: nat)
    ensures n in AllLive(db) <==>
      exists v: Version, l: nat, f: File :: (v == db.version || v in db.pins) && 0 <= l < |v| && f in v[l] && f.number == n
  {
    forall v: Version ensures n in LiveFiles(v) <==> exists l, f :: 0 <= l < |v| && f in v[l] && f.number == n { }
    if v :| v in db.pins && n in LiveFiles(v) {
      var l: nat, f: File :| 0 <= l < |v| && f in v[l] && f.number == n;
    }
  }

  /** What stays: the tables of files of versions in use, and the logs from LogNumber on,
      in their order; nothing else. */
  lemma DeletesExactly(db: Db)
    ensures var disk := DoDeleteObsolete(db).disk;
            (forall n :: n in disk.tables <==>
               (n in db.disk.tables
                && exists v: Version, l: nat, f: File :: (v == db.version || v in db.pins) && 0 <= l < |v| && f in v[l] && f.number == n))
            && (forall log :: log in disk.logs <==> log in db.disk.logs && log.number >= db.logNumber)
            && multiset(disk.logs) <= multiset(db.disk.logs)
            && disk == db.disk.(logs := disk.logs, tables := disk.tables)
  {
    forall n ensures n in AllLive(db) <==>
      exists v: Version, l: nat, f: File :: (v == db.version || v in db.pins) && 0 <= l < |v| && f in v[l] && f.number == n
    {
      LiveExactly(db, n);
    }
    forall log ensures log in DropLogs(db.disk.logs, db.logNumber) <==> log in db.disk.logs && log.number >= db.logNumber {
      DropLogsMember(db.disk.logs, db.logNumber, log);
    }
    DropLogsCount(db.disk.logs, db.logNumber);
  }

  lemma {:induction false} DropLogsCount(logs: seq<Log>, min: nat)
    ensures multiset(DropLogs(logs, min)) <= multiset(logs)
  {
    if logs != [] {
      DropLogsCount(logs[..|logs| - 1], min);
      assert logs == logs[..|logs| - 1] + [logs[|logs| - 1]];
    }
  }

  lemma {:induction false} DropLogsMember(logs: seq<Log>, min: nat, l: Log)
    ensures l in DropLogs(logs, min) <==> l in logs && l.number >= min
  {
    if logs != [] {
      DropLogsMember(logs[..|logs| - 1], min, l);
      assert logs == logs[..|logs| - 1] + [logs[|logs| - 1]];
    }
  }

  lemma OrderedSnoc(a: seq<Log>, l: Log)
    requires LogsOrdered(a) && forall x :: x in a ==> x.number < l.number
    ensures LogsOrdered(a + [l])
  {
    forall i | 0 <= i < |a| ensures a[i].number < l.number { assert a[i] in a; }
  }

  lemma {:induction false} DropLogsFacts(logs: seq<Log>, min: nat)
    requires LogsOrdered(logs)
    ensures LogsOrdered(DropLogs(logs, min)) && ConcatLogs(DropLogs(logs, min), min) == ConcatLogs(logs, min)
  {
    if logs != [] {
      var init, last := logs[..|logs| - 1], logs[|logs| - 1];
      DropLogsFacts(init, min);
      if last.number >= min {
        ConcatNewLog(DropLogs(init, min), last, min);
        forall x | x in DropLogs(init, min) ensures x.number < last.number {
          DropLogsMember(init, min, x);
          var i :| 0 <= i < |init| && init[i] == x;
          assert logs[i] == x;
        }
        OrderedSnoc(DropLogs(init, min), last);
      } else {
        assert DropLogs(logs, min) == DropLogs(init, min);
        assert ConcatLogs(logs, min) == ConcatLogs(init, min);
      }
    }
  }

  lemma LiveIsLive(db: Db, v: Version)
    requires v == db.version || v in db.pins
    requires OnDisk(v, db.disk.tables)
    ensures OnDisk(v, DoDeleteObsolete(db).disk.tables)
  {
    forall l, f | 0 <= l < |v| && f in v[l] ensures f.number in AllLive(db) {
      assert f.number in LiveFiles(v);
    }
  }

  lemma DeleteDisk(db: Db)
    requires db.flushed <= db.switched <= |db.history| && DiskOk(db)
    ensures DiskOk(DoDeleteObsolete(db))
  {
    DropLogsFacts(db.disk.logs, db.logNumber);
  }

  /** Deleting obsolete files loses no table of a live version and no needed log. */
  lemma DeleteKeepsInv(db: Db)
    requires Inv(db)
    ensures Inv(DoDeleteObsolete(db))
  {
    var db' := DoDeleteObsolete(db);
    DeleteDisk(db);
    LiveIsLive(db, db.version);
    forall v | v in db.pins ensures OnDisk(v, db'.disk.tables) { LiveIsLive(db, v); }
    assert TreeOk(db') && HistoryOk(db') && MemOk(db') && SnapshotsOk(db') && FilesOk(db') && ReadsOk(db');
  }
}
