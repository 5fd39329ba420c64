/** The whole store as a state machine (db/db_impl.cc): memtables, log files, manifest,
    versions, snapshots; every public or background step, and a crash with recovery. */
module Database {
  import opened Format
  import opened Tables
  import opened Lookup
  import opened Tree
  import opened History

  /** A log file and the records a reader gets from it. */
  datatype Log = Log(number: nat, records: seq<Record>)

  /** A snapshot; `image` is the map at the moment it was taken. */
  datatype Snapshot = Snapshot(sequence: nat, image: Image)

  /** What survives a crash: the installed manifest state, the log files in number
      order, the numbers of the table files present. */
  datatype Disk = Disk(version: Version, logNumber: nat, lastSequence: nat, nextFile: nat,
                       logs: seq<Log>, tables: set<nat>)

  /** DBImpl and VersionSet. history lists every committed batch: the first `flushed`
      ones are in tables, those up to `switched` in imm, the rest in mem. */
  datatype Db = Db(mem: seq<Entry>, imm: Option<seq<Entry>>, version: Version,
                   lastSequence: nat, logFileNumber: nat, logNumber: nat, nextFile: nat,
                   snapshots: seq<Snapshot>, pins: seq<Version>, disk: Disk,
                   history: seq<Record>, flushed: nat, switched: nat)

  function SmallestSnapshot(db: Db): nat {
    if db.snapshots == [] then db.lastSequence else db.snapshots[0].sequence
  }

  /** The map a reader without a snapshot should see. */
  function Current(db: Db): Image {
    Replay(Flat(db.history), db.lastSequence)
  }

  /** The records of the logs numbered at least min, in log order. */
  function ConcatLogs(logs: seq<Log>, min: nat): seq<Record> {
    if logs == [] then []
    else
      var last := logs[|logs| - 1];
      ConcatLogs(logs[..|logs| - 1], min) + if last.number >= min then last.records else []
  }

  // ---- the invariant ----

  ghost predicate NumbersBelow(v: Version, n: nat) {
    forall l, f :: 0 <= l < |v| && f in v[l] ==> f.number < n
  }

  ghost predicate TreeOk(db: Db) {
    && TreeInvariant(db.version) && OrderedLevels(db.version)
    && NumbersBelow(db.version, db.disk.nextFile)
    && db.disk.nextFile <= db.nextFile
  }

  /** Every batch, even an empty one, was numbered from sequences handed out so far. */
  ghost predicate RecordsBelow(rs: seq<Record>, s: nat) {
    forall r :: r in rs ==> 1 <= r.first && r.first + |r.ops| <= s + 1
  }

  ghost predicate HistoryOk(db: Db) {
    && db.flushed <= db.switched <= |db.history|
    && Increasing(Flat(db.history))
    && Bounded(Flat(db.history), db.lastSequence)
    && RecordsBelow(db.history, db.lastSequence)
    && db.lastSequence < MAX_SEQUENCE
  }

  ghost predicate MemOk(db: Db)
    requires db.flushed <= db.switched <= |db.history|
  {
    && db.mem == MemOf(db.history[db.switched..])
    && (db.imm.None? ==> db.flushed == db.switched)
    && (db.imm.Some? ==> db.imm.value == MemOf(db.history[db.flushed..db.switched]))
  }

  ghost predicate LogsOrdered(logs: seq<Log>) {
    forall i, j :: 0 <= i < j < |logs| ==> logs[i].number < logs[j].number
  }

  /** Tables and the logs from LogNumber on hold the whole history. */
  ghost predicate DiskOk(db: Db)
    requires db.flushed <= db.switched <= |db.history|
  {
    && db.disk.version == db.version
    && db.disk.logNumber == db.logNumber <= db.logFileNumber < db.nextFile
    && db.logNumber < db.disk.nextFile
    && db.disk.lastSequence <= db.lastSequence
    && Bounded(Flat(db.history[..db.flushed]), db.disk.lastSequence)
    && RecordsBelow(db.history[..db.flushed], db.disk.lastSequence)
    && LogsOrdered(db.disk.logs)
    && db.disk.logs != []
    && db.disk.logs[|db.disk.logs| - 1] == Log(db.logFileNumber, db.history[db.switched..])
    && ConcatLogs(db.disk.logs, db.logNumber) == db.history[db.flushed..]
  }

  ghost predicate AnswersFrom(es: set<Entry>, h: seq<Entry>, floor: nat) {
    forall u, s :: s >= floor ==> Reads(es, u, s, Answer(Replay(h, s), u))
  }

  /** The tables answer every needed read of the flushed batches. */
  ghost predicate ReadsOk(db: Db)
    requires db.flushed <= |db.history|
  {
    && Stored(db.version) <= SetOf(Flat(db.history[..db.flushed]))
    && AnswersFrom(Stored(db.version), Flat(db.history[..db.flushed]), SmallestSnapshot(db))
  }

  ghost predicate SnapshotsOk(db: Db) {
    && (forall i, j :: 0 <= i < j < |db.snapshots| ==> db.snapshots[i].sequence <= db.snapshots[j].sequence)
    && (forall i :: 0 <= i < |db.snapshots| ==>
          db.snapshots[i].sequence <= db.lastSequence
          && db.snapshots[i].image == Replay(Flat(db.history), db.snapshots[i].sequence))
  }

  ghost predicate OnDisk(v: Version, tables: set<nat>) {
    forall l, f :: 0 <= l < |v| && f in v[l] ==> f.number in tables
  }

  ghost predicate FilesOk(db: Db) {
    OnDisk(db.version, db.disk.tables) && forall v :: v in db.pins ==> OnDisk(v, db.disk.tables)
  }

  ghost predicate Inv(db: Db) {
    TreeOk(db) && HistoryOk(db) && MemOk(db) && DiskOk(db) && ReadsOk(db) && SnapshotsOk(db) && FilesOk(db)
  }

  // ---- a new database ----

  /** DB::Open on an empty directory, after the first log file is created. */
  const INITIAL: Db :=
    Db([], None, EMPTY_VERSION, 0, 3, 3, 4, [], [], Disk(EMPTY_VERSION, 3, 0, 4, [Log(3, [])], {}), [], 0, 0)

  lemma NoFiles(v: Version)
    requires |v| == NUM_LEVELS && forall l :: 0 <= l < NUM_LEVELS ==> |v[l]| == 0
    ensures TreeInvariant(v) && OrderedLevels(v) && Stored(v) == {}
    ensures forall l, f :: 0 <= l < NUM_LEVELS ==> f !in v[l]
  {
  }

  lemma EmptyAnswers(u: UserKey, s: nat)
    ensures Reads({}, u, s, Answer(Replay([], s), u))
  {
    assert Unseen({}, u, s);
  }

  lemma InitialDisk()
    ensures HistoryOk(INITIAL) && MemOk(INITIAL) && DiskOk(INITIAL)
  {
    assert [Log(3, [])][..0] == [];
  }

  lemma InitialReads()
    ensures HistoryOk(INITIAL) && ReadsOk(INITIAL)
  {
    NoFiles(INITIAL.version);
    forall u, s: nat ensures Reads({}, u, s, Answer(Replay([], s), u)) { EmptyAnswers(u, s); }
  }

  lemma InitialInv()
    ensures Inv(INITIAL)
  {
    NoFiles(INITIAL.version);
    assert TreeOk(INITIAL) && FilesOk(INITIAL);
    InitialDisk();
    InitialReads();
  }

  // ---- reads ----

  /** Entries on top of a set that answers a history give a set that answers the
      longer history. */
  lemma ReadsExtend(a: set<Entry>, f: seq<Entry>, b: seq<Entry>, u: UserKey, s: nat)
    requires Increasing(f + b) && a <= SetOf(f)
    requires Reads(a, u, s, Answer(Replay(f, s), u))
    ensures Reads(a + SetOf(b), u, s, Answer(Replay(f + b, s), u))
  {
    IncreasingSplit(f, b);
    ReplayReads(f + b, u, s);
    ReplayReads(f, u, s);
    IncreasingIsUnique(f + b);
    IncreasingIsUnique(f);
    var whole := SetOf(f + b);
    assert whole == SetOf(f) + SetOf(b);
    if Unseen(SetOf(b), u, s) {
      SameWithUnseen(a, SetOf(b), u, s, Answer(Replay(f, s), u));
      SameWithUnseen(SetOf(f), SetOf(b), u, s, Answer(Replay(f, s), u));
      ReadsUnique(whole, u, s, Answer(Replay(f, s), u), Answer(Replay(f + b, s), u));
    } else {
      var e := TopExists(SetOf(b), u, s);
      assert IsTop(whole, u, s, e);
      assert Reads(whole, u, s, OutcomeOf(e));
      ReadsUnique(whole, u, s, OutcomeOf(e), Answer(Replay(f + b, s), u));
      assert IsTop(a + SetOf(b), u, s, e);
    }
  }

  lemma ExtendAll(a: set<Entry>, f: seq<Entry>, b: seq<Entry>, floor: nat)
    requires Increasing(f + b) && a <= SetOf(f) && AnswersFrom(a, f, floor)
    ensures AnswersFrom(a + SetOf(b), f + b, floor)
  {
    forall u, s | s >= floor ensures Reads(a + SetOf(b), u, s, Answer(Replay(f + b, s), u)) {
      ReadsExtend(a, f, b, u, s);
    }
  }

  /** The three parts of the history. */
  lemma HistoryParts(db: Db)
    requires HistoryOk(db)
    ensures var f, m, c := Flat(db.history[..db.flushed]), Flat(db.history[db.flushed..db.switched]), Flat(db.history[db.switched..]);
            Flat(db.history) == f + m + c && Increasing(f) && Increasing(m) && Increasing(c)
            && Increasing(f + m) && Earlier(f, m) && Earlier(f + m, c)
  {
    var f, m, c := db.history[..db.flushed], db.history[db.flushed..db.switched], db.history[db.switched..];
    FlatSplit(db.history, db.switched);
    FlatSplit(db.history[..db.switched], db.flushed);
    assert db.history[..db.switched][..db.flushed] == f;
    assert db.history[..db.switched][db.flushed..] == m;
    IncreasingSplit(Flat(f) + Flat(m), Flat(c));
    IncreasingSplit(Flat(f), Flat(m));
  }

  /** All that the memtables and the current version store. */
  ghost function Everything(db: Db): set<Entry> {
    Stored(db.version) + (if db.imm.Some? then SetOf(db.imm.value) else {}) + SetOf(db.mem)
  }

  /** Everything stored answers reads as replaying the whole history does. */
  lemma StoreAnswers(db: Db)
    requires Inv(db)
    ensures AnswersFrom(Everything(db), Flat(db.history), SmallestSnapshot(db))
  {
    HistoryParts(db);
    var f, m, c := Flat(db.history[..db.flushed]), Flat(db.history[db.flushed..db.switched]), Flat(db.history[db.switched..]);
    MemOfSorted(db.history[db.flushed..db.switched]);
    MemOfSorted(db.history[db.switched..]);
    ExtendAll(Stored(db.version), f, m, SmallestSnapshot(db));
    ExtendAll(Stored(db.version) + SetOf(m), f + m, c, SmallestSnapshot(db));
    if db.imm.None? {
      assert db.history[db.flushed..db.switched] == [];
      assert SetOf(m) == {};
    }
  }

  /** DBImpl::Get: mem, then imm, then the current version, stopping at the first hit. */
  method Get(mem: seq<Entry>, imm: Option<seq<Entry>>, version: Version, u: UserKey, s: nat, ghost db: Db)
    returns (r: Outcome)
    requires Inv(db) && s >= SmallestSnapshot(db)
    requires mem == db.mem && imm == db.imm && version == db.version
    ensures r == Answer(Replay(Flat(db.history), s), u)
  {
    ghost var flushing := if imm.Some? then SetOf(imm.value) else {};
    ghost var all := Stored(version) + flushing + SetOf(mem);
    StoreAnswers(db);
    PartsSorted(db);
    var e := RunGet(mem, u, s);
    RunGetIsTop(mem, u, s);
    if e.Some? {
      TopOnTop(Stored(version) + flushing, SetOf(mem), u, s, e.value);
      r := OutcomeOf(e.value);
    } else {
      if imm.Some? {
        e := RunGet(imm.value, u, s);
        RunGetIsTop(imm.value, u, s);
      }
      if e.Some? {
        TopOnTop(Stored(version), flushing, u, s, e.value);
        r := OutcomeOf(e.value);
        assert Reads(Stored(version) + flushing, u, s, r);
      } else {
        r := VersionGet(version, u, s);
        SameWithUnseen(Stored(version), flushing, u, s, r);
      }
      SameWithUnseen(Stored(version) + flushing, SetOf(mem), u, s, r);
    }
    assert Reads(all, u, s, r);
    ReadsUnique(all, u, s, r, Answer(Replay(Flat(db.history), s), u));
  }

  lemma PartsSorted(db: Db)
    requires Inv(db)
    ensures Sorted(db.mem) && (db.imm.Some? ==> Sorted(db.imm.value))
    ensures var imm := if db.imm.Some? then SetOf(db.imm.value) else {};
            (forall x, y :: x in Stored(db.version) + imm && y in SetOf(db.mem) ==> x.key.sequence < y.key.sequence)
            && (forall x, y :: x in Stored(db.version) && y in imm ==> x.key.sequence < y.key.sequence)
            && UniqueSequences(Stored(db.version) + imm + SetOf(db.mem))
  {
    HistoryParts(db);
    MemOfSorted(db.history[db.flushed..db.switched]);
    MemOfSorted(db.history[db.switched..]);
    var f, m, c := Flat(db.history[..db.flushed]), Flat(db.history[db.flushed..db.switched]), Flat(db.history[db.switched..]);
    var imm := if db.imm.Some? then SetOf(db.imm.value) else {};
    assert imm <= SetOf(m);
    PartsApart(Stored(db.version), imm, f, m, c);
  }

  lemma PartsApart(stored: set<Entry>, imm: set<Entry>, f: seq<Entry>, m: seq<Entry>, c: seq<Entry>)
    requires Increasing(f + m + c) && stored <= SetOf(f) && imm <= SetOf(m)
    ensures forall x, y :: x in stored + imm && y in SetOf(c) ==> x.key.sequence < y.key.sequence
    ensures forall x, y :: x in stored && y in imm ==> x.key.sequence < y.key.sequence
    ensures UniqueSequences(stored + imm + SetOf(c))
  {
    IncreasingSplit(f + m, c);
    IncreasingSplit(f, m);
    IncreasingIsUnique(f + m + c);
    assert stored + imm + SetOf(c) <= SetOf(f + m + c);
  }
}
