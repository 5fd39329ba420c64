/** DBImpl (db/db_impl.cc): the operations themselves, each held to steps of the state
    machine. */
module DbImpl {
  import opened Format
  import opened Tables
  import opened Lookup
  import opened Compactions
  import W = CompactionWork
  import opened Builder
  import opened Tree
  import opened Inputs
  import opened PickInputs
  import opened InputIterator
  import opened History
  import opened Database
  import opened Steps
  import Runs

  // ---- LogAndApply ----

  /** No file the edit adds to a level takes a number of that level. */
  ghost predicate FreshNames(v: Version, edit: Edit)
    requires |v| == NUM_LEVELS
  {
    forall l :: 0 <= l < NUM_LEVELS ==>
      NumbersName(AddedAt(edit, l)) && Numbers(AddedAt(edit, l)) !! Numbers(set f | f in v[l])
  }

  /** LogAndApply builds the new version with a Builder. */
  method ApplyEdit(v: Version, edit: Edit) returns (v': Version)
    requires |v| == NUM_LEVELS && OrderedLevels(v) && InLevels(edit) && FreshNames(v, edit)
    ensures Installs(v, edit, v')
  {
    var builder := new VersionBuilder(v);
    forall l | 0 <= l < NUM_LEVELS ensures NumbersName(builder.Files(l) + AddedAt(edit, l)) {
      assert builder.Files(l) + AddedAt(edit, l) == AddedAt(edit, l);
    }
    builder.Apply(edit);
    forall l | 0 <= l < NUM_LEVELS ensures NoClash(v[l], builder.added[l]) {
      NewNumbersDoNotClash(v[l], builder.added[l], AddedAt(edit, l));
    }
    v' := builder.SaveTo();
  }

  lemma FlushNames(v: Version, number: nat, es: seq<Entry>, size: nat, level: nat)
    requires |v| == NUM_LEVELS && NumbersBelow(v, number) && level < NUM_LEVELS
    ensures InLevels(FlushEdit(number, es, size, level)) && FreshNames(v, FlushEdit(number, es, size, level))
  {
  }

  lemma OutputNames(v: Version, level: nat, in0: seq<File>, in1: seq<File>, outs: seq<File>, first: nat)
    requires |v| == NUM_LEVELS && NumbersBelow(v, first) && level + 1 < NUM_LEVELS
    requires forall k :: 0 <= k < |outs| ==> outs[k].number == first + k
    ensures InLevels(CompactionEdit(level, in0, in1, outs)) && FreshNames(v, CompactionEdit(level, in0, in1, outs))
  {
    var edit := CompactionEdit(level, in0, in1, outs);
    forall l | 0 <= l < NUM_LEVELS
      ensures NumbersName(AddedAt(edit, l)) && Numbers(AddedAt(edit, l)) !! Numbers(set f | f in v[l])
    {
      CompactionEditAt(level, in0, in1, outs, l);
    }
  }

  lemma MoveNames(v: Version, level: nat, f: File)
    requires |v| == NUM_LEVELS && UniqueNumbers(v) && level + 1 < NUM_LEVELS && f in v[level]
    ensures InLevels(CompactionEdit(level, [f], [], [f])) && FreshNames(v, CompactionEdit(level, [f], [], [f]))
  {
    var edit := CompactionEdit(level, [f], [], [f]);
    forall l | 0 <= l < NUM_LEVELS
      ensures NumbersName(AddedAt(edit, l)) && Numbers(AddedAt(edit, l)) !! Numbers(set g | g in v[l])
    {
      CompactionEditAt(level, [f], [], [f], l);
    }
  }

  // ---- the write queue ----

  /** A writer waiting in writers_; a null batch asks for a flush. */
  datatype Writer = Writer(batch: Option<seq<Op>>, size: nat, sync: bool)

  function OpsOf(w: Writer): seq<Op> {
    if w.batch.Some? then w.batch.value else []
  }

  function SizeOf(w: Writer): nat {
    if w.batch.Some? then w.size else 0
  }

  function GroupOps(ws: seq<Writer>): seq<Op> {
    if ws == [] then [] else GroupOps(ws[..|ws| - 1]) + OpsOf(ws[|ws| - 1])
  }

  function GroupSize(ws: seq<Writer>): nat {
    if ws == [] then 0 else GroupSize(ws[..|ws| - 1]) + SizeOf(ws[|ws| - 1])
  }

  /** The first n writers may be committed together, in a group of that size at most. */
  ghost predicate MayGroup(ws: seq<Writer>, n: nat, max: nat) {
    0 < n <= |ws| && forall k :: 1 <= k < n ==> MayJoin(ws, k, max)
  }

  /** Writer k does not make the group too large, nor asks for a sync it would not get. */
  ghost predicate MayJoin(ws: seq<Writer>, k: nat, max: nat)
    requires k < |ws|
  {
    (ws[k].sync ==> ws[0].sync) && (ws[k].batch.Some? ==> GroupSize(ws[..k + 1]) <= max)
  }

  lemma GroupSnoc(ws: seq<Writer>, n: nat)
    requires n < |ws|
    ensures GroupOps(ws[..n + 1]) == GroupOps(ws[..n]) + OpsOf(ws[n])
    ensures GroupSize(ws[..n + 1]) == GroupSize(ws[..n]) + SizeOf(ws[n])
  {
    assert ws[..n + 1][..n] == ws[..n];
  }

  /** BuildBatchGroup: the largest such group, in queue order. A small first batch may not
      be slowed down by much. */
  method BuildBatchGroup(ws: seq<Writer>) returns (ops: seq<Op>, n: nat)
    requires ws != [] && ws[0].batch.Some?
    ensures var max := if ws[0].size <= 131072 then ws[0].size + 131072 else 1048576;
            MayGroup(ws, n, max) && (n < |ws| ==> !MayJoin(ws, n, max))
    ensures ops == GroupOps(ws[..n])
  {
    var maxSize := 1048576;
    if ws[0].size <= 131072 {
      maxSize := ws[0].size + 131072;
    }
    ops, n := GrowGroup(ws, maxSize);
  }

  lemma GroupGrows(ws: seq<Writer>, n: nat, max: nat, size: nat, ops: seq<Op>)
    requires MayGroup(ws, n, max) && n < |ws| && size == GroupSize(ws[..n]) && ops == GroupOps(ws[..n])
    ensures GroupOps(ws[..n + 1]) == ops + OpsOf(ws[n]) && GroupSize(ws[..n + 1]) == size + SizeOf(ws[n])
    ensures MayGroup(ws, n + 1, max) <==> MayJoin(ws, n, max)
    ensures MayJoin(ws, n, max) <==> (ws[n].sync ==> ws[0].sync) && (ws[n].batch.Some? ==> size + ws[n].size <= max)
  {
    GroupSnoc(ws, n);
    if MayGroup(ws, n + 1, max) { assert MayJoin(ws, n, max); }
  }

  method GrowGroup(ws: seq<Writer>, maxSize: nat) returns (ops: seq<Op>, n: nat)
    requires ws != [] && ws[0].batch.Some?
    ensures MayGroup(ws, n, maxSize) && (n < |ws| ==> !MayJoin(ws, n, maxSize))
    ensures ops == GroupOps(ws[..n])
  {
    var size := ws[0].size;
    ops := ws[0].batch.value;
    n := 1;
    GroupSnoc(ws, 0);
    while n < |ws|
      invariant MayGroup(ws, n, maxSize) && ops == GroupOps(ws[..n]) && size == GroupSize(ws[..n])
    {
      GroupGrows(ws, n, maxSize, size, ops);
      if ws[n].sync && !ws[0].sync {
        break;
      }
      if ws[n].batch.Some? {
        size := size + ws[n].size;
        if size > maxSize {
          break;
        }
        ops := ops + ws[n].batch.value;
      }
      n := n + 1;
    }
  }

  /** Every writer's batch on its own, one after the other. */
  function ApplyEach(m: Image, ws: seq<Writer>): Image {
    if ws == [] then m else Runs.ApplyOps(ApplyEach(m, ws[..|ws| - 1]), OpsOf(ws[|ws| - 1]))
  }

  lemma {:induction false} ApplyOpsAppend(m: Image, a: seq<Op>, b: seq<Op>)
    ensures Runs.ApplyOps(m, a + b) == Runs.ApplyOps(Runs.ApplyOps(m, a), b)
    decreases |b|
  {
    if b == [] {
      assert a + b == a;
    } else {
      assert (a + b)[..|a + b| - 1] == a + b[..|b| - 1];
      ApplyOpsAppend(m, a, b[..|b| - 1]);
    }
  }

  /** A group commit does what the writers would do one by one, in queue order. */
  lemma {:induction false} GroupIsSequential(m: Image, ws: seq<Writer>)
    ensures Runs.ApplyOps(m, GroupOps(ws)) == ApplyEach(m, ws)
  {
    if ws != [] {
      GroupIsSequential(m, ws[..|ws| - 1]);
      ApplyOpsAppend(m, GroupOps(ws[..|ws| - 1]), OpsOf(ws[|ws| - 1]));
    }
  }

  // ---- choosing inputs ----

  lemma GoodStartListed(v: Version, level: nat, in0: seq<File>)
    requires |v| == NUM_LEVELS && level < |v| && LevelValid(v, level) && OrderedLevels(v) && GoodStart(v, level, in0)
    ensures Listed(level, in0)
  {
    if level == 0 {
      var lo, hi :| ClosedRange(v[0], lo, hi) && in0 == Overlapping(v[0], lo, hi);
      assert Ordered(v[0]);
      assert Distinct(v[0]);
      OverlappingDistinct(v[0], lo, hi);
    } else {
      var a, b :| IsSlice(v[level], a, b, in0);
      SliceListed(v[level], a, b);
    }
  }

  lemma SliceListed(fs: seq<File>, a: nat, b: nat)
    requires a <= b <= |fs| && Disjoint(fs) && forall f :: f in fs ==> ValidFile(f)
    ensures Disjoint(fs[a..b]) && Distinct(fs[a..b])
  {
    forall i, j | a <= i < j < b ensures fs[i] != fs[j] && Before(fs[i].largest, fs[j].smallest) {
      assert fs[i] in fs && fs[j] in fs;
      FileSpan(fs[j]);
      FileSpan(fs[i]);
    }
  }

  /** Inputs as PickCompaction and CompactRange return them. */
  ghost predicate Picked(v: Version, c: CompactionInputs)
    requires |v| == NUM_LEVELS
  {
    Chosen(v, c.level, c.in0, c.in1) && GoodStart(v, c.level, c.in0) && Disjoint(c.in1)
  }

  // ---- what the operations need of the state ----

  ghost predicate FilesSeen(v: Version) {
    forall l, f :: 0 <= l < |v| && f in v[l] ==> f.smallest.sequence < MAX_SEQUENCE && f.largest.sequence < MAX_SEQUENCE
  }

  ghost predicate Ready(db: Db) {
    TreeOk(db) && FilesSeen(db.version) && db.disk.logs != [] && SmallestSnapshot(db) < MAX_SEQUENCE
  }

  lemma StoredSeen(v: Version, es: seq<Entry>, s: nat)
    requires (forall l, f :: 0 <= l < |v| && f in v[l] ==> ValidFile(f))
    requires Stored(v) <= SetOf(es) && Bounded(es, s) && s < MAX_SEQUENCE
    ensures FilesSeen(v)
  {
    forall l, f | 0 <= l < |v| && f in v[l] ensures f.smallest.sequence < MAX_SEQUENCE && f.largest.sequence < MAX_SEQUENCE {
      assert ValidFile(f);
      var a, b := f.entries[0], f.entries[|f.entries| - 1];
      assert a in f.entries && b in f.entries;
      assert a in Stored(v) && b in Stored(v);
    }
  }

  lemma WriteIs(db: Db, ops: seq<Op>, r: Record, mem: seq<Entry>, logs: seq<Log>)
    requires db.disk.logs != [] && r == NextRecord(db, ops)
    requires mem == InsertAll(db.mem, EntriesOf(r)) && logs == AppendRecord(db.disk.logs, r)
    ensures DoWrite(db, ops)
         == db.(mem := mem, lastSequence := db.lastSequence + |ops|, disk := db.disk.(logs := logs), history := db.history + [r])
  {
  }

  /** Every reachable state is ready for every operation. */
  lemma InvIsReady(db: Db)
    requires Inv(db)
    ensures Ready(db)
  {
    StoredSeen(db.version, Flat(db.history[..db.flushed]), db.disk.lastSequence);
  }

  lemma LevelForFlush(v: Version, level: nat, es: seq<Entry>)
    requires |v| == NUM_LEVELS && level < NUM_LEVELS && es != []
    requires level > 0 ==> NoneOverlap(v, level, es[0].key.user, es[|es| - 1].key.user)
    ensures FlushLevel(v, level, es)
  {
    if level > 0 {
      forall l | 0 <= l <= level ensures NoOverlap(v[l], TableOf(0, es, 0)) {
        assert !LevelOverlaps(v, l, es[0].key.user, es[|es| - 1].key.user);
      }
    }
  }

  ghost predicate NoneOverlap(v: Version, level: nat, lo: UserKey, hi: UserKey)
    requires level < |v|
  {
    forall l :: 0 <= l <= level ==> !LevelOverlaps(v, l, lo, hi)
  }

  lemma FlushedStays(db: Db, v: Version)
    requires db.imm.Some?
    ensures var disk := DoDeleteObsolete(DoFlush(db, v)).disk;
            (forall n :: n in disk.tables <==>
               ((n in db.disk.tables || (n == db.nextFile && db.imm.value != []))
                && exists w: Version, l: nat, f: File :: (w == v || w in db.pins) && 0 <= l < |w| && f in w[l] && f.number == n))
            && (forall log :: log in disk.logs <==> log in db.disk.logs && log.number >= db.logFileNumber)
  {
    DeletesExactly(DoFlush(db, v));
  }

  // ---- the database object ----

  class DBImpl {
    const maxFileSize: nat
    var mem: seq<Entry>
    var imm: Option<seq<Entry>>
    var version: Version
    var lastSequence: nat
    var logFileNumber: nat
    var logNumber: nat
    var nextFile: nat
    var snapshots: seq<nat>          // SnapshotList: the sequence numbers, oldest first
    var pins: seq<Version>
    var disk: Disk
    var writers: seq<Writer>
    var compactPointers: seq<Option<InternalKey>>   // compact_pointer_, by level
    ghost var history: seq<Record>
    ghost var flushed: nat
    ghost var switched: nat
    ghost var held: seq<Snapshot>    // the same snapshots, each with its map

    ghost predicate Linked()
      reads this`snapshots, this`held, this`compactPointers
    {
      |compactPointers| == NUM_LEVELS && |held| == |snapshots| && forall i :: 0 <= i < |held| ==> held[i].sequence == snapshots[i]
    }

    ghost function State(): Db
      reads this
    {
      Db(mem, imm, version, lastSequence, logFileNumber, logNumber, nextFile, held, pins, disk,
         history, flushed, switched)
    }

    constructor (maxFileSize: nat)
      ensures State() == INITIAL && Linked() && writers == [] && this.maxFileSize == maxFileSize
    {
      this.maxFileSize := maxFileSize;
      mem, imm, version, lastSequence, logFileNumber, logNumber, nextFile := [], None, EMPTY_VERSION, 0, 3, 3, 4;
      snapshots, pins, writers := [], [], [];
      compactPointers := [None, None, None, None, None, None, None];
      disk := Disk(EMPTY_VERSION, 3, 0, 4, [Log(3, [])], {});
      history, flushed, switched, held := [], 0, 0, [];
    }

    method Enqueue(w: Writer)
      modifies this`writers
      ensures writers == old(writers) + [w]
    {
      writers := writers + [w];
    }

    /** The log first, then the memtable, then the sequence number. */
    method LogAndInsert(r: Record)
      requires disk.logs != []
      modifies `mem, `lastSequence, `disk, `history
      ensures disk == old(disk).(logs := AppendRecord(old(disk).logs, r)) && mem == InsertAll(old(mem), EntriesOf(r))
      ensures lastSequence == old(lastSequence) + |r.ops| && history == old(history) + [r]
    {
      disk := disk.(logs := AppendRecord(disk.logs, r));
      mem := InsertOps(mem, r.ops, r.first);
      lastSequence := lastSequence + |r.ops|;
      history := history + [r];
    }

    /** One group as one record. */
    method AddRecord(ops: seq<Op>)
      requires disk.logs != []
      modifies `mem, `lastSequence, `disk, `history
      ensures State() == DoWrite(old(State()), ops)
    {
      var r := Record(lastSequence + 1, ops);
      LogAndInsert(r);
      WriteIs(old(State()), ops, r, mem, disk.logs);
    }

    /** Write, for the writer at the head of the queue, once there is room: commits the
        head's group as one record and wakes the group's writers. A head with a null
        batch commits nothing and wakes nobody else. */
    method CommitGroup() returns (n: nat)
      requires disk.logs != [] && writers != []
      modifies `mem, `lastSequence, `disk, `history, `writers
      ensures n <= |old(writers)| && writers == old(writers)[n..]
      ensures old(writers)[0].batch.Some? ==>
        var first := old(writers)[0].size;
        var max := if first <= 131072 then first + 131072 else 1048576;
        MayGroup(old(writers), n, max) && (n < |old(writers)| ==> !MayJoin(old(writers), n, max))
      ensures old(writers)[0].batch.Some? ==> State() == DoWrite(old(State()), GroupOps(old(writers)[..n]))
      ensures old(writers)[0].batch.None? ==> n == 1 && State() == old(State())
    {
      if writers[0].batch.None? {
        n := 1;
        writers := writers[1..];
        return;
      }
      var ops;
      ops, n := BuildBatchGroup(writers);
      AddRecord(ops);
      writers := writers[n..];
    }

    /** MakeRoomForWrite, where it gives the full memtable up for flushing. */
    method SwitchMemTable()
      requires imm.None?
      modifies `mem, `imm, `nextFile, `logFileNumber, `disk, `switched
      ensures State() == DoSwitch(old(State()))
    {
      var number := nextFile;
      nextFile := nextFile + 1;
      disk := disk.(logs := disk.logs + [Log(number, [])]);
      logFileNumber := number;
      imm := Some(mem);
      mem := [];
      switched := |history|;
    }

    /** Records the edit's result in the manifest and makes it current. */
    method LogAndApply(edit: Edit, newLogNumber: nat, newTables: set<nat>)
      requires |version| == NUM_LEVELS && OrderedLevels(version) && InLevels(edit) && FreshNames(version, edit)
      modifies `version, `logNumber, `disk
      ensures Installs(old(version), edit, version)
      ensures State() == Install(old(State()), version, newLogNumber, old(nextFile), newTables)
    {
      version := ApplyEdit(version, edit);
      logNumber := newLogNumber;
      disk := disk.(version := version, logNumber := logNumber, lastSequence := lastSequence,
                    nextFile := nextFile, tables := disk.tables + newTables);
    }

    /** Down as long as nothing overlaps, to level 2 at most, and while not too much of the
        level after next does. */
    ghost predicate GoesTo(v: Version, es: seq<Entry>, level: nat)
      requires |v| == NUM_LEVELS
    {
      if es == [] then level == 0 else
        var lo, hi := es[0].key.user, es[|es| - 1].key.user;
        && level <= 2
        && (level == 0 || forall l, f :: 0 <= l <= level && f in v[l] ==> f.largest.user < lo || hi < f.smallest.user)
        && (level == 0 || forall l :: 2 <= l <= level + 1 ==>
              W.TotalFileSize(Overlapping(v[l], Some(lo), Some(hi))) <= 10 * maxFileSize)
        && (level < 2 ==>
              || (exists l, f :: 0 <= l <= level + 1 && f in v[l] && f.smallest.user <= hi && lo <= f.largest.user)
              || W.TotalFileSize(Overlapping(v[level + 2], Some(lo), Some(hi))) > 10 * maxFileSize)
    }

    /** WriteLevel0Table's choice of level. */
    method PickFlushLevel(es: seq<Entry>) returns (level: nat)
      requires LevelsValid(version) && FilesSeen(version)
      ensures FlushLevel(version, level, es) && GoesTo(version, es, level)
    {
      level := 0;
      if es != [] {
        level := PickLevelForMemTableOutput(version, es[0].key.user, es[|es| - 1].key.user, maxFileSize);
        LevelForFlush(version, level, es);
      }
    }

    /** Writes the immutable memtable out as a table and installs it. */
    method FlushImm(fileSize: seq<Entry> -> nat) returns (ghost level: nat, ghost v: Version)
      requires Ready(State()) && imm.Some?
      modifies `imm, `version, `logNumber, `nextFile, `disk, `flushed
      ensures CanFlush(old(State()), level, fileSize(old(imm).value), v)
      ensures |old(version)| == NUM_LEVELS && GoesTo(old(version), old(imm).value, level)
      ensures State() == DoFlush(old(State()), v)
    {
      var l := PickFlushLevel(imm.value);
      level := l;
      v := InstallFlush(l, fileSize);
    }

    /** Writes the table and installs it at the level. */
    method InstallFlush(l: nat, fileSize: seq<Entry> -> nat) returns (ghost v: Version)
      requires Ready(State()) && imm.Some? && FlushLevel(version, l, imm.value)
      modifies `imm, `version, `logNumber, `nextFile, `disk, `flushed
      ensures CanFlush(old(State()), l, fileSize(old(imm).value), v)
      ensures State() == DoFlush(old(State()), v)
    {
      var number := nextFile;
      nextFile := nextFile + 1;
      var es := imm.value;
      var size := fileSize(es);
      var edit := FlushEdit(number, es, size, l);
      FlushNames(version, number, es, size, l);
      LogAndApply(edit, logFileNumber, if es == [] then {} else {number});
      v := version;
      imm := None;
      flushed := switched;
    }

    method CompactMemTable(fileSize: seq<Entry> -> nat) returns (ghost level: nat, ghost v: Version)
      requires Ready(State()) && imm.Some?
      modifies `imm, `version, `logNumber, `nextFile, `disk, `flushed
      ensures CanFlush(old(State()), level, fileSize(old(imm).value), v)
      ensures |old(version)| == NUM_LEVELS && GoesTo(old(version), old(imm).value, level)
      ensures State() == DoDeleteObsolete(DoFlush(old(State()), v))
      ensures forall n :: n in disk.tables <==>
        ((n in old(disk).tables || (n == old(nextFile) && old(imm).value != []))
         && exists w: Version, l: nat, f: File :: (w == version || w in pins) && 0 <= l < |w| && f in w[l] && f.number == n)
      ensures forall log :: log in disk.logs <==> log in old(disk).logs && log.number >= old(logFileNumber)
    {
      ghost var was := State();
      level, v := FlushImm(fileSize);
      DeleteObsoleteFiles();
      FlushedStays(was, v);
    }

    /** Keeps the tables of live versions and the logs still needed. */
    method DeleteObsoleteFiles()
      modifies this`disk
      ensures State() == DoDeleteObsolete(old(State()))
      ensures forall n :: n in disk.tables <==>
        (n in old(disk).tables
         && exists v: Version, l: nat, f: File :: (v == version || v in pins) && 0 <= l < |v| && f in v[l] && f.number == n)
      ensures forall log :: log in disk.logs <==> log in old(disk).logs && log.number >= logNumber
    {
      DeletesExactly(State());
      var live := AddLiveFiles();
      var logs := NeededLogs(disk.logs, logNumber);
      disk := disk.(logs := logs, tables := set n | n in disk.tables && n in live);
    }

    // ---- compactions ----

    /** The trivial move of BackgroundCompaction. */
    method MoveFile(level: nat, f: File)
      requires Ready(State()) && Chosen(version, level, [f], [])
      modifies `version, `logNumber, `disk
      ensures CanMove(old(State()), level, f, version) && State() == DoMove(old(State()), version)
    {
      assert f in [f];
      MoveNames(version, level, f);
      LogAndApply(CompactionEdit(level, [f], [], [f]), logNumber, {});
    }

    method OldestSnapshot() returns (s: nat)
      requires Linked()
      ensures s == SmallestSnapshot(State())
    {
      s := if snapshots == [] then lastSequence else snapshots[0];
    }

    method InstallCompactionResults(level: nat, in0: seq<File>, in1: seq<File>, outs: seq<File>)
      requires |version| == NUM_LEVELS && OrderedLevels(version) && NumbersBelow(version, nextFile)
      requires level + 1 < NUM_LEVELS && forall k :: 0 <= k < |outs| ==> outs[k].number == nextFile + k
      modifies `version, `logNumber, `disk, `nextFile
      ensures Installs(old(version), CompactionEdit(level, in0, in1, outs), version)
      ensures State() == DoCompact(old(State()), outs, version)
    {
      OutputNames(version, level, in0, in1, outs, nextFile);
      nextFile := nextFile + |outs|;
      LogAndApply(CompactionEdit(level, in0, in1, outs), logNumber, TableNumbers(outs));
    }

    /** DoCompactionWork: read the merged input, write what the drop rule keeps, install. */
    method CompactFiles(c: CompactionInputs, fileSize: seq<Entry> -> nat)
      returns (ghost input: seq<Entry>, ghost outs: seq<File>)
      requires Ready(State()) && Linked() && Picked(version, c)
      modifies `version, `logNumber, `disk, `nextFile
      ensures Compacts(old(State()), c.level, c.in0, c.in1, input, outs, version)
      ensures State() == DoCompact(old(State()), outs, version)
    {
      GoodStartListed(version, c.level, c.in0);
      var merged := ReadInput(version, c.level, c.in0, c.in1);
      var outputs := Work(c, merged, fileSize);
      input, outs := merged, outputs;
      InstallCompactionResults(c.level, c.in0, c.in1, outputs);
    }

    method Work(c: CompactionInputs, input: seq<Entry>, fileSize: seq<Entry> -> nat) returns (outputs: seq<File>)
      requires Ready(State()) && Linked() && c.level + 1 < NUM_LEVELS && Sorted(input)
      ensures CompactionOutputs(version, c.level, input, SmallestSnapshot(State()), nextFile, outputs)
    {
      var compaction := new W.Compaction(version, c.level, c.grandparents, maxFileSize);
      var snap := OldestSnapshot();
      outputs := compaction.DoCompactionWork(input, snap, nextFile, fileSize);
    }

    /** BackgroundCompaction with its inputs picked: a move when allowed, else a full
        compaction followed by the deletion of what it replaced. */
    method RunCompaction(c: CompactionInputs, manual: bool, fileSize: seq<Entry> -> nat)
      returns (moved: bool, ghost input: seq<Entry>, ghost outs: seq<File>)
      requires Ready(State()) && Linked() && Picked(version, c)
      modifies `version, `logNumber, `disk, `nextFile
      ensures moved <==> !manual && |c.in0| == 1 && c.in1 == [] && W.TotalFileSize(c.grandparents) <= 10 * maxFileSize
      ensures moved ==> CanMove(old(State()), c.level, c.in0[0], version) && State() == DoMove(old(State()), version)
      ensures !moved ==>
        Compacts(old(State()), c.level, c.in0, c.in1, input, outs, version)
        && State() == DoDeleteObsolete(DoCompact(old(State()), outs, version))
      ensures !moved ==> forall n :: n in disk.tables <==>
        ((n in old(disk).tables || exists o :: o in outs && o.number == n)
         && exists v: Version, l: nat, f: File :: (v == version || v in pins) && 0 <= l < |v| && f in v[l] && f.number == n)
      ensures !moved ==> forall log :: log in disk.logs <==> log in old(disk).logs && log.number >= logNumber
    {
      moved := IsTrivialMove(c, maxFileSize);
      moved := moved && !manual;
      input, outs := [], [];
      if moved {
        assert c.in0 == [c.in0[0]];
        MoveFile(c.level, c.in0[0]);
      } else {
        input, outs := CompactFiles(c, fileSize);
        DeleteObsoleteFiles();
      }
    }

    /** The picked compaction; its level's compaction pointer has moved on already. */
    method RunPicked(c: CompactionInputs, manual: bool, fileSize: seq<Entry> -> nat)
      returns (moved: bool, ghost input: seq<Entry>, ghost outs: seq<File>)
      requires Ready(State()) && Linked() && Picked(version, c)
      modifies `version, `logNumber, `disk, `nextFile, `compactPointers
      ensures compactPointers == old(compactPointers)[c.level := Some(c.pointer)]
      ensures moved <==> !manual && |c.in0| == 1 && c.in1 == [] && W.TotalFileSize(c.grandparents) <= 10 * maxFileSize
      ensures moved ==> CanMove(old(State()), c.level, c.in0[0], version) && State() == DoMove(old(State()), version)
      ensures !moved ==>
        Compacts(old(State()), c.level, c.in0, c.in1, input, outs, version)
        && State() == DoDeleteObsolete(DoCompact(old(State()), outs, version))
    {
      compactPointers := compactPointers[c.level := Some(c.pointer)];
      moved, input, outs := RunCompaction(c, manual, fileSize);
    }

    /** BackgroundCompaction without a request: nothing happens exactly when no level is
        over its limit and no file had too many seeks. */
    method AutoCompaction(seek: Option<(nat, File)>, fileSize: seq<Entry> -> nat)
      returns (c: Option<CompactionInputs>, moved: bool, ghost f: File, ghost input: seq<Entry>, ghost outs: seq<File>)
      requires Ready(State()) && Linked()
      requires seek.Some? ==> seek.value.0 + 1 < NUM_LEVELS && seek.value.1 in version[seek.value.0]
      modifies `version, `logNumber, `disk, `nextFile, `compactPointers
      ensures c.None? <==> seek.None? && forall l :: 0 <= l < NUM_LEVELS - 1 ==> Score(old(version), l) < 1.0
      ensures c.None? ==> State() == old(State()) && compactPointers == old(compactPointers)
      ensures c.Some? ==> WellPicked(old(version), c.value)
      ensures c.Some? ==> StartsFrom(old(version), old(compactPointers), seek, c.value.level, f) && f in c.value.in0
      ensures c.Some? ==> compactPointers == old(compactPointers)[c.value.level := Some(c.value.pointer)]
      ensures moved <==>
        c.Some? && |c.value.in0| == 1 && c.value.in1 == [] && W.TotalFileSize(c.value.grandparents) <= 10 * maxFileSize
      ensures c.Some? && moved ==>
        CanMove(old(State()), c.value.level, c.value.in0[0], version) && State() == DoMove(old(State()), version)
      ensures c.Some? && !moved ==>
        Compacts(old(State()), c.value.level, c.value.in0, c.value.in1, input, outs, version)
        && State() == DoDeleteObsolete(DoCompact(old(State()), outs, version))
    {
      moved, input, outs := false, [], [];
      c, f := PickCompaction(version, compactPointers, seek, maxFileSize);
      if c.Some? {
        moved, input, outs := RunPicked(c.value, false, fileSize);
      }
    }

    /** The same for a requested key range; nothing happens when no file overlaps it. */
    method ManualCompaction(level: nat, begin: Bound, end: Bound, fileSize: seq<Entry> -> nat)
      returns (c: Option<CompactionInputs>, ghost input: seq<Entry>, ghost outs: seq<File>)
      requires Ready(State()) && Linked() && level + 1 < NUM_LEVELS
      modifies `version, `logNumber, `disk, `nextFile, `compactPointers
      ensures c.None? ==> State() == old(State()) && compactPointers == old(compactPointers)
      ensures c.None? <==> forall f :: f in old(version)[level] ==> !InRange(f, begin, end)
      ensures c.Some? && level == 0 ==> forall f :: f in old(version)[0] && InRange(f, begin, end) ==> f in c.value.in0
      ensures c.Some? && level > 0 ==> StartsWithHits(old(version)[level], begin, end, maxFileSize, c.value.in0)
      ensures c.Some? ==> WellPicked(old(version), c.value) && c.value.level == level
      ensures c.Some? ==> compactPointers == old(compactPointers)[level := Some(c.value.pointer)]
      ensures c.Some? ==>
        Compacts(old(State()), c.value.level, c.value.in0, c.value.in1, input, outs, version)
        && State() == DoDeleteObsolete(DoCompact(old(State()), outs, version))
    {
      input, outs := [], [];
      c := CompactRange(version, level, begin, end, maxFileSize);
      if c.Some? {
        var moved;
        moved, input, outs := RunPicked(c.value, true, fileSize);
      }
    }

    // ---- readers ----

    method GetSnapshot()
      requires Linked()
      modifies `snapshots, `held
      ensures Linked() && State() == DoSnapshot(old(State()))
    {
      held := held + [Snapshot(lastSequence, Current(State()))];
      snapshots := snapshots + [lastSequence];
    }

    method ReleaseSnapshot(i: nat)
      requires Linked() && i < |snapshots|
      modifies `snapshots, `held
      ensures Linked() && State() == DoRelease(old(State()), i)
    {
      held := held[..i] + held[i + 1..];
      snapshots := snapshots[..i] + snapshots[i + 1..];
    }

    /** Get, at a held snapshot or at the current sequence: the map as it was then. */
    method Get(u: UserKey, snapshot: Option<nat>) returns (r: Outcome)
      requires Inv(State()) && Linked() && (snapshot.Some? ==> snapshot.value < |snapshots|)
      ensures r == Answer(if snapshot.Some? then held[snapshot.value].image else Runs.MapOf(history), u)
    {
      var s := if snapshot.Some? then snapshots[snapshot.value] else lastSequence;
      Runs.CurrentIsMap(State());
      r := Database.Get(mem, imm, version, u, s, State());
    }

    method AddLiveFiles() returns (live: set<nat>)
      ensures live == AllLive(State())
    {
      live := LiveFiles(version);
      for i := 0 to |pins|
        invariant live == LiveFiles(version) + PinnedFiles(pins[..i])
      {
        assert pins[..i + 1] == pins[..i] + [pins[i]];
        live := live + LiveFiles(pins[i]);
      }
      assert pins[..|pins|] == pins;
    }
  }

  /** What the flush and the compaction leave behind is in order again. */
  lemma FlushAndCleanKeepInv(db: Db, level: nat, size: nat, v: Version)
    requires Inv(db) && CanFlush(db, level, size, v)
    ensures Inv(DoDeleteObsolete(DoFlush(db, v)))
  {
    FlushKeepsInv(db, level, size, v);
    DeleteKeepsInv(DoFlush(db, v));
  }

  lemma CompactAndCleanKeepInv(db: Db, c: CompactionInputs, input: seq<Entry>, outs: seq<File>, v: Version)
    requires Inv(db) && CanCompact(db, c.level, c.in0, c.in1, input, outs, v)
    ensures Inv(DoDeleteObsolete(DoCompact(db, outs, v)))
  {
    CompactKeepsInv(db, c.level, c.in0, c.in1, input, outs, v);
    DeleteKeepsInv(DoCompact(db, outs, v));
  }

  ghost function PinnedFiles(pins: seq<Version>): set<nat> {
    set v, n | v in pins && n in LiveFiles(v) :: n
  }

  method NeededLogs(all: seq<Log>, min: nat) returns (logs: seq<Log>)
    ensures logs == DropLogs(all, min)
  {
    logs := [];
    for i := 0 to |all|
      invariant logs == DropLogs(all[..i], min)
    {
      assert all[..i + 1][..i] == all[..i];
      if all[i].number >= min {
        logs := logs + [all[i]];
      }
    }
    assert all[..|all|] == all;
  }
}
