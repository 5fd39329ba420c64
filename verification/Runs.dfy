/** Whole runs of the store: every reachable state is in order, and seen from outside
    it is a plain map with snapshots that loses at most a torn tail in a crash. */
module Runs {
  import opened Format
  import opened Tables
  import opened History
  import opened Database
  import opened Steps
  import opened Recovery

  datatype Action =
    | Commit(ops: seq<Op>)
    | SwitchMemTable
    | FlushMemTable(level: nat, size: nat, installed: Version)
    | MoveFile(level: nat, file: File, installed: Version)
    | Compact(level: nat, in0: seq<File>, in1: seq<File>, input: seq<Entry>, outs: seq<File>, installed: Version)
    | TakeSnapshot
    | ReleaseSnapshot(index: nat)
    | PinVersion
    | UnpinVersion(index: nat)
    | DeleteObsoleteFiles
    | CrashAndOpen(lost: nat, strays: seq<Log>, orphans: set<nat>, logs: seq<CutLog>,
                   tableSize: seq<Entry> -> nat, installed: Version)

  ghost predicate Enabled(db: Db, a: Action) {
    match a
    case Commit(ops) => db.disk.logs != [] && db.lastSequence + |ops| < MAX_SEQUENCE
    case SwitchMemTable => db.imm.None?
    case FlushMemTable(level, size, v) => CanFlush(db, level, size, v)
    case MoveFile(level, f, v) => CanMove(db, level, f, v)
    case Compact(level, in0, in1, input, outs, v) => CanCompact(db, level, in0, in1, input, outs, v)
    case TakeSnapshot => true
    case ReleaseSnapshot(i) => i < |db.snapshots|
    case PinVersion => true
    case UnpinVersion(i) => i < |db.pins|
    case DeleteObsoleteFiles => true
    case CrashAndOpen(lost, strays, orphans, cl, size, v) =>
      CanLose(db.disk, lost) && db.flushed <= |db.history| && StrayLogs(db.disk, strays)
      && CanRecover(CrashedDisk(db.disk, lost, strays, orphans), cl, size, v)
  }

  ghost function Next(db: Db, a: Action): Db
    requires Enabled(db, a)
  {
    match a
    case Commit(ops) => DoWrite(db, ops)
    case SwitchMemTable => DoSwitch(db)
    case FlushMemTable(_, _, v) => DoFlush(db, v)
    case MoveFile(_, _, v) => DoMove(db, v)
    case Compact(_, _, _, _, outs, v) => DoCompact(db, outs, v)
    case TakeSnapshot => DoSnapshot(db)
    case ReleaseSnapshot(i) => DoRelease(db, i)
    case PinVersion => DoPin(db)
    case UnpinVersion(i) => DoUnpin(db, i)
    case DeleteObsoleteFiles => DoDeleteObsolete(db)
    case CrashAndOpen(lost, strays, orphans, cl, _, v) => AfterCrash(db, lost, strays, orphans, cl, v)
  }

  /** Every step keeps the invariant. */
  lemma StepKeepsInv(db: Db, a: Action)
    requires Inv(db) && Enabled(db, a)
    ensures Inv(Next(db, a))
  {
    match a
    case Commit(ops) => WriteKeepsInv(db, ops);
    case SwitchMemTable => SwitchKeepsInv(db);
    case FlushMemTable(level, size, v) => FlushKeepsInv(db, level, size, v);
    case MoveFile(level, f, v) => MoveKeepsInv(db, level, f, v);
    case Compact(level, in0, in1, input, outs, v) => CompactKeepsInv(db, level, in0, in1, input, outs, v);
    case TakeSnapshot => SnapshotKeepsInv(db);
    case ReleaseSnapshot(i) => ReleaseKeepsInv(db, i);
    case PinVersion => PinKeepsInv(db);
    case UnpinVersion(i) => UnpinKeepsInv(db, i);
    case DeleteObsoleteFiles => DeleteKeepsInv(db);
    case CrashAndOpen(lost, strays, orphans, cl, size, v) => RecoverKeepsInv(db, lost, strays, orphans, cl, size, v);
  }

  // ---- the store seen from outside ----

  function ApplyOp(m: Image, op: Op): Image {
    match op
    case Put(u, v) => m[u := v]
    case Delete(u) => m - {u}
  }

  function ApplyOps(m: Image, ops: seq<Op>): Image {
    if ops == [] then m else ApplyOp(ApplyOps(m, ops[..|ops| - 1]), ops[|ops| - 1])
  }

  /** The map after the batches, with no word about sequence numbers. */
  function MapOf(rs: seq<Record>): Image {
    if rs == [] then map[] else ApplyOps(MapOf(rs[..|rs| - 1]), rs[|rs| - 1].ops)
  }

  lemma ReplaySnoc(h: seq<Entry>, e: Entry, s: nat)
    ensures Replay(h + [e], s) == if e.key.sequence <= s then Apply(Replay(h, s), e) else Replay(h, s)
  {
    assert (h + [e])[..|h|] == h;
  }

  lemma {:induction false} ReplayOps(h: seq<Entry>, ops: seq<Op>, first: nat, s: nat)
    requires first + |ops| <= s + 1
    ensures Replay(h + Numbered(ops, first), s) == ApplyOps(Replay(h, s), ops)
    decreases |ops|
  {
    if ops == [] {
      assert h + [] == h;
    } else {
      var init := Numbered(ops[..|ops| - 1], first);
      var e := EntryOf(ops[|ops| - 1], first + |ops| - 1);
      ReplayOps(h, ops[..|ops| - 1], first, s);
      assert h + (init + [e]) == (h + init) + [e];
      ReplaySnoc(h + init, e, s);
    }
  }

  lemma {:induction false} ReplayIsMap(rs: seq<Record>, s: nat)
    requires RecordsBelow(rs, s)
    ensures Replay(Flat(rs), s) == MapOf(rs)
    decreases |rs|
  {
    if rs != [] {
      var init, r := rs[..|rs| - 1], rs[|rs| - 1];
      assert r in rs;
      ReplayIsMap(init, s);
      ReplayOps(Flat(init), r.ops, r.first, s);
    }
  }

  lemma CurrentIsMap(db: Db)
    requires HistoryOk(db)
    ensures Current(db) == MapOf(db.history)
  {
    ReplayIsMap(db.history, db.lastSequence);
  }

  // ---- the specification ----

  /** The batches committed and not lost, and the maps of the held snapshots. */
  datatype Spec = Spec(batches: seq<seq<Op>>, snapshots: seq<Image>)

  /** The map after the batches. */
  function MapAfter(batches: seq<seq<Op>>): Image {
    if batches == [] then map[] else ApplyOps(MapAfter(batches[..|batches| - 1]), batches[|batches| - 1])
  }

  /** A map with snapshots; a crash drops the snapshots and the last few batches. */
  function SpecNext(s: Spec, a: Action): Spec {
    match a
    case Commit(ops) => s.(batches := s.batches + [ops])
    case TakeSnapshot => s.(snapshots := s.snapshots + [MapAfter(s.batches)])
    case ReleaseSnapshot(i) => if i < |s.snapshots| then s.(snapshots := s.snapshots[..i] + s.snapshots[i + 1..]) else s
    case CrashAndOpen(lost, _, _, _, _, _) => if lost <= |s.batches| then Spec(s.batches[..|s.batches| - lost], []) else s
    case _ => s
  }

  /** What the specification says after the actions, which is all it is told. */
  function SpecAfter(actions: seq<Action>): Spec {
    if actions == [] then Spec([], []) else SpecNext(SpecAfter(actions[..|actions| - 1]), actions[|actions| - 1])
  }

  /** What a client can tell apart: the current map and the held snapshots' maps. */
  datatype View = View(current: Image, snapshots: seq<Image>)

  function Shown(s: Spec): View {
    View(MapAfter(s.batches), s.snapshots)
  }

  /** The entries stored in memtables and tables read as the map m at a snapshot. */
  ghost predicate ReadsAs(es: set<Entry>, s: nat, m: Image) {
    forall u :: Reads(es, u, s, Answer(m, u))
  }

  /** A client of the store sees w: every key it can read, now or at a snapshot it holds,
      reads from the stored entries as w says. */
  ghost predicate Sees(db: Db, w: View) {
    && ReadsAs(Everything(db), db.lastSequence, w.current)
    && |w.snapshots| == |db.snapshots|
    && forall i :: 0 <= i < |db.snapshots| ==> ReadsAs(Everything(db), db.snapshots[i].sequence, w.snapshots[i])
  }

  function BatchesOf(rs: seq<Record>): seq<seq<Op>> {
    seq(|rs|, i requires 0 <= i < |rs| => rs[i].ops)
  }

  lemma {:induction false} MapOfBatches(rs: seq<Record>)
    ensures MapAfter(BatchesOf(rs)) == MapOf(rs)
  {
    if rs != [] {
      MapOfBatches(rs[..|rs| - 1]);
      assert BatchesOf(rs)[..|rs| - 1] == BatchesOf(rs[..|rs| - 1]);
    }
  }

  function Images(snapshots: seq<Snapshot>): seq<Image> {
    seq(|snapshots|, i requires 0 <= i < |snapshots| => snapshots[i].image)
  }

  ghost function SpecOf(db: Db): Spec {
    Spec(BatchesOf(db.history), Images(db.snapshots))
  }

  lemma SameMap(m: Image, n: Image)
    requires forall u :: Answer(m, u) == Answer(n, u)
    ensures m == n
  {
    forall u ensures u in m <==> u in n {
      assert Answer(m, u) == Answer(n, u);
    }
    forall u | u in m ensures m[u] == n[u] {
      assert Answer(m, u) == Answer(n, u);
    }
  }

  lemma ReadsAsOne(es: set<Entry>, s: nat, m: Image, n: Image)
    requires UniqueSequences(es) && ReadsAs(es, s, m) && ReadsAs(es, s, n)
    ensures m == n
  {
    forall u ensures Answer(m, u) == Answer(n, u) {
      ReadsUnique(es, u, s, Answer(m, u), Answer(n, u));
    }
    SameMap(m, n);
  }

  /** A store in order shows exactly one view, that of its committed batches. */
  lemma SeesExactly(db: Db, w: View)
    requires Inv(db)
    ensures Sees(db, w) <==> w == Shown(SpecOf(db))
  {
    var x := Shown(SpecOf(db));
    SeesOwn(db);
    PartsSorted(db);
    if Sees(db, w) {
      ReadsAsOne(Everything(db), db.lastSequence, w.current, x.current);
      forall i | 0 <= i < |db.snapshots| ensures w.snapshots[i] == x.snapshots[i] {
        ReadsAsOne(Everything(db), db.snapshots[i].sequence, w.snapshots[i], x.snapshots[i]);
      }
    }
  }

  lemma SeesOwn(db: Db)
    requires Inv(db)
    ensures Sees(db, Shown(SpecOf(db)))
  {
    StoreAnswers(db);
    CurrentIsMap(db);
    MapOfBatches(db.history);
    SmallestIsLeast(db);
  }

  lemma SmallestIsLeast(db: Db)
    requires SnapshotsOk(db)
    ensures SmallestSnapshot(db) <= db.lastSequence
    ensures forall i :: 0 <= i < |db.snapshots| ==> db.snapshots[i].sequence >= SmallestSnapshot(db)
  {
  }

  // ---- each step does what the specification says ----

  lemma CommitRefines(db: Db, ops: seq<Op>)
    requires db.disk.logs != []
    ensures SpecOf(DoWrite(db, ops)) == SpecOf(db).(batches := BatchesOf(db.history) + [ops])
  {
  }

  lemma SnapshotRefines(db: Db)
    requires HistoryOk(db)
    ensures SpecOf(DoSnapshot(db)) == Spec(BatchesOf(db.history), Images(db.snapshots) + [MapAfter(BatchesOf(db.history))])
  {
    CurrentIsMap(db);
    MapOfBatches(db.history);
  }

  lemma ReleaseRefines(db: Db, i: nat)
    requires i < |db.snapshots|
    ensures Images(DoRelease(db, i).snapshots) == Images(db.snapshots)[..i] + Images(db.snapshots)[i + 1..]
  {
  }

  lemma CrashLeaves(db: Db, lost: nat, strays: seq<Log>, orphans: set<nat>, cl: seq<CutLog>, size: seq<Entry> -> nat, v: Version)
    requires Inv(db) && CanLose(db.disk, lost) && StrayLogs(db.disk, strays)
    requires CanRecover(CrashedDisk(db.disk, lost, strays, orphans), cl, size, v)
    ensures lost <= |db.history| && AfterCrash(db, lost, strays, orphans, cl, v).history == db.history[..|db.history| - lost]
    ensures AfterCrash(db, lost, strays, orphans, cl, v).snapshots == []
  {
    RecoverKeepsInv(db, lost, strays, orphans, cl, size, v);
  }

  lemma CrashRefines(db: Db, a: Action, db': Db)
    requires a.CrashAndOpen? && a.lost <= |db.history|
    requires db'.history == db.history[..|db.history| - a.lost] && db'.snapshots == []
    ensures SpecOf(db') == SpecNext(SpecOf(db), a)
  {
    assert Images([]) == [];
    BatchesOfPrefix(db.history, |db.history| - a.lost);
  }

  lemma BatchesOfPrefix(rs: seq<Record>, n: nat)
    requires n <= |rs|
    ensures BatchesOf(rs[..n]) == BatchesOf(rs)[..n]
  {
  }

  predicate Silent(a: Action) {
    !a.Commit? && !a.TakeSnapshot? && !a.ReleaseSnapshot? && !a.CrashAndOpen?
  }

  lemma InvHistory(db: Db)
    requires Inv(db)
    ensures HistoryOk(db)
  {
  }

  ghost predicate Refines(db: Db, a: Action)
    requires Enabled(db, a)
  {
    SpecOf(Next(db, a)) == SpecNext(SpecOf(db), a)
  }

  lemma CommitStep(db: Db, a: Action)
    requires Enabled(db, a) && a.Commit?
    ensures Refines(db, a)
  {
    CommitRefines(db, a.ops);
  }

  lemma SnapshotStep(db: Db, a: Action)
    requires Inv(db) && Enabled(db, a) && (a.TakeSnapshot? || a.ReleaseSnapshot?)
    ensures Refines(db, a)
  {
    InvHistory(db);
    if a.TakeSnapshot? { SnapshotRefines(db); } else { ReleaseRefines(db, a.index); }
  }

  lemma CrashStep(db: Db, a: Action)
    requires Inv(db) && Enabled(db, a) && a.CrashAndOpen?
    ensures Refines(db, a)
  {
    CrashLeaves(db, a.lost, a.strays, a.orphans, a.logs, a.tableSize, a.installed);
    CrashRefines(db, a, Next(db, a));
  }

  lemma SilentStep(db: Db, a: Action)
    requires Enabled(db, a) && Silent(a)
    ensures Refines(db, a)
  {
  }

  lemma SpecFollows(db: Db, a: Action)
    requires Inv(db) && Enabled(db, a)
    ensures Refines(db, a)
  {
    if a.Commit? {
      CommitStep(db, a);
    } else if a.TakeSnapshot? || a.ReleaseSnapshot? {
      SnapshotStep(db, a);
    } else if a.CrashAndOpen? {
      CrashStep(db, a);
    } else {
      SilentStep(db, a);
    }
  }

  /** Flushes, moves, compactions and deletions change tables, logs and memtables, but
      nothing a client sees. */
  lemma SilentStepsAreInvisible(db: Db, a: Action, w: View)
    requires Inv(db) && Enabled(db, a) && Silent(a)
    ensures Sees(Next(db, a), w) <==> Sees(db, w)
  {
    StepKeepsInv(db, a);
    SilentStep(db, a);
    SeesExactly(db, w);
    SeesExactly(Next(db, a), w);
  }

  // ---- runs ----

  ghost predicate Run(states: seq<Db>, actions: seq<Action>) {
    && |states| == |actions| + 1
    && states[0] == INITIAL
    && forall i :: 0 <= i < |actions| ==> Enabled(states[i], actions[i]) && states[i + 1] == Next(states[i], actions[i])
  }

  /** Every state of every run is in order. */
  lemma {:induction false} RunKeepsInv(states: seq<Db>, actions: seq<Action>, n: nat)
    requires Run(states, actions) && n < |states|
    ensures Inv(states[n])
  {
    if n == 0 {
      InitialInv();
    } else {
      RunKeepsInv(states, actions, n - 1);
      StepKeepsInv(states[n - 1], actions[n - 1]);
    }
  }

  /** No step from m to n is a crash or gives version v up. */
  ghost predicate Holds(states: seq<Db>, actions: seq<Action>, m: nat, n: nat, v: Version)
    requires Run(states, actions) && n < |states|
  {
    forall k :: m < k < n ==> !actions[k].CrashAndOpen? && !GivesUp(states[k], actions[k], v)
  }

  ghost predicate GivesUp(db: Db, a: Action, v: Version)
    requires Enabled(db, a)
  {
    a.UnpinVersion? && db.pins[a.index] == v
  }

  lemma PinStays(db: Db, a: Action, v: Version)
    requires Enabled(db, a) && v in db.pins && !a.CrashAndOpen? && !GivesUp(db, a, v)
    ensures v in Next(db, a).pins
  {
    if a.UnpinVersion? {
      var k :| 0 <= k < |db.pins| && db.pins[k] == v;
      assert v in db.pins[..a.index] + db.pins[a.index + 1..];
    }
  }

  lemma {:induction false} PinnedIsHeld(states: seq<Db>, actions: seq<Action>, m: nat, n: nat, v: Version)
    requires Run(states, actions) && m < n < |states| && actions[m] == PinVersion && v == states[m].version
    requires Holds(states, actions, m, n, v)
    ensures v in states[n].pins
    decreases n
  {
    if n > m + 1 {
      assert Holds(states, actions, m, n - 1, v);
      PinnedIsHeld(states, actions, m, n - 1, v);
      PinStays(states[n - 1], actions[n - 1], v);
    }
  }

  /** The tables of a version that a reader took a reference to stay on disk until it is
      given up or the process dies, whatever is flushed, compacted or deleted meanwhile. */
  lemma PinnedTablesStay(states: seq<Db>, actions: seq<Action>, m: nat, n: nat)
    requires Run(states, actions) && m < n < |states| && actions[m] == PinVersion
    requires Holds(states, actions, m, n, states[m].version)
    ensures forall l, f :: 0 <= l < |states[m].version| && f in states[m].version[l] ==> f.number in states[n].disk.tables
  {
    PinnedIsHeld(states, actions, m, n, states[m].version);
    RunKeepsInv(states, actions, m);
    RunKeepsInv(states, actions, n);
  }

  lemma SpecSnoc(actions: seq<Action>, n: nat)
    requires n < |actions|
    ensures SpecAfter(actions[..n + 1]) == SpecNext(SpecAfter(actions[..n]), actions[n])
  {
    assert actions[..n + 1][..n] == actions[..n];
  }

  lemma {:induction false} RunFollows(states: seq<Db>, actions: seq<Action>, n: nat)
    requires Run(states, actions) && n < |states|
    ensures SpecOf(states[n]) == SpecAfter(actions[..n])
  {
    if n == 0 {
      assert BatchesOf([]) == [] && Images([]) == [];
    } else {
      RunFollows(states, actions, n - 1);
      RunKeepsInv(states, actions, n - 1);
      SpecFollows(states[n - 1], actions[n - 1]);
      SpecSnoc(actions, n - 1);
    }
  }

  /** A run of the store is a run of the specification: after any actions, what the stored
      entries show, now and at every held snapshot, is exactly the maps the specification
      computes from the actions alone. */
  lemma RunRefines(states: seq<Db>, actions: seq<Action>, n: nat, w: View)
    requires Run(states, actions) && n < |states|
    ensures Sees(states[n], w) <==> w == Shown(SpecAfter(actions[..n]))
  {
    RunKeepsInv(states, actions, n);
    RunFollows(states, actions, n);
    SeesExactly(states[n], w);
  }

  /** Durability: in every reachable state the tables of every version in use are on disk,
      and the tables with the logs from LogNumber on hold every committed batch. */
  lemma ReachableState(states: seq<Db>, actions: seq<Action>, n: nat)
    requires Run(states, actions) && n < |states|
    ensures var db := states[n];
            && OnDisk(db.version, db.disk.tables) && (forall v :: v in db.pins ==> OnDisk(v, db.disk.tables))
            && BatchesOf(db.history) == SpecAfter(actions[..n]).batches && db.flushed <= |db.history|
            && ConcatLogs(db.disk.logs, db.disk.logNumber) == db.history[db.flushed..]
            && AnswersFrom(Stored(db.disk.version), Flat(db.history[..db.flushed]), SmallestSnapshot(db))
  {
    RunKeepsInv(states, actions, n);
    RunFollows(states, actions, n);
  }
}
