/** The manifest of a running store (db/version_set.cc LogAndApply, WriteSnapshot, Recover):
    folding the edits logged so far through one builder gives the current version. */
module Manifests {
  import opened Format
  import opened Tables
  import opened Builder
  import opened Tree
  import opened History
  import opened Database
  import opened Steps
  import opened Recovery
  import opened Runs

  datatype Counters = Counters(logNumber: nat, nextFile: nat, lastSequence: nat)

  /** The edits logged, a snapshot first, on top of `base`, which is empty; and what each
      record says of the counters, if anything. */
  datatype Manifest = Manifest(base: Version, edits: seq<Edit>, counters: seq<Option<Counters>>)

  /** All files level l held at some time since. */
  ghost function Ever(m: Manifest, l: nat): set<File>
    requires l < |m.base|
  {
    (set f | f in m.base[l]) + FoldedAdditions(m.edits, l)
  }

  /** One builder for all edits ends at v. */
  ghost predicate FoldsTo(m: Manifest, v: Version) {
    && |m.base| == |v| == NUM_LEVELS
    && forall l :: 0 <= l < NUM_LEVELS ==>
         Saved(m.base[l], FoldedDeletions(m.edits, l), FoldedAdditions(m.edits, l), v[l])
  }

  ghost predicate Readable(m: Manifest) {
    && |m.base| == NUM_LEVELS && OrderedLevels(m.base)
    && (forall e :: e in m.edits ==> InLevels(e))
    && (forall l :: 0 <= l < NUM_LEVELS ==> NumbersName(FoldedAdditions(m.edits, l)))
    && NeverReadded(m.base, m.edits)
  }

  /** Every file number is below n. */
  ghost predicate Numbered(m: Manifest, v: Version, n: nat)
    requires |m.base| == |v| == NUM_LEVELS
  {
    && (forall l, f :: 0 <= l < NUM_LEVELS && f in Ever(m, l) ==> f.number < n)
    && NumbersBelow(v, n)
  }

  /** A file has never been deeper than it is: files only move down. */
  ghost predicate NeverDeeper(m: Manifest, v: Version)
    requires |m.base| == |v| == NUM_LEVELS
  {
    forall l, k, f, g :: 0 <= l < k < NUM_LEVELS && f in v[l] && g in Ever(m, k) ==> f.number != g.number
  }

  ghost predicate Tracks(m: Manifest, v: Version, n: nat) {
    Readable(m) && FoldsTo(m, v) && Numbered(m, v, n) && NeverDeeper(m, v)
  }

  /** The edit adds files to one level only. */
  ghost predicate AddsOnly(edit: Edit, l: nat) {
    && InLevels(edit) && l < NUM_LEVELS && NumbersName(AddedAt(edit, l))
    && forall k :: k != l ==> AddedAt(edit, k) == {}
  }

  /** f comes down from a shallower level. */
  ghost predicate MovesDown(v: Version, edit: Edit, l: nat, f: File) {
    exists k :: 0 <= k < l && k < |v| && f in v[k] && f.number in DeletedAt(edit, k)
  }

  /** What it adds is new, or moves down. */
  ghost predicate NewOrMoved(v: Version, edit: Edit, l: nat, n: nat) {
    forall f :: f in AddedAt(edit, l) ==> f.number >= n || MovesDown(v, edit, l, f)
  }

  function Logged(m: Manifest, edit: Edit): Manifest {
    m.(edits := m.edits + [edit])
  }

  ghost predicate Appends(m: Manifest, edit: Edit, m': Manifest) {
    m'.base == m.base && m'.edits == m.edits + [edit]
  }

  lemma SameEdits(m: Manifest, m': Manifest, v: Version, n: nat)
    requires Tracks(m, v, n) && m'.base == m.base && m'.edits == m.edits
    ensures Tracks(m', v, n)
  {
    assert forall l :: 0 <= l < NUM_LEVELS ==> Ever(m', l) == Ever(m, l);
  }

  lemma LoggedFolds(m: Manifest, edit: Edit, l: nat)
    requires l < |m.base|
    ensures FoldedAdditions(Logged(m, edit).edits, l) == FoldedAdditions(m.edits, l) + AddedAt(edit, l)
    ensures FoldedDeletions(Logged(m, edit).edits, l) == FoldedDeletions(m.edits, l) + DeletedAt(edit, l) - Numbers(AddedAt(edit, l))
    ensures Ever(Logged(m, edit), l) == Ever(m, l) + AddedAt(edit, l)
  {
    assert (m.edits + [edit])[..|m.edits|] == m.edits;
  }

  /** The level never held a file with the number of one that is added. */
  lemma AddedIsNew(m: Manifest, v: Version, edit: Edit, l: nat, n: nat, f: File, g: File)
    requires Tracks(m, v, n) && l < NUM_LEVELS && NewOrMoved(v, edit, l, n)
    requires f in AddedAt(edit, l) && g in Ever(m, l)
    ensures f.number != g.number
  {
    if f.number < n {
      var k :| 0 <= k < l && k < |v| && f in v[k] && f.number in DeletedAt(edit, k);
    }
  }

  lemma LoggedNeverReadded(m: Manifest, v: Version, edit: Edit, l: nat, n: nat)
    requires Tracks(m, v, n) && AddsOnly(edit, l) && NewOrMoved(v, edit, l, n)
    ensures NeverReadded(m.base, Logged(m, edit).edits)
  {
    var edits := Logged(m, edit).edits;
    forall i, k | 0 <= i < |edits| && 0 <= k < NUM_LEVELS
      ensures Numbers(AddedAt(edits[i], k)) !! Numbers((set f | f in m.base[k]) + FoldedAdditions(edits[..i], k))
    {
      if i < |m.edits| {
        assert edits[..i] == m.edits[..i] && edits[i] == m.edits[i];
      } else {
        assert edits[..i] == m.edits;
        forall f, g | f in AddedAt(edit, k) && g in Ever(m, k) ensures f.number != g.number {
          if k == l { AddedIsNew(m, v, edit, l, n, f, g); }
        }
      }
    }
  }

  lemma LoggedReadable(m: Manifest, v: Version, edit: Edit, l: nat, n: nat)
    requires Tracks(m, v, n) && AddsOnly(edit, l) && NewOrMoved(v, edit, l, n)
    ensures Readable(Logged(m, edit))
  {
    LoggedNeverReadded(m, v, edit, l, n);
    forall k | 0 <= k < NUM_LEVELS ensures NumbersName(FoldedAdditions(Logged(m, edit).edits, k)) {
      LoggedFolds(m, edit, k);
      forall f, g | f in AddedAt(edit, k) && g in FoldedAdditions(m.edits, k) ensures f.number != g.number {
        if k == l { AddedIsNew(m, v, edit, l, n, f, g); }
      }
    }
  }

  lemma LoggedFoldsTo(m: Manifest, v: Version, edit: Edit, v': Version, l: nat, n: nat)
    requires Tracks(m, v, n) && AddsOnly(edit, l) && NewOrMoved(v, edit, l, n) && Installs(v, edit, v')
    ensures FoldsTo(Logged(m, edit), v')
  {
    forall k | 0 <= k < NUM_LEVELS
      ensures Saved(m.base[k], FoldedDeletions(Logged(m, edit).edits, k), FoldedAdditions(Logged(m, edit).edits, k), v'[k])
    {
      LoggedFolds(m, edit, k);
      assert Saved(v[k], DeletedAt(edit, k) - Numbers(AddedAt(edit, k)), AddedAt(edit, k), v'[k]);
      forall f | f in Ever(m, k) ensures f.number !in Numbers(AddedAt(edit, k)) {
        if f.number in Numbers(AddedAt(edit, k)) {
          var g :| g in AddedAt(edit, k) && g.number == f.number;
          AddedIsNew(m, v, edit, k, n, g, f);
        }
      }
      forall f | f in AddedAt(edit, k) ensures f.number in Numbers(AddedAt(edit, k)) {
        NumberOf(f, AddedAt(edit, k));
      }
    }
  }

  /** Which files the new version may hold. */
  lemma StillThere(v: Version, edit: Edit, v': Version, l: nat, f: File)
    requires Installs(v, edit, v') && l < NUM_LEVELS && f in v'[l]
    ensures f in v[l] || f in AddedAt(edit, l)
    ensures f.number in DeletedAt(edit, l) ==> f.number in Numbers(AddedAt(edit, l))
  {
    assert Saved(v[l], DeletedAt(edit, l) - Numbers(AddedAt(edit, l)), AddedAt(edit, l), v'[l]);
  }

  lemma LoggedNumbered(m: Manifest, v: Version, edit: Edit, v': Version, l: nat, n: nat, n': nat)
    requires Tracks(m, v, n) && AddsOnly(edit, l) && Installs(v, edit, v') && n <= n'
    requires forall f :: f in AddedAt(edit, l) ==> f.number < n'
    ensures Numbered(Logged(m, edit), v', n')
  {
    forall k, f | 0 <= k < NUM_LEVELS && f in Ever(Logged(m, edit), k) ensures f.number < n' {
      LoggedFolds(m, edit, k);
    }
    forall k, f | 0 <= k < NUM_LEVELS && f in v'[k] ensures f.number < n' {
      StillThere(v, edit, v', k, f);
    }
  }

  /** A file of the old version is not one the edit adds deeper. */
  lemma KeptIsNotAdded(m: Manifest, v: Version, edit: Edit, v': Version, l: nat, n: nat, k: nat, f: File, g: File)
    requires Tracks(m, v, n) && UniqueNumbers(v) && AddsOnly(edit, l) && NewOrMoved(v, edit, l, n) && Installs(v, edit, v')
    requires k < l && f in v[k] && f in v'[k] && g in AddedAt(edit, l)
    ensures f.number != g.number
  {
    if g.number < n {
      var j :| 0 <= j < l && j < |v| && g in v[j] && g.number in DeletedAt(edit, j);
      StillThere(v, edit, v', k, f);
    }
  }

  lemma LoggedNeverDeeper(m: Manifest, v: Version, edit: Edit, v': Version, l: nat, n: nat)
    requires Tracks(m, v, n) && UniqueNumbers(v) && AddsOnly(edit, l) && NewOrMoved(v, edit, l, n) && Installs(v, edit, v')
    ensures NeverDeeper(Logged(m, edit), v')
  {
    forall i, k, f, g | 0 <= i < k < NUM_LEVELS && f in v'[i] && g in Ever(Logged(m, edit), k) ensures f.number != g.number {
      LoggedFolds(m, edit, k);
      StillThere(v, edit, v', i, f);
      if f in v[i] {
        if g in AddedAt(edit, k) { KeptIsNotAdded(m, v, edit, v', l, n, i, f, g); }
      } else if f.number < n {
        var j :| 0 <= j < l && j < |v| && f in v[j] && f.number in DeletedAt(edit, j);
      }
    }
  }

  /** LogAndApply: the manifest goes on telling the version. */
  lemma LogAndApplyTracks(m: Manifest, v: Version, edit: Edit, m': Manifest, v': Version, l: nat, n: nat, n': nat)
    requires Tracks(m, v, n) && UniqueNumbers(v) && AddsOnly(edit, l) && NewOrMoved(v, edit, l, n) && Installs(v, edit, v')
    requires n <= n' && (forall f :: f in AddedAt(edit, l) ==> f.number < n') && Appends(m, edit, m')
    ensures Tracks(m', v', n')
  {
    LoggedReadable(m, v, edit, l, n);
    LoggedFoldsTo(m, v, edit, v', l, n);
    LoggedNumbered(m, v, edit, v', l, n, n');
    LoggedNeverDeeper(m, v, edit, v', l, n);
    SameEdits(Logged(m, edit), m', v', n');
  }

  // ---- WriteSnapshot ----

  /** The files of the first n levels. */
  function FilesBelow(v: Version, n: nat): seq<(nat, File)>
    requires n <= |v|
  {
    if n == 0 then [] else FilesBelow(v, n - 1) + seq(|v[n - 1]|, i requires 0 <= i < |v[n - 1]| => (n - 1, v[n - 1][i]))
  }

  lemma {:induction false} FilesBelowMember(v: Version, n: nat, l: nat, f: File)
    requires n <= |v|
    ensures (l, f) in FilesBelow(v, n) <==> l < n && f in v[l]
  {
    if n > 0 {
      FilesBelowMember(v, n - 1, l, f);
      var more := seq(|v[n - 1]|, i requires 0 <= i < |v[n - 1]| => (n - 1, v[n - 1][i]));
      if l == n - 1 && f in v[l] {
        var i :| 0 <= i < |v[l]| && v[l][i] == f;
        assert more[i] == (l, f);
      }
    }
  }

  lemma {:induction false} FilesBelowLevels(v: Version, n: nat)
    requires n <= |v|
    ensures forall a :: a in FilesBelow(v, n) ==> a.0 < n
  {
    if n > 0 { FilesBelowLevels(v, n - 1); }
  }

  function SnapshotEdit(v: Version): Edit
    requires |v| == NUM_LEVELS
  {
    Edit({}, FilesBelow(v, NUM_LEVELS))
  }

  lemma SnapshotAdds(v: Version, l: nat)
    requires |v| == NUM_LEVELS
    ensures AddedAt(SnapshotEdit(v), l) == if l < NUM_LEVELS then (set f | f in v[l]) else {}
    ensures InLevels(SnapshotEdit(v))
  {
    FilesBelowLevels(v, NUM_LEVELS);
    forall f ensures (l, f) in FilesBelow(v, NUM_LEVELS) <==> l < NUM_LEVELS && f in v[l] {
      FilesBelowMember(v, NUM_LEVELS, l, f);
    }
  }

  lemma SnapshotFolds(v: Version, l: nat)
    requires |v| == NUM_LEVELS && l < NUM_LEVELS
    ensures FoldedAdditions([SnapshotEdit(v)], l) == set f | f in v[l]
    ensures FoldedDeletions([SnapshotEdit(v)], l) == {}
  {
    var e := SnapshotEdit(v);
    SnapshotAdds(v, l);
    assert [e][..0] == [] && FoldedAdditions([], l) == {} && FoldedDeletions([], l) == {};
    assert DeletedAt(e, l) == {};
  }

  /** What m has ever held is what v holds. */
  ghost predicate HoldsJust(m: Manifest, v: Version) {
    && m.base == EMPTY_VERSION && |v| == NUM_LEVELS && |m.edits| == 1 && InLevels(m.edits[0])
    && forall l :: 0 <= l < NUM_LEVELS ==> HoldsAt(m, v, l)
  }

  ghost predicate HoldsAt(m: Manifest, v: Version, l: nat)
    requires l < |v| && l < |m.base|
  {
    FoldedAdditions(m.edits, l) == (set f | f in v[l]) && FoldedDeletions(m.edits, l) == {} && m.base[l] == []
  }

  lemma HeldReadable(m: Manifest, v: Version)
    requires HoldsJust(m, v) && UniqueNumbers(v)
    ensures Readable(m)
  {
    forall l | 0 <= l < NUM_LEVELS ensures NumbersName(FoldedAdditions(m.edits, l)) && m.base[l] == [] { assert HoldsAt(m, v, l); }
    assert m.edits[..0] == [];
    forall e | e in m.edits ensures InLevels(e) { assert e == m.edits[0]; }
  }

  lemma HeldFoldsTo(m: Manifest, v: Version)
    requires HoldsJust(m, v) && OrderedLevels(v)
    ensures FoldsTo(m, v)
  {
    forall l | 0 <= l < NUM_LEVELS
      ensures Saved(m.base[l], FoldedDeletions(m.edits, l), FoldedAdditions(m.edits, l), v[l])
    {
      assert HoldsAt(m, v, l) && Ordered(v[l]);
    }
  }

  lemma HeldIs(m: Manifest, v: Version, l: nat, f: File)
    requires HoldsJust(m, v) && l < NUM_LEVELS && f in Ever(m, l)
    ensures f in v[l]
  {
    assert HoldsAt(m, v, l);
  }

  /** A new manifest starts with the version as it is. */
  lemma SnapshotTracks(v: Version, n: nat, m: Manifest)
    requires |v| == NUM_LEVELS && OrderedLevels(v) && UniqueNumbers(v) && NumbersBelow(v, n)
    requires m.base == EMPTY_VERSION && m.edits == [SnapshotEdit(v)]
    ensures Tracks(m, v, n)
  {
    SnapshotAdds(v, 0);
    forall l | 0 <= l < NUM_LEVELS ensures HoldsAt(m, v, l) { SnapshotFolds(v, l); }
    HeldReadable(m, v);
    HeldFoldsTo(m, v);
    forall l, f | 0 <= l < NUM_LEVELS && f in Ever(m, l) ensures f.number < n { HeldIs(m, v, l, f); }
    forall l, k, f, g | 0 <= l < k < NUM_LEVELS && f in v[l] && g in Ever(m, k) ensures f.number != g.number {
      HeldIs(m, v, k, g);
    }
  }

  lemma NoEditTracks(m: Manifest, n: nat)
    requires m.base == EMPTY_VERSION && m.edits == []
    ensures Tracks(m, EMPTY_VERSION, n)
  {
  }

  // ---- the manifest of a run ----

  /** What a step logs. */
  ghost function EditOf(db: Db, a: Action): Option<Edit>
    requires Enabled(db, a)
  {
    match a
    case FlushMemTable(level, size, _) => Some(FlushEdit(db.nextFile, db.imm.value, size, level))
    case MoveFile(level, f, _) => Some(CompactionEdit(level, [f], [], [f]))
    case Compact(level, in0, in1, _, outs, _) => Some(CompactionEdit(level, in0, in1, outs))
    case _ => None
  }

  /** The tables recovery writes. */
  function RecoveredTables(nextFile: nat, cl: seq<CutLog>, size: seq<Entry> -> nat): seq<File> {
    Level0Tables(AllChunks(cl, nextFile + 1), size)
  }

  /** LogAndApply appends; opening starts a new manifest from what the old one told, and
      logs the recovered tables. */
  ghost function ManifestNext(m: Manifest, db: Db, a: Action): Manifest
    requires Enabled(db, a)
  {
    if a.CrashAndOpen? then
      LoggedWith(NewManifest(db.disk.version), RecoveryEdit(RecoveredTables(db.disk.nextFile, a.logs, a.tableSize)),
             CountersOf(Next(db, a).disk))
    else
      var edit := EditOf(db, a);
      if edit.Some? then LoggedWith(m, edit.value, CountersOf(Next(db, a).disk)) else m
  }

  function LoggedWith(m: Manifest, edit: Edit, c: Counters): Manifest {
    Manifest(m.base, m.edits + [edit], m.counters + [Some(c)])
  }

  function CountersOf(disk: Disk): Counters {
    Counters(disk.logNumber, disk.nextFile, disk.lastSequence)
  }

  /** WriteSnapshot says nothing of the counters. */
  function NewManifest(v: Version): Manifest
    requires |v| == NUM_LEVELS
  {
    Manifest(EMPTY_VERSION, [SnapshotEdit(v)], [None])
  }

  ghost function ManifestAfter(states: seq<Db>, actions: seq<Action>, n: nat): Manifest
    requires Run(states, actions) && n < |states|
  {
    if n == 0 then Manifest(EMPTY_VERSION, [Edit({}, [])], [Some(CountersOf(INITIAL.disk))])
    else ManifestNext(ManifestAfter(states, actions, n - 1), states[n - 1], actions[n - 1])
  }

  // ---- each step ----

  lemma FlushTracks(m: Manifest, v: Version, es: seq<Entry>, size: nat, level: nat, m': Manifest, v': Version, n: nat)
    requires Tracks(m, v, n) && UniqueNumbers(v) && level < NUM_LEVELS
    requires Installs(v, FlushEdit(n, es, size, level), v') && Appends(m, FlushEdit(n, es, size, level), m')
    ensures Tracks(m', v', n + 1)
  {
    LogAndApplyTracks(m, v, FlushEdit(n, es, size, level), m', v', level, n, n + 1);
  }

  lemma MoveEditAt(level: nat, f: File, l: nat)
    ensures AddedAt(CompactionEdit(level, [f], [], [f]), l) == if l == level + 1 then {f} else {}
    ensures f.number in DeletedAt(CompactionEdit(level, [f], [], [f]), level)
  {
    CompactionEditAt(level, [f], [], [f], l);
    CompactionEditAt(level, [f], [], [f], level);
    assert f in [f] && (set g | g in [f]) == {f};
    NumberOf(f, {f});
  }

  lemma MoveTracks(m: Manifest, v: Version, level: nat, f: File, m': Manifest, v': Version, n: nat)
    requires Tracks(m, v, n) && UniqueNumbers(v) && level + 1 < NUM_LEVELS && f in v[level]
    requires Installs(v, CompactionEdit(level, [f], [], [f]), v') && Appends(m, CompactionEdit(level, [f], [], [f]), m')
    ensures Tracks(m', v', n)
  {
    var edit := CompactionEdit(level, [f], [], [f]);
    forall l ensures AddedAt(edit, l) == (if l == level + 1 then {f} else {}) {
      MoveEditAt(level, f, l);
    }
    MoveEditAt(level, f, level);
    assert MovesDown(v, edit, level + 1, f);
    LogAndApplyTracks(m, v, edit, m', v', level + 1, n, n);
  }

  lemma CompactTracks(m: Manifest, v: Version, level: nat, in0: seq<File>, in1: seq<File>, outs: seq<File>,
                      m': Manifest, v': Version, n: nat)
    requires Tracks(m, v, n) && UniqueNumbers(v) && level + 1 < NUM_LEVELS
    requires forall k :: 0 <= k < |outs| ==> outs[k].number == n + k
    requires Installs(v, CompactionEdit(level, in0, in1, outs), v') && Appends(m, CompactionEdit(level, in0, in1, outs), m')
    ensures Tracks(m', v', n + |outs|)
  {
    var edit := CompactionEdit(level, in0, in1, outs);
    forall l ensures AddedAt(edit, l) == if l == level + 1 then (set f | f in outs) else {} {
      CompactionEditAt(level, in0, in1, outs, l);
    }
    LogAndApplyTracks(m, v, edit, m', v', level + 1, n, n + |outs|);
  }

  lemma {:induction false} TablesNumbered(cs: seq<Chunk>, size: seq<Entry> -> nat, low: nat, high: nat)
    requires NumberedFrom(cs, low, high)
    ensures forall f :: f in Level0Tables(cs, size) ==> low <= f.number < high
    ensures NumbersName(set f | f in Level0Tables(cs, size))
  {
    if cs != [] {
      var init, c := cs[..|cs| - 1], cs[|cs| - 1];
      TablesNumbered(init, size, low, c.number);
      TablesNumbered(init, size, low, high);
    }
  }

  lemma RecoveryAdds(fs: seq<File>, l: nat)
    ensures AddedAt(RecoveryEdit(fs), l) == if l == 0 then (set f | f in fs) else {}
    ensures InLevels(RecoveryEdit(fs))
  {
    var edit := RecoveryEdit(fs);
    forall f | f in fs ensures (0, f) in edit.added {
      var i :| 0 <= i < |fs| && fs[i] == f;
      assert edit.added[i] == (0, f);
    }
  }

  lemma OpenTracks(v: Version, fs: seq<File>, m': Manifest, v': Version, low: nat, high: nat)
    requires |v| == NUM_LEVELS && OrderedLevels(v) && UniqueNumbers(v) && NumbersBelow(v, low) && low <= high
    requires (forall f :: f in fs ==> low <= f.number < high) && NumbersName(set f | f in fs)
    requires Installs(v, RecoveryEdit(fs), v') && Appends(NewManifest(v), RecoveryEdit(fs), m')
    ensures Tracks(m', v', high)
  {
    SnapshotTracks(v, low, NewManifest(v));
    forall l ensures AddedAt(RecoveryEdit(fs), l) == if l == 0 then (set f | f in fs) else {} {
      RecoveryAdds(fs, l);
    }
    RecoveryAdds(fs, 0);
    LogAndApplyTracks(NewManifest(v), v, RecoveryEdit(fs), m', v', 0, low, high);
  }

  lemma RecoveredNumbers(nextFile: nat, cl: seq<CutLog>, size: seq<Entry> -> nat)
    ensures var fs, last := RecoveredTables(nextFile, cl, size), NextAfter(cl, nextFile + 1);
            last > nextFile && (forall f :: f in fs ==> nextFile + 1 <= f.number < last) && NumbersName(set f | f in fs)
  {
    AllChunksNumbered(cl, nextFile + 1);
    TablesNumbered(AllChunks(cl, nextFile + 1), size, nextFile + 1, NextAfter(cl, nextFile + 1));
  }

  lemma InvTree(db: Db)
    requires Inv(db)
    ensures UniqueNumbers(db.version) && OrderedLevels(db.version) && db.disk.version == db.version
    ensures |db.version| == NUM_LEVELS && NumbersBelow(db.version, db.disk.nextFile)
  {
  }

  predicate Installing(a: Action) {
    a.FlushMemTable? || a.MoveFile? || a.Compact?
  }

  lemma FlushStep(m: Manifest, db: Db, a: Action)
    requires UniqueNumbers(db.version) && Enabled(db, a) && Tracks(m, db.version, db.nextFile) && a.FlushMemTable?
    ensures Tracks(ManifestNext(m, db, a), Next(db, a).version, Next(db, a).nextFile)
  {
    FlushTracks(m, db.version, db.imm.value, a.size, a.level, ManifestNext(m, db, a), Next(db, a).version, db.nextFile);
  }

  lemma MoveStep(m: Manifest, db: Db, a: Action)
    requires UniqueNumbers(db.version) && Enabled(db, a) && Tracks(m, db.version, db.nextFile) && a.MoveFile?
    ensures Tracks(ManifestNext(m, db, a), Next(db, a).version, Next(db, a).nextFile)
  {
    assert a.file in [a.file];
    MoveTracks(m, db.version, a.level, a.file, ManifestNext(m, db, a), Next(db, a).version, db.nextFile);
  }

  lemma CompactIs(m: Manifest, db: Db, a: Action, m': Manifest, v': Version, n': nat)
    requires Enabled(db, a) && a.Compact?
    requires m' == ManifestNext(m, db, a) && v' == Next(db, a).version && n' == Next(db, a).nextFile
    ensures a.level + 1 < NUM_LEVELS && (forall k :: 0 <= k < |a.outs| ==> a.outs[k].number == db.nextFile + k)
    ensures Installs(db.version, CompactionEdit(a.level, a.in0, a.in1, a.outs), v') && n' == db.nextFile + |a.outs|
    ensures Appends(m, CompactionEdit(a.level, a.in0, a.in1, a.outs), m')
  {
  }

  lemma CompactStep(m: Manifest, db: Db, a: Action, m': Manifest, v': Version, n': nat)
    requires UniqueNumbers(db.version) && Enabled(db, a) && Tracks(m, db.version, db.nextFile) && a.Compact?
    requires m' == ManifestNext(m, db, a) && v' == Next(db, a).version && n' == Next(db, a).nextFile
    ensures Tracks(m', v', n')
  {
    CompactIs(m, db, a, m', v', n');
    CompactTracks(m, db.version, a.level, a.in0, a.in1, a.outs, m', v', db.nextFile);
  }

  lemma QuietStep(m: Manifest, db: Db, a: Action)
    requires Enabled(db, a) && Tracks(m, db.version, db.nextFile) && !Installing(a) && !a.CrashAndOpen?
    ensures Tracks(ManifestNext(m, db, a), Next(db, a).version, Next(db, a).nextFile)
  {
    LaterNumbers(m, db.version, db.nextFile, Next(db, a).nextFile);
  }

  lemma Recovered(disk: Disk, archived: seq<Record>, cl: seq<CutLog>, size: seq<Entry> -> nat, v: Version)
    requires CanRecover(disk, cl, size, v)
    ensures Recover(disk, archived, cl, v).version == v
    ensures Recover(disk, archived, cl, v).nextFile == NextAfter(cl, disk.nextFile + 1) + 1
  {
  }

  lemma RecoveredInstalls(disk: Disk, cl: seq<CutLog>, size: seq<Entry> -> nat, v: Version, fs: seq<File>)
    requires CanRecover(disk, cl, size, v) && fs == Level0Tables(AllChunks(cl, disk.nextFile + 1), size)
    ensures Installs(disk.version, RecoveryEdit(fs), v)
  {
  }

  lemma AfterOpen(db: Db, a: Action, disk: Disk)
    requires Enabled(db, a) && a.CrashAndOpen? && disk == CrashedDisk(db.disk, a.lost, a.strays, a.orphans)
    ensures CanRecover(disk, a.logs, a.tableSize, a.installed)
    ensures Next(db, a) == Recover(disk, db.history[..db.flushed], a.logs, a.installed)
  {
  }

  lemma OpenAppends(m: Manifest, db: Db, a: Action, fs: seq<File>)
    requires Enabled(db, a) && a.CrashAndOpen? && |db.disk.version| == NUM_LEVELS
    requires fs == RecoveredTables(db.disk.nextFile, a.logs, a.tableSize)
    ensures Appends(NewManifest(db.disk.version), RecoveryEdit(fs), ManifestNext(m, db, a))
  {
  }

  lemma OpenInstalls(disk: Disk, archived: seq<Record>, cl: seq<CutLog>, size: seq<Entry> -> nat, v: Version,
                     v0: Version, fs: seq<File>, n': nat)
    requires CanRecover(disk, cl, size, v) && v0 == disk.version && fs == RecoveredTables(disk.nextFile, cl, size)
    requires n' == Recover(disk, archived, cl, v).nextFile
    ensures Installs(v0, RecoveryEdit(fs), v) && n' == NextAfter(cl, disk.nextFile + 1) + 1
  {
    Recovered(disk, archived, cl, size, v);
    RecoveredInstalls(disk, cl, size, v, fs);
  }

  lemma OpenStep(m: Manifest, db: Db, a: Action, m': Manifest, v': Version, n': nat)
    requires |db.version| == NUM_LEVELS && UniqueNumbers(db.version) && OrderedLevels(db.version)
    requires db.disk.version == db.version && NumbersBelow(db.version, db.disk.nextFile)
    requires Enabled(db, a) && a.CrashAndOpen?
    requires m' == ManifestNext(m, db, a) && v' == Next(db, a).version && n' == Next(db, a).nextFile
    ensures Tracks(m', v', n')
  {
    var disk, v0 := CrashedDisk(db.disk, a.lost, a.strays, a.orphans), db.disk.version;
    var fs := RecoveredTables(db.disk.nextFile, a.logs, a.tableSize);
    AfterOpen(db, a, disk);
    CrashedSame(db.disk, a.lost, a.strays, a.orphans);
    OpenAppends(m, db, a, fs);
    OpenInstalls(disk, db.history[..db.flushed], a.logs, a.tableSize, a.installed, v0, fs, n');
    assert v' == a.installed;
    RecoveredNumbers(db.disk.nextFile, a.logs, a.tableSize);
    OpenTracks(v0, fs, m', a.installed, db.disk.nextFile + 1, n');
  }

  lemma StepTracks(m: Manifest, db: Db, a: Action)
    requires Inv(db) && Enabled(db, a) && Tracks(m, db.version, db.nextFile)
    ensures Tracks(ManifestNext(m, db, a), Next(db, a).version, Next(db, a).nextFile)
  {
    InvTree(db);
    if a.FlushMemTable? {
      FlushStep(m, db, a);
    } else if a.MoveFile? {
      MoveStep(m, db, a);
    } else if a.Compact? {
      CompactStep(m, db, a, ManifestNext(m, db, a), Next(db, a).version, Next(db, a).nextFile);
    } else if a.CrashAndOpen? {
      OpenStep(m, db, a, ManifestNext(m, db, a), Next(db, a).version, Next(db, a).nextFile);
    } else {
      QuietStep(m, db, a);
    }
  }

  lemma LaterNumbers(m: Manifest, v: Version, n: nat, n': nat)
    requires Tracks(m, v, n) && n <= n'
    ensures Tracks(m, v, n')
  {
  }

  lemma FirstTracks(m: Manifest)
    requires m.base == EMPTY_VERSION && m.edits == [Edit({}, [])]
    ensures Tracks(m, INITIAL.version, INITIAL.nextFile)
  {
    var none := Manifest(EMPTY_VERSION, [], []);
    NoEditTracks(none, 4);
    NoFiles(EMPTY_VERSION);
    var edit := Edit({}, []);
    forall l | 0 <= l < NUM_LEVELS
      ensures Saved(EMPTY_VERSION[l], DeletedAt(edit, l) - Numbers(AddedAt(edit, l)), AddedAt(edit, l), EMPTY_VERSION[l])
    {
      assert EMPTY_VERSION[l] == [];
    }
    LogAndApplyTracks(none, EMPTY_VERSION, edit, m, EMPTY_VERSION, 0, 4, 4);
  }

  // ---- the counters ----

  /** The last record that says anything of the counters. */
  function LastCounters(cs: seq<Option<Counters>>): Option<Counters> {
    if cs == [] then None
    else if cs[|cs| - 1].Some? then cs[|cs| - 1] else LastCounters(cs[..|cs| - 1])
  }

  lemma StepTells(m: Manifest, db: Db, a: Action)
    requires Enabled(db, a) && |db.disk.version| == NUM_LEVELS && LastCounters(m.counters) == Some(CountersOf(db.disk))
    ensures LastCounters(ManifestNext(m, db, a).counters) == Some(CountersOf(Next(db, a).disk))
  {
  }

  /** In every reachable state they are those the store is at, as far as it has told. */
  lemma {:induction false} RunTells(states: seq<Db>, actions: seq<Action>, n: nat)
    requires Run(states, actions) && n < |states|
    ensures LastCounters(ManifestAfter(states, actions, n).counters) == Some(CountersOf(states[n].disk))
    ensures |ManifestAfter(states, actions, n).counters| == |ManifestAfter(states, actions, n).edits|
  {
    if n > 0 {
      RunTells(states, actions, n - 1);
      RunKeepsInv(states, actions, n - 1);
      InvTree(states[n - 1]);
      StepTells(ManifestAfter(states, actions, n - 1), states[n - 1], actions[n - 1]);
    }
  }

  /** In every reachable state no edit of the manifest re-adds a file number to a level
      that held it before, and the edits fold to the current version. */
  lemma {:induction false} RunTracks(states: seq<Db>, actions: seq<Action>, n: nat)
    requires Run(states, actions) && n < |states|
    ensures Tracks(ManifestAfter(states, actions, n), states[n].version, states[n].nextFile)
  {
    if n == 0 {
      FirstTracks(ManifestAfter(states, actions, 0));
    } else {
      RunTracks(states, actions, n - 1);
      RunKeepsInv(states, actions, n - 1);
      StepTracks(ManifestAfter(states, actions, n - 1), states[n - 1], actions[n - 1]);
    }
  }

  lemma FoldsToOne(m: Manifest, v: Version, w: Version)
    requires FoldsTo(m, v) && FoldsTo(m, w)
    ensures v == w
  {
    forall l | 0 <= l < NUM_LEVELS ensures v[l] == w[l] {
      assert Saved(m.base[l], FoldedDeletions(m.edits, l), FoldedAdditions(m.edits, l), v[l]);
      assert Saved(m.base[l], FoldedDeletions(m.edits, l), FoldedAdditions(m.edits, l), w[l]);
      OrderedUnique(v[l], w[l]);
    }
  }

  lemma {:induction false} BaseIsEmpty(states: seq<Db>, actions: seq<Action>, n: nat)
    requires Run(states, actions) && n < |states|
    ensures ManifestAfter(states, actions, n).base == EMPTY_VERSION
  {
    if n > 0 { BaseIsEmpty(states, actions, n - 1); }
  }

  /** One builder for the edits of the manifest, at any moment of any run, gives the
      current version. */
  method ReadManifest(m: Manifest, ghost states: seq<Db>, ghost actions: seq<Action>, ghost n: nat) returns (v: Version)
    requires Run(states, actions) && n < |states|
    requires m.base == EMPTY_VERSION && m.edits == ManifestAfter(states, actions, n).edits
    ensures v == states[n].version
  {
    RunTracks(states, actions, n);
    BaseIsEmpty(states, actions, n);
    SameEdits(ManifestAfter(states, actions, n), m, states[n].version, states[n].nextFile);
    v := RecoverVersion(m.base, m.edits);
    FoldsToOne(m, v, states[n].version);
  }
}
