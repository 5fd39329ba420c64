/** A run of the store, step by step as the code goes, to the tree of Resurrection: the
    next compaction shows a client a value that was deleted. */
module ResurrectionRun {
  import opened Format
  import opened Tables
  import opened Builder
  import opened DropRule
  import opened Compactions
  import opened CompactionWork
  import opened Tree
  import opened History
  import opened Database
  import opened Steps
  import opened Runs
  import opened Inputs
  import opened PickInputs
  import opened Resurrection

  // ---- the steps of the run ----

  function Sequences(db: Db): seq<nat> {
    seq(|db.snapshots|, i requires 0 <= i < |db.snapshots| => db.snapshots[i].sequence)
  }

  /** What the steps below need to know of a state. */
  ghost predicate Is(db: Db, mem: seq<Entry>, imm: Option<seq<Entry>>, v: Version, last: nat, next: nat, held: seq<nat>) {
    && db.mem == mem && db.imm == imm && db.version == v && db.lastSequence == last && db.nextFile == next
    && Sequences(db) == held && db.disk.logs != []
  }

  lemma Begins()
    ensures Is(INITIAL, [], None, EMPTY_VERSION, 0, 4, [])
  {
  }

  lemma Commits(db: Db, ops: seq<Op>, v: Version, last: nat, next: nat, held: seq<nat>, r: Record, mem: seq<Entry>)
    requires Is(db, [], None, v, last, next, held) && last + |ops| < 100 && r == Record(last + 1, ops)
    requires mem == InsertAll([], EntriesOf(r))
    ensures Enabled(db, Commit(ops)) && Is(Next(db, Commit(ops)), mem, None, v, last + |ops|, next, held)
  {
    assert NextRecord(db, ops) == r;
    assert Sequences(DoWrite(db, ops)) == Sequences(db);
  }

  lemma Switches(db: Db, mem: seq<Entry>, v: Version, last: nat, next: nat, held: seq<nat>)
    requires Is(db, mem, None, v, last, next, held)
    ensures Enabled(db, SwitchMemTable) && Is(Next(db, SwitchMemTable), [], Some(mem), v, last, next + 1, held)
  {
    assert Sequences(DoSwitch(db)) == Sequences(db);
  }

  /** A flush to an empty level over empty levels. */
  lemma Flushes(db: Db, es: seq<Entry>, v: Version, last: nat, next: nat, held: seq<nat>, level: nat, v': Version)
    requires Is(db, [], Some(es), v, last, next, held) && es != [] && |v| == NUM_LEVELS && OrderedLevels(v)
    requires level < NUM_LEVELS && (forall l :: 0 <= l <= level ==> v[l] == []) && v' == v[level := [TableOf(next, es, 1)]]
    ensures var a := FlushMemTable(level, 1, v');
            Enabled(db, a) && Is(Next(db, a), [], None, v', last, next + 1, held) && OrderedLevels(v')
  {
    var f := TableOf(next, es, 1);
    var edit := Edit({}, [(level, f)]);
    assert edit.added[0] in edit.added;
    forall l | 0 <= l < NUM_LEVELS
      ensures Saved(v[l], DeletedAt(edit, l) - Numbers(AddedAt(edit, l)), AddedAt(edit, l), v'[l])
    {
      assert AddedAt(edit, l) == if l == level then {f} else {};
      assert Ordered(v[l]);
    }
    assert Sequences(DoFlush(db, v')) == Sequences(db);
  }

  lemma Snaps(db: Db, mem: seq<Entry>, v: Version, last: nat, next: nat)
    requires Is(db, mem, None, v, last, next, [])
    ensures Enabled(db, TakeSnapshot) && Is(Next(db, TakeSnapshot), mem, None, v, last, next, [last])
  {
    assert db.snapshots == [];
  }

  lemma Releases(db: Db, mem: seq<Entry>, v: Version, last: nat, next: nat, s: nat)
    requires Is(db, mem, None, v, last, next, [s])
    ensures Enabled(db, ReleaseSnapshot(0)) && Is(Next(db, ReleaseSnapshot(0)), mem, None, v, last, next, [])
  {
    assert |Sequences(db)| == 1;
    assert db.snapshots[..0] + db.snapshots[1..] == [];
  }

  /** Installing outputs in place of all of a level and some of the next. */
  lemma CompactionInstalls(v: Version, level: nat, in0: seq<File>, in1: seq<File>, outs: seq<File>, v': Version)
    requires |v| == NUM_LEVELS == |v'| && level + 1 < NUM_LEVELS && v[level] == in0 && v'[level] == []
    requires forall l :: 0 <= l < NUM_LEVELS && l != level && l != level + 1 ==> v'[l] == v[l]
    requires OrderedLevels(v')
    requires forall f :: f in v'[level + 1] <==> (f in v[level + 1] && f !in in1) || f in outs
    requires forall f, g :: g in in1 && (f in outs || (f in v[level + 1] && f !in in1)) ==> f.number != g.number
    ensures Installs(v, CompactionEdit(level, in0, in1, outs), v')
  {
    var edit := CompactionEdit(level, in0, in1, outs);
    forall l | 0 <= l < NUM_LEVELS
      ensures Saved(v[l], DeletedAt(edit, l) - Numbers(AddedAt(edit, l)), AddedAt(edit, l), v'[l])
    {
      CompactionEditAt(level, in0, in1, outs, l);
      CompactionDeletes(level, in0, in1, outs, l);
      assert Ordered(v'[l]);
    }
  }

  lemma CompactionDeletes(level: nat, in0: seq<File>, in1: seq<File>, outs: seq<File>, l: nat)
    ensures var fs := if l == level then in0 else if l == level + 1 then in1 else [];
            DeletedAt(CompactionEdit(level, in0, in1, outs), l) == set f | f in fs :: f.number
  {
    var fs, edit := if l == level then in0 else if l == level + 1 then in1 else [], CompactionEdit(level, in0, in1, outs);
    forall f | f in fs ensures f.number in DeletedAt(edit, l) { assert (l, f.number) in edit.deleted; }
  }

  // ---- runs, one action at a time ----

  /** A run so far, with the batches the specification has been told of. */
  datatype Trace = Trace(states: seq<Db>, actions: seq<Action>)

  ghost predicate StepAt(t: Trace, i: nat)
    requires i < |t.actions| && |t.states| == |t.actions| + 1
  {
    Enabled(t.states[i], t.actions[i]) && t.states[i + 1] == Next(t.states[i], t.actions[i])
  }

  ghost predicate Reached(t: Trace, batches: seq<seq<Op>>) {
    && |t.states| == |t.actions| + 1 && t.states[0] == INITIAL && SpecAfter(t.actions).batches == batches
    && forall i :: 0 <= i < |t.actions| ==> StepAt(t, i)
  }

  lemma ReachedIsRun(t: Trace, batches: seq<seq<Op>>)
    requires Reached(t, batches)
    ensures Run(t.states, t.actions)
  {
    forall i | 0 <= i < |t.actions|
      ensures Enabled(t.states[i], t.actions[i]) && t.states[i + 1] == Next(t.states[i], t.actions[i])
    {
      assert StepAt(t, i);
    }
  }

  ghost function Now(t: Trace, batches: seq<seq<Op>>): Db
    requires Reached(t, batches)
  {
    t.states[|t.actions|]
  }

  lemma Take(t: Trace, batches: seq<seq<Op>>, a: Action) returns (t': Trace)
    requires Reached(t, batches) && Enabled(Now(t, batches), a) && !a.CrashAndOpen?
    ensures var bs := if a.Commit? then batches + [a.ops] else batches;
            Reached(t', bs) && Now(t', bs) == Next(Now(t, batches), a)
  {
    t' := Trace(t.states + [Next(Now(t, batches), a)], t.actions + [a]);
    assert t'.actions[..|t.actions|] == t.actions;
    forall i | 0 <= i < |t'.actions| ensures StepAt(t', i) {
      if i < |t.actions| {
        assert StepAt(t, i);
        SameStep(t, t', i);
      }
    }
  }

  lemma SameStep(t: Trace, t': Trace, i: nat)
    requires |t.states| == |t.actions| + 1 && |t'.states| == |t'.actions| + 1
    requires i < |t.actions| && i < |t'.actions| && StepAt(t, i)
    requires t'.states[i] == t.states[i] && t'.states[i + 1] == t.states[i + 1] && t'.actions[i] == t.actions[i]
    ensures StepAt(t', i)
  {
  }

  /** A batch is committed, and its memtable switched and flushed. */
  lemma WriteOut(t: Trace, batches: seq<seq<Op>>, v: Version, last: nat, next: nat, held: seq<nat>,
                 ops: seq<Op>, es: seq<Entry>, level: nat, v': Version) returns (t': Trace)
    requires Reached(t, batches) && Is(Now(t, batches), [], None, v, last, next, held) && last + |ops| < 100
    requires Makes(ops, last + 1, es) && |v| == NUM_LEVELS && OrderedLevels(v)
    requires level < NUM_LEVELS && (forall l :: 0 <= l <= level ==> v[l] == []) && v' == v[level := [TableOf(next + 1, es, 1)]]
    ensures Reached(t', batches + [ops]) && OrderedLevels(v')
    ensures Is(Now(t', batches + [ops]), [], None, v', last + |ops|, next + 2, held)
  {
    var bs := batches + [ops];
    Commits(Now(t, batches), ops, v, last, next, held, Record(last + 1, ops), es);
    t' := Take(t, batches, Commit(ops));
    Switches(Now(t', bs), es, v, last + |ops|, next, held);
    t' := Take(t', bs, SwitchMemTable);
    Flushes(Now(t', bs), es, v, last + |ops|, next + 1, held, level, v');
    t' := Take(t', bs, FlushMemTable(level, 1, v'));
  }

  // ---- the run ----

  const PUT_B: seq<Op> := [Put(2.0, [7])]
  const PUT_A_DELETE_B: seq<Op> := [Put(1.0, [2]), Delete(2.0)]
  const PUT_A: seq<Op> := [Put(1.0, [1])]

  const FIRST := File(5, 1, OLD_B.key, OLD_B.key, [OLD_B])
  const SECOND := File(7, 1, OLDER_A.key, DELETED_B.key, [OLDER_A, DELETED_B])
  const WITH_FIRST: Version := [[], [], [FIRST], [], [], [], []]
  const WITH_BOTH: Version := [[], [SECOND], [FIRST], [], [], [], []]
  const CUT_IN_TWO: Version := [[], [], [LOWER, NEXT], [], [], [], []]

  lemma OneInserted(op: Op, first: nat)
    ensures InsertAll([], EntriesOf(Record(first, [op]))) == [EntryOf(op, first)]
  {
    var e := EntryOf(op, first);
    assert [op][..0] == [];
    assert Numbered([op], first) == [e];
    assert [e][..0] == [];
    assert InsertAll([], [e]) == InsertEntry([], e);
  }

  lemma TwoInserted()
    ensures InsertAll([], EntriesOf(Record(2, PUT_A_DELETE_B))) == [OLDER_A, DELETED_B]
  {
    var ops := PUT_A_DELETE_B;
    InsertStep([], ops, 2, 1);
    assert ops[..2] == ops && ops[..1] == [Put(1.0, [2])];
    OneInserted(Put(1.0, [2]), 2);
    BehindOlderA();
  }

  lemma BehindOlderA()
    ensures InsertEntry([OLDER_A], DELETED_B) == [OLDER_A, DELETED_B]
  {
    assert [OLDER_A][1..] == [];
    assert InsertEntry([], DELETED_B) == [DELETED_B];
  }

  lemma VersionsOrdered()
    ensures OrderedLevels(EMPTY_VERSION) && OrderedLevels(CUT_IN_TWO) && OrderedLevels(TREE) && OrderedLevels(AFTERWARDS)
  {
  }

  // ---- the compaction that cuts key 2 in two, while a snapshot needs both entries ----

  const BOTH_B := [OLDER_A, DELETED_B, OLD_B]

  lemma AllSurvive(base: iset<UserKey>)
    ensures Survivors(BOTH_B, base, 1, 3) == BOTH_B
  {
    assert Survivors(BOTH_B, base, 1, 0) == [];
    assert Survivors(BOTH_B, base, 1, 1) == [OLDER_A];
    assert Survivors(BOTH_B, base, 1, 2) == [OLDER_A, DELETED_B];
  }

  lemma FlattenTwo(f: File, g: File)
    ensures Flatten([f, g]) == f.entries + g.entries && Flatten([f]) == f.entries
  {
    assert [f, g][..1] == [f] && [f][..0] == [];
    assert Flatten([f]) == Flatten([]) + f.entries;
    assert Flatten([f, g]) == Flatten([f]) + g.entries;
  }

  lemma CutIsChosen()
    ensures Chosen(WITH_BOTH, 1, [SECOND], [FIRST]) && IsMerge(BOTH_B, [SECOND], [FIRST])
    ensures LeftOut(WITH_BOTH, 1, [FIRST]) == {}
  {
    assert SECOND in [SECOND] && WITH_BOTH[1] == [SECOND] && WITH_BOTH[2] == [FIRST];
    forall e ensures e in SetOf(BOTH_B) <==> e in FilesSet([SECOND]) + FilesSet([FIRST]) {
      assert e in SECOND.entries <==> e == OLDER_A || e == DELETED_B;
      assert e in FIRST.entries <==> e == OLD_B;
    }
  }

  lemma CutInstalls()
    ensures Installs(WITH_BOTH, CompactionEdit(1, [SECOND], [FIRST], [LOWER, NEXT]), CUT_IN_TWO)
  {
    VersionsOrdered();
    CompactionInstalls(WITH_BOTH, 1, [SECOND], [FIRST], [LOWER, NEXT], CUT_IN_TWO);
  }

  lemma CutOutputs()
    ensures CompactionOutputs(WITH_BOTH, 1, BOTH_B, 1, 8, [LOWER, NEXT])
  {
    AllSurvive(BaseKeys(WITH_BOTH, 1));
    FlattenTwo(LOWER, NEXT);
    assert ValidFile(LOWER) && ValidFile(NEXT);
  }

  lemma CutIsSafe()
    ensures NoResurrection(WITH_BOTH, 1, [FIRST], BOTH_B, 1)
  {
    CutIsChosen();
  }

  lemma CutsInTwo(db: Db)
    requires Is(db, [], None, WITH_BOTH, 3, 8, [1])
    ensures CanCompact(db, 1, [SECOND], [FIRST], BOTH_B, [LOWER, NEXT], CUT_IN_TWO)
  {
    assert Sequences(db)[0] == 1;
    CutIsChosen();
    CutOutputs();
    CutIsSafe();
    CutInstalls();
  }

  // ---- the compaction after the run ----

  const REWRITTEN := File(12, 1, NEWER_A.key, NEWER_A.key, [NEWER_A])
  const AFTERWARDS: Version := [[], [], [REWRITTEN, NEXT], [], [], [], []]

  lemma OneSurvives()
    ensures Survivors(MERGED, BaseKeys(TREE, 1), 4, 3) == [NEWER_A]
  {
    var base := BaseKeys(TREE, 1);
    MarkerIsDropped();
    assert Survivors(MERGED, base, 4, 0) == [];
    assert Survivors(MERGED, base, 4, 1) == [NEWER_A];
    assert Survivors(MERGED, base, 4, 2) == [NEWER_A];
  }

  lemma DropsTheMarker(db: Db)
    requires Is(db, [], None, TREE, 4, 12, [])
    ensures Compacts(db, 1, [UPPER], [LOWER], MERGED, [REWRITTEN], AFTERWARDS)
  {
    assert |Sequences(db)| == 0;
    InputsAreChosen();
    OneSurvives();
    FlattenTwo(REWRITTEN, REWRITTEN);
    VersionsOrdered();
    CompactionInstalls(TREE, 1, [UPPER], [LOWER], [REWRITTEN], AFTERWARDS);
  }

  lemma ShowsOldValue(db: Db)
    requires db.version == AFTERWARDS && db.mem == [] && db.imm == None
    ensures Reads(Everything(db), 2.0, 4, Found([7]))
  {
    assert Everything(db) == Stored(AFTERWARDS);
    forall e | e in Stored(AFTERWARDS) ensures e == NEWER_A || e == OLD_B {
      var l, f :| 0 <= l < 7 && f in AFTERWARDS[l] && e in f.entries;
      assert l == 2;
    }
    assert NEXT in AFTERWARDS[2] && OLD_B in NEXT.entries;
    assert IsTop(Everything(db), 2.0, 4, OLD_B);
  }

  lemma TwoOps(m: Image, a: Op, b: Op)
    ensures ApplyOps(m, [a]) == ApplyOp(m, a) && ApplyOps(m, [a, b]) == ApplyOp(ApplyOp(m, a), b)
  {
    assert [a, b][..1] == [a] && [a][..0] == [];
    assert ApplyOps(m, [a]) == ApplyOp(ApplyOps(m, []), a);
    assert ApplyOps(m, [a, b]) == ApplyOp(ApplyOps(m, [a]), b);
  }

  lemma KeyIsDeleted()
    ensures 2.0 !in MapAfter([PUT_B, PUT_A_DELETE_B, PUT_A])
  {
    var bs := [PUT_B, PUT_A_DELETE_B, PUT_A];
    var m := MapAfter(bs[..1]);
    assert bs[..2][..1] == bs[..1];
    assert MapAfter(bs[..2]) == ApplyOps(m, PUT_A_DELETE_B);
    assert MapAfter(bs) == ApplyOps(MapAfter(bs[..2]), PUT_A);
    TwoOps(m, Put(1.0, [2]), Delete(2.0));
    TwoOps(MapAfter(bs[..2]), Put(1.0, [1]), Delete(2.0));
  }

  // ---- the run ----

  /** The batch, numbered from `first`, makes this memtable. */
  ghost predicate Makes(ops: seq<Op>, first: nat, es: seq<Entry>) {
    es == InsertAll([], EntriesOf(Record(first, ops))) && es != []
  }

  /** The snapshot of the first write is held, and the second write flushed above it. */
  lemma HeldRun(t: Trace, batches: seq<seq<Op>>, v: Version, last: nat, next: nat, ops: seq<Op>, es: seq<Entry>, v': Version)
    returns (t': Trace)
    requires Reached(t, batches) && Is(Now(t, batches), [], None, v, last, next, []) && last + |ops| < 100
    requires Makes(ops, last + 1, es) && |v| == NUM_LEVELS && OrderedLevels(v)
    requires v[0] == [] && v[1] == [] && v' == v[1 := [TableOf(next + 1, es, 1)]]
    ensures Reached(t', batches + [ops]) && Is(Now(t', batches + [ops]), [], None, v', last + |ops|, next + 2, [last])
  {
    Snaps(Now(t, batches), [], v, last, next);
    t' := Take(t, batches, TakeSnapshot);
    t' := WriteOut(t', batches, v, last, next, [last], ops, es, 1, v');
  }

  lemma CompactedRun(t: Trace, batches: seq<seq<Op>>, v: Version, last: nat, next: nat, held: seq<nat>,
                     in0: seq<File>, in1: seq<File>, input: seq<Entry>, outs: seq<File>, v': Version) returns (t': Trace)
    requires Reached(t, batches) && Is(Now(t, batches), [], None, v, last, next, held)
    requires CanCompact(Now(t, batches), 1, in0, in1, input, outs, v')
    ensures Reached(t', batches) && Is(Now(t', batches), [], None, v', last, next + |outs|, held)
  {
    var db := Now(t, batches);
    t' := Take(t, batches, Compact(1, in0, in1, input, outs, v'));
    assert Sequences(DoCompact(db, outs, v')) == Sequences(db);
  }

  /** The snapshot is released, and a third write flushed. */
  lemma LastRun(t: Trace, batches: seq<seq<Op>>, v: Version, last: nat, next: nat, s: nat,
                ops: seq<Op>, es: seq<Entry>, v': Version) returns (t': Trace)
    requires Reached(t, batches) && Is(Now(t, batches), [], None, v, last, next, [s]) && last + |ops| < 100
    requires Makes(ops, last + 1, es) && |v| == NUM_LEVELS && OrderedLevels(v)
    requires v[0] == [] && v[1] == [] && v' == v[1 := [TableOf(next + 1, es, 1)]]
    ensures Reached(t', batches + [ops]) && Is(Now(t', batches + [ops]), [], None, v', last + |ops|, next + 2, [])
  {
    Releases(Now(t, batches), [], v, last, next, s);
    t' := Take(t, batches, ReleaseSnapshot(0));
    t' := WriteOut(t', batches, v, last, next, [], ops, es, 1, v');
  }

  const NONE: seq<seq<Op>> := []

  lemma FirstVersion()
    ensures |EMPTY_VERSION| == NUM_LEVELS && WITH_FIRST == EMPTY_VERSION[2 := [TableOf(5, [OLD_B], 1)]]
  {
  }

  lemma FirstBatch()
    ensures Makes(PUT_B, 1, [OLD_B])
  {
    OneInserted(Put(2.0, [7]), 1);
  }

  lemma SecondVersion()
    ensures |WITH_FIRST| == NUM_LEVELS && OrderedLevels(WITH_FIRST) && WITH_FIRST[0] == [] && WITH_FIRST[1] == []
    ensures WITH_BOTH == WITH_FIRST[1 := [TableOf(7, [OLDER_A, DELETED_B], 1)]]
  {
  }

  lemma FirstPart() returns (t: Trace)
    ensures Reached(t, NONE + [PUT_B]) && Is(Now(t, NONE + [PUT_B]), [], None, WITH_FIRST, 1, 6, [])
  {
    var last: nat, next: nat, held: seq<nat> := 0, 4, [];
    VersionsOrdered();
    FirstVersion();
    FirstBatch();
    t := Trace([INITIAL], []);
    assert Reached(t, NONE);
    Begins();
    t := WriteOut(t, NONE, EMPTY_VERSION, last, next, held, PUT_B, [OLD_B], 2, WITH_FIRST);
  }

  lemma SecondPart(t: Trace, bs: seq<seq<Op>>, last: nat, next: nat) returns (t': Trace)
    requires Reached(t, bs) && Is(Now(t, bs), [], None, WITH_FIRST, last, next, []) && last == 1 && next == 6
    ensures Reached(t', bs + [PUT_A_DELETE_B]) && Is(Now(t', bs + [PUT_A_DELETE_B]), [], None, WITH_BOTH, 3, 8, [1])
  {
    SecondVersion();
    TwoInserted();
    var ops, es, v, v' := PUT_A_DELETE_B, [OLDER_A, DELETED_B], WITH_FIRST, WITH_BOTH;
    t' := HeldRun(t, bs, v, last, next, ops, es, v');
  }

  lemma CutPart(t: Trace, bs: seq<seq<Op>>) returns (t': Trace)
    requires Reached(t, bs) && Is(Now(t, bs), [], None, WITH_BOTH, 3, 8, [1])
    ensures Reached(t', bs) && Is(Now(t', bs), [], None, CUT_IN_TWO, 3, 10, [1])
  {
    CutsInTwo(Now(t, bs));
    t' := CompactedRun(t, bs, WITH_BOTH, 3, 8, [1], [SECOND], [FIRST], BOTH_B, [LOWER, NEXT], CUT_IN_TWO);
  }

  lemma ThirdPart(t: Trace, bs: seq<seq<Op>>) returns (t': Trace)
    requires Reached(t, bs) && Is(Now(t, bs), [], None, CUT_IN_TWO, 3, 10, [1])
    ensures Reached(t', bs + [PUT_A]) && Is(Now(t', bs + [PUT_A]), [], None, TREE, 4, 12, [])
  {
    var last: nat, next: nat := 3, 10;
    VersionsOrdered();
    OneInserted(PUT_A[0], 4);
    t' := LastRun(t, bs, CUT_IN_TWO, last, next, 1, PUT_A, [NEWER_A], TREE);
  }

  /** From the initial state, by ordinary steps, to the tree of Resurrection. */
  lemma RunToTree() returns (t: Trace, batches: seq<seq<Op>>)
    ensures batches == [PUT_B, PUT_A_DELETE_B, PUT_A]
    ensures Reached(t, batches) && Is(Now(t, batches), [], None, TREE, 4, 12, [])
  {
    t := FirstPart();
    t := SecondPart(t, NONE + [PUT_B], 1, 6);
    t := CutPart(t, NONE + [PUT_B] + [PUT_A_DELETE_B]);
    t := ThirdPart(t, NONE + [PUT_B] + [PUT_A_DELETE_B]);
    batches := NONE + [PUT_B] + [PUT_A_DELETE_B] + [PUT_A];
  }

  /** After that run the code may compact as it does; a client then reads the value that
      the specification says is deleted. */
  lemma DeletedValueReturnsInARun() returns (t: Trace, batches: seq<seq<Op>>)
    ensures Reached(t, batches) && Run(t.states, t.actions) && 2.0 !in MapAfter(batches)
    ensures var db := Now(t, batches);
            db.lastSequence == 4 && Compacts(db, 1, [UPPER], [LOWER], MERGED, [REWRITTEN], AFTERWARDS)
            && Reads(Everything(DoCompact(db, [REWRITTEN], AFTERWARDS)), 2.0, 4, Found([7]))
  {
    t, batches := RunToTree();
    ReachedIsRun(t, batches);
    KeyIsDeleted();
    var db := Now(t, batches);
    DropsTheMarker(db);
    ShowsOldValue(DoCompact(db, [REWRITTEN], AFTERWARDS));
  }

  /** And that is the compaction the code chooses when it starts from the upper file. */
  method ChoosesThem(maxFileSize: nat) returns (c: Option<CompactionInputs>)
    ensures c.Some? && c.value.level == 1 && c.value.in0 == [UPPER] && c.value.in1 == [LOWER]
  {
    LevelsAreValid();
    SmallScores();
    ghost var f;
    c, f := PickCompaction(TREE, [None, None, None, None, None, None, None], Some((1, UPPER)), maxFileSize);
    ChoiceIsForced(c.value);
  }

  lemma SmallScores()
    ensures forall l :: 0 <= l < NUM_LEVELS ==> Score(TREE, l) < 1.0
  {
    forall l | 0 <= l < NUM_LEVELS ensures Score(TREE, l) < 1.0 { SmallScore(l); }
  }

  lemma SmallScore(l: nat)
    requires l < NUM_LEVELS
    ensures Score(TREE, l) < 1.0
  {
    assert [UPPER][..0] == [] && [LOWER, NEXT][..1] == [LOWER] && [LOWER][..0] == [];
    assert TotalFileSize([UPPER]) == TotalFileSize([]) + 1 && TotalFileSize([LOWER]) == TotalFileSize([]) + 1;
    assert TotalFileSize([LOWER, NEXT]) == TotalFileSize([LOWER]) + 1;
    assert TREE[l] == [] || TREE[l] == [UPPER] || TREE[l] == [LOWER, NEXT];
    MaxBytesLarge(l);
  }

  lemma {:induction false} MaxBytesLarge(level: nat)
    ensures MaxBytes(level) > 2.0
  {
    if level > 1 { MaxBytesLarge(level - 1); }
  }

  lemma OnlyOne(fs: seq<File>, f: File)
    requires Disjoint(fs) && fs != [] && (forall i :: 0 <= i < |fs| ==> fs[i] == f) && !Before(f.largest, f.smallest)
    ensures fs == [f]
  {
    if |fs| > 1 { InTurn(fs); }
  }

  lemma InTurn(fs: seq<File>)
    requires Disjoint(fs) && |fs| > 1
    ensures Before(fs[0].largest, fs[1].smallest)
  {
  }

  lemma OnlyUpper(c: CompactionInputs)
    requires c.level == 1 && GoodStart(TREE, 1, c.in0)
    ensures c.in0 == [UPPER]
  {
    var a, b :| IsSlice(TREE[1], a, b, c.in0);
  }

  lemma OnlyLower(in1: seq<File>)
    requires Chosen(TREE, 1, [UPPER], in1) && Disjoint(in1)
    ensures in1 == [LOWER]
  {
    assert UPPER in [UPPER] && LOWER in TREE[2];
    forall i | 0 <= i < |in1| ensures in1[i] == LOWER { assert in1[i] in in1 && in1[i] in TREE[2]; }
    assert LOWER in in1;
    OnlyOne(in1, LOWER);
  }

  lemma ChoiceIsForced(c: CompactionInputs)
    requires c.level == 1 && WellPicked(TREE, c)
    ensures c.in0 == [UPPER] && c.in1 == [LOWER]
  {
    OnlyUpper(c);
    OnlyLower(c.in1);
  }
}
