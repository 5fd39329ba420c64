/** The tree invariant under the steps that change a version: flush, trivial move and
    compaction (db/db_impl.cc WriteLevel0Table, BackgroundCompaction, InstallCompactionResults). */
module Tree {
  import opened Format
  import opened Tables
  import opened Builder
  import opened DropRule
  import opened Compactions
  import opened CompactionWork

  ghost predicate OrderedLevels(v: Version) {
    forall l :: 0 <= l < |v| ==> Ordered(v[l])
  }

  predicate PairDisjoint(f: File, g: File) {
    Before(f.largest, g.smallest) || Before(g.largest, f.smallest)
  }

  lemma PairwiseDisjoint(fs: seq<File>)
    requires Ordered(fs) && forall f :: f in fs ==> ValidFile(f)
    requires forall f, g :: f in fs && g in fs && f != g ==> PairDisjoint(f, g)
    ensures Disjoint(fs)
  {
    forall i, j | 0 <= i < j < |fs| ensures Before(fs[i].largest, fs[j].smallest) {
      assert BySmallest(fs[i], fs[j]);
      assert fs[i] in fs && fs[j] in fs;
      FileSpan(fs[i]);
      FileSpan(fs[j]);
    }
  }

  lemma DisjointPairs(fs: seq<File>, f: File, g: File)
    requires Disjoint(fs) && f in fs && g in fs && f != g
    ensures PairDisjoint(f, g)
  {
    var i :| 0 <= i < |fs| && fs[i] == f;
    var j :| 0 <= j < |fs| && fs[j] == g;
  }

  // ---- replacing the inputs of a compaction by files one level down ----

  /** A file that stays where it is. */
  predicate Stays(v: Version, level: nat, in0: seq<File>, in1: seq<File>, l: nat, f: File)
    requires l < |v|
  {
    f in v[l] && !Touched(level, in0, in1, l, f)
  }

  /** v' is v with the inputs taken out and outs put into level+1. */
  ghost predicate Replaced(v: Version, level: nat, in0: seq<File>, in1: seq<File>, outs: seq<File>, v': Version) {
    && |v| == |v'| == NUM_LEVELS
    && OrderedLevels(v')
    && forall l, f :: 0 <= l < NUM_LEVELS ==>
         (f in v'[l] <==> Stays(v, level, in0, in1, l, f) || (l == level + 1 && f in outs))
  }

  ghost predicate FromInputs(in0: seq<File>, in1: seq<File>, outs: seq<File>) {
    forall o, e :: o in outs && e in o.entries ==> e in FilesSet(in0) + FilesSet(in1)
  }

  ghost predicate NamesFree(v: Version, level: nat, in0: seq<File>, in1: seq<File>, outs: seq<File>) {
    && (forall o, p :: o in outs && p in outs && o.number == p.number ==> o == p)
    && (forall o, l, f :: o in outs && 0 <= l < |v| && f in v[l] && !Touched(level, in0, in1, l, f) ==> o.number != f.number)
  }

  lemma EntryFile(v: Version, level: nat, in0: seq<File>, in1: seq<File>, e: Entry) returns (l: nat, f: File)
    requires |v| == NUM_LEVELS && Chosen(v, level, in0, in1) && e in FilesSet(in0) + FilesSet(in1)
    ensures l < |v| && f in v[l] && e in f.entries && Touched(level, in0, in1, l, f)
  {
    if e in FilesSet(in0) {
      l := level;
      f :| f in in0 && e in f.entries;
    } else {
      l := level + 1;
      f :| f in in1 && e in f.entries;
    }
  }

  /** Input entries are older than what stays at or above `level`, newer than what lies
      below level+1. */
  lemma InputAge(v: Version, level: nat, in0: seq<File>, in1: seq<File>,
                 l: nat, f: File, e: Entry, m: nat, g: File, x: Entry)
    requires TreeInvariant(v) && Chosen(v, level, in0, in1) && l < |v| && m < |v|
    requires f in v[l] && e in f.entries && Touched(level, in0, in1, l, f)
    requires g in v[m] && x in g.entries && !Touched(level, in0, in1, m, g)
    requires e.key.user == x.key.user
    ensures m <= level ==> x.key.sequence > e.key.sequence
    ensures m >= level + 2 ==> e.key.sequence > x.key.sequence
  {
    if m == l == level {
      assert ValidFile(f) && ValidFile(g);
      FileBounds(f, e);
      FileBounds(g, x);
      ChosenApart(v, level, in0, in1, g, f);
    } else if m <= level {
      FilesApart(v, m, g, l, f, x, e);
    } else if m >= level + 2 {
      FilesApart(v, l, f, m, g, e, x);
    }
  }

  /** A level+1 file left out lies wholly before, or wholly after, every input. */
  ghost predicate WhollyBefore(h: File, in0: seq<File>, in1: seq<File>) {
    forall f :: f in in0 || f in in1 ==> Before(h.largest, f.smallest)
  }

  ghost predicate WhollyAfter(h: File, in0: seq<File>, in1: seq<File>) {
    forall f :: f in in0 || f in in1 ==> Before(f.largest, h.smallest)
  }

  lemma LeftOutAside(v: Version, level: nat, in0: seq<File>, in1: seq<File>, h: File)
    requires LevelsValid(v) && Chosen(v, level, in0, in1)
    requires h in v[level + 1] && h !in in1
    ensures WhollyBefore(h, in0, in1) || WhollyAfter(h, in0, in1)
  {
    FileSpan(h);
    assert OutsideHull(h, in0);
    var left := forall g :: g in in0 ==> h.largest.user < g.smallest.user;
    forall f | f in in1
      ensures if left then Before(h.largest, f.smallest) else Before(f.largest, h.smallest)
    {
      assert f in v[level + 1] && !OutsideHull(f, in0);
      DisjointPairs(v[level + 1], f, h);
    }
  }

  lemma EntryAside(h: File, in0: seq<File>, in1: seq<File>, f: File, e: Entry)
    requires (f in in0 || f in in1) && ValidFile(f) && e in f.entries
    ensures WhollyBefore(h, in0, in1) ==> Before(h.largest, e.key)
    ensures WhollyAfter(h, in0, in1) ==> Before(e.key, h.smallest)
  {
    FileBounds(f, e);
  }

  lemma InputFileOf(v: Version, level: nat, in0: seq<File>, in1: seq<File>, e: Entry) returns (f: File)
    requires LevelsValid(v) && Chosen(v, level, in0, in1) && e in FilesSet(in0) + FilesSet(in1)
    ensures (f in in0 || f in in1) && ValidFile(f) && e in f.entries
  {
    var l;
    l, f := EntryFile(v, level, in0, in1, e);
  }

  lemma OutputAside(v: Version, level: nat, in0: seq<File>, in1: seq<File>, h: File, o: File)
    requires LevelsValid(v) && Chosen(v, level, in0, in1)
    requires h in v[level + 1] && h !in in1
    requires ValidFile(o) && forall e :: e in o.entries ==> e in FilesSet(in0) + FilesSet(in1)
    ensures PairDisjoint(h, o) && PairDisjoint(o, h)
  {
    LeftOutAside(v, level, in0, in1, h);
    var first, last := o.entries[0], o.entries[|o.entries| - 1];
    var f := InputFileOf(v, level, in0, in1, first);
    var g := InputFileOf(v, level, in0, in1, last);
    EntryAside(h, in0, in1, f, first);
    EntryAside(h, in0, in1, g, last);
  }

  ghost predicate GoodOutputs(in0: seq<File>, in1: seq<File>, outs: seq<File>) {
    && (forall o :: o in outs ==> ValidFile(o))
    && FromInputs(in0, in1, outs)
    && (forall o, p :: o in outs && p in outs && o != p ==> PairDisjoint(o, p))
  }

  lemma ReplacedMember(v: Version, level: nat, in0: seq<File>, in1: seq<File>, outs: seq<File>, v': Version, l: nat, f: File)
    requires Replaced(v, level, in0, in1, outs, v') && l < NUM_LEVELS
    ensures f in v'[l] <==> Stays(v, level, in0, in1, l, f) || (l == level + 1 && f in outs)
  {
  }

  lemma ReplacedPair(v: Version, level: nat, in0: seq<File>, in1: seq<File>, outs: seq<File>, l: nat, f: File, g: File)
    requires LevelsValid(v) && Chosen(v, level, in0, in1) && GoodOutputs(in0, in1, outs) && 1 <= l < NUM_LEVELS
    requires Stays(v, level, in0, in1, l, f) || (l == level + 1 && f in outs)
    requires Stays(v, level, in0, in1, l, g) || (l == level + 1 && g in outs)
    requires f != g
    ensures PairDisjoint(f, g)
  {
    if Stays(v, level, in0, in1, l, f) {
      if Stays(v, level, in0, in1, l, g) {
        DisjointPairs(v[l], f, g);
      } else {
        OutputAside(v, level, in0, in1, f, g);
      }
    } else if Stays(v, level, in0, in1, l, g) {
      OutputAside(v, level, in0, in1, g, f);
    }
  }

  lemma ReplacedNames(v: Version, level: nat, in0: seq<File>, in1: seq<File>, outs: seq<File>, v': Version)
    requires |v| == NUM_LEVELS && UniqueNumbers(v)
    requires Replaced(v, level, in0, in1, outs, v') && NamesFree(v, level, in0, in1, outs)
    ensures UniqueNumbers(v')
  {
    forall l, m, f, g | 0 <= l < NUM_LEVELS && 0 <= m < NUM_LEVELS && f in v'[l] && g in v'[m] && f.number == g.number
      ensures l == m && f == g
    {
      ReplacedMember(v, level, in0, in1, outs, v', l, f);
      ReplacedMember(v, level, in0, in1, outs, v', m, g);
    }
  }

  lemma ReplacedLevels(v: Version, level: nat, in0: seq<File>, in1: seq<File>, outs: seq<File>, v': Version)
    requires LevelsValid(v) && Chosen(v, level, in0, in1) && Replaced(v, level, in0, in1, outs, v')
    requires GoodOutputs(in0, in1, outs) && NamesFree(v, level, in0, in1, outs)
    ensures LevelsValid(v')
  {
    ReplacedNames(v, level, in0, in1, outs, v');
    forall l, f | 0 <= l < NUM_LEVELS && f in v'[l] ensures ValidFile(f) {
      assert Stays(v, level, in0, in1, l, f) || (l == level + 1 && f in outs);
    }
    forall l | 1 <= l < NUM_LEVELS ensures Disjoint(v'[l]) {
      forall f, g | f in v'[l] && g in v'[l] && f != g ensures PairDisjoint(f, g) {
        ReplacedPair(v, level, in0, in1, outs, l, f, g);
      }
      PairwiseDisjoint(v'[l]);
    }
  }

  lemma ReplacedNewer(v: Version, level: nat, in0: seq<File>, in1: seq<File>, outs: seq<File>,
                      l: nat, f: File, m: nat, g: File)
    requires TreeInvariant(v) && Chosen(v, level, in0, in1) && FromInputs(in0, in1, outs) && l < m < NUM_LEVELS
    requires Stays(v, level, in0, in1, l, f) || (l == level + 1 && f in outs)
    requires Stays(v, level, in0, in1, m, g) || (m == level + 1 && g in outs)
    ensures Newer(f.entries, g.entries)
  {
    forall a, b | a in f.entries && b in g.entries && a.key.user == b.key.user
      ensures a.key.sequence > b.key.sequence
    {
      if Stays(v, level, in0, in1, l, f) {
        if Stays(v, level, in0, in1, m, g) {
          FilesApart(v, l, f, m, g, a, b);
        } else {
          var k, h := EntryFile(v, level, in0, in1, b);
          InputAge(v, level, in0, in1, k, h, b, l, f, a);
        }
      } else {
        var k, h := EntryFile(v, level, in0, in1, a);
        InputAge(v, level, in0, in1, k, h, a, m, g, b);
      }
    }
  }

  /** Replacing a compaction's inputs by files made of their entries keeps the tree. */
  lemma ReplaceKeepsTree(v: Version, level: nat, in0: seq<File>, in1: seq<File>, outs: seq<File>, v': Version)
    requires TreeInvariant(v) && Chosen(v, level, in0, in1) && Replaced(v, level, in0, in1, outs, v')
    requires GoodOutputs(in0, in1, outs) && NamesFree(v, level, in0, in1, outs)
    ensures TreeInvariant(v')
  {
    assert LevelsValid(v') by {
      ReplacedLevels(v, level, in0, in1, outs, v');
    }
    forall f, g | f in v'[0] && g in v'[0] && f.number > g.number
      ensures Newer(f.entries, g.entries)
    {
      ReplacedMember(v, level, in0, in1, outs, v', 0, f);
      ReplacedMember(v, level, in0, in1, outs, v', 0, g);
    }
    forall l, m, f, g | 0 <= l < m < NUM_LEVELS && f in v'[l] && g in v'[m]
      ensures Newer(f.entries, g.entries)
    {
      ReplacedMember(v, level, in0, in1, outs, v', l, f);
      ReplacedMember(v, level, in0, in1, outs, v', m, g);
      ReplacedNewer(v, level, in0, in1, outs, l, f, m, g);
    }
  }

  lemma ReplacedStored(v: Version, level: nat, in0: seq<File>, in1: seq<File>, outs: seq<File>, v': Version)
    requires level + 1 < NUM_LEVELS && Replaced(v, level, in0, in1, outs, v')
    ensures Stored(v') == Untouched(v, level, in0, in1) + FilesSet(outs)
  {
    forall e | e in Stored(v') ensures e in Untouched(v, level, in0, in1) + FilesSet(outs) {
      var l, f :| 0 <= l < |v'| && f in v'[l] && e in f.entries;
      ReplacedMember(v, level, in0, in1, outs, v', l, f);
    }
    forall e | e in FilesSet(outs) ensures e in Stored(v') {
      var f :| f in outs && e in f.entries;
      ReplacedMember(v, level, in0, in1, outs, v', level + 1, f);
    }
    forall e | e in Untouched(v, level, in0, in1) ensures e in Stored(v') {
      var l, f := UntouchedFile(v, level, in0, in1, e);
      ReplacedMember(v, level, in0, in1, outs, v', l, f);
    }
  }

  // ---- from edits to replaced files ----

  /** AddInputDeletions plus one AddFile per output; with outs == in0 == [f], the edit
      of a trivial move. */
  function CompactionEdit(level: nat, in0: seq<File>, in1: seq<File>, outs: seq<File>): Edit {
    Edit((set f | f in in0 :: (level, f.number)) + (set f | f in in1 :: (level + 1, f.number)),
         seq(|outs|, i requires 0 <= i < |outs| => (level + 1, outs[i])))
  }

  lemma CompactionEditAt(level: nat, in0: seq<File>, in1: seq<File>, outs: seq<File>, l: nat)
    ensures AddedAt(CompactionEdit(level, in0, in1, outs), l) == if l == level + 1 then (set f | f in outs) else {}
    ensures DeletedAt(CompactionEdit(level, in0, in1, outs), l)
      == if l == level then Numbers(set f | f in in0)
         else if l == level + 1 then Numbers(set f | f in in1) else {}
  {
    var edit := CompactionEdit(level, in0, in1, outs);
    forall o | o in outs ensures (level + 1, o) in edit.added {
      var i :| 0 <= i < |outs| && outs[i] == o;
      assert edit.added[i] == (level + 1, o);
    }
    forall n | n in Numbers(set f | f in in0) ensures (level, n) in edit.deleted {
      var f :| f in in0 && f.number == n;
    }
    var below := level + 1;
    forall n | n in Numbers(set f | f in in1) ensures (below, n) in edit.deleted {
      var f :| f in in1 && f.number == n;
    }
  }

  lemma NumberIn(v: Version, l: nat, fs: seq<File>, f: File)
    requires UniqueNumbers(v) && l < |v| && f in v[l] && forall g :: g in fs ==> g in v[l]
    ensures f.number in Numbers(set g | g in fs) <==> f in fs
  {
    if f in fs { NumberOf(f, set g | g in fs); }
  }

  lemma InstallReplaces(v: Version, level: nat, in0: seq<File>, in1: seq<File>, outs: seq<File>, v': Version)
    requires level + 1 < NUM_LEVELS && |v| == NUM_LEVELS && UniqueNumbers(v)
    requires (forall f :: f in in0 ==> f in v[level]) && (forall f :: f in in1 ==> f in v[level + 1])
    requires forall o, g :: o in outs && g in in1 ==> o.number != g.number
    requires Installs(v, CompactionEdit(level, in0, in1, outs), v')
    ensures Replaced(v, level, in0, in1, outs, v')
  {
    var edit := CompactionEdit(level, in0, in1, outs);
    forall l, f | 0 <= l < NUM_LEVELS
      ensures Ordered(v'[l])
      ensures f in v'[l] <==> Stays(v, level, in0, in1, l, f) || (l == level + 1 && f in outs)
    {
      CompactionEditAt(level, in0, in1, outs, l);
      assert Saved(v[l], DeletedAt(edit, l) - Numbers(AddedAt(edit, l)), AddedAt(edit, l), v'[l]);
      if f in v[l] && l == level { NumberIn(v, l, in0, f); }
      if f in v[l] && l == level + 1 { NumberIn(v, l, in1, f); }
      if l == level + 1 && f in outs { NumberOf(f, set g | g in outs); }
    }
  }

  // ---- the outputs of the compaction loop ----

  lemma {:induction false} FlattenMember(fs: seq<File>, e: Entry)
    ensures e in Flatten(fs) <==> exists f :: f in fs && e in f.entries
    decreases |fs|
  {
    if fs != [] {
      var init, last := fs[..|fs| - 1], fs[|fs| - 1];
      FlattenMember(init, e);
      assert fs == init + [last];
      if e in Flatten(fs) && e in Flatten(init) {
        var f :| f in init && e in f.entries;
        assert f in fs;
      }
    }
  }

  lemma FlattenSet(fs: seq<File>)
    ensures FilesSet(fs) == SetOf(Flatten(fs))
  {
    forall e ensures e in FilesSet(fs) <==> e in Flatten(fs) {
      FlattenMember(fs, e);
    }
  }

  /** Cutting a sorted sequence into files gives disjoint files in order. */
  lemma {:induction false} FlattenDisjoint(fs: seq<File>)
    requires Sorted(Flatten(fs)) && forall k :: 0 <= k < |fs| ==> ValidFile(fs[k])
    ensures Disjoint(fs)
    decreases |fs|
  {
    if fs != [] {
      var init, last := fs[..|fs| - 1], fs[|fs| - 1];
      SuffixSorted(Flatten(init), last.entries);
      FlattenDisjoint(init);
      forall i | 0 <= i < |fs| - 1 ensures Before(fs[i].largest, last.smallest) {
        var e := fs[i].entries[|fs[i].entries| - 1];
        assert fs[i] == init[i] && e in fs[i].entries;
        FlattenMember(init, e);
        var k :| 0 <= k < |Flatten(init)| && Flatten(init)[k] == e;
        assert Before(Flatten(init)[k].key, last.entries[0].key);
      }
    }
  }

  /** What DoCompactionWork promises of its outputs. */
  ghost predicate CompactionOutputs(v: Version, level: nat, input: seq<Entry>, snap: nat, first: nat, outs: seq<File>)
    requires |v| == NUM_LEVELS
  {
    && Flatten(outs) == Survivors(input, BaseKeys(v, level), snap, |input|)
    && forall k :: 0 <= k < |outs| ==> ValidFile(outs[k]) && outs[k].number == first + k
  }

  lemma OutputsAreGood(v: Version, level: nat, in0: seq<File>, in1: seq<File>, input: seq<Entry>,
                       snap: nat, first: nat, outs: seq<File>)
    requires |v| == NUM_LEVELS && IsMerge(input, in0, in1)
    requires CompactionOutputs(v, level, input, snap, first, outs)
    ensures GoodOutputs(in0, in1, outs)
    ensures FilesSet(outs) == SetOf(Survivors(input, BaseKeys(v, level), snap, |input|))
  {
    var base := BaseKeys(v, level);
    SurvivorsSorted(input, base, snap, |input|);
    FlattenDisjoint(outs);
    FlattenSet(outs);
    forall o, p | o in outs && p in outs && o != p ensures PairDisjoint(o, p) {
      var i :| 0 <= i < |outs| && outs[i] == o;
      var j :| 0 <= j < |outs| && outs[j] == p;
    }
    forall o, e | o in outs && e in o.entries ensures e in FilesSet(in0) + FilesSet(in1) {
      assert e in FilesSet(outs);
      SurvivorMember(input, base, snap, |input|, e);
      assert e in SetOf(input);
    }
  }

  /** Which entries the outputs hold: those that nothing newer of their key hides from the
      smallest snapshot, but for the deletion markers it sees of keys in no deeper file. */
  lemma OutputsExactly(v: Version, level: nat, input: seq<Entry>, snap: nat, first: nat, outs: seq<File>, e: Entry)
    requires |v| == NUM_LEVELS && Sorted(input) && CompactionOutputs(v, level, input, snap, first, outs)
    ensures (exists o :: o in outs && e in o.entries) <==>
      (e in input
       && !(exists f :: f in input && f.key.user == e.key.user && e.key.sequence < f.key.sequence <= snap)
       && !(e.key.kind.Deletion? && e.key.sequence <= snap
            && forall l, f :: level + 2 <= l < NUM_LEVELS && f in v[l] ==>
                 e.key.user < f.smallest.user || e.key.user > f.largest.user))
  {
    FlattenMember(outs, e);
    SurvivorsExactly(input, BaseKeys(v, level), snap, e);
  }

  /** Installing a compaction keeps the tree and leaves exactly what the drop rule keeps. */
  lemma CompactionKeepsTree(v: Version, level: nat, in0: seq<File>, in1: seq<File>, input: seq<Entry>,
                            snap: nat, first: nat, outs: seq<File>, v': Version)
    requires TreeInvariant(v) && Chosen(v, level, in0, in1) && IsMerge(input, in0, in1)
    requires CompactionOutputs(v, level, input, snap, first, outs)
    requires forall l, f :: 0 <= l < NUM_LEVELS && f in v[l] ==> f.number < first
    requires Installs(v, CompactionEdit(level, in0, in1, outs), v')
    ensures TreeInvariant(v')
    ensures Stored(v') == Compacted(v, level, in0, in1, input, snap)
  {
    OutputsAreGood(v, level, in0, in1, input, snap, first, outs);
    InstallReplaces(v, level, in0, in1, outs, v');
    ReplaceKeepsTree(v, level, in0, in1, outs, v');
    ReplacedStored(v, level, in0, in1, outs, v');
  }

  lemma MoveIsGood(v: Version, level: nat, f: File)
    requires LevelsValid(v) && level + 1 < NUM_LEVELS && f in v[level]
    ensures NamesFree(v, level, [f], [], [f]) && GoodOutputs([f], [], [f])
  {
    assert f in [f] && ValidFile(f);
    forall o, e | o in [f] && e in o.entries ensures e in FilesSet([f]) {
    }
  }

  lemma MoveStored(v: Version, level: nat, f: File)
    requires level < |v| && f in v[level]
    ensures Stored(v) == Untouched(v, level, [f], []) + FilesSet([f])
  {
    assert f in [f];
    forall e | e in Stored(v) ensures e in Untouched(v, level, [f], []) + FilesSet([f]) {
      var l, g :| 0 <= l < |v| && g in v[l] && e in g.entries;
    }
    forall e | e in FilesSet([f]) ensures e in Stored(v) {
      var g :| g in [f] && e in g.entries;
    }
  }

  /** Moving a file down keeps the tree and everything in it. */
  lemma TrivialMoveKeepsTree(v: Version, level: nat, f: File, v': Version)
    requires TreeInvariant(v) && Chosen(v, level, [f], [])
    requires Installs(v, CompactionEdit(level, [f], [], [f]), v')
    ensures TreeInvariant(v') && Stored(v') == Stored(v)
  {
    assert f in [f];
    InstallReplaces(v, level, [f], [], [f], v');
    MoveIsGood(v, level, f);
    ReplaceKeepsTree(v, level, [f], [], [f], v');
    ReplacedStored(v, level, [f], [], [f], v');
    MoveStored(v, level, f);
  }

  // ---- flush ----

  predicate NoOverlap(fs: seq<File>, f: File) {
    forall g :: g in fs ==> g.largest.user < f.smallest.user || g.smallest.user > f.largest.user
  }

  /** v' is v with f added at `level`. */
  ghost predicate Adds(v: Version, level: nat, f: File, v': Version) {
    && |v| == |v'| == NUM_LEVELS
    && OrderedLevels(v')
    && forall l, g :: 0 <= l < NUM_LEVELS ==> (g in v'[l] <==> Joins(v, level, f, l, g))
  }

  predicate Joins(v: Version, level: nat, f: File, l: nat, g: File)
    requires l < |v|
  {
    g in v[l] || (l == level && g == f)
  }

  lemma AddedMember(v: Version, level: nat, f: File, v': Version, l: nat, g: File)
    requires Adds(v, level, f, v') && l < NUM_LEVELS
    ensures g in v'[l] <==> Joins(v, level, f, l, g)
  {
  }

  lemma InstallAdds(v: Version, level: nat, f: File, v': Version)
    requires |v| == NUM_LEVELS && Installs(v, Edit({}, [(level, f)]), v')
    ensures Adds(v, level, f, v')
  {
    var edit := Edit({}, [(level, f)]);
    assert edit.added[0] in edit.added;
    forall l, g | 0 <= l < NUM_LEVELS
      ensures Ordered(v'[l]) && (g in v'[l] <==> Joins(v, level, f, l, g))
    {
      assert AddedAt(edit, l) == if l == level then {f} else {};
      assert Saved(v[l], DeletedAt(edit, l) - Numbers(AddedAt(edit, l)), AddedAt(edit, l), v'[l]);
    }
  }

  lemma RangesApart(g: File, f: File)
    requires ValidFile(f) && ValidFile(g)
    requires g.largest.user < f.smallest.user || g.smallest.user > f.largest.user
    ensures Newer(g.entries, f.entries)
  {
    forall a, b | a in g.entries && b in f.entries ensures a.key.user != b.key.user {
      FileBounds(g, a);
      FileBounds(f, b);
    }
  }

  lemma FlushLevels(v: Version, level: nat, f: File, v': Version)
    requires LevelsValid(v) && level < NUM_LEVELS && ValidFile(f)
    requires level > 0 ==> NoOverlap(v[level], f)
    requires forall l, g :: 0 <= l < NUM_LEVELS && g in v[l] ==> g.number < f.number
    requires Adds(v, level, f, v')
    ensures LevelsValid(v')
  {
    forall l, m, g, h | 0 <= l < NUM_LEVELS && 0 <= m < NUM_LEVELS && g in v'[l] && h in v'[m] && g.number == h.number
      ensures l == m && g == h
    {
      AddedMember(v, level, f, v', l, g);
      AddedMember(v, level, f, v', m, h);
    }
    forall l, g | 0 <= l < NUM_LEVELS && g in v'[l] ensures ValidFile(g) {
      AddedMember(v, level, f, v', l, g);
    }
    forall l | 1 <= l < NUM_LEVELS ensures Disjoint(v'[l]) {
      forall g, h | g in v'[l] && h in v'[l] && g != h ensures PairDisjoint(g, h) {
        AddedMember(v, level, f, v', l, g);
        AddedMember(v, level, f, v', l, h);
        if g in v[l] && h in v[l] {
          DisjointPairs(v[l], g, h);
        }
      }
      PairwiseDisjoint(v'[l]);
    }
  }

  lemma NewestIsNewer(v: Version, m: nat, h: File, f: File)
    requires m < |v| && h in v[m]
    requires forall x, e :: x in Stored(v) && e in f.entries ==> x.key.sequence < e.key.sequence
    ensures Newer(f.entries, h.entries)
  {
    forall a, b | a in f.entries && b in h.entries && a.key.user == b.key.user
      ensures a.key.sequence > b.key.sequence
    {
      assert b in Stored(v);
    }
  }

  lemma AddedStored(v: Version, level: nat, f: File, v': Version)
    requires level < NUM_LEVELS && Adds(v, level, f, v')
    ensures Stored(v') == Stored(v) + SetOf(f.entries)
  {
    forall e | e in Stored(v') ensures e in Stored(v) + SetOf(f.entries) {
      var l, g :| 0 <= l < |v'| && g in v'[l] && e in g.entries;
      AddedMember(v, level, f, v', l, g);
    }
    AddedMember(v, level, f, v', level, f);
    forall e | e in SetOf(f.entries) ensures e in Stored(v') {
    }
    forall e | e in Stored(v) ensures e in Stored(v') {
      var l, g :| 0 <= l < |v| && g in v[l] && e in g.entries;
      AddedMember(v, level, f, v', l, g);
    }
  }

  /** Adding the flushed memtable at a level where no shallower file overlaps it. */
  lemma FlushKeepsTree(v: Version, level: nat, f: File, v': Version)
    requires TreeInvariant(v) && level < NUM_LEVELS && ValidFile(f)
    requires level > 0 ==> forall l :: 0 <= l <= level ==> NoOverlap(v[l], f)
    requires forall l, g :: 0 <= l < NUM_LEVELS && g in v[l] ==> g.number < f.number
    requires forall x, e :: x in Stored(v) && e in f.entries ==> x.key.sequence < e.key.sequence
    requires Installs(v, Edit({}, [(level, f)]), v')
    ensures TreeInvariant(v') && Stored(v') == Stored(v) + SetOf(f.entries)
  {
    InstallAdds(v, level, f, v');
    FlushLevels(v, level, f, v');
    AddedStored(v, level, f, v');
    forall l, m, g, h | 0 <= l <= m < NUM_LEVELS && g in v'[l] && h in v'[m]
                        && (l < m || (l == m == 0 && g.number > h.number))
      ensures Newer(g.entries, h.entries)
    {
      AddedMember(v, level, f, v', l, g);
      AddedMember(v, level, f, v', m, h);
      FlushNewer(v, level, f, l, g, m, h);
    }
  }

  lemma FlushNewer(v: Version, level: nat, f: File, l: nat, g: File, m: nat, h: File)
    requires TreeInvariant(v) && level < NUM_LEVELS && ValidFile(f)
    requires level > 0 ==> forall k :: 0 <= k <= level ==> NoOverlap(v[k], f)
    requires forall k, x :: 0 <= k < NUM_LEVELS && x in v[k] ==> x.number < f.number
    requires forall x, e :: x in Stored(v) && e in f.entries ==> x.key.sequence < e.key.sequence
    requires l <= m < NUM_LEVELS && (l < m || (l == m == 0 && g.number > h.number))
    requires Joins(v, level, f, l, g) && Joins(v, level, f, m, h)
    ensures Newer(g.entries, h.entries)
  {
    if g !in v[l] {
      if h in v[m] { NewestIsNewer(v, m, h, f); }
    } else if h !in v[m] {
      assert ValidFile(g) && NoOverlap(v[l], f);
      RangesApart(g, f);
    }
  }
}
