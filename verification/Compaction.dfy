/** One compaction of a version (db/version_set.h, db/version_set.cc, db/db_impl.cc):
    the inputs it may take, the reads it keeps, and DoCompactionWork itself. */
module Compactions {
  import opened Format
  import opened Tables
  import opened Lookup
  import opened DropRule

  // ---- the inputs ----

  ghost predicate OutsideHull(f: File, fs: seq<File>) {
    (forall g :: g in fs ==> f.largest.user < g.smallest.user)
    || (forall g :: g in fs ==> f.smallest.user > g.largest.user)
  }

  /** A level-0 file left out shares no user key range with the files taken; deeper
      down, a file left out comes before them or starts at a later user key. */
  predicate Apart(level: nat, f: File, g: File) {
    if level == 0 then f.largest.user < g.smallest.user || f.smallest.user > g.largest.user
    else Before(f.largest, g.smallest) || f.smallest.user > g.largest.user
  }

  /** What PickCompaction and CompactRange guarantee of a compaction's inputs. */
  ghost predicate Chosen(v: Version, level: nat, in0: seq<File>, in1: seq<File>)
    requires |v| == NUM_LEVELS
  {
    && level + 1 < NUM_LEVELS
    && in0 != []
    && (forall f :: f in in0 ==> f in v[level])
    && (forall f :: f in in1 ==> f in v[level + 1])
    && (forall f, g :: f in v[level] && f !in in0 && g in in0 ==> Apart(level, f, g))
    && (forall f :: f in v[level + 1] ==> (f in in1 <==> !OutsideHull(f, in0)))
  }

  ghost predicate IsMerge(input: seq<Entry>, in0: seq<File>, in1: seq<File>) {
    Sorted(input) && SetOf(input) == FilesSet(in0) + FilesSet(in1)
  }

  predicate Touched(level: nat, in0: seq<File>, in1: seq<File>, l: nat, f: File) {
    (l == level && f in in0) || (l == level + 1 && f in in1)
  }

  ghost function Untouched(v: Version, level: nat, in0: seq<File>, in1: seq<File>): set<Entry> {
    set l, f, e | 0 <= l < |v| && f in v[l] && !Touched(level, in0, in1, l, f) && e in f.entries :: e
  }

  /** Entries of the level+1 files that are not inputs. */
  ghost function LeftOut(v: Version, level: nat, in1: seq<File>): set<Entry>
    requires level + 1 < |v|
  {
    set f, e | f in v[level + 1] && f !in in1 && e in f.entries :: e
  }

  /** The user keys that lie in no file two or more levels below. */
  predicate BaseLevel(v: Version, level: nat, u: UserKey)
    requires |v| == NUM_LEVELS
  {
    forall l, f :: level + 2 <= l < NUM_LEVELS && f in v[l] ==> u < f.smallest.user || u > f.largest.user
  }

  ghost function BaseKeys(v: Version, level: nat): iset<UserKey>
    requires |v| == NUM_LEVELS
  {
    iset u | BaseLevel(v, level, u)
  }

  ghost predicate Compacting(v: Version, level: nat, in0: seq<File>, in1: seq<File>, input: seq<Entry>) {
    && TreeInvariant(v)
    && UniqueSequences(Stored(v))
    && Chosen(v, level, in0, in1)
    && IsMerge(input, in0, in1)
  }

  // ---- the tree meets the setting of the drop rule ----

  lemma StoredSplits(v: Version, level: nat, in0: seq<File>, in1: seq<File>, input: seq<Entry>)
    requires |v| == NUM_LEVELS && Chosen(v, level, in0, in1) && IsMerge(input, in0, in1)
    ensures Stored(v) == Whole(Untouched(v, level, in0, in1), input)
    ensures LeftOut(v, level, in1) <= Untouched(v, level, in0, in1)
  {
    forall e | e in Stored(v)
      ensures e in Untouched(v, level, in0, in1) + SetOf(input)
    {
      var l, f :| 0 <= l < |v| && f in v[l] && e in f.entries;
      if Touched(level, in0, in1, l, f) {
        assert e in FilesSet(in0) + FilesSet(in1);
      }
    }
    forall e | e in SetOf(input) ensures e in Stored(v) {
      var l, f := InputFile(v, level, in0, in1, input, e);
    }
  }

  lemma InputFile(v: Version, level: nat, in0: seq<File>, in1: seq<File>, input: seq<Entry>, e: Entry)
    returns (l: nat, f: File)
    requires |v| == NUM_LEVELS && Chosen(v, level, in0, in1) && IsMerge(input, in0, in1) && e in input
    ensures l < |v| && f in v[l] && e in f.entries && Touched(level, in0, in1, l, f)
  {
    assert e in SetOf(input);
    if e in FilesSet(in0) {
      l := level;
      f :| f in in0 && e in f.entries;
    } else {
      l := level + 1;
      f :| f in in1 && e in f.entries;
    }
  }

  /** Two files of a version never share a user key at the same sequence number. */
  lemma FilesApart(v: Version, l: nat, f: File, m: nat, g: File, a: Entry, b: Entry)
    requires TreeInvariant(v) && l < |v| && m < |v|
    requires f in v[l] && g in v[m] && (l != m || f != g)
    requires a in f.entries && b in g.entries && a.key.user == b.key.user
    ensures a.key.sequence != b.key.sequence
    ensures l < m ==> a.key.sequence > b.key.sequence
  {
    if l == m == 0 {
      assert f.number != g.number;
    } else if l == m {
      assert Disjoint(v[l]);
      var i :| 0 <= i < |v[l]| && v[l][i] == f;
      var j :| 0 <= j < |v[l]| && v[l][j] == g;
      assert ValidFile(v[l][i]) && ValidFile(v[l][j]);
      if i < j { LaterFileNewer(v[l], i, j); } else { LaterFileNewer(v[l], j, i); }
    }
  }

  lemma UntouchedFile(v: Version, level: nat, in0: seq<File>, in1: seq<File>, x: Entry) returns (m: nat, g: File)
    requires x in Untouched(v, level, in0, in1)
    ensures m < |v| && g in v[m] && !Touched(level, in0, in1, m, g) && x in g.entries
  {
    m, g :| 0 <= m < |v| && g in v[m] && !Touched(level, in0, in1, m, g) && x in g.entries;
  }

  lemma ChosenApart(v: Version, level: nat, in0: seq<File>, in1: seq<File>, g: File, f: File)
    requires |v| == NUM_LEVELS && Chosen(v, level, in0, in1)
    ensures g in v[level] && g !in in0 && f in in0 ==> Apart(level, g, f)
  {
  }

  /** An untouched entry older than an input entry of a base-level key lies in the
      level+1 files left out. */
  lemma OlderIsLeftOut(v: Version, level: nat, in0: seq<File>, in1: seq<File>,
                       l: nat, f: File, e: Entry, m: nat, g: File, x: Entry)
    requires TreeInvariant(v) && Chosen(v, level, in0, in1) && l < |v| && m < |v|
    requires f in v[l] && e in f.entries && Touched(level, in0, in1, l, f)
    requires g in v[m] && x in g.entries && !Touched(level, in0, in1, m, g)
    requires BaseLevel(v, level, e.key.user)
    requires x.key.user == e.key.user && x.key.sequence < e.key.sequence
    ensures m == level + 1 && g !in in1
  {
    assert ValidFile(f) && ValidFile(g);
    FileBounds(f, e);
    FileBounds(g, x);
    if m < level + 1 {
      FilesApart(v, m, g, l, f, x, e);
      ChosenApart(v, level, in0, in1, g, f);
      assert false;
    }
  }

  lemma InputVersusUntouched(v: Version, level: nat, in0: seq<File>, in1: seq<File>, input: seq<Entry>, e: Entry, x: Entry)
    requires TreeInvariant(v) && Chosen(v, level, in0, in1) && IsMerge(input, in0, in1)
    requires e in input && x in Untouched(v, level, in0, in1)
    ensures e != x
    ensures e.key.user == x.key.user && x.key.sequence < e.key.sequence && e.key.user in BaseKeys(v, level)
            ==> x in LeftOut(v, level, in1)
  {
    var l, f := InputFile(v, level, in0, in1, input, e);
    var m, g := UntouchedFile(v, level, in0, in1, x);
    if e.key.user == x.key.user {
      FilesApart(v, l, f, m, g, e, x);
      if e.key.user in BaseKeys(v, level) && x.key.sequence < e.key.sequence {
        OlderIsLeftOut(v, level, in0, in1, l, f, e, m, g, x);
      }
    }
  }

  ghost predicate PairsFine(untouched: set<Entry>, left: set<Entry>, input: seq<Entry>, base: iset<UserKey>) {
    forall e, x :: e in input && x in untouched ==> PairFine(e, x, left, base)
  }

  ghost predicate PairFine(e: Entry, x: Entry, left: set<Entry>, base: iset<UserKey>) {
    e != x && (e.key.user == x.key.user && x.key.sequence < e.key.sequence && e.key.user in base ==> x in left)
  }

  lemma AllPairsFine(v: Version, level: nat, in0: seq<File>, in1: seq<File>, input: seq<Entry>)
    requires TreeInvariant(v) && Chosen(v, level, in0, in1) && IsMerge(input, in0, in1)
    ensures PairsFine(Untouched(v, level, in0, in1), LeftOut(v, level, in1), input, BaseKeys(v, level))
  {
    forall e, x | e in input && x in Untouched(v, level, in0, in1)
      ensures PairFine(e, x, LeftOut(v, level, in1), BaseKeys(v, level))
    {
      InputVersusUntouched(v, level, in0, in1, input, e, x);
    }
  }

  lemma MakeSetting(untouched: set<Entry>, left: set<Entry>, input: seq<Entry>, base: iset<UserKey>)
    requires PairsFine(untouched, left, input, base)
    requires Sorted(input) && UniqueSequences(Whole(untouched, input)) && left <= untouched
    ensures Setting(untouched, left, input, base)
  {
    forall e, x | e in input && x in untouched
      ensures e != x
      ensures e.key.user == x.key.user && x.key.sequence < e.key.sequence && e.key.user in base ==> x in left
    {
      assert PairFine(e, x, left, base);
    }
  }

  lemma CompactionSetting(v: Version, level: nat, in0: seq<File>, in1: seq<File>, input: seq<Entry>)
    requires Compacting(v, level, in0, in1, input)
    ensures Stored(v) == Whole(Untouched(v, level, in0, in1), input)
    ensures Setting(Untouched(v, level, in0, in1), LeftOut(v, level, in1), input, BaseKeys(v, level))
  {
    StoredSplits(v, level, in0, in1, input);
    AllPairsFine(v, level, in0, in1, input);
    MakeSetting(Untouched(v, level, in0, in1), LeftOut(v, level, in1), input, BaseKeys(v, level));
  }

  // ---- the reads a compaction keeps ----

  /** The contents of the tree once the outputs replace the inputs. */
  ghost function Compacted(v: Version, level: nat, in0: seq<File>, in1: seq<File>, input: seq<Entry>, snap: nat): set<Entry>
    requires |v| == NUM_LEVELS
  {
    After(Untouched(v, level, in0, in1), input, BaseKeys(v, level), snap)
  }

  /** Where the loop drops the deletion marker that smallest_snapshot sees for a key,
      the level+1 files left out show no value for that key below the marker. */
  ghost predicate NoResurrection(v: Version, level: nat, in1: seq<File>, input: seq<Entry>, snap: nat)
    requires |v| == NUM_LEVELS && level + 1 < |v|
  {
    forall i :: 0 <= i < |input| && Obsolete(input, BaseKeys(v, level), snap, i)
                && IsTop(Stored(v), input[i].key.user, snap, input[i]) ==>
      Reads(LeftOut(v, level, in1), input[i].key.user, input[i].key.sequence, NotFound)
  }

  /** A compaction keeps every read at or above the smallest snapshot exactly when
      the markers it drops resurrect nothing. */
  lemma CompactionKeepsReads(v: Version, level: nat, in0: seq<File>, in1: seq<File>, input: seq<Entry>, snap: nat)
    requires Compacting(v, level, in0, in1, input)
    ensures SameReads(Stored(v), Compacted(v, level, in0, in1, input, snap), snap)
       <==> NoResurrection(v, level, in1, input, snap)
  {
    CompactionSetting(v, level, in0, in1, input);
    DropKeepsReads(Untouched(v, level, in0, in1), LeftOut(v, level, in1), input, BaseKeys(v, level), snap);
  }

  /** No level+1 file left out continues the last user key of a level+1 input: the
      check AddBoundaryInputs makes for `level` but the code omits for level+1. */
  ghost predicate ClosedBelow(v: Version, level: nat, in1: seq<File>)
    requires level + 1 < |v|
  {
    forall f, g :: f in in1 && g in v[level + 1] && g !in in1 ==> Apart(level + 1, g, f)
  }

  lemma ClosedBelowApart(v: Version, level: nat, in0: seq<File>, in1: seq<File>,
                         l: nat, f: File, e: Entry, g: File, x: Entry)
    requires LevelsValid(v) && Chosen(v, level, in0, in1) && ClosedBelow(v, level, in1) && l < |v|
    requires f in v[l] && Touched(level, in0, in1, l, f) && e in f.entries
    requires g in v[level + 1] && g !in in1 && x in g.entries
    ensures x.key.user == e.key.user ==> x.key.sequence > e.key.sequence
  {
    assert ValidFile(f) && ValidFile(g);
    FileBounds(f, e);
    FileBounds(g, x);
    if l == level {
      assert OutsideHull(g, in0);
    } else {
      assert Apart(level + 1, g, f);
    }
  }

  lemma ClosedBelowUnseen(v: Version, level: nat, in0: seq<File>, in1: seq<File>, input: seq<Entry>, e: Entry)
    requires LevelsValid(v) && Chosen(v, level, in0, in1) && ClosedBelow(v, level, in1) && IsMerge(input, in0, in1)
    requires e in input
    ensures Unseen(LeftOut(v, level, in1), e.key.user, e.key.sequence)
  {
    var l, f := InputFile(v, level, in0, in1, input, e);
    forall x | x in LeftOut(v, level, in1) ensures !Visible(x, e.key.user, e.key.sequence) {
      var g :| g in v[level + 1] && g !in in1 && x in g.entries;
      ClosedBelowApart(v, level, in0, in1, l, f, e, g, x);
    }
  }

  lemma ClosedBelowIsSafe(v: Version, level: nat, in0: seq<File>, in1: seq<File>, input: seq<Entry>, snap: nat)
    requires Compacting(v, level, in0, in1, input) && ClosedBelow(v, level, in1)
    ensures NoResurrection(v, level, in1, input, snap)
  {
    forall i | 0 <= i < |input|
      ensures Reads(LeftOut(v, level, in1), input[i].key.user, input[i].key.sequence, NotFound)
    {
      ClosedBelowUnseen(v, level, in0, in1, input, input[i]);
    }
  }
}
