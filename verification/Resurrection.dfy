/** A compaction the code can choose that brings a deleted value back: the level+1
    files left out may continue the last user key of a level+1 input, because
    SetupOtherInputs calls AddBoundaryInputs for `level` only. */
module Resurrection {
  import opened Format
  import opened Tables
  import opened DropRule
  import opened Compactions

  const NEWER_A := Entry(InternalKey(1.0, 4, Value), [1])
  const OLDER_A := Entry(InternalKey(1.0, 2, Value), [2])
  const DELETED_B := Entry(InternalKey(2.0, 3, Deletion), [])
  const OLD_B := Entry(InternalKey(2.0, 1, Value), [7])

  const UPPER := File(11, 1, NEWER_A.key, NEWER_A.key, [NEWER_A])
  const LOWER := File(8, 1, OLDER_A.key, DELETED_B.key, [OLDER_A, DELETED_B])
  const NEXT := File(9, 1, OLD_B.key, OLD_B.key, [OLD_B])

  /** Level 2 holds key 1 and the deletion of key 2 in one file, and the deleted value
      in the next file. */
  const TREE: Version := [[], [UPPER], [LOWER, NEXT], [], [], [], []]

  const MERGED := [NEWER_A, OLDER_A, DELETED_B]

  lemma FileAt(l: nat, f: File)
    requires l < 7 && f in TREE[l]
    ensures (l == 1 && f == UPPER) || (l == 2 && (f == LOWER || f == NEXT))
    ensures ValidFile(f)
  {
    assert l == 0 || l == 1 || l == 2 || l == 3 || l == 4 || l == 5 || l == 6;
  }

  lemma FilePair(l: nat, f: File, m: nat, g: File)
    requires l < 7 && m < 7 && f in TREE[l] && g in TREE[m]
    ensures f.number == g.number ==> l == m && f == g
    ensures l < m ==> Newer(f.entries, g.entries)
  {
    FileAt(l, f);
    FileAt(m, g);
  }

  lemma LevelDisjoint(l: nat)
    requires 1 <= l < 7
    ensures Disjoint(TREE[l])
  {
    assert l == 1 || l == 2 || |TREE[l]| == 0;
  }

  lemma NumbersAreUnique()
    ensures UniqueNumbers(TREE)
  {
    forall l, m, f, g | 0 <= l < 7 && 0 <= m < 7 && f in TREE[l] && g in TREE[m] && f.number == g.number
      ensures l == m && f == g
    {
      FilePair(l, f, m, g);
    }
  }

  lemma LevelsAreValid()
    ensures LevelsValid(TREE)
  {
    NumbersAreUnique();
    forall l, f | 0 <= l < 7 && f in TREE[l] ensures ValidFile(f) { FileAt(l, f); }
    forall l | 1 <= l < 7 ensures Disjoint(TREE[l]) { LevelDisjoint(l); }
  }

  lemma ShallowIsNewer()
    ensures NewestFirst(TREE)
  {
    forall l, m, f, g | 0 <= l < m < 7 && f in TREE[l] && g in TREE[m]
      ensures Newer(f.entries, g.entries)
    {
      FilePair(l, f, m, g);
    }
  }

  lemma StoredIs()
    ensures Stored(TREE) == {NEWER_A, OLDER_A, DELETED_B, OLD_B}
  {
    forall e | e in Stored(TREE) ensures e in {NEWER_A, OLDER_A, DELETED_B, OLD_B} {
      var l, f :| 0 <= l < 7 && f in TREE[l] && e in f.entries;
      FileAt(l, f);
    }
    assert UPPER in TREE[1] && LOWER in TREE[2] && NEXT in TREE[2];
    assert NEWER_A in UPPER.entries && OLDER_A in LOWER.entries && DELETED_B in LOWER.entries && OLD_B in NEXT.entries;
  }

  lemma InputsAreChosen()
    ensures Chosen(TREE, 1, [UPPER], [LOWER]) && IsMerge(MERGED, [UPPER], [LOWER])
  {
    assert UPPER in [UPPER] && LOWER in [LOWER];
    forall f | f in TREE[2] ensures f in [LOWER] <==> !OutsideHull(f, [UPPER]) {
      FileAt(2, f);
    }
    forall e ensures e in SetOf(MERGED) <==> e in FilesSet([UPPER]) + FilesSet([LOWER]) {
      assert e in UPPER.entries <==> e == NEWER_A;
      assert e in LOWER.entries <==> e == OLDER_A || e == DELETED_B;
    }
  }

  lemma LeftOutIs()
    ensures LeftOut(TREE, 1, [LOWER]) == {OLD_B}
  {
    assert LOWER in [LOWER] && NEXT in TREE[2] && OLD_B in NEXT.entries;
    forall e | e in LeftOut(TREE, 1, [LOWER]) ensures e == OLD_B {
      var f :| f in TREE[2] && f !in [LOWER] && e in f.entries;
      FileAt(2, f);
    }
  }

  lemma MarkerIsDropped()
    ensures Obsolete(MERGED, BaseKeys(TREE, 1), 4, 2)
    ensures IsTop(Stored(TREE), 2.0, 4, MERGED[2])
  {
    StoredIs();
    assert forall l :: 3 <= l < 7 ==> TREE[l] == [];
    assert BaseLevel(TREE, 1, 2.0);
  }

  lemma ValueIsUncovered()
    ensures !Reads({OLD_B}, 2.0, 3, NotFound)
  {
    assert Visible(OLD_B, 2.0, 3);
  }

  lemma SequencesAreUnique()
    ensures UniqueSequences(Stored(TREE))
  {
    StoredIs();
  }

  lemma MakeCompacting(v: Version, level: nat, in0: seq<File>, in1: seq<File>, input: seq<Entry>)
    requires LevelsValid(v) && NewestFirst(v) && UniqueSequences(Stored(v))
    requires Chosen(v, level, in0, in1) && IsMerge(input, in0, in1)
    ensures Compacting(v, level, in0, in1, input)
  {
  }

  lemma IsCompacting()
    ensures Compacting(TREE, 1, [UPPER], [LOWER], MERGED)
  {
    LevelsAreValid();
    ShallowIsNewer();
    SequencesAreUnique();
    InputsAreChosen();
    MakeCompacting(TREE, 1, [UPPER], [LOWER], MERGED);
  }

  lemma Resurrects()
    ensures !NoResurrection(TREE, 1, [LOWER], MERGED, 4)
  {
    LeftOutIs();
    MarkerIsDropped();
    ValueIsUncovered();
    assert MERGED[2].key == DELETED_B.key;
  }

  /** The code can make this choice of inputs; afterwards the deletion of key 2 is
      gone and its old value answers. */
  lemma DeletedValueReturns()
    ensures Compacting(TREE, 1, [UPPER], [LOWER], MERGED)
    ensures !SameReads(Stored(TREE), Compacted(TREE, 1, [UPPER], [LOWER], MERGED, 4), 4)
    ensures !ClosedBelow(TREE, 1, [LOWER])
  {
    IsCompacting();
    Resurrects();
    CompactionKeepsReads(TREE, 1, [UPPER], [LOWER], MERGED, 4);
    if ClosedBelow(TREE, 1, [LOWER]) {
      ClosedBelowIsSafe(TREE, 1, [UPPER], [LOWER], MERGED, 4);
    }
  }
}
