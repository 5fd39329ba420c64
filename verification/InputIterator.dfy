/** MakeInputIterator (db/version_set.cc) and reading it to the end: the merged input
    of a compaction. */
module InputIterator {
  import opened Format
  import opened Tables
  import opened Compactions
  import opened CompactionWork
  import opened Inputs
  import opened Cursor
  import opened Merger
  import opened History
  import opened Tree

  // ---- the merged order exists ----

  ghost predicate PairApart(a: Entry, b: Entry) {
    Before(a.key, b.key) || Before(b.key, a.key)
  }

  ghost predicate AllApart(m: seq<Entry>, run: seq<Entry>) {
    forall a, b :: a in m && b in run ==> PairApart(a, b)
  }

  lemma {:induction false} MergeRun(m: seq<Entry>, run: seq<Entry>)
    requires Sorted(m) && Sorted(run) && AllApart(m, run)
    ensures Sorted(InsertAll(m, run)) && forall e :: e in InsertAll(m, run) <==> e in m || e in run
    decreases |run|
  {
    if run != [] {
      var init, last := run[..|run| - 1], run[|run| - 1];
      assert run == init + [last];
      assert AllApart(m, init);
      MergeRun(m, init);
      forall x | x in InsertAll(m, init) ensures PairApart(x, last) {
        if x in m {
          assert PairApart(x, last);
        } else {
          var i :| 0 <= i < |init| && init[i] == x;
          assert Before(run[i].key, run[|run| - 1].key);
        }
      }
    }
  }

  ghost predicate RunsApart(runs: seq<seq<Entry>>) {
    && (forall i :: 0 <= i < |runs| ==> Sorted(runs[i]))
    && (forall i, j :: 0 <= i < j < |runs| ==> AllApart(runs[i], runs[j]))
  }

  lemma {:induction false} MergeExists(runs: seq<seq<Entry>>) returns (merged: seq<Entry>)
    requires RunsApart(runs)
    ensures Merges(runs, merged)
    decreases |runs|
  {
    if runs == [] {
      merged := [];
    } else {
      var init, last := runs[..|runs| - 1], runs[|runs| - 1];
      var m := MergeExists(init);
      forall a, b | a in m && b in last ensures PairApart(a, b) {
        var i :| 0 <= i < |init| && a in init[i];
        assert AllApart(runs[i], runs[|runs| - 1]);
      }
      MergeRun(m, last);
      merged := InsertAll(m, last);
      MergeMembers(runs, m, merged);
      RunsShareNothing(runs);
    }
  }

  lemma MergeMembers(runs: seq<seq<Entry>>, m: seq<Entry>, merged: seq<Entry>)
    requires runs != [] && Merges(runs[..|runs| - 1], m)
    requires forall e :: e in merged <==> e in m || e in runs[|runs| - 1]
    ensures forall e :: e in merged <==> exists i :: 0 <= i < |runs| && e in runs[i]
  {
    var init := runs[..|runs| - 1];
    forall e ensures e in merged <==> exists i :: 0 <= i < |runs| && e in runs[i] {
      if i :| 0 <= i < |runs| && e in runs[i] {
        if i < |init| { assert e in init[i]; }
      }
      if e in m {
        var i :| 0 <= i < |init| && e in init[i];
        assert e in runs[i];
      }
    }
  }

  lemma RunsShareNothing(runs: seq<seq<Entry>>)
    requires RunsApart(runs)
    ensures forall i, j, e :: 0 <= i < j < |runs| && e in runs[i] ==> e !in runs[j]
  {
    forall i, j, e | 0 <= i < j < |runs| && e in runs[i] ensures e !in runs[j] {
      assert AllApart(runs[i], runs[j]);
      assert e in runs[j] ==> PairApart(e, e);
    }
  }

  // ---- the runs of a compaction ----

  /** Level 0: one run per file. Deeper: the files of a level, one after the other. */
  ghost function InputRuns(level: nat, in0: seq<File>, in1: seq<File>): seq<seq<Entry>> {
    (if level == 0 then EntriesEach(in0) else [Flatten(in0)]) + (if in1 == [] then [] else [Flatten(in1)])
  }

  ghost function EntriesEach(fs: seq<File>): seq<seq<Entry>> {
    seq(|fs|, i requires 0 <= i < |fs| => fs[i].entries)
  }

  lemma {:induction false} FlattenSorted(fs: seq<File>)
    requires Disjoint(fs) && forall f :: f in fs ==> ValidFile(f)
    ensures Sorted(Flatten(fs))
  {
    if fs != [] {
      var init, last := fs[..|fs| - 1], fs[|fs| - 1];
      assert last in fs && forall f :: f in init ==> f in fs;
      FlattenSorted(init);
      forall a, b | a in Flatten(init) && b in last.entries ensures Before(a.key, b.key) {
        FlattenMember(init, a);
        var i :| 0 <= i < |init| && a in init[i].entries;
        assert fs[i] in fs && Before(fs[i].largest, fs[|fs| - 1].smallest);
        FileBounds(fs[i], a);
        FileBounds(last, b);
      }
      SortedJoin(Flatten(init), last.entries);
    }
  }

  lemma SortedJoin(a: seq<Entry>, b: seq<Entry>)
    requires Sorted(a) && Sorted(b) && forall x, y :: x in a && y in b ==> Before(x.key, y.key)
    ensures Sorted(a + b)
  {
    var c := a + b;
    forall i, j | 0 <= i < j < |c| ensures Before(c[i].key, c[j].key) {
      if i < |a| && |a| <= j {
        assert c[i] in a && c[j] in b;
      }
    }
  }

  /** Entries of different files of a version differ in user key or sequence. */
  lemma FilesPairApart(v: Version, l: nat, f: File, m: nat, g: File)
    requires TreeInvariant(v) && l < |v| && m < |v| && f in v[l] && g in v[m] && (l != m || f != g)
    ensures AllApart(f.entries, g.entries)
  {
    forall a, b | a in f.entries && b in g.entries ensures PairApart(a, b) {
      if a.key.user == b.key.user { FilesApart(v, l, f, m, g, a, b); }
    }
  }

  lemma LevelsPairApart(v: Version, level: nat, in0: seq<File>, in1: seq<File>)
    requires TreeInvariant(v) && Chosen(v, level, in0, in1)
    ensures AllApart(Flatten(in0), Flatten(in1))
    ensures forall f :: f in in0 ==> AllApart(f.entries, Flatten(in1))
  {
    forall f, a, b | f in in0 && a in f.entries && b in Flatten(in1) ensures PairApart(a, b) {
      FlattenMember(in1, b);
      var g :| g in in1 && b in g.entries;
      FilesPairApart(v, level, f, level + 1, g);
    }
    forall a, b | a in Flatten(in0) && b in Flatten(in1) ensures PairApart(a, b) {
      FlattenMember(in0, a);
      var f :| f in in0 && a in f.entries;
    }
  }

  lemma Level0Apart(v: Version, in0: seq<File>)
    requires TreeInvariant(v) && (forall f :: f in in0 ==> f in v[0]) && Distinct(in0)
    ensures RunsApart(EntriesEach(in0))
  {
    forall i, j | 0 <= i < j < |in0| ensures AllApart(in0[i].entries, in0[j].entries) {
      FilesPairApart(v, 0, in0[i], 0, in0[j]);
    }
    forall i | 0 <= i < |in0| ensures Sorted(in0[i].entries) {
      assert in0[i] in in0 && ValidFile(in0[i]);
    }
  }

  /** Files of one level as the code takes them: no file twice, in order below level 0. */
  ghost predicate Listed(level: nat, fs: seq<File>) {
    Distinct(fs) && (level > 0 ==> Disjoint(fs))
  }

  lemma InputRunsApart(v: Version, level: nat, in0: seq<File>, in1: seq<File>)
    requires TreeInvariant(v) && Chosen(v, level, in0, in1) && Listed(level, in0) && Disjoint(in1)
    ensures RunsApart(InputRuns(level, in0, in1))
  {
    LevelsPairApart(v, level, in0, in1);
    FlattenSorted(in1);
    if level == 0 {
      Level0Apart(v, in0);
    } else {
      FlattenSorted(in0);
    }
  }

  lemma RunMembers(level: nat, in0: seq<File>, in1: seq<File>, e: Entry)
    ensures (exists i :: 0 <= i < |InputRuns(level, in0, in1)| && e in InputRuns(level, in0, in1)[i])
       <==> e in FilesSet(in0) + FilesSet(in1)
  {
    var runs := InputRuns(level, in0, in1);
    FlattenMember(in0, e);
    FlattenMember(in1, e);
    if level == 0 {
      forall i | 0 <= i < |in0| ensures runs[i] == in0[i].entries { }
      if f :| f in in0 && e in f.entries {
        var i :| 0 <= i < |in0| && in0[i] == f;
        assert e in runs[i];
      }
    } else {
      assert runs[0] == Flatten(in0);
    }
    if in1 != [] {
      assert runs[|runs| - 1] == Flatten(in1);
    }
  }

  // ---- reading the input ----

  method MakeChildren(runs: seq<seq<Entry>>) returns (children: seq<RunIterator>)
    requires forall i :: 0 <= i < |runs| ==> Sorted(runs[i])
    ensures |children| == |runs|
    ensures forall i :: 0 <= i < |children| ==> fresh(children[i]) && children[i].Ok() && children[i].es == runs[i]
    ensures forall i, j :: 0 <= i < j < |children| ==> children[i] != children[j]
  {
    children := [];
    for i := 0 to |runs|
      invariant |children| == i
      invariant forall k :: 0 <= k < i ==> fresh(children[k]) && children[k].Ok() && children[k].es == runs[k]
      invariant forall j, k :: 0 <= j < k < i ==> children[j] != children[k]
    {
      var child := new RunIterator(runs[i]);
      children := children + [child];
    }
  }

  method Concat(fs: seq<File>) returns (es: seq<Entry>)
    ensures es == Flatten(fs)
  {
    es := [];
    for i := 0 to |fs|
      invariant es == Flatten(fs[..i])
    {
      assert fs[..i + 1][..i] == fs[..i];
      es := es + fs[i].entries;
    }
    assert fs[..|fs|] == fs;
  }

  method MakeRuns(level: nat, in0: seq<File>, in1: seq<File>) returns (runs: seq<seq<Entry>>)
    ensures runs == InputRuns(level, in0, in1)
  {
    runs := [];
    if level == 0 {
      for i := 0 to |in0|
        invariant runs == EntriesEach(in0)[..i]
      {
        runs := runs + [in0[i].entries];
      }
    } else {
      var es := Concat(in0);
      runs := [es];
    }
    if in1 != [] {
      var es := Concat(in1);
      runs := runs + [es];
    }
  }

  /** SeekToFirst, then Next while valid. */
  method Drain(iter: MergingIterator) returns (input: seq<Entry>)
    requires iter.Shape()
    modifies iter, iter.children
    ensures input == iter.merged
  {
    iter.SeekToFirst();
    input := [];
    while iter.Valid()
      invariant iter.Ok() && input == iter.merged[..iter.at]
      decreases |iter.merged| - iter.at
    {
      input := input + [iter.Current()];
      iter.Next();
    }
  }

  /** A merging iterator over the runs, read to its end. */
  method ReadMerged(runs: seq<seq<Entry>>) returns (es: seq<Entry>)
    requires RunsApart(runs)
    ensures Merges(runs, es)
  {
    ghost var merged := MergeExists(runs);
    var children := MakeChildren(runs);
    assert seq(|children|, i requires 0 <= i < |children| reads children => children[i].es) == runs;
    var iter := new MergingIterator(children, merged);
    es := Drain(iter);
  }

  method ReadInput(v: Version, level: nat, in0: seq<File>, in1: seq<File>) returns (input: seq<Entry>)
    requires TreeInvariant(v) && Chosen(v, level, in0, in1) && Listed(level, in0) && Disjoint(in1)
    ensures IsMerge(input, in0, in1)
  {
    InputRunsApart(v, level, in0, in1);
    var runs := MakeRuns(level, in0, in1);
    input := ReadMerged(runs);
    MergedInput(level, in0, in1, input);
  }

  lemma MergedInput(level: nat, in0: seq<File>, in1: seq<File>, merged: seq<Entry>)
    requires Merges(InputRuns(level, in0, in1), merged)
    ensures IsMerge(merged, in0, in1)
  {
    forall e ensures e in merged <==> e in FilesSet(in0) + FilesSet(in1) {
      RunMembers(level, in0, in1, e);
    }
  }
}
