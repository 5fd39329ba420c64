/** The compaction loop and its two cursors (db/version_set.cc IsBaseLevelForKey and
    ShouldStopBefore, db/db_impl.cc DoCompactionWork). */
module CompactionWork {
  import opened Format
  import opened Tables
  import opened Lookup
  import opened DropRule
  import opened Compactions

  ghost function Flatten(fs: seq<File>): seq<Entry> {
    if fs == [] then [] else Flatten(fs[..|fs| - 1]) + fs[|fs| - 1].entries
  }

  function TotalFileSize(fs: seq<File>): nat {
    if fs == [] then 0 else TotalFileSize(fs[..|fs| - 1]) + fs[|fs| - 1].size
  }

  lemma TotalFileSizeSplit(fs: seq<File>, i: nat, j: nat)
    requires i <= j < |fs|
    ensures TotalFileSize(fs[i..j + 1]) == TotalFileSize(fs[i..j]) + fs[j].size
  {
    assert fs[i..j + 1][..j - i] == fs[i..j];
  }

  lemma {:induction false} TotalAppend(a: seq<File>, b: seq<File>)
    ensures TotalFileSize(a + b) == TotalFileSize(a) + TotalFileSize(b)
    decreases |b|
  {
    if b == [] {
      assert a + b == a;
    } else {
      assert (a + b)[..|a + b| - 1] == a + b[..|b| - 1];
      TotalAppend(a, b[..|b| - 1]);
    }
  }

  // ---- where outputs end ----

  /** No output grows on once its table is big enough. */
  ghost predicate CutInTime(f: File, fileSize: seq<Entry> -> nat, maxFileSize: nat) {
    && f.size == fileSize(f.entries)
    && forall k :: 0 < k < |f.entries| ==> fileSize(f.entries[..k]) < maxFileSize
  }

  /** The first i grandparents, and no others from the front, end before the key. */
  ghost predicate StandsBefore(gs: seq<File>, i: nat, key: InternalKey) {
    && i <= |gs|
    && (forall j :: 0 <= j < i ==> Less(gs[j].largest, key))
    && (i < |gs| ==> !Less(gs[i].largest, key))
  }

  /** The grandparents passed from the first key of an output to its last add up to at
      most ten file sizes. */
  ghost predicate FewGrandparents(gs: seq<File>, f: File, maxFileSize: nat) {
    exists a, b :: 0 <= a <= b <= |gs| && StandsBefore(gs, a, f.smallest) && StandsBefore(gs, b, f.largest)
      && TotalFileSize(gs[a..b]) <= 10 * maxFileSize
  }

  lemma LessBefore(a: InternalKey, b: InternalKey, c: InternalKey)
    requires Less(a, b) && Before(b, c)
    ensures Less(a, c)
  {
  }

  /** From the place before one key to the place before the next. */
  lemma StandsNext(gs: seq<File>, i: nat, j: nat, a: InternalKey, b: InternalKey)
    requires StandsBefore(gs, i, a) && Before(a, b) && i <= j <= |gs|
    requires forall k :: i <= k < j ==> Less(gs[k].largest, b)
    requires j < |gs| ==> !Less(gs[j].largest, b)
    ensures StandsBefore(gs, j, b)
  {
    forall k | 0 <= k < j ensures Less(gs[k].largest, b) {
      if k < i { LessBefore(gs[k].largest, a, b); }
    }
  }

  lemma TotalBetween(gs: seq<File>, a: nat, b: nat, c: nat)
    requires a <= b <= c <= |gs|
    ensures TotalFileSize(gs[a..c]) == TotalFileSize(gs[a..b]) + TotalFileSize(gs[b..c])
  {
    assert gs[a..c] == gs[a..b] + gs[b..c];
    TotalAppend(gs[a..b], gs[b..c]);
  }

  /** With the cursor past every file that ends below u, and u before the cursor's
      file, no file of the level holds u. */
  lemma OutsideLevel(files: seq<File>, p: nat, u: UserKey)
    requires Disjoint(files) && (forall f :: f in files ==> ValidFile(f)) && p <= |files|
    requires forall i :: 0 <= i < p ==> files[i].largest.user < u
    requires p < |files| ==> u < files[p].smallest.user
    ensures forall f :: f in files ==> u < f.smallest.user || u > f.largest.user
  {
    forall i | 0 <= i < |files|
      ensures u < files[i].smallest.user || u > files[i].largest.user
    {
      if p < i {
        assert files[p] in files && files[i] in files;
        DisjointOrder(files, p, i);
      }
    }
  }

  class Compaction {
    const level: nat
    const version: Version           // input_version_
    const grandparents: seq<File>
    const maxFileSize: nat           // Options::max_file_size
    var grandparentIndex: nat
    var seenKey: bool
    var overlappedBytes: nat
    const levelPtrs: array<nat>
    ghost var tracked: bool          // the cursor began at the first grandparent
    ghost var outStart: nat          // where it stood at the open output's first key
    ghost var outEnd: nat            // and at its last

    ghost predicate Valid()
      reads this, levelPtrs
    {
      && LevelsValid(version)
      && level + 1 < NUM_LEVELS
      && grandparentIndex <= |grandparents|
      && levelPtrs.Length == NUM_LEVELS
      && forall l :: level + 2 <= l < NUM_LEVELS ==> levelPtrs[l] <= |version[l]|
    }

    /** Every file a cursor has left behind ends below u. */
    ghost predicate Passed(u: UserKey)
      requires Valid()
      reads this, levelPtrs
    {
      forall l, i :: level + 2 <= l < NUM_LEVELS && 0 <= i < levelPtrs[l] ==> version[l][i].largest.user < u
    }

    constructor (version: Version, level: nat, grandparents: seq<File>, maxFileSize: nat)
      requires LevelsValid(version) && level + 1 < NUM_LEVELS
      ensures Valid() && fresh(levelPtrs)
      ensures this.version == version && this.level == level && this.grandparents == grandparents
      ensures this.maxFileSize == maxFileSize
      ensures forall u :: Passed(u)
      ensures grandparentIndex == 0 && !seenKey && overlappedBytes == 0
    {
      this.version, this.level, this.grandparents := version, level, grandparents;
      this.maxFileSize := maxFileSize;
      grandparentIndex, seenKey, overlappedBytes := 0, false, 0;
      tracked, outStart, outEnd := true, 0, 0;
      levelPtrs := new nat[NUM_LEVELS](_ => 0);
    }

    /** With queries in increasing key order, the cached cursors decide exactly
        whether a deeper level can hold u. */
    method IsBaseLevelForKey(u: UserKey) returns (r: bool)
      requires Valid() && Passed(u)
      modifies levelPtrs
      ensures Valid() && Passed(u)
      ensures r <==> forall l, f :: level + 2 <= l < NUM_LEVELS && f in version[l] ==> u < f.smallest.user || u > f.largest.user
    {
      for l := level + 2 to NUM_LEVELS
        invariant Valid() && Passed(u)
        invariant forall m, f :: level + 2 <= m < l && f in version[m] ==> u < f.smallest.user || u > f.largest.user
      {
        var files := version[l];
        while levelPtrs[l] < |files|
          invariant Valid() && Passed(u)
        {
          var f := files[levelPtrs[l]];
          if u <= f.largest.user {
            if u >= f.smallest.user {
              assert f in version[l];
              return false;
            }
            break;
          }
          levelPtrs[l] := levelPtrs[l] + 1;
        }
        OutsideLevel(files, levelPtrs[l], u);
      }
      return true;
    }

    /** Stops the output before a key once the grandparent files passed since the
        last stop exceed ten file sizes. */
    method ShouldStopBefore(key: InternalKey) returns (r: bool)
      requires Valid()
      modifies `grandparentIndex, `seenKey, `overlappedBytes
      ensures Valid() && seenKey
      ensures old(grandparentIndex) <= grandparentIndex
      ensures forall i :: old(grandparentIndex) <= i < grandparentIndex ==> Less(grandparents[i].largest, key)
      ensures grandparentIndex < |grandparents| ==> !Less(grandparents[grandparentIndex].largest, key)
      ensures var bytes := old(overlappedBytes)
                + if old(seenKey) then TotalFileSize(grandparents[old(grandparentIndex)..grandparentIndex]) else 0;
              r == (bytes > 10 * maxFileSize) && overlappedBytes == if r then 0 else bytes
    {
      while grandparentIndex < |grandparents| && Less(grandparents[grandparentIndex].largest, key)
        invariant Valid() && old(grandparentIndex) <= grandparentIndex && seenKey == old(seenKey)
        invariant forall i :: old(grandparentIndex) <= i < grandparentIndex ==> Less(grandparents[i].largest, key)
        invariant overlappedBytes == old(overlappedBytes)
          + if seenKey then TotalFileSize(grandparents[old(grandparentIndex)..grandparentIndex]) else 0
      {
        if seenKey {
          TotalFileSizeSplit(grandparents, old(grandparentIndex), grandparentIndex);
          overlappedBytes := overlappedBytes + grandparents[grandparentIndex].size;
        }
        grandparentIndex := grandparentIndex + 1;
      }
      seenKey := true;
      if overlappedBytes > 10 * maxFileSize {
        overlappedBytes := 0;
        return true;
      } else {
        return false;
      }
    }

    ghost predicate Finished(outputs: seq<File>, firstNumber: nat) {
      forall k :: 0 <= k < |outputs| ==> ValidFile(outputs[k]) && outputs[k].number == firstNumber + k
    }

    /** The finished outputs and the open one hold what the first n entries leave. */
    ghost predicate Written(outputs: seq<File>, builder: seq<Entry>, firstNumber: nat,
                            input: seq<Entry>, snap: nat, n: nat)
      requires Valid() && n <= |input|
      reads this, levelPtrs
    {
      && Finished(outputs, firstNumber)
      && Flatten(outputs) + builder == Survivors(input, BaseKeys(version, level), snap, n)
    }

    /** A finished output ends where it should. */
    ghost predicate EndsWell(f: File, fileSize: seq<Entry> -> nat) {
      && CutInTime(f, fileSize, maxFileSize) && FewGrandparents(grandparents, f, maxFileSize)
      && (grandparents == [] ==> f.size >= maxFileSize)
    }

    ghost predicate AllEndWell(outputs: seq<File>, fileSize: seq<Entry> -> nat) {
      forall k :: 0 <= k < |outputs| ==> EndsWell(outputs[k], fileSize)
    }

    /** The open output may grow on. */
    ghost predicate Open(builder: seq<Entry>, fileSize: seq<Entry> -> nat)
      reads this
    {
      && (forall k :: 0 < k <= |builder| ==> fileSize(builder[..k]) < maxFileSize)
      && (builder != [] ==>
            && seenKey && outStart <= outEnd <= grandparentIndex <= |grandparents|
            && StandsBefore(grandparents, outStart, builder[0].key)
            && StandsBefore(grandparents, outEnd, builder[|builder| - 1].key)
            && TotalFileSize(grandparents[outStart..outEnd]) <= 10 * maxFileSize
            && TotalFileSize(grandparents[outStart..grandparentIndex]) <= overlappedBytes)
    }

    /** The cursor over the grandparents, after the first n entries. */
    ghost predicate CursorAt(input: seq<Entry>, n: nat)
      requires n <= |input|
      reads this
    {
      && overlappedBytes <= 10 * maxFileSize && (grandparents == [] ==> overlappedBytes == 0)
      && (seenKey <==> n > 0)
      && if n == 0 then grandparentIndex == 0 else StandsBefore(grandparents, grandparentIndex, input[n - 1].key)
    }

    /** If the cursor began at the front, finished outputs end where they should, and the
        cursor has been asked about the first n entries. */
    ghost predicate Cutting(outputs: seq<File>, builder: seq<Entry>, fileSize: seq<Entry> -> nat, input: seq<Entry>, n: nat)
      requires n <= |input|
      reads this
    {
      tracked ==> AllEndWell(outputs, fileSize) && Open(builder, fileSize) && CursorAt(input, n)
    }

    /** The open output has few grandparents behind it, if it ends here. */
    lemma OpenEndsWell(builder: seq<Entry>, fileSize: seq<Entry> -> nat, f: File)
      requires Open(builder, fileSize) && builder != [] && f.entries == builder && f.size == fileSize(builder)
      requires f.smallest == builder[0].key && f.largest == builder[|builder| - 1].key
      ensures CutInTime(f, fileSize, maxFileSize) && FewGrandparents(grandparents, f, maxFileSize)
    {
    }

    /** One more output that ends here, unless it is too small for want of grandparents. */
    lemma EndsHere(outputs: seq<File>, builder: seq<Entry>, fileSize: seq<Entry> -> nat, f: File)
      requires AllEndWell(outputs, fileSize) && Open(builder, fileSize) && builder != [] && f.entries == builder
      requires f.size == fileSize(builder) && f.smallest == builder[0].key && f.largest == builder[|builder| - 1].key
      ensures grandparents != [] || f.size >= maxFileSize ==> AllEndWell(outputs + [f], fileSize)
    {
      OpenEndsWell(builder, fileSize, f);
      assert grandparents != [] || f.size >= maxFileSize ==> EndsWell(f, fileSize);
    }

    /** ShouldStopBefore on the key of entry n, and what it does to the open output. */
    method StopBefore(builder: seq<Entry>, fileSize: seq<Entry> -> nat, input: seq<Entry>, n: nat) returns (stop: bool)
      requires Valid() && Sorted(input) && n < |input| && (tracked ==> Open(builder, fileSize) && CursorAt(input, n))
      modifies `grandparentIndex, `seenKey, `overlappedBytes
      ensures Valid() && (tracked ==> CursorAt(input, n + 1))
      ensures tracked && !stop ==> Open(builder, fileSize)
      ensures tracked && stop ==> grandparents != []
    {
      ghost var was := grandparentIndex;
      stop := ShouldStopBefore(input[n].key);
      if tracked {
        if n > 0 {
          assert Before(input[n - 1].key, input[n].key);
          StandsNext(grandparents, was, grandparentIndex, input[n - 1].key, input[n].key);
        }
        if builder != [] { TotalBetween(grandparents, outStart, was, grandparentIndex); }
      }
    }

    /** The table built from some entries. */
    function Closed(builder: seq<Entry>, number: nat, fileSize: seq<Entry> -> nat): File
      requires builder != []
    {
      File(number, fileSize(builder), builder[0].key, builder[|builder| - 1].key, builder)
    }

    /** FinishCompactionOutputFile */
    method Finish(outputs: seq<File>, builder: seq<Entry>, firstNumber: nat, fileSize: seq<Entry> -> nat,
                  ghost input: seq<Entry>, ghost snap: nat, ghost n: nat)
      returns (r: seq<File>)
      requires Valid() && Sorted(input) && n <= |input| && builder != []
      requires Written(outputs, builder, firstNumber, input, snap, n)
      ensures Written(r, [], firstNumber, input, snap, n)
      ensures r == outputs + [Closed(builder, firstNumber + |outputs|, fileSize)]
    {
      SurvivorsSorted(input, BaseKeys(version, level), snap, n);
      SuffixSorted(Flatten(outputs), builder);
      var f := File(firstNumber + |outputs|, fileSize(builder), builder[0].key, builder[|builder| - 1].key, builder);
      r := outputs + [f];
      FlattenSnoc(outputs, f);
    }

    /** The drop decision, with the state the loop carries from entry to entry. */
    method ShouldDrop(ikey: InternalKey, hasKey: bool, userKey: UserKey, lastSequence: nat, snap: nat,
                      ghost input: seq<Entry>, ghost n: nat)
      returns (drop: bool)
      requires Valid() && n < |input| && input[n].key == ikey && snap < MAX_SEQUENCE
      requires Passed(ikey.user)
      requires hasKey <==> n > 0
      requires n > 0 ==> userKey == input[n - 1].key.user && lastSequence == input[n - 1].key.sequence
      modifies levelPtrs
      ensures Valid() && Passed(ikey.user)
      ensures drop <==> !Kept(input, BaseKeys(version, level), snap, n)
    {
      var lastSequenceForKey := if !hasKey || ikey.user != userKey then MAX_SEQUENCE else lastSequence;
      drop := false;
      if lastSequenceForKey <= snap {
        drop := true;
      } else if ikey.kind.Deletion? && ikey.sequence <= snap {
        drop := IsBaseLevelForKey(ikey.user);
      }
    }

    lemma PassedOn(input: seq<Entry>, n: nat)
      requires Valid() && Sorted(input) && n < |input| && Passed(input[n].key.user)
      ensures n + 1 < |input| ==> Passed(input[n + 1].key.user)
    {
      if n + 1 < |input| {
        assert Before(input[n].key, input[n + 1].key);
      }
    }

    /** Entry n goes to the open output, which is closed when it is big enough. */
    method Keep(outputs: seq<File>, builder: seq<Entry>, firstNumber: nat, fileSize: seq<Entry> -> nat,
                input: seq<Entry>, ghost snap: nat, n: nat)
      returns (outputs': seq<File>, builder': seq<Entry>)
      requires Valid() && Sorted(input) && n < |input| && Written(outputs, builder, firstNumber, input, snap, n)
      requires Kept(input, BaseKeys(version, level), snap, n) && Cutting(outputs, builder, fileSize, input, n + 1)
      modifies `outStart, `outEnd
      ensures Valid() && Written(outputs', builder', firstNumber, input, snap, n + 1)
      ensures Cutting(outputs', builder', fileSize, input, n + 1)
    {
      Extend(Flatten(outputs), builder, input[n]);
      outputs', builder' := outputs, builder + [input[n]];
      Grow(builder, builder', fileSize, input, n);
      if fileSize(builder') >= maxFileSize {
        outputs' := Finish(outputs, builder', firstNumber, fileSize, input, snap, n + 1);
        builder' := [];
      }
    }

    /** The open output with entry n, but for its size. */
    ghost method Grow(builder: seq<Entry>, builder': seq<Entry>, fileSize: seq<Entry> -> nat, input: seq<Entry>, n: nat)
      requires n < |input| && builder' == builder + [input[n]]
      requires tracked ==> Open(builder, fileSize) && CursorAt(input, n + 1)
      modifies `outStart, `outEnd
      ensures tracked ==> CursorAt(input, n + 1)
      ensures tracked && fileSize(builder') < maxFileSize ==> Open(builder', fileSize)
      ensures tracked ==> CutInTime(Closed(builder', 0, fileSize), fileSize, maxFileSize)
      ensures tracked ==> FewGrandparents(grandparents, Closed(builder', 0, fileSize), maxFileSize)
    {
      Grown(builder, input[n], fileSize);
      if builder == [] {
        outStart := grandparentIndex;
      }
      outEnd := grandparentIndex;
    }

    /** Entry n closes the open output or not. */
    method StopAt(outputs: seq<File>, builder: seq<Entry>, firstNumber: nat, fileSize: seq<Entry> -> nat,
                  input: seq<Entry>, ghost snap: nat, n: nat)
      returns (outputs': seq<File>, builder': seq<Entry>)
      requires Valid() && Sorted(input) && n < |input| && Written(outputs, builder, firstNumber, input, snap, n)
      requires Cutting(outputs, builder, fileSize, input, n)
      modifies `grandparentIndex, `seenKey, `overlappedBytes
      ensures Valid() && Written(outputs', builder', firstNumber, input, snap, n)
      ensures Cutting(outputs', builder', fileSize, input, n + 1)
    {
      outputs', builder' := outputs, builder;
      if tracked && builder != [] {
        EndsHere(outputs, builder, fileSize, Closed(builder, firstNumber + |outputs|, fileSize));
      }
      var stop := StopBefore(builder, fileSize, input, n);
      if stop && builder != [] {
        outputs' := Finish(outputs, builder, firstNumber, fileSize, input, snap, n);
        builder' := [];
      }
    }

    /** One turn of the loop: entry n is dropped or written. */
    method WorkOn(outputs: seq<File>, builder: seq<Entry>, firstNumber: nat, fileSize: seq<Entry> -> nat,
                  input: seq<Entry>, snap: nat, n: nat, hasKey: bool, userKey: UserKey, lastSequence: nat)
      returns (outputs': seq<File>, builder': seq<Entry>)
      requires Valid() && Sorted(input) && n < |input| && snap < MAX_SEQUENCE && Passed(input[n].key.user)
      requires hasKey <==> n > 0
      requires n > 0 ==> userKey == input[n - 1].key.user && lastSequence == input[n - 1].key.sequence
      requires Written(outputs, builder, firstNumber, input, snap, n) && Cutting(outputs, builder, fileSize, input, n)
      modifies this, levelPtrs
      ensures Valid() && Passed(input[n].key.user) && Written(outputs', builder', firstNumber, input, snap, n + 1)
      ensures Cutting(outputs', builder', fileSize, input, n + 1) && tracked == old(tracked)
    {
      outputs', builder' := StopAt(outputs, builder, firstNumber, fileSize, input, snap, n);
      var drop := ShouldDrop(input[n].key, hasKey, userKey, lastSequence, snap, input, n);
      if !drop {
        outputs', builder' := Keep(outputs', builder', firstNumber, fileSize, input, snap, n);
      }
    }

    /** Writes exactly the entries the drop rule keeps, in order, cut into files.
        `fileSize` is the size of the table built from some entries. */
    method DoCompactionWork(input: seq<Entry>, smallestSnapshot: nat, firstNumber: nat, fileSize: seq<Entry> -> nat)
      returns (outputs: seq<File>)
      requires Valid() && Sorted(input) && smallestSnapshot < MAX_SEQUENCE
      requires forall i :: 0 <= i < |input| ==> Passed(input[i].key.user)
      modifies this, levelPtrs
      ensures Flatten(outputs) == Survivors(input, BaseKeys(version, level), smallestSnapshot, |input|)
      ensures Sorted(Flatten(outputs))
      ensures forall e :: e in Flatten(outputs) <==>
        (e in input
         && !(exists f :: f in input && f.key.user == e.key.user && e.key.sequence < f.key.sequence <= smallestSnapshot)
         && !(e.key.kind.Deletion? && e.key.sequence <= smallestSnapshot
              && forall l, f :: level + 2 <= l < NUM_LEVELS && f in version[l] ==>
                   e.key.user < f.smallest.user || e.key.user > f.largest.user))
      ensures forall k :: 0 <= k < |outputs| ==> ValidFile(outputs[k]) && outputs[k].number == firstNumber + k
      ensures old(grandparentIndex) == 0 && !old(seenKey) && old(overlappedBytes) == 0 ==>
        (forall k :: 0 <= k < |outputs| ==>
           CutInTime(outputs[k], fileSize, maxFileSize) && FewGrandparents(grandparents, outputs[k], maxFileSize))
        && (grandparents == [] ==> forall k :: 0 <= k < |outputs| - 1 ==> outputs[k].size >= maxFileSize)
    {
      tracked := grandparentIndex == 0 && !seenKey && overlappedBytes == 0;
      outputs := WorkOnAll(input, smallestSnapshot, firstNumber, fileSize);
      KeepsExactly(input, smallestSnapshot, Flatten(outputs));
    }

    method WorkOnAll(input: seq<Entry>, smallestSnapshot: nat, firstNumber: nat, fileSize: seq<Entry> -> nat)
      returns (outputs: seq<File>)
      requires Valid() && Sorted(input) && smallestSnapshot < MAX_SEQUENCE
      requires forall i :: 0 <= i < |input| ==> Passed(input[i].key.user)
      requires tracked ==> grandparentIndex == 0 && !seenKey && overlappedBytes == 0
      modifies this, levelPtrs
      ensures Flatten(outputs) == Survivors(input, BaseKeys(version, level), smallestSnapshot, |input|)
      ensures Finished(outputs, firstNumber) && Valid()
      ensures old(tracked) ==> CutWell(outputs, fileSize)
    {
      outputs := [];
      var builder: seq<Entry> := [];
      var hasCurrentUserKey, currentUserKey, lastSequenceForKey := false, 0.0, MAX_SEQUENCE;
      for n := 0 to |input|
        invariant Valid() && (n < |input| ==> Passed(input[n].key.user)) && tracked == old(tracked)
        invariant hasCurrentUserKey <==> n > 0
        invariant n > 0 ==> currentUserKey == input[n - 1].key.user && lastSequenceForKey == input[n - 1].key.sequence
        invariant Written(outputs, builder, firstNumber, input, smallestSnapshot, n)
        invariant Cutting(outputs, builder, fileSize, input, n)
      {
        outputs, builder := WorkOn(outputs, builder, firstNumber, fileSize, input, smallestSnapshot, n,
                                   hasCurrentUserKey, currentUserKey, lastSequenceForKey);
        hasCurrentUserKey, currentUserKey, lastSequenceForKey := true, input[n].key.user, input[n].key.sequence;
        PassedOn(input, n);
      }
      outputs := FinishLast(outputs, builder, firstNumber, fileSize, input, smallestSnapshot);
    }

    /** What is still open at the end becomes the last output. */
    method FinishLast(outputs: seq<File>, builder: seq<Entry>, firstNumber: nat, fileSize: seq<Entry> -> nat,
                      ghost input: seq<Entry>, ghost snap: nat)
      returns (outputs': seq<File>)
      requires Valid() && Sorted(input) && Written(outputs, builder, firstNumber, input, snap, |input|)
      requires Cutting(outputs, builder, fileSize, input, |input|)
      ensures Flatten(outputs') == Survivors(input, BaseKeys(version, level), snap, |input|) && Finished(outputs', firstNumber)
      ensures tracked ==> CutWell(outputs', fileSize)
    {
      outputs' := outputs;
      if builder != [] {
        outputs' := Finish(outputs, builder, firstNumber, fileSize, input, snap, |input|);
        if tracked {
          OpenEndsWell(builder, fileSize, Closed(builder, firstNumber + |outputs|, fileSize));
          LastEndsWell(outputs, fileSize, Closed(builder, firstNumber + |outputs|, fileSize));
        }
      }
      assert Flatten(outputs') + [] == Flatten(outputs');
    }

    ghost predicate CutWell(outputs: seq<File>, fileSize: seq<Entry> -> nat) {
      && (forall k :: 0 <= k < |outputs| ==>
           CutInTime(outputs[k], fileSize, maxFileSize) && FewGrandparents(grandparents, outputs[k], maxFileSize))
      && (grandparents == [] ==> forall k :: 0 <= k < |outputs| - 1 ==> outputs[k].size >= maxFileSize)
    }

    lemma LastEndsWell(outputs: seq<File>, fileSize: seq<Entry> -> nat, f: File)
      requires AllEndWell(outputs, fileSize)
      requires CutInTime(f, fileSize, maxFileSize) && FewGrandparents(grandparents, f, maxFileSize)
      ensures CutWell(outputs + [f], fileSize)
    {
      forall k | 0 <= k < |outputs| ensures EndsWell((outputs + [f])[k], fileSize) { assert EndsWell(outputs[k], fileSize); }
    }

    lemma KeepsExactly(input: seq<Entry>, snap: nat, out: seq<Entry>)
      requires Valid() && Sorted(input) && out == Survivors(input, BaseKeys(version, level), snap, |input|)
      ensures Sorted(out)
      ensures forall e :: e in out <==>
        (e in input
         && !(exists f :: f in input && f.key.user == e.key.user && e.key.sequence < f.key.sequence <= snap)
         && !(e.key.kind.Deletion? && e.key.sequence <= snap
              && forall l, f :: level + 2 <= l < NUM_LEVELS && f in version[l] ==>
                   e.key.user < f.smallest.user || e.key.user > f.largest.user))
    {
      SurvivorsSorted(input, BaseKeys(version, level), snap, |input|);
      forall e ensures e in out <==>
        (e in input
         && !(exists f :: f in input && f.key.user == e.key.user && e.key.sequence < f.key.sequence <= snap)
         && !(e.key.kind.Deletion? && e.key.sequence <= snap
              && forall l, f :: level + 2 <= l < NUM_LEVELS && f in version[l] ==>
                   e.key.user < f.smallest.user || e.key.user > f.largest.user))
      {
        SurvivorsExactly(input, BaseKeys(version, level), snap, e);
      }
    }
  }

  lemma Grown(b: seq<Entry>, e: Entry, fileSize: seq<Entry> -> nat)
    ensures (b + [e])[..|b| + 1] == b + [e] && forall k :: 0 <= k <= |b| ==> (b + [e])[..k] == b[..k]
  {
  }

  lemma FlattenSnoc(outputs: seq<File>, f: File)
    ensures Flatten(outputs + [f]) + [] == Flatten(outputs) + f.entries
  {
    assert (outputs + [f])[..|outputs|] == outputs;
  }

  lemma Extend(a: seq<Entry>, b: seq<Entry>, e: Entry)
    ensures a + (b + [e]) == a + b + [e]
  {
  }

  lemma SuffixSorted(a: seq<Entry>, b: seq<Entry>)
    requires Sorted(a + b)
    ensures Sorted(a) && Sorted(b)
    ensures forall i, j :: 0 <= i < |a| && 0 <= j < |b| ==> Before(a[i].key, b[j].key)
  {
    var c := a + b;
    forall i, j | 0 <= i < j < |b| ensures Before(b[i].key, b[j].key) {
      assert Before(c[|a| + i].key, c[|a| + j].key);
    }
    forall i, j | 0 <= i < j < |a| ensures Before(a[i].key, a[j].key) {
      assert Before(c[i].key, c[j].key);
    }
    forall i, j | 0 <= i < |a| && 0 <= j < |b| ensures Before(a[i].key, b[j].key) {
      assert Before(c[i].key, c[|a| + j].key);
    }
  }
}
