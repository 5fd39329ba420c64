/** From a picked file or a requested range to the inputs of a compaction
    (db/version_set.cc PickCompaction, CompactRange, SetupOtherInputs,
    PickLevelForMemTableOutput). */
module PickInputs {
  import opened Format
  import opened Tables
  import opened Lookup
  import opened Compactions
  import opened CompactionWork
  import opened Inputs

  /** Compaction: level(), inputs_[0], inputs_[1], grandparents_, and the compaction
      pointer its edit sets for the level */
  datatype CompactionInputs = ChosenInputs(level: nat, in0: seq<File>, in1: seq<File>, grandparents: seq<File>,
                                           pointer: InternalKey)

  // ---- the level's own files ----

  /** Files to start from: at level 0 all that overlap a closed range, deeper down a
      run of neighbouring files. */
  ghost predicate GoodStart(v: Version, level: nat, in0: seq<File>)
    requires level < |v|
  {
    in0 != []
    && if level == 0 then exists lo, hi :: ClosedRange(v[0], lo, hi) && in0 == Overlapping(v[0], lo, hi)
       else exists a, b :: IsSlice(v[level], a, b, in0)
  }

  ghost predicate ApartFrom(v: Version, level: nat, in0: seq<File>)
    requires level < |v|
  {
    && in0 != []
    && (forall f :: f in in0 ==> f in v[level])
    && forall f, g :: f in v[level] && f !in in0 && g in in0 ==> Apart(level, f, g)
  }

  lemma ClosedRangeApart(v: Version, lo: Bound, hi: Bound, in0: seq<File>)
    requires |v| > 0 && ClosedRange(v[0], lo, hi) && in0 == Overlapping(v[0], lo, hi) && in0 != []
    requires forall f :: f in v[0] ==> ValidFile(f)
    ensures ApartFrom(v, 0, in0)
    ensures forall k, f :: IsLargest(in0, k) && f in v[0] ==> !IsBoundary(f, k)
  {
    forall f ensures f in in0 <==> f in v[0] && Overlaps(f, lo, hi) {
      OverlappingMember(v[0], lo, hi, f);
    }
    forall k, f | IsLargest(in0, k) && f in v[0] ensures !IsBoundary(f, k) {
      var g :| g in in0 && g.largest == k;
      FileSpan(f);
    }
  }

  lemma SliceApart(v: Version, level: nat, a: nat, b: nat, in0: seq<File>)
    requires 1 <= level < |v| && Disjoint(v[level]) && (forall f :: f in v[level] ==> ValidFile(f))
    requires IsSlice(v[level], a, b, in0)
    requires forall f :: f in v[level] ==> !IsBoundary(f, v[level][b - 1].largest)
    ensures ApartFrom(v, level, in0)
  {
    var fs := v[level];
    forall f, g | f in fs && f !in in0 && g in in0 ensures Apart(level, f, g) {
      var i :| 0 <= i < |fs| && fs[i] == f;
      var j :| 0 <= j < |in0| && in0[j] == g;
      if a <= i < b { InSlice(fs, a, b, in0, i); }
      PlacesApart(fs, level, a, b, i, a + j);
    }
  }

  lemma InSlice(fs: seq<File>, a: nat, b: nat, in0: seq<File>, i: nat)
    requires IsSlice(fs, a, b, in0) && a <= i < b
    ensures fs[i] in in0
  {
    assert in0[i - a] == fs[i];
  }

  lemma PlacesApart(fs: seq<File>, level: nat, a: nat, b: nat, i: nat, j: nat)
    requires level > 0 && Disjoint(fs) && (forall f :: f in fs ==> ValidFile(f)) && a <= j < b <= |fs| && i < |fs| && (i < a || b <= i)
    requires forall f :: f in fs ==> !IsBoundary(f, fs[b - 1].largest)
    ensures Apart(level, fs[i], fs[j])
  {
    assert fs[b - 1] in fs && fs[i] in fs && fs[j] in fs;
    if i < a {
      DisjointOrder(fs, i, j);
    } else {
      DisjointOrder(fs, b - 1, i);
      if j < b - 1 { DisjointOrder(fs, j, b - 1); }
    }
  }

  /** fs[..a] end before the range, fs[a..b] overlap it, fs[b..] start after it. */
  ghost predicate Split(fs: seq<File>, lo: Bound, hi: Bound, a: nat, b: nat) {
    && a <= b <= |fs|
    && (forall i :: 0 <= i < a ==> AfterFile(lo, fs[i]))
    && (forall i :: a <= i < b ==> Overlaps(fs[i], lo, hi))
    && (forall i :: b <= i < |fs| ==> BeforeFile(hi, fs[i]))
  }

  lemma {:induction false} OverlappingIsSlice(fs: seq<File>, lo: Bound, hi: Bound) returns (a: nat, b: nat)
    requires Disjoint(fs) && forall f :: f in fs ==> ValidFile(f)
    ensures Split(fs, lo, hi, a, b) && Overlapping(fs, lo, hi) == fs[a..b]
    decreases |fs|
  {
    a, b := 0, 0;
    if fs != [] {
      var init, last := fs[..|fs| - 1], fs[|fs| - 1];
      a, b := OverlappingIsSlice(init, lo, hi);
      assert fs == init + [last] && last in fs;
      a, b := SplitExtends(init, last, lo, hi, a, b);
    }
  }

  lemma SplitExtends(init: seq<File>, last: File, lo: Bound, hi: Bound, a: nat, b: nat) returns (a': nat, b': nat)
    requires Disjoint(init + [last]) && ValidFile(last) && forall f :: f in init ==> ValidFile(f)
    requires Split(init, lo, hi, a, b)
    ensures Split(init + [last], lo, hi, a', b')
    ensures (init + [last])[a'..b'] == init[a..b] + if Overlaps(last, lo, hi) then [last] else []
  {
    var n, fs := |init|, init + [last];
    a', b' := a, b;
    if a < n {
      assert init[a] in init;
      DisjointOrder(fs, a, n);
    }
    if b < n {
      assert init[b] in init;
      DisjointOrder(fs, b, n);
    }
    if b == n && Overlaps(last, lo, hi) {
      b' := n + 1;
    } else if b == n && AfterFile(lo, last) {
      a', b' := n + 1, n + 1;
    }
  }

  lemma OverlappingIsGoodStart(v: Version, level: nat, lo: Bound, hi: Bound)
    requires level < |v| && LevelValid(v, level) && (level == 0 ==> ClosedRange(v[0], lo, hi))
    requires Overlapping(v[level], lo, hi) != []
    ensures GoodStart(v, level, Overlapping(v[level], lo, hi))
  {
    if level > 0 {
      var a, b := OverlappingIsSlice(v[level], lo, hi);
      assert IsSlice(v[level], a, b, Overlapping(v[level], lo, hi));
    }
  }

  ghost predicate LevelValid(v: Version, level: nat)
    requires level < |v|
  {
    (forall f :: f in v[level] ==> ValidFile(f)) && (level > 0 ==> Disjoint(v[level]))
  }

  lemma BoundaryAtLevel0(v: Version, start: seq<File>, in0: seq<File>, first: InternalKey)
    requires |v| > 0 && LevelValid(v, 0) && GoodStart(v, 0, start)
    requires start <= in0 && IsLargest(start, first) && BoundaryChain(v[0], in0, |start|, first)
    ensures ApartFrom(v, 0, in0) && GoodStart(v, 0, in0)
  {
    var lo, hi :| ClosedRange(v[0], lo, hi) && start == Overlapping(v[0], lo, hi);
    ClosedRangeApart(v, lo, hi, start);
    ChainStops(v[0], in0, |start|, first);
    assert in0 == start;
  }

  /** The chain of boundary files lengthens the slice to where the next file starts at
      a later user key. */
  lemma BoundarySlice(fs: seq<File>, start: seq<File>, in0: seq<File>, first: InternalKey, a: nat, b: nat) returns (b': nat)
    requires Disjoint(fs) && (forall f :: f in fs ==> ValidFile(f)) && IsSlice(fs, a, b, start)
    requires start <= in0 && IsLargest(start, first) && BoundaryChain(fs, in0, |start|, first)
    ensures IsSlice(fs, a, b', in0) && ChainEnd(in0, |start|, first) == fs[b' - 1].largest
  {
    SliceLargest(fs, a, b, start, first);
    b' := ChainIsSlice(fs, a, b, in0, first);
  }

  lemma BoundaryDeeper(v: Version, level: nat, start: seq<File>, in0: seq<File>, first: InternalKey)
    requires 1 <= level < |v| && LevelValid(v, level) && GoodStart(v, level, start)
    requires start <= in0 && IsLargest(start, first) && BoundaryChain(v[level], in0, |start|, first)
    requires forall f :: f in v[level] ==> !IsBoundary(f, ChainEnd(in0, |start|, first))
    ensures ApartFrom(v, level, in0) && GoodStart(v, level, in0)
  {
    var a, b :| IsSlice(v[level], a, b, start);
    var b' := BoundarySlice(v[level], start, in0, first, a, b);
    SliceApart(v, level, a, b', in0);
  }

  /** AddBoundaryInputs makes a good start safe to take out of its level. */
  method WithBoundary(v: Version, level: nat, start: seq<File>) returns (in0: seq<File>)
    requires level < |v| && LevelValid(v, level) && GoodStart(v, level, start)
    ensures ApartFrom(v, level, in0) && GoodStart(v, level, in0) && start <= in0
  {
    ghost var first;
    in0, first := AddBoundaryInputs(v[level], start);
    if level == 0 {
      BoundaryAtLevel0(v, start, in0, first);
    } else {
      BoundaryDeeper(v, level, start, in0, first);
    }
  }

  lemma {:induction false} ChainStops(levelFiles: seq<File>, r: seq<File>, n: nat, first: InternalKey)
    requires n <= |r| && BoundaryChain(levelFiles, r, n, first)
    requires forall f :: f in levelFiles ==> !IsBoundary(f, first)
    ensures |r| == n
    decreases |r|
  {
    if |r| > n {
      ChainStops(levelFiles, r[..|r| - 1], n, first);
    }
  }

  // ---- the files one level down ----

  method GetRange(inputs: seq<File>) returns (smallest: InternalKey, largest: InternalKey)
    requires inputs != []
    ensures (exists f :: f in inputs && f.smallest == smallest) && forall f :: f in inputs ==> !Less(f.smallest, smallest)
    ensures (exists f :: f in inputs && f.largest == largest) && forall f :: f in inputs ==> !Less(largest, f.largest)
  {
    smallest, largest := inputs[0].smallest, inputs[0].largest;
    for i := 1 to |inputs|
      invariant exists j :: 0 <= j < i && inputs[j].smallest == smallest
      invariant exists j :: 0 <= j < i && inputs[j].largest == largest
      invariant forall j :: 0 <= j < i ==> !Less(inputs[j].smallest, smallest) && !Less(largest, inputs[j].largest)
    {
      var f := inputs[i];
      if Less(f.smallest, smallest) {
        smallest := f.smallest;
      }
      if Less(largest, f.largest) {
        largest := f.largest;
      }
    }
  }

  ghost predicate HullUsers(fs: seq<File>, lo: UserKey, hi: UserKey) {
    && (exists f :: f in fs && f.smallest.user == lo) && (forall f :: f in fs ==> lo <= f.smallest.user)
    && (exists f :: f in fs && f.largest.user == hi) && (forall f :: f in fs ==> f.largest.user <= hi)
  }

  lemma HullIsRange(fs: seq<File>, lo: UserKey, hi: UserKey, f: File)
    requires HullUsers(fs, lo, hi)
    ensures Overlaps(f, Some(lo), Some(hi)) <==> !OutsideHull(f, fs)
  {
    var a :| a in fs && a.smallest.user == lo;
    var b :| b in fs && b.largest.user == hi;
  }

  lemma HullFilesComplete(v: Version, level: nat, in0: seq<File>, lo: UserKey, hi: UserKey, in1: seq<File>)
    requires |v| == NUM_LEVELS && level + 1 < NUM_LEVELS && ApartFrom(v, level, in0) && LevelValid(v, level + 1)
    requires HullUsers(in0, lo, hi) && in1 == Overlapping(v[level + 1], Some(lo), Some(hi))
    ensures Chosen(v, level, in0, in1) && Disjoint(in1)
  {
    forall f ensures f in in1 <==> f in v[level + 1] && !OutsideHull(f, in0) {
      OverlappingMember(v[level + 1], Some(lo), Some(hi), f);
      HullIsRange(in0, lo, hi, f);
    }
    var a, b := OverlappingIsSlice(v[level + 1], Some(lo), Some(hi));
  }

  /** The level+1 files inside the hull of in0 complete a choice of inputs. */
  method NextLevel(v: Version, level: nat, in0: seq<File>)
    returns (in1: seq<File>, ghost range: (UserKey, UserKey))
    requires |v| == NUM_LEVELS && level + 1 < NUM_LEVELS && ApartFrom(v, level, in0) && LevelValid(v, level + 1)
    ensures Chosen(v, level, in0, in1) && Disjoint(in1)
    ensures HullUsers(in0, range.0, range.1) && in1 == Overlapping(v[level + 1], Some(range.0), Some(range.1))
  {
    var smallest, largest := GetRange(in0);
    ghost var lo, hi;
    in1, lo, hi := GetOverlappingInputs(v[level + 1], false, Some(smallest.user), Some(largest.user));
    range := (smallest.user, largest.user);
    HullFilesComplete(v, level, in0, smallest.user, largest.user, in1);
  }

  /** x0 takes in every file of `level` in the range of all inputs, with its boundary;
      x1 are the level+1 files in the range of x0. */
  ghost predicate Expansion(v: Version, level: nat, in0: seq<File>, in1: seq<File>, x0: seq<File>, x1: seq<File>)
    requires |v| == NUM_LEVELS && level + 1 < NUM_LEVELS
  {
    && GoodStart(v, level, x0) && Chosen(v, level, x0, x1) && Disjoint(x1)
    && forall f :: f in v[level] && InHull(f, in0 + in1) ==> f in x0
  }

  /** The user keys of the file meet the range of the others. */
  ghost predicate InHull(f: File, fs: seq<File>) {
    (exists g :: g in fs && f.smallest.user <= g.largest.user) && (exists g :: g in fs && g.smallest.user <= f.largest.user)
  }

  lemma MeetsHull(v: Version, level: nat, all: seq<File>, s: InternalKey, l: InternalKey, lo: Bound, hi: Bound, f: File)
    requires level < |v| && f in v[level] && InHull(f, all) && Covers(lo, hi, Some(s.user), Some(l.user))
    requires forall g :: g in all ==> !Less(g.smallest, s) && !Less(l, g.largest)
    ensures f in Overlapping(v[level], lo, hi)
  {
    var a :| a in all && f.smallest.user <= a.largest.user;
    var b :| b in all && b.smallest.user <= f.largest.user;
    OverlappingMember(v[level], lo, hi, f);
  }

  /** The expansion of SetupOtherInputs: taken exactly if it brings in more files of
      `level`, no other number of files of level+1, and not too many bytes. */
  method Expand(v: Version, level: nat, in0: seq<File>, in1: seq<File>,
                allStart: InternalKey, allLimit: InternalKey, maxFileSize: nat)
    returns (e0: seq<File>, e1: seq<File>, ghost x0: seq<File>, ghost x1: seq<File>)
    requires |v| == NUM_LEVELS && level + 1 < NUM_LEVELS && LevelValid(v, level) && LevelValid(v, level + 1)
    requires Chosen(v, level, in0, in1) && GoodStart(v, level, in0) && Disjoint(in1)
    requires forall f :: f in in0 + in1 ==> !Less(f.smallest, allStart) && !Less(allLimit, f.largest)
    ensures Chosen(v, level, e0, e1) && GoodStart(v, level, e0) && Disjoint(e1) && forall f :: f in in0 ==> f in e0
    ensures Expansion(v, level, in0, in1, x0, x1)
    ensures (e0, e1) == if |x0| > |in0| && TotalFileSize(in1) + TotalFileSize(x0) < 25 * maxFileSize && |x1| == |in1| then (x0, x1)
                        else (in0, in1)
  {
    e0, e1 := in0, in1;
    ghost var lo, hi;
    var expanded0;
    expanded0, lo, hi := GetOverlappingInputs(v[level], level == 0, Some(allStart.user), Some(allLimit.user));
    Covered(v, level, in0, allStart, allLimit, lo, hi);
    assert in0[0] in expanded0;
    OverlappingIsGoodStart(v, level, lo, hi);
    ghost var overlap := expanded0;
    forall f | f in v[level] && InHull(f, in0 + in1) ensures f in overlap {
      MeetsHull(v, level, in0 + in1, allStart, allLimit, lo, hi, f);
    }
    expanded0 := WithBoundary(v, level, expanded0);
    FrontMembers(overlap, expanded0);
    x0 := expanded0;
    ghost var u, w := HullExists(x0);
    x1 := Overlapping(v[level + 1], Some(u), Some(w));
    HullFilesComplete(v, level, x0, u, w, x1);
    if |expanded0| > |in0| && TotalFileSize(in1) + TotalFileSize(expanded0) < 25 * maxFileSize {
      var expanded1;
      ghost var range;
      expanded1, range := NextLevel(v, level, expanded0);
      HullIsOne(x0, u, w, range.0, range.1);
      if |expanded1| == |in1| {
        e0, e1 := expanded0, expanded1;
      }
    }
  }

  lemma {:induction false} HullExists(fs: seq<File>) returns (lo: UserKey, hi: UserKey)
    requires fs != []
    ensures HullUsers(fs, lo, hi)
  {
    var last := fs[|fs| - 1];
    lo, hi := last.smallest.user, last.largest.user;
    if |fs| > 1 {
      var init := fs[..|fs| - 1];
      var l, h := HullExists(init);
      assert fs == init + [last];
      lo, hi := if l < lo then l else lo, if h > hi then h else hi;
    }
  }

  lemma HullIsOne(fs: seq<File>, lo: UserKey, hi: UserKey, lo': UserKey, hi': UserKey)
    requires HullUsers(fs, lo, hi) && HullUsers(fs, lo', hi')
    ensures lo == lo' && hi == hi'
  {
  }

  /** The level+2 files, in their order, that overlap the range of all the inputs. */
  ghost predicate GrandparentsOf(v: Version, level: nat, all: seq<File>, gs: seq<File>)
    requires |v| == NUM_LEVELS && level + 1 < NUM_LEVELS
  {
    if level + 2 < NUM_LEVELS then
      exists lo: UserKey, hi: UserKey :: HullUsers(all, lo, hi) && gs == Overlapping(v[level + 2], Some(lo), Some(hi))
    else gs == []
  }

  lemma GrandparentMember(v: Version, level: nat, all: seq<File>, gs: seq<File>, f: File)
    requires |v| == NUM_LEVELS && level + 2 < NUM_LEVELS && GrandparentsOf(v, level, all, gs)
    ensures f in gs <==> f in v[level + 2] && !OutsideHull(f, all)
  {
    var lo: UserKey, hi: UserKey :| HullUsers(all, lo, hi) && gs == Overlapping(v[level + 2], Some(lo), Some(hi));
    OverlappingMember(v[level + 2], Some(lo), Some(hi), f);
    HullIsRange(all, lo, hi, f);
  }

  lemma FrontMembers(a: seq<File>, b: seq<File>)
    requires a <= b
    ensures forall f :: f in a ==> f in b
  {
    forall f | f in a ensures f in b {
      var i :| 0 <= i < |a| && a[i] == f;
      assert b[i] == f;
    }
  }

  method Grandparents(v: Version, level: nat, ghost all: seq<File>, allStart: InternalKey, allLimit: InternalKey)
    returns (gs: seq<File>)
    requires |v| == NUM_LEVELS && level + 1 < NUM_LEVELS && HullUsers(all, allStart.user, allLimit.user)
    ensures GrandparentsOf(v, level, all, gs)
  {
    gs := [];
    if level + 2 < NUM_LEVELS {
      ghost var lo, hi;
      gs, lo, hi := GetOverlappingInputs(v[level + 2], false, Some(allStart.user), Some(allLimit.user));
    }
  }

  /** What every choice of inputs fulfils. */
  ghost predicate WellPicked(v: Version, c: CompactionInputs)
    requires |v| == NUM_LEVELS
  {
    && Chosen(v, c.level, c.in0, c.in1) && GoodStart(v, c.level, c.in0) && Disjoint(c.in1)
    && GrandparentsOf(v, c.level, c.in0 + c.in1, c.grandparents) && IsLargest(c.in0, c.pointer)
  }

  /** b0 is the start with its boundary, b1 the level+1 files it needs. Without any, that is
      all; else the expansion is taken when it costs no more of level+1 and stays small. */
  ghost predicate Expands(v: Version, level: nat, start: seq<File>, b0: seq<File>, b1: seq<File>, x0: seq<File>, x1: seq<File>,
                          in0: seq<File>, in1: seq<File>, maxFileSize: nat)
    requires |v| == NUM_LEVELS && level + 1 < NUM_LEVELS
  {
    && start <= b0 && Chosen(v, level, b0, b1)
    && (b1 != [] ==> Expansion(v, level, b0, b1, x0, x1))
    && (in0, in1) == if b1 != [] && |x0| > |b0| && TotalFileSize(b1) + TotalFileSize(x0) < 25 * maxFileSize && |x1| == |b1| then (x0, x1)
                     else (b0, b1)
  }

  ghost predicate ExpandsWhenWorth(v: Version, c: CompactionInputs, start: seq<File>, maxFileSize: nat)
    requires |v| == NUM_LEVELS && c.level + 1 < NUM_LEVELS
  {
    exists b0, b1, x0, x1 :: Expands(v, c.level, start, b0, b1, x0, x1, c.in0, c.in1, maxFileSize)
  }

  /** SetupOtherInputs: boundary files, the next level, the expansion, the grandparents. */
  method SetupOtherInputs(v: Version, level: nat, start: seq<File>, maxFileSize: nat) returns (c: CompactionInputs)
    requires |v| == NUM_LEVELS && level + 1 < NUM_LEVELS && LevelValid(v, level) && LevelValid(v, level + 1)
    requires GoodStart(v, level, start)
    ensures c.level == level && WellPicked(v, c) && forall f :: f in start ==> f in c.in0
    ensures ExpandsWhenWorth(v, c, start, maxFileSize)
  {
    var in0 := WithBoundary(v, level, start);
    FrontMembers(start, in0);
    ghost var range;
    var in1;
    in1, range := NextLevel(v, level, in0);
    ghost var b0, b1, x0, x1 := in0, in1, in0, in1;
    var allStart, allLimit := GetRange(in0 + in1);
    if in1 != [] {
      in0, in1, x0, x1 := Expand(v, level, in0, in1, allStart, allLimit, maxFileSize);
      allStart, allLimit := GetRange(in0 + in1);
    }
    assert Expands(v, level, start, b0, b1, x0, x1, in0, in1, maxFileSize);
    var grandparents := Grandparents(v, level, in0 + in1, allStart, allLimit);
    var smallest, largest := GetRange(in0);
    c := ChosenInputs(level, in0, in1, grandparents, largest);
  }

  /** Every input file lies in the range of all inputs. */
  lemma Covered(v: Version, level: nat, in0: seq<File>, s: InternalKey, l: InternalKey, lo: Bound, hi: Bound)
    requires level < |v| && (forall f :: f in v[level] ==> ValidFile(f)) && forall f :: f in in0 ==> f in v[level]
    requires forall f :: f in in0 ==> !Less(f.smallest, s) && !Less(l, f.largest)
    requires Covers(lo, hi, Some(s.user), Some(l.user))
    ensures forall f :: f in in0 ==> f in Overlapping(v[level], lo, hi)
  {
    forall f | f in in0 ensures f in Overlapping(v[level], lo, hi) {
      FileSpan(f);
      OverlappingMember(v[level], lo, hi, f);
    }
  }

  /** The shortest prefix reaching maxFileSize, or all the files. */
  method CutToLimit(inputs: seq<File>, maxFileSize: nat) returns (n: nat)
    requires inputs != []
    ensures 0 < n <= |inputs|
    ensures n < |inputs| ==> TotalFileSize(inputs[..n]) >= maxFileSize
    ensures forall k :: 0 < k < n ==> TotalFileSize(inputs[..k]) < maxFileSize
  {
    var total := 0;
    n := 0;
    while n < |inputs|
      invariant n <= |inputs| && total == TotalFileSize(inputs[..n])
      invariant forall k :: 0 < k <= n ==> TotalFileSize(inputs[..k]) < maxFileSize
    {
      assert inputs[..n + 1][..n] == inputs[..n];
      total := total + inputs[n].size;
      n := n + 1;
      if total >= maxFileSize {
        return;
      }
    }
  }

  /** CompactRange: the files of a level in a requested range, cut short below level 0. */
  method CompactRange(v: Version, level: nat, begin: Bound, end: Bound, maxFileSize: nat) returns (r: Option<CompactionInputs>)
    requires |v| == NUM_LEVELS && level + 1 < NUM_LEVELS && LevelValid(v, level) && LevelValid(v, level + 1)
    ensures r.None? <==> forall f :: f in v[level] ==> !InRange(f, begin, end)
    ensures r.Some? ==> r.value.level == level && WellPicked(v, r.value)
    ensures r.Some? && level == 0 ==> forall f :: f in v[0] && InRange(f, begin, end) ==> f in r.value.in0
    ensures r.Some? && level > 0 ==> StartsWithHits(v[level], begin, end, maxFileSize, r.value.in0)
  {
    ghost var lo, hi;
    var inputs;
    inputs, lo, hi := GetOverlappingInputs(v[level], level == 0, begin, end);
    RangeEmptiness(v[level], level == 0, begin, end, lo, hi);
    forall f ensures Overlaps(f, begin, end) <==> InRange(f, begin, end) { }
    if inputs == [] {
      return None;
    }
    OverlappingIsGoodStart(v, level, lo, hi);
    if level > 0 {
      var n := CutToLimit(inputs, maxFileSize);
      ghost var a, b := OverlappingIsSlice(v[level], begin, end);
      FirstOfSlice(v[level], a, b, inputs, n);
      inputs := inputs[..n];
      var c := SetupOtherInputs(v, level, inputs, maxFileSize);
      HitsFirst(v[level], begin, end, maxFileSize, a, b, n, c.in0);
      r := Some(c);
    } else {
      CoversHits(v[0], begin, end, lo, hi, inputs);
      var c := SetupOtherInputs(v, level, inputs, maxFileSize);
      r := Some(c);
    }
  }

  /** The file holds keys between the bounds, or may: its key range meets theirs. */
  predicate InRange(f: File, begin: Bound, end: Bound) {
    (begin.None? || begin.value <= f.largest.user) && (end.None? || f.smallest.user <= end.value)
  }

  /** The files in the requested range are fs[a..b]; in0 holds the first n of them, the
      shortest front of them that is big enough, or all. */
  ghost predicate StartsWithHits(fs: seq<File>, begin: Bound, end: Bound, maxFileSize: nat, in0: seq<File>) {
    exists a: nat, b: nat, n: nat :: FrontOfHits(fs, begin, end, maxFileSize, a, b, n) && forall i :: a <= i < a + n ==> fs[i] in in0
  }

  ghost predicate FrontOfHits(fs: seq<File>, begin: Bound, end: Bound, maxFileSize: nat, a: nat, b: nat, n: nat) {
    && a < b <= |fs| && 0 < n <= b - a
    && (forall i :: 0 <= i < |fs| ==> (a <= i < b <==> InRange(fs[i], begin, end)))
    && (n < b - a ==> TotalFileSize(fs[a..a + n]) >= maxFileSize)
    && (forall e :: a < e < a + n ==> TotalFileSize(fs[a..e]) < maxFileSize)
  }

  lemma FirstOfSlice(fs: seq<File>, a: nat, b: nat, inputs: seq<File>, n: nat)
    requires a <= b <= |fs| && inputs == fs[a..b] && 0 < n <= |inputs|
    ensures IsSlice(fs, a, a + n, inputs[..n]) && forall e :: a <= e <= a + n ==> fs[a..e] == inputs[..e - a]
  {
  }

  lemma HitsFirst(fs: seq<File>, begin: Bound, end: Bound, maxFileSize: nat, a: nat, b: nat, n: nat, in0: seq<File>)
    requires Split(fs, begin, end, a, b) && 0 < n <= b - a && forall f :: f in fs[a..b][..n] ==> f in in0
    requires forall f :: f in fs ==> ValidFile(f)
    requires n < b - a ==> TotalFileSize(fs[a..b][..n]) >= maxFileSize
    requires forall k :: 0 < k < n ==> TotalFileSize(fs[a..b][..k]) < maxFileSize
    ensures StartsWithHits(fs, begin, end, maxFileSize, in0)
  {
    FirstOfSlice(fs, a, b, fs[a..b], n);
    forall i | a <= i < a + n ensures fs[i] in in0 { assert fs[a..b][..n][i - a] == fs[i]; }
    forall i | 0 <= i < |fs| ensures a <= i < b <==> InRange(fs[i], begin, end) { assert fs[i] in fs; }
    forall e | a < e < a + n ensures TotalFileSize(fs[a..e]) < maxFileSize { assert fs[a..e] == fs[a..b][..e - a]; }
    assert FrontOfHits(fs, begin, end, maxFileSize, a, b, n);
  }

  lemma CoversHits(fs: seq<File>, begin: Bound, end: Bound, lo: Bound, hi: Bound, inputs: seq<File>)
    requires Covers(lo, hi, begin, end) && inputs == Overlapping(fs, lo, hi)
    ensures forall f :: f in fs && InRange(f, begin, end) ==> f in inputs
  {
    forall f | f in fs && InRange(f, begin, end) ensures f in inputs { OverlappingMember(fs, lo, hi, f); }
  }

  /** The grown range holds a file exactly when the requested one does. */
  lemma RangeEmptiness(fs: seq<File>, level0: bool, begin: Bound, end: Bound, lo: Bound, hi: Bound)
    requires if level0 then SmallestClosed(fs, begin, end, lo, hi) else lo == begin && hi == end
    ensures Overlapping(fs, lo, hi) == [] <==> forall f :: f in fs ==> !Overlaps(f, begin, end)
  {
    forall f ensures f in Overlapping(fs, lo, hi) <==> f in fs && Overlaps(f, lo, hi) {
      OverlappingMember(fs, lo, hi, f);
    }
    if forall f :: f in fs ==> !Overlaps(f, begin, end) {
      assert ClosedRange(fs, begin, end) && Covers(begin, end, begin, end);
      assert Covers(lo, hi, begin, end) && Covers(begin, end, lo, hi);
      assert lo == begin && hi == end;
      assert forall i :: 0 <= i < |Overlapping(fs, lo, hi)| ==> Overlapping(fs, lo, hi)[i] in Overlapping(fs, lo, hi);
    } else {
      var f :| f in fs && Overlaps(f, begin, end);
      assert f in Overlapping(fs, lo, hi);
    }
  }

  // ---- which level, and from which file ----

  const L0_COMPACTION_TRIGGER: nat := 4

  /** MaxBytesForLevel: ten megabytes, ten times more on each level past the first. */
  function MaxBytes(level: nat): (r: real)
    ensures r > 0.0
  {
    if level <= 1 then 10.0 * 1048576.0 else 10.0 * MaxBytes(level - 1)
  }

  method MaxBytesForLevel(level0: nat) returns (r: real)
    ensures r == MaxBytes(level0)
  {
    r := 10.0 * 1048576.0;
    ghost var done := if level0 == 0 then 0 else 1;
    var level := level0;
    while level > 1
      invariant r == MaxBytes(done) && done + level == level0 + (if level0 == 0 then 0 else 1) && (level0 > 0 ==> done >= 1 && level >= 1)
    {
      r := r * 10.0;
      level, done := level - 1, done + 1;
    }
  }

  function Score(v: Version, level: nat): real
    requires level < |v|
  {
    if level == 0 then |v[0]| as real / L0_COMPACTION_TRIGGER as real
    else TotalFileSize(v[level]) as real / MaxBytes(level)
  }

  /** The limits: four files at level 0, ten megabytes at level 1, ten times more on each
      level below. */
  lemma ScoresAre(v: Version)
    requires |v| == NUM_LEVELS
    ensures Score(v, 0) < 1.0 <==> |v[0]| < 4
    ensures Score(v, 1) < 1.0 <==> TotalFileSize(v[1]) < 10 * 1048576
    ensures Score(v, 2) < 1.0 <==> TotalFileSize(v[2]) < 100 * 1048576
    ensures Score(v, 3) < 1.0 <==> TotalFileSize(v[3]) < 1000 * 1048576
    ensures Score(v, 4) < 1.0 <==> TotalFileSize(v[4]) < 10000 * 1048576
    ensures Score(v, 5) < 1.0 <==> TotalFileSize(v[5]) < 100000 * 1048576
  {
    assert MaxBytes(1) == 10485760.0;
    assert MaxBytes(2) == 104857600.0;
    assert MaxBytes(3) == 1048576000.0;
    assert MaxBytes(4) == 10485760000.0;
    assert MaxBytes(5) == 104857600000.0;
  }

  lemma NoneIsOver(v: Version)
    requires |v| == NUM_LEVELS
    ensures (forall l :: 0 <= l < NUM_LEVELS - 1 ==> Score(v, l) < 1.0) <==>
      (|v[0]| < 4
       && TotalFileSize(v[1]) < 10 * 1048576 && TotalFileSize(v[2]) < 100 * 1048576 && TotalFileSize(v[3]) < 1000 * 1048576
       && TotalFileSize(v[4]) < 10000 * 1048576 && TotalFileSize(v[5]) < 100000 * 1048576)
  {
    ScoresAre(v);
    if forall l :: 0 <= l < NUM_LEVELS - 1 ==> Score(v, l) < 1.0 {
      assert Score(v, 0) < 1.0 && Score(v, 1) < 1.0 && Score(v, 2) < 1.0 && Score(v, 3) < 1.0 && Score(v, 4) < 1.0 && Score(v, 5) < 1.0;
    }
  }

  /** A level that is over its limit holds files. */
  lemma OverIsNotEmpty(v: Version, level: nat)
    requires level < |v| && Score(v, level) >= 1.0
    ensures v[level] != []
  {
    assert TotalFileSize([]) == 0;
  }

  method SumSizes(files: seq<File>) returns (sum: nat)
    ensures sum == TotalFileSize(files)
  {
    sum := 0;
    for i := 0 to |files|
      invariant sum == TotalFileSize(files[..i])
    {
      assert files[..i + 1][..i] == files[..i];
      sum := sum + files[i].size;
    }
    assert files[..|files|] == files;
  }

  /** Finalize: the first level with the highest score; the deepest is not looked at. */
  method Finalize(v: Version) returns (level: nat, score: real)
    requires |v| == NUM_LEVELS
    ensures level + 1 < NUM_LEVELS && score == Score(v, level)
    ensures forall l :: 0 <= l < NUM_LEVELS - 1 ==> Score(v, l) <= score && (l < level ==> Score(v, l) < score)
  {
    level, score := 0, -1.0;
    for l := 0 to NUM_LEVELS - 1
      invariant l == 0 ==> score == -1.0
      invariant l > 0 ==> level < l && score == Score(v, level)
      invariant forall k :: 0 <= k < l ==> Score(v, k) <= score && (k < level ==> Score(v, k) < score)
    {
      var s;
      if l == 0 {
        s := |v[0]| as real / L0_COMPACTION_TRIGGER as real;
      } else {
        var bytes := SumSizes(v[l]);
        var limit := MaxBytesForLevel(l);
        s := bytes as real / limit;
      }
      if s > score {
        level, score := l, s;
      }
    }
  }

  /** The level and the file a compaction starts from: a level over its limit first, and
      there the first file past the compaction pointer; else a file with too many seeks. */
  ghost predicate StartsFrom(v: Version, pointers: seq<Option<InternalKey>>, seek: Option<(nat, File)>, level: nat, f: File)
    requires |v| == NUM_LEVELS == |pointers|
  {
    && level + 1 < NUM_LEVELS && f in v[level]
    && if exists l :: 0 <= l < NUM_LEVELS - 1 && Score(v, l) >= 1.0 then
         (forall l :: 0 <= l < NUM_LEVELS - 1 ==> Score(v, l) <= Score(v, level)) && Rotates(v[level], pointers[level], f)
       else seek == Some((level, f))
  }

  /** f is the first file past the pointer; without one, the first of all. */
  ghost predicate Rotates(files: seq<File>, pointer: Option<InternalKey>, f: File) {
    exists k :: 0 <= k < |files| && f == files[k] && FirstPast(files, pointer, k)
  }

  ghost predicate FirstPast(files: seq<File>, pointer: Option<InternalKey>, k: nat)
    requires k < |files|
  {
    && (forall j :: 0 <= j < k ==> !PastPointer(pointer, files[j]))
    && (PastPointer(pointer, files[k]) || (k == 0 && forall j :: 0 <= j < |files| ==> !PastPointer(pointer, files[j])))
  }

  /** PickCompaction: none exactly when no level is over its limit and no file had too
      many seeks. */
  method PickCompaction(v: Version, pointers: seq<Option<InternalKey>>, seek: Option<(nat, File)>, maxFileSize: nat)
    returns (r: Option<CompactionInputs>, ghost f: File)
    requires |v| == NUM_LEVELS == |pointers| && LevelsValid(v)
    requires seek.Some? ==> seek.value.0 + 1 < NUM_LEVELS && seek.value.1 in v[seek.value.0]
    ensures r.None? <==> seek.None? && forall l :: 0 <= l < NUM_LEVELS - 1 ==> Score(v, l) < 1.0
    ensures r.None? <==>
      (seek.None? && |v[0]| < 4
       && TotalFileSize(v[1]) < 10 * 1048576 && TotalFileSize(v[2]) < 100 * 1048576 && TotalFileSize(v[3]) < 1000 * 1048576
       && TotalFileSize(v[4]) < 10000 * 1048576 && TotalFileSize(v[5]) < 100000 * 1048576)
    ensures r.Some? ==> WellPicked(v, r.value) && StartsFrom(v, pointers, seek, r.value.level, f) && f in r.value.in0
  {
    NoneIsOver(v);
    var level, score := Finalize(v);
    var file;
    if score >= 1.0 {
      OverIsNotEmpty(v, level);
      ghost var k;
      file, k := FirstAfterPointer(v[level], pointers[level]);
      assert FirstPast(v[level], pointers[level], k);
    } else if seek.Some? {
      level, file := seek.value.0, seek.value.1;
    } else {
      return None, File(0, 0, SeekKey(0.0, 0), SeekKey(0.0, 0), []);
    }
    f := file;
    LevelAndNext(v, level);
    var c := PickFrom(v, level, file, maxFileSize);
    r := Some(c);
  }

  lemma LevelAndNext(v: Version, level: nat)
    requires LevelsValid(v) && level + 1 < NUM_LEVELS
    ensures LevelValid(v, level) && LevelValid(v, level + 1)
  {
  }

  /** Once the level and the first file are chosen. */
  method PickFrom(v: Version, level: nat, f: File, maxFileSize: nat) returns (c: CompactionInputs)
    requires |v| == NUM_LEVELS && level + 1 < NUM_LEVELS && LevelValid(v, level) && LevelValid(v, level + 1) && f in v[level]
    ensures c.level == level && WellPicked(v, c) && f in c.in0
  {
    var start := [f];
    if level == 0 {
      var smallest, largest := GetRange(start);
      ghost var lo, hi;
      start, lo, hi := GetOverlappingInputs(v[0], true, Some(smallest.user), Some(largest.user));
      assert f in [f] && f in start by {
        FileSpan(f);
        OverlappingMember(v[0], lo, hi, f);
      }
      OverlappingIsGoodStart(v, 0, lo, hi);
    } else {
      ghost var i :| 0 <= i < |v[level]| && v[level][i] == f;
      assert IsSlice(v[level], i, i + 1, start);
    }
    c := SetupOtherInputs(v, level, start, maxFileSize);
  }

  predicate PastPointer(pointer: Option<InternalKey>, f: File) {
    pointer.None? || Less(pointer.value, f.largest)
  }

  /** The first file of the level past the compaction pointer, or else the first file. */
  method FirstAfterPointer(files: seq<File>, pointer: Option<InternalKey>) returns (f: File, ghost k: nat)
    requires files != []
    ensures k < |files| && f == files[k] && FirstPast(files, pointer, k)
  {
    for i := 0 to |files|
      invariant forall j :: 0 <= j < i ==> !PastPointer(pointer, files[j])
    {
      if pointer.None? || Less(pointer.value, files[i].largest) {
        return files[i], i;
      }
    }
    return files[0], 0;
  }

  /** A level is gone through in rotation: the next compaction pointer is past the last,
      unless no file of the level is; then it starts over at the first. */
  lemma PointerMovesOn(files: seq<File>, pointer: Option<InternalKey>, f: File, c: CompactionInputs)
    requires Rotates(files, pointer, f) && f in c.in0 && IsLargest(c.in0, c.pointer)
    ensures pointer.None? || Less(pointer.value, c.pointer)
      || (f == files[0] && forall g :: g in files ==> !Less(pointer.value, g.largest))
  {
    assert !Less(c.pointer, f.largest);
  }

  method IsTrivialMove(c: CompactionInputs, maxFileSize: nat) returns (r: bool)
    ensures r <==> |c.in0| == 1 && c.in1 == [] && TotalFileSize(c.grandparents) <= 10 * maxFileSize
  {
    r := |c.in0| == 1 && |c.in1| == 0 && TotalFileSize(c.grandparents) <= 10 * maxFileSize;
  }

  // ---- where a flushed memtable goes ----

  ghost predicate LevelOverlaps(v: Version, l: nat, lo: UserKey, hi: UserKey)
    requires l < |v|
  {
    exists f :: f in v[l] && Overlaps(f, Some(lo), Some(hi))
  }

  /** The memtable may skip from level l to l+1. */
  ghost predicate MayPush(v: Version, l: nat, lo: UserKey, hi: UserKey, maxFileSize: nat)
    requires |v| == NUM_LEVELS && l + 1 < NUM_LEVELS
  {
    && !LevelOverlaps(v, l + 1, lo, hi)
    && (l + 2 < NUM_LEVELS ==> TotalFileSize(Overlapping(v[l + 2], Some(lo), Some(hi))) <= 10 * maxFileSize)
  }

  method OverlapInLevel(v: Version, l: nat, lo: UserKey, hi: UserKey) returns (r: bool)
    requires l < |v| && LevelValid(v, l)
    requires forall f :: f in v[l] ==> f.smallest.sequence < MAX_SEQUENCE && f.largest.sequence < MAX_SEQUENCE
    ensures r <==> LevelOverlaps(v, l, lo, hi)
  {
    r := SomeFileOverlapsRange(l > 0, v[l], Some(lo), Some(hi));
  }

  /** PickLevelForMemTableOutput: to level 0 if it overlaps, else down to level 2 while
      nothing overlaps and not too much of the level after next does. */
  method PickLevelForMemTableOutput(v: Version, lo: UserKey, hi: UserKey, maxFileSize: nat) returns (level: nat)
    requires |v| == NUM_LEVELS && forall l :: 0 <= l < NUM_LEVELS ==> LevelValid(v, l)
    requires forall l, f :: 0 <= l < NUM_LEVELS && f in v[l] ==>
      f.smallest.sequence < MAX_SEQUENCE && f.largest.sequence < MAX_SEQUENCE
    ensures level <= 2
    ensures level > 0 ==> forall l :: 0 <= l <= level ==> !LevelOverlaps(v, l, lo, hi)
    ensures (level == 0 || forall l, f :: 0 <= l <= level && f in v[l] ==> f.largest.user < lo || hi < f.smallest.user)
    ensures level == 0 || forall l :: 2 <= l <= level + 1 ==> TotalFileSize(Overlapping(v[l], Some(lo), Some(hi))) <= 10 * maxFileSize
    ensures level < 2 ==>
      || (exists l, f :: 0 <= l <= level + 1 && f in v[l] && f.smallest.user <= hi && lo <= f.largest.user)
      || TotalFileSize(Overlapping(v[level + 2], Some(lo), Some(hi))) > 10 * maxFileSize
  {
    level := PushDown(v, lo, hi, maxFileSize);
    LevelIs(v, lo, hi, maxFileSize, level);
  }

  method PushDown(v: Version, lo: UserKey, hi: UserKey, maxFileSize: nat) returns (level: nat)
    requires |v| == NUM_LEVELS && forall l :: 0 <= l < NUM_LEVELS ==> LevelValid(v, l)
    requires forall l, f :: 0 <= l < NUM_LEVELS && f in v[l] ==>
      f.smallest.sequence < MAX_SEQUENCE && f.largest.sequence < MAX_SEQUENCE
    ensures level <= MAX_MEM_COMPACT_LEVEL
    ensures level > 0 ==> forall l :: 0 <= l <= level ==> !LevelOverlaps(v, l, lo, hi)
    ensures LevelOverlaps(v, 0, lo, hi) ==> level == 0
    ensures !LevelOverlaps(v, 0, lo, hi) ==>
      (forall l :: 0 <= l < level ==> MayPush(v, l, lo, hi, maxFileSize))
      && (level < MAX_MEM_COMPACT_LEVEL ==> !MayPush(v, level, lo, hi, maxFileSize))
  {
    level := 0;
    var overlap := OverlapInLevel(v, 0, lo, hi);
    if !overlap {
      while level < MAX_MEM_COMPACT_LEVEL
        invariant level <= MAX_MEM_COMPACT_LEVEL
        invariant forall l :: 0 <= l <= level ==> !LevelOverlaps(v, l, lo, hi)
        invariant forall l :: 0 <= l < level ==> MayPush(v, l, lo, hi, maxFileSize)
      {
        overlap := OverlapInLevel(v, level + 1, lo, hi);
        if overlap {
          break;
        }
        if level + 2 < NUM_LEVELS {
          ghost var b, e;
          var overlaps;
          overlaps, b, e := GetOverlappingInputs(v[level + 2], false, Some(lo), Some(hi));
          if TotalFileSize(overlaps) > 10 * maxFileSize {
            break;
          }
        }
        level := level + 1;
      }
    }
  }

  lemma LevelIs(v: Version, lo: UserKey, hi: UserKey, maxFileSize: nat, level: nat)
    requires |v| == NUM_LEVELS && level <= MAX_MEM_COMPACT_LEVEL
    requires level > 0 ==> forall l :: 0 <= l <= level ==> !LevelOverlaps(v, l, lo, hi)
    requires if LevelOverlaps(v, 0, lo, hi) then level == 0 else
      (forall l :: 0 <= l < level ==> MayPush(v, l, lo, hi, maxFileSize))
      && (level < MAX_MEM_COMPACT_LEVEL ==> !MayPush(v, level, lo, hi, maxFileSize))
    ensures level == 0 || forall l, f :: 0 <= l <= level && f in v[l] ==> f.largest.user < lo || hi < f.smallest.user
    ensures level == 0 || forall l :: 2 <= l <= level + 1 ==> TotalFileSize(Overlapping(v[l], Some(lo), Some(hi))) <= 10 * maxFileSize
    ensures level < 2 ==>
      || (exists l, f :: 0 <= l <= level + 1 && f in v[l] && f.smallest.user <= hi && lo <= f.largest.user)
      || TotalFileSize(Overlapping(v[level + 2], Some(lo), Some(hi))) > 10 * maxFileSize
  {
    if level > 0 {
      forall l, f | 0 <= l <= level && f in v[l] ensures f.largest.user < lo || hi < f.smallest.user {
        assert !LevelOverlaps(v, l, lo, hi);
      }
      forall l | 2 <= l <= level + 1 ensures TotalFileSize(Overlapping(v[l], Some(lo), Some(hi))) <= 10 * maxFileSize {
        assert MayPush(v, l - 2, lo, hi, maxFileSize);
      }
    }
    if l :| 0 <= l <= level + 1 && l < |v| && LevelOverlaps(v, l, lo, hi) {
      var f :| f in v[l] && Overlaps(f, Some(lo), Some(hi));
    }
  }
}
