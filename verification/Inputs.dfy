/** Choosing compaction inputs (db/version_set.cc): the restarting level-0 scan,
    boundary files, SetupOtherInputs, and the level for a flushed memtable. */
module Inputs {
  import opened Format
  import opened Tables
  import opened Lookup

  // ---- GetOverlappingInputs ----

  function Overlapping(fs: seq<File>, lo: Bound, hi: Bound): seq<File> {
    if fs == [] then []
    else
      var f := fs[|fs| - 1];
      Overlapping(fs[..|fs| - 1], lo, hi) + if Overlaps(f, lo, hi) then [f] else []
  }

  lemma {:induction false} OverlappingMember(fs: seq<File>, lo: Bound, hi: Bound, f: File)
    ensures f in Overlapping(fs, lo, hi) <==> f in fs && Overlaps(f, lo, hi)
    decreases |fs|
  {
    if fs != [] {
      OverlappingMember(fs[..|fs| - 1], lo, hi, f);
      assert fs == fs[..|fs| - 1] + [fs[|fs| - 1]];
    }
  }

  predicate Within(f: File, lo: Bound, hi: Bound) {
    (lo.Some? ==> lo.value <= f.smallest.user) && (hi.Some? ==> f.largest.user <= hi.value)
  }

  /** Every file that overlaps the range lies inside it. */
  ghost predicate ClosedRange(fs: seq<File>, lo: Bound, hi: Bound) {
    forall f :: f in fs && Overlaps(f, lo, hi) ==> Within(f, lo, hi)
  }

  predicate Covers(lo: Bound, hi: Bound, begin: Bound, end: Bound) {
    && lo.Some? == begin.Some? && (lo.Some? ==> lo.value <= begin.value)
    && hi.Some? == end.Some? && (hi.Some? ==> hi.value >= end.value)
  }

  /** The smallest range closed under overlap that contains [begin, end]. */
  ghost predicate SmallestClosed(fs: seq<File>, begin: Bound, end: Bound, lo: Bound, hi: Bound) {
    && Covers(lo, hi, begin, end) && ClosedRange(fs, lo, hi)
    && InEveryClosed(fs, begin, end, lo, hi)
  }

  ghost predicate InEveryClosed(fs: seq<File>, begin: Bound, end: Bound, lo: Bound, hi: Bound) {
    forall x, y :: Covers(x, y, begin, end) && ClosedRange(fs, x, y) ==> Covers(x, y, lo, hi)
  }

  function Outside(fs: seq<File>, lo: Bound, hi: Bound): nat {
    if fs == [] then 0
    else
      Outside(fs[1..], lo, hi)
      + (if lo.Some? && fs[0].smallest.user < lo.value then 1 else 0)
      + (if hi.Some? && fs[0].largest.user > hi.value then 1 else 0)
  }

  /** Growing the range to take in one more file's end leaves fewer ends outside. */
  lemma {:induction false} OutsideShrinks(fs: seq<File>, lo: Bound, hi: Bound, lo': Bound, hi': Bound)
    requires Covers(lo', hi', lo, hi)
    ensures Outside(fs, lo', hi') <= Outside(fs, lo, hi)
    ensures forall f :: f in fs
              && ((lo.Some? && f.smallest.user < lo.value && lo'.value <= f.smallest.user)
                  || (hi.Some? && f.largest.user > hi.value && hi'.value >= f.largest.user))
              ==> Outside(fs, lo', hi') < Outside(fs, lo, hi)
  {
    if fs != [] {
      OutsideShrinks(fs[1..], lo, hi, lo', hi');
      assert fs == [fs[0]] + fs[1..];
    }
  }

  /** Taking in an end of an overlapping file stays inside every closed range. */
  lemma Grow(fs: seq<File>, begin: Bound, end: Bound, lo: Bound, hi: Bound, f: File, lo': Bound, hi': Bound)
    requires Covers(lo, hi, begin, end) && InEveryClosed(fs, begin, end, lo, hi)
    requires f in fs && Overlaps(f, lo, hi)
    requires (lo.Some? && f.smallest.user < lo.value && lo' == Some(f.smallest.user) && hi' == hi)
          || (hi.Some? && f.largest.user > hi.value && hi' == Some(f.largest.user) && lo' == lo)
    ensures Covers(lo', hi', begin, end) && InEveryClosed(fs, begin, end, lo', hi')
    ensures Outside(fs, lo', hi') < Outside(fs, lo, hi)
  {
    OutsideShrinks(fs, lo, hi, lo', hi');
    forall x, y | Covers(x, y, begin, end) && ClosedRange(fs, x, y) ensures Covers(x, y, lo', hi') {
      assert Covers(x, y, lo, hi) && Overlaps(f, x, y);
    }
  }

  method GetOverlappingInputs(files: seq<File>, level0: bool, begin: Bound, end: Bound)
    returns (inputs: seq<File>, ghost lo: Bound, ghost hi: Bound)
    ensures inputs == Overlapping(files, lo, hi)
    ensures !level0 ==> lo == begin && hi == end
    ensures level0 ==> SmallestClosed(files, begin, end, lo, hi)
  {
    inputs := [];
    var userBegin, userEnd := begin, end;
    var i := 0;
    while i < |files|
      invariant i <= |files|
      invariant inputs == Overlapping(files[..i], userBegin, userEnd)
      invariant !level0 ==> userBegin == begin && userEnd == end
      invariant level0 ==> Covers(userBegin, userEnd, begin, end)
      invariant level0 ==> ClosedRange(files[..i], userBegin, userEnd)
      invariant level0 ==> InEveryClosed(files, begin, end, userBegin, userEnd)
      decreases Outside(files, userBegin, userEnd), |files| - i
    {
      var f := files[i];
      assert f in files;
      assert files[..i + 1][..i] == files[..i];
      i := i + 1;
      if AfterFile(userBegin, f) {
      } else if BeforeFile(userEnd, f) {
      } else {
        inputs := inputs + [f];
        if level0 {
          if userBegin.Some? && f.smallest.user < userBegin.value {
            Grow(files, begin, end, userBegin, userEnd, f, Some(f.smallest.user), userEnd);
            userBegin := Some(f.smallest.user);
            inputs := [];
            i := 0;
          } else if userEnd.Some? && f.largest.user > userEnd.value {
            Grow(files, begin, end, userBegin, userEnd, f, userBegin, Some(f.largest.user));
            userEnd := Some(f.largest.user);
            inputs := [];
            i := 0;
          }
        }
      }
    }
    assert files[..|files|] == files;
    lo, hi := userBegin, userEnd;
  }

  // ---- AddBoundaryInputs ----

  ghost predicate IsLargest(fs: seq<File>, k: InternalKey) {
    (exists f :: f in fs && f.largest == k) && forall f :: f in fs ==> !Less(k, f.largest)
  }

  method FindLargestKey(files: seq<File>) returns (k: InternalKey)
    requires files != []
    ensures IsLargest(files, k)
  {
    k := files[0].largest;
    for i := 1 to |files|
      invariant exists j :: 0 <= j < i && files[j].largest == k
      invariant forall j :: 0 <= j < i ==> !Less(k, files[j].largest)
    {
      if Less(k, files[i].largest) {
        k := files[i].largest;
      }
    }
  }

  predicate IsBoundary(f: File, k: InternalKey) {
    Less(k, f.smallest) && f.smallest.user == k.user
  }

  method FindSmallestBoundaryFile(files: seq<File>, k: InternalKey) returns (r: Option<File>)
    ensures r.None? ==> forall f :: f in files ==> !IsBoundary(f, k)
    ensures r.Some? ==> r.value in files && IsBoundary(r.value, k)
    ensures r.Some? ==> forall f :: f in files && IsBoundary(f, k) ==> !Less(f.smallest, r.value.smallest)
  {
    r := None;
    for i := 0 to |files|
      invariant r.None? ==> forall j :: 0 <= j < i ==> !IsBoundary(files[j], k)
      invariant r.Some? ==> r.value in files && IsBoundary(r.value, k)
      invariant r.Some? ==> forall j :: 0 <= j < i && IsBoundary(files[j], k) ==> !Less(files[j].smallest, r.value.smallest)
    {
      var f := files[i];
      if Less(k, f.smallest) && f.smallest.user == k.user {
        if r.None? || Less(f.smallest, r.value.smallest) {
          r := Some(f);
        }
      }
    }
  }

  ghost predicate IsSlice(fs: seq<File>, a: nat, b: nat, part: seq<File>) {
    a < b <= |fs| && part == fs[a..b]
  }

  ghost predicate Distinct(fs: seq<File>) {
    forall i, j :: 0 <= i < j < |fs| ==> fs[i] != fs[j]
  }

  /** A selection lists no file twice. */
  lemma {:induction false} OverlappingDistinct(fs: seq<File>, lo: Bound, hi: Bound)
    requires Distinct(fs)
    ensures Distinct(Overlapping(fs, lo, hi))
    decreases |fs|
  {
    if fs != [] {
      var init, last := fs[..|fs| - 1], fs[|fs| - 1];
      OverlappingDistinct(init, lo, hi);
      OverlappingMember(init, lo, hi, last);
      assert last !in init;
    }
  }

  function StartingAfter(fs: seq<File>, k: InternalKey): nat {
    if fs == [] then 0 else StartingAfter(fs[1..], k) + if Less(k, fs[0].smallest) then 1 else 0
  }

  lemma {:induction false} StartingAfterShrinks(fs: seq<File>, k: InternalKey, k': InternalKey)
    requires Less(k, k')
    ensures StartingAfter(fs, k') <= StartingAfter(fs, k)
    ensures forall f :: f in fs && Less(k, f.smallest) && !Less(k', f.smallest) ==> StartingAfter(fs, k') < StartingAfter(fs, k)
  {
    if fs != [] {
      StartingAfterShrinks(fs[1..], k, k');
      assert fs == [fs[0]] + fs[1..];
    }
  }

  /** In a sorted level, the boundary file of a slice is the file right after it. */
  lemma SliceGrows(fs: seq<File>, a: nat, b: nat, f: File)
    requires Disjoint(fs) && (forall g :: g in fs ==> ValidFile(g)) && a < b <= |fs|
    requires f in fs && IsBoundary(f, fs[b - 1].largest)
    requires forall g :: g in fs && IsBoundary(g, fs[b - 1].largest) ==> !Less(g.smallest, f.smallest)
    ensures b < |fs| && fs[b] == f
  {
    var i :| 0 <= i < |fs| && fs[i] == f;
    assert fs[i] in fs && fs[b - 1] in fs;
    FileSpan(fs[i]);
    assert i < b - 1 ==> Before(fs[i].largest, fs[b - 1].smallest);
    FileSpan(fs[b - 1]);
    assert b < |fs| ==> fs[b] in fs && Before(fs[b - 1].largest, fs[b].smallest);
    if b < |fs| {
      FileSpan(fs[b]);
    }
  }

  ghost predicate IsSmallestBoundary(levelFiles: seq<File>, f: File, k: InternalKey) {
    f in levelFiles && IsBoundary(f, k)
    && forall g :: g in levelFiles && IsBoundary(g, k) ==> !Less(g.smallest, f.smallest)
  }

  /** The largest key after the boundary files of `r` beyond the first n. */
  function ChainEnd(r: seq<File>, n: nat, first: InternalKey): InternalKey
    requires n <= |r|
  {
    if |r| == n then first else r[|r| - 1].largest
  }

  /** Beyond the first n, each file is the smallest boundary file of what precedes it. */
  ghost predicate BoundaryChain(levelFiles: seq<File>, r: seq<File>, n: nat, first: InternalKey)
    requires n <= |r|
    decreases |r|
  {
    |r| == n
    || (BoundaryChain(levelFiles, r[..|r| - 1], n, first)
        && IsSmallestBoundary(levelFiles, r[|r| - 1], ChainEnd(r[..|r| - 1], n, first)))
  }

  method AddBoundaryInputs(levelFiles: seq<File>, files: seq<File>) returns (r: seq<File>, ghost first: InternalKey)
    requires files != [] && forall f :: f in levelFiles ==> ValidFile(f)
    ensures files <= r && IsLargest(files, first)
    ensures BoundaryChain(levelFiles, r, |files|, first)
    ensures forall f :: f in levelFiles ==> !IsBoundary(f, ChainEnd(r, |files|, first))
  {
    var largest := FindLargestKey(files);
    first := largest;
    r := files;
    var continueSearching := true;
    while continueSearching
      invariant files <= r && largest == ChainEnd(r, |files|, first)
      invariant BoundaryChain(levelFiles, r, |files|, first)
      invariant !continueSearching ==> forall f :: f in levelFiles ==> !IsBoundary(f, largest)
      decreases continueSearching, StartingAfter(levelFiles, largest)
    {
      var f := FindSmallestBoundaryFile(levelFiles, largest);
      if f.Some? {
        FileSpan(f.value);
        StartingAfterShrinks(levelFiles, largest, f.value.largest);
        assert (r + [f.value])[..|r|] == r;
        r := r + [f.value];
        largest := f.value.largest;
      } else {
        continueSearching := false;
      }
    }
  }

  /** The chain ends at the largest key of all the files. */
  lemma {:induction false} ChainEndIsLargest(levelFiles: seq<File>, r: seq<File>, n: nat, first: InternalKey)
    requires n <= |r| && IsLargest(r[..n], first) && BoundaryChain(levelFiles, r, n, first)
    requires forall f :: f in levelFiles ==> ValidFile(f)
    ensures IsLargest(r, ChainEnd(r, n, first))
    decreases |r|
  {
    if |r| == n {
      assert r[..n] == r;
    } else {
      var m := |r| - 1;
      assert r[..m][..n] == r[..n];
      ChainEndIsLargest(levelFiles, r[..m], n, first);
      assert IsSmallestBoundary(levelFiles, r[m], ChainEnd(r[..m], n, first));
      FileSpan(r[m]);
      assert r == r[..m] + [r[m]];
      assert r[m] in r;
    }
  }

  /** In a sorted level the chain extends a slice file by file. */
  lemma {:induction false} ChainIsSlice(fs: seq<File>, a: nat, b: nat, r: seq<File>, first: InternalKey) returns (b': nat)
    requires Disjoint(fs) && forall f :: f in fs ==> ValidFile(f)
    requires a < b <= |fs| && |r| >= b - a && r[..b - a] == fs[a..b]
    requires first == fs[b - 1].largest && BoundaryChain(fs, r, b - a, first)
    ensures b <= b' && IsSlice(fs, a, b', r) && ChainEnd(r, b - a, first) == fs[b' - 1].largest
    decreases |r|
  {
    if |r| == b - a {
      assert r[..b - a] == r;
      b' := b;
    } else {
      var init, last := r[..|r| - 1], r[|r| - 1];
      assert init[..b - a] == r[..b - a];
      b' := ChainIsSlice(fs, a, b, init, first);
      SliceExtends(fs, a, b', init, last);
      assert r == init + [last];
      b' := b' + 1;
    }
  }

  lemma SliceExtends(fs: seq<File>, a: nat, b: nat, part: seq<File>, f: File)
    requires Disjoint(fs) && forall g :: g in fs ==> ValidFile(g)
    requires IsSlice(fs, a, b, part) && IsSmallestBoundary(fs, f, fs[b - 1].largest)
    ensures IsSlice(fs, a, b + 1, part + [f]) && fs[b] == f
  {
    SliceGrows(fs, a, b, f);
    assert fs[a..b + 1] == fs[a..b] + [fs[b]];
  }

  lemma SliceLargest(fs: seq<File>, a: nat, b: nat, part: seq<File>, k: InternalKey)
    requires Disjoint(fs) && (forall f :: f in fs ==> ValidFile(f)) && IsSlice(fs, a, b, part)
    ensures IsLargest(part, k) <==> k == fs[b - 1].largest
  {
    var last := fs[b - 1];
    assert part[|part| - 1] == last && last in fs;
    forall f | f in part ensures f == last || Less(f.largest, last.largest) {
      var i :| 0 <= i < |part| && part[i] == f;
      assert fs[a + i] == f && f in fs;
      if a + i < b - 1 { DisjointOrder(fs, a + i, b - 1); }
    }
  }
}
