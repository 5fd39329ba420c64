/** Point lookups in a version (db/version_set.cc): FindFile, SomeFileOverlapsRange
    and Version::Get, which stops at the first table that knows the user key. */
module Lookup {
  import opened Format
  import opened Tables

  lemma DisjointOrder(fs: seq<File>, i: nat, j: nat)
    requires Disjoint(fs) && i < j < |fs|
    requires ValidFile(fs[i]) && ValidFile(fs[j])
    ensures Before(fs[i].largest, fs[j].smallest)
    ensures Before(fs[i].smallest, fs[j].smallest) && Before(fs[i].largest, fs[j].largest)
    ensures fs[i] != fs[j]
  {
    FileSpan(fs[i]);
    FileSpan(fs[j]);
  }

  /** The first file whose largest key is at or above key. */
  method FindFile(files: seq<File>, key: InternalKey) returns (right: nat)
    requires Disjoint(files) && forall f :: f in files ==> ValidFile(f)
    ensures right <= |files|
    ensures forall i :: 0 <= i < right ==> Less(files[i].largest, key)
    ensures forall i :: right <= i < |files| ==> !Less(files[i].largest, key)
  {
    var left := 0;
    right := |files|;
    while left < right
      invariant 0 <= left <= right <= |files|
      invariant forall i :: 0 <= i < left ==> Less(files[i].largest, key)
      invariant forall i :: right <= i < |files| ==> !Less(files[i].largest, key)
    {
      var mid := (left + right) / 2;
      forall i | 0 <= i < |files| && i != mid
        ensures if i < mid then Less(files[i].largest, files[mid].largest)
                else Less(files[mid].largest, files[i].largest)
      {
        DisjointOrder(files, if i < mid then i else mid, if i < mid then mid else i);
      }
      if Less(files[mid].largest, key) {
        left := mid + 1;
      } else {
        right := mid;
      }
    }
  }

  /** A bound of a user key range; null is unbounded. */
  type Bound = Option<UserKey>

  predicate AfterFile(u: Bound, f: File) { u.Some? && u.value > f.largest.user }

  predicate BeforeFile(u: Bound, f: File) { u.Some? && u.value < f.smallest.user }

  predicate Overlaps(f: File, lo: Bound, hi: Bound) {
    !AfterFile(lo, f) && !BeforeFile(hi, f)
  }

  method SomeFileOverlapsRange(disjointSorted: bool, files: seq<File>, lo: Bound, hi: Bound) returns (r: bool)
    requires forall f :: f in files ==> ValidFile(f) && f.smallest.sequence < MAX_SEQUENCE && f.largest.sequence < MAX_SEQUENCE
    requires disjointSorted ==> Disjoint(files)
    ensures r <==> exists f :: f in files && Overlaps(f, lo, hi)
  {
    if !disjointSorted {
      for i := 0 to |files|
        invariant forall j :: 0 <= j < i ==> !Overlaps(files[j], lo, hi)
      {
        if AfterFile(lo, files[i]) || BeforeFile(hi, files[i]) {
        } else {
          assert files[i] in files && Overlaps(files[i], lo, hi);
          return true;
        }
      }
      return false;
    }
    var index := 0;
    if lo.Some? {
      index := FindFile(files, SeekKey(lo.value, MAX_SEQUENCE));
    }
    forall i | 0 <= i < index
      ensures AfterFile(lo, files[i])
    {
      assert files[i] in files;
    }
    forall i | index <= i < |files|
      ensures !AfterFile(lo, files[i]) && (BeforeFile(hi, files[index]) ==> BeforeFile(hi, files[i]))
    {
      assert files[i] in files;
      if index < i { DisjointOrder(files, index, i); }
    }
    if index >= |files| {
      return false;
    }
    r := !BeforeFile(hi, files[index]);
    if r {
      assert files[index] in files && Overlaps(files[index], lo, hi);
    }
  }

  // ---- Version::Get ----

  ghost predicate Descending(fs: seq<File>) {
    forall i, j :: 0 <= i < j < |fs| ==> fs[i].number >= fs[j].number
  }

  function InsertByNumber(f: File, fs: seq<File>): (r: seq<File>)
    requires Descending(fs)
    ensures Descending(r)
    ensures forall g :: g in r <==> g == f || g in fs
  {
    if fs == [] || f.number >= fs[0].number then [f] + fs
    else
      var t := InsertByNumber(f, fs[1..]);
      assert forall g :: g in t ==> g.number <= fs[0].number;
      assert forall i :: 0 <= i < |t| ==> t[i] in t;
      [fs[0]] + t
  }

  /** std::sort with NewestFirst */
  function SortNewestFirst(fs: seq<File>): (r: seq<File>)
    ensures Descending(r)
    ensures forall g :: g in r <==> g in fs
  {
    if fs == [] then []
    else
      assert fs == [fs[0]] + fs[1..];
      InsertByNumber(fs[0], SortNewestFirst(fs[1..]))
  }

  lemma OutsideRange(f: File, u: UserKey, s: nat)
    requires ValidFile(f) && (u < f.smallest.user || u > f.largest.user)
    ensures Unseen(SetOf(f.entries), u, s)
  {
    forall e | e in SetOf(f.entries) ensures !Visible(e, u, s) {
      FileBounds(f, e);
    }
  }

  lemma BelowSeek(f: File, u: UserKey, s: nat)
    requires ValidFile(f) && Less(f.largest, SeekKey(u, s))
    ensures Unseen(SetOf(f.entries), u, s)
  {
    forall e | e in SetOf(f.entries) ensures !Visible(e, u, s) {
      FileBounds(f, e);
    }
  }

  /** In one sorted level, files after a file that holds u are older or do not hold it. */
  lemma LaterFileNewer(fs: seq<File>, i: nat, j: nat)
    requires Disjoint(fs) && i < j < |fs| && ValidFile(fs[i]) && ValidFile(fs[j])
    ensures Newer(fs[i].entries, fs[j].entries)
  {
    forall a, b | a in fs[i].entries && b in fs[j].entries && a.key.user == b.key.user
      ensures a.key.sequence > b.key.sequence
    {
      FileBounds(fs[i], a);
      FileBounds(fs[j], b);
    }
  }

  ghost predicate LevelUnseen(fs: seq<File>, u: UserKey, s: nat) {
    forall f :: f in fs ==> Unseen(SetOf(f.entries), u, s)
  }

  /** A hit in the newest level-0 file that knows u is the answer of the version. */
  lemma Level0Hit(v: Version, files: seq<File>, i: nat, u: UserKey, s: nat, e: Entry)
    requires TreeInvariant(v) && Descending(files) && i < |files|
    requires forall g :: g in files ==> g in v[0]
    requires forall g :: g in v[0] && g !in files ==> Unseen(SetOf(g.entries), u, s)
    requires forall j :: 0 <= j < i ==> Unseen(SetOf(files[j].entries), u, s)
    requires IsTop(SetOf(files[i].entries), u, s, e)
    ensures IsTop(Stored(v), u, s, e)
  {
    var f := files[i];
    assert f in v[0];
    forall m, g | 0 <= m < |v| && g in v[m] && g != f
      ensures Unseen(SetOf(g.entries), u, s) || Newer(f.entries, g.entries)
    {
      if m == 0 && g in files {
        var j :| 0 <= j < |files| && files[j] == g;
        assert j > i ==> f.number > g.number;
      }
    }
    TopOfFile(v, 0, f, u, s, e);
  }

  method CollectOverlapping(fs: seq<File>, u: UserKey, s: nat) returns (tmp: seq<File>)
    requires forall f :: f in fs ==> ValidFile(f)
    ensures forall f :: f in tmp ==> f in fs
    ensures forall f :: f in fs && f !in tmp ==> Unseen(SetOf(f.entries), u, s)
  {
    tmp := [];
    for i := 0 to |fs|
      invariant forall f :: f in tmp ==> f in fs
      invariant forall j :: 0 <= j < i ==> fs[j] in tmp || Unseen(SetOf(fs[j].entries), u, s)
    {
      var f := fs[i];
      if u >= f.smallest.user && u <= f.largest.user {
        tmp := tmp + [f];
      } else {
        OutsideRange(f, u, s);
      }
    }
  }

  /** The first file of fs, in order, that knows u. */
  method FirstHit(fs: seq<File>, u: UserKey, s: nat) returns (i: nat, e: Option<Entry>)
    requires forall f :: f in fs ==> ValidFile(f)
    ensures i <= |fs| && forall j :: 0 <= j < i ==> Unseen(SetOf(fs[j].entries), u, s)
    ensures e.None? <==> i == |fs|
    ensures e.Some? ==> IsTop(SetOf(fs[i].entries), u, s, e.value)
  {
    i, e := 0, None;
    while i < |fs|
      invariant i <= |fs| && forall j :: 0 <= j < i ==> Unseen(SetOf(fs[j].entries), u, s)
      invariant e.None?
    {
      assert ValidFile(fs[i]);
      RunGetIsTop(fs[i].entries, u, s);
      e := RunGet(fs[i].entries, u, s);
      if e.Some? {
        return;
      }
      i := i + 1;
    }
  }

  /** Level 0: every overlapping file, newest first. */
  method GetLevel0(v: Version, u: UserKey, s: nat) returns (e: Option<Entry>)
    requires TreeInvariant(v)
    ensures e.None? ==> LevelUnseen(v[0], u, s)
    ensures e.Some? ==> IsTop(Stored(v), u, s, e.value)
  {
    var tmp := CollectOverlapping(v[0], u, s);
    var files := SortNewestFirst(tmp);
    var i;
    i, e := FirstHit(files, u, s);
    if e.Some? {
      Level0Hit(v, files, i, u, s, e.value);
    }
  }

  lemma SortedLevelHit(v: Version, level: nat, index: nat, u: UserKey, s: nat, e: Entry)
    requires TreeInvariant(v) && 1 <= level < NUM_LEVELS && index < |v[level]|
    requires forall l :: 0 <= l < level ==> LevelUnseen(v[l], u, s)
    requires forall i :: 0 <= i < index ==> Unseen(SetOf(v[level][i].entries), u, s)
    requires IsTop(SetOf(v[level][index].entries), u, s, e)
    ensures IsTop(Stored(v), u, s, e)
  {
    var f := v[level][index];
    assert f in v[level];
    forall m, g | 0 <= m < |v| && g in v[m] && g != f
      ensures Unseen(SetOf(g.entries), u, s) || Newer(f.entries, g.entries)
    {
      if m == level {
        var j :| 0 <= j < |v[level]| && v[level][j] == g;
        if index < j {
          LaterFileNewer(v[level], index, j);
        }
      }
    }
    TopOfFile(v, level, f, u, s, e);
  }

  /** Levels 1 and deeper: the only file that can answer for u. */
  method GetSortedLevel(v: Version, level: nat, u: UserKey, s: nat) returns (e: Option<Entry>)
    requires TreeInvariant(v) && 1 <= level < NUM_LEVELS
    requires forall l :: 0 <= l < level ==> LevelUnseen(v[l], u, s)
    ensures e.None? ==> LevelUnseen(v[level], u, s)
    ensures e.Some? ==> IsTop(Stored(v), u, s, e.value)
  {
    var fs := v[level];
    var index := FindFile(fs, SeekKey(u, s));
    forall i | 0 <= i < index ensures Unseen(SetOf(fs[i].entries), u, s) {
      BelowSeek(fs[i], u, s);
    }
    if index >= |fs| {
      return None;
    }
    assert fs[index] in fs;
    if u < fs[index].smallest.user {
      e := None;
    } else {
      RunGetIsTop(fs[index].entries, u, s);
      e := RunGet(fs[index].entries, u, s);
    }
    if e.Some? {
      SortedLevelHit(v, level, index, u, s, e.value);
    } else {
      // The largest entry at index is at or above the seek key, so it is past u.
      if u >= fs[index].smallest.user {
        LastEntryAbove(fs[index], u, s);
      }
      forall i | index <= i < |fs| ensures Unseen(SetOf(fs[i].entries), u, s) {
        assert fs[i] in fs;
        if index < i { DisjointOrder(fs, index, i); }
        if u < fs[i].smallest.user {
          OutsideRange(fs[i], u, s);
        }
      }
    }
  }

  lemma LastEntryAbove(f: File, u: UserKey, s: nat)
    requires ValidFile(f) && !Less(f.largest, SeekKey(u, s)) && RunGet(f.entries, u, s).None?
    ensures u < f.largest.user
  {
    RunGetIsTop(f.entries, u, s);
    assert f.entries[|f.entries| - 1] in SetOf(f.entries);
  }

  /** Version::Get answers as the newest visible entry anywhere in the version does. */
  method VersionGet(v: Version, u: UserKey, s: nat) returns (r: Outcome)
    requires TreeInvariant(v)
    ensures Reads(Stored(v), u, s, r)
  {
    for level := 0 to NUM_LEVELS
      invariant forall l :: 0 <= l < level ==> LevelUnseen(v[l], u, s)
    {
      var e;
      if level == 0 {
        e := GetLevel0(v, u, s);
      } else {
        e := GetSortedLevel(v, level, u, s);
      }
      if e.Some? {
        return OutcomeOf(e.value);
      }
    }
    UnseenStored(v, u, s);
    return NotFound;
  }
}
