/** Table files and versions (db/version_edit.h, db/version_set.h). A table is the
    sorted sequence of its entries; its lookup returns the first entry at or above a key. */
module Tables {
  import opened Format

  datatype Option<T> = None | Some(value: T)

  datatype File = File(number: nat, size: nat, smallest: InternalKey, largest: InternalKey,
                       entries: seq<Entry>)

  const NUM_LEVELS: nat := 7
  const MAX_MEM_COMPACT_LEVEL: nat := 2

  /** files_[level] for every level */
  type Version = seq<seq<File>>

  ghost predicate ValidFile(f: File) {
    && f.entries != []
    && Sorted(f.entries)
    && f.smallest == f.entries[0].key
    && f.largest == f.entries[|f.entries| - 1].key
  }

  /** Where both hold a user key, f holds only newer entries of it than g. */
  ghost predicate Newer(f: seq<Entry>, g: seq<Entry>) {
    forall a, b :: a in f && b in g && a.key.user == b.key.user ==> a.key.sequence > b.key.sequence
  }

  /** A file number names one file, at one level. */
  ghost predicate UniqueNumbers(v: Version) {
    forall l, m, f, g :: 0 <= l < |v| && 0 <= m < |v| && f in v[l] && g in v[m] && f.number == g.number ==>
      l == m && f == g
  }

  /** Levels 1 and deeper: sorted and disjoint by internal key. */
  ghost predicate Disjoint(fs: seq<File>) {
    forall i, j :: 0 <= i < j < |fs| ==> Before(fs[i].largest, fs[j].smallest)
  }

  ghost predicate LevelsValid(v: Version) {
    && |v| == NUM_LEVELS
    && (forall l, f :: 0 <= l < |v| && f in v[l] ==> ValidFile(f))
    && UniqueNumbers(v)
    && (forall l :: 1 <= l < |v| ==> Disjoint(v[l]))
  }

  /** For one user key a shallower level, or a higher-numbered level-0 file, is newer. */
  ghost predicate NewestFirst(v: Version)
    requires |v| == NUM_LEVELS
  {
    && (forall f, g :: f in v[0] && g in v[0] && f.number > g.number ==> Newer(f.entries, g.entries))
    && (forall l, m, f, g :: 0 <= l < m < |v| && f in v[l] && g in v[m] ==> Newer(f.entries, g.entries))
  }

  ghost predicate TreeInvariant(v: Version) {
    LevelsValid(v) && NewestFirst(v)
  }

  ghost function FilesSet(fs: seq<File>): set<Entry> {
    set f, e | f in fs && e in f.entries :: e
  }

  ghost function Stored(v: Version): set<Entry> {
    set l, f, e | 0 <= l < |v| && f in v[l] && e in f.entries :: e
  }

  const EMPTY_VERSION: Version := [[], [], [], [], [], [], []]

  // ---- lookup in one sorted run (a table file or a memtable) ----

  /** The first position at or after i whose key is not below t. */
  function SeekFrom(es: seq<Entry>, t: InternalKey, i: nat): (r: nat)
    requires i <= |es|
    ensures i <= r <= |es|
    ensures forall j :: i <= j < r ==> Less(es[j].key, t)
    ensures r < |es| ==> !Less(es[r].key, t)
    decreases |es| - i
  {
    if i < |es| && Less(es[i].key, t) then SeekFrom(es, t, i + 1) else i
  }

  /** Seek to (u, s, kValueTypeForSeek) and keep the entry if it is for u:
      MemTable::Get, and TableCache::Get with SaveValue. */
  function RunGet(es: seq<Entry>, u: UserKey, s: nat): Option<Entry> {
    var i := SeekFrom(es, SeekKey(u, s), 0);
    if i < |es| && es[i].key.user == u then Some(es[i]) else None
  }

  lemma RunGetIsTop(es: seq<Entry>, u: UserKey, s: nat)
    requires Sorted(es)
    ensures RunGet(es, u, s).None? ==> Unseen(SetOf(es), u, s)
    ensures RunGet(es, u, s).Some? ==> IsTop(SetOf(es), u, s, RunGet(es, u, s).value)
  {
    var i := SeekFrom(es, SeekKey(u, s), 0);
    forall f | f in SetOf(es) && Visible(f, u, s)
      ensures i < |es| && es[i].key.user == u && f.key.sequence <= es[i].key.sequence
    {
      var j :| 0 <= j < |es| && es[j] == f;
      assert j >= i;
      assert j > i ==> Before(es[i].key, es[j].key);
    }
  }

  lemma FileBounds(f: File, e: Entry)
    requires ValidFile(f) && e in f.entries
    ensures e == f.entries[0] || Before(f.smallest, e.key)
    ensures e == f.entries[|f.entries| - 1] || Before(e.key, f.largest)
  {
    var i :| 0 <= i < |f.entries| && f.entries[i] == e;
  }

  lemma FileSpan(f: File)
    requires ValidFile(f)
    ensures f.smallest == f.largest || Before(f.smallest, f.largest)
    ensures f.smallest.user <= f.largest.user
  {
    FileBounds(f, f.entries[0]);
  }

  /** A top entry of one file is the answer of the whole version when every other
      file either shows nothing or is older. */
  lemma TopOfFile(v: Version, l: nat, f: File, u: UserKey, s: nat, e: Entry)
    requires l < |v| && f in v[l] && IsTop(SetOf(f.entries), u, s, e)
    requires forall m, g :: 0 <= m < |v| && g in v[m] && g != f ==>
      Unseen(SetOf(g.entries), u, s) || Newer(f.entries, g.entries)
    ensures IsTop(Stored(v), u, s, e)
  {
    assert e in Stored(v);
    forall x | x in Stored(v) && Visible(x, u, s)
      ensures x.key.sequence <= e.key.sequence
    {
      var m, g :| 0 <= m < |v| && g in v[m] && x in g.entries;
      if g == f {
        assert x in SetOf(f.entries);
      } else {
        assert x in SetOf(g.entries);
        assert e in SetOf(f.entries);
      }
    }
  }

  lemma UnseenStored(v: Version, u: UserKey, s: nat)
    requires forall m, g :: 0 <= m < |v| && g in v[m] ==> Unseen(SetOf(g.entries), u, s)
    ensures Unseen(Stored(v), u, s)
  {
    forall x | x in Stored(v)
      ensures !Visible(x, u, s)
    {
      var m, g :| 0 <= m < |v| && g in v[m] && x in g.entries;
      assert x in SetOf(g.entries);
    }
  }
}
