/** The manifest as a log file of version edits (db/version_set.cc Recover,
    db/version_edit.cc): read back, it gives the version and the counters of the store. */
module ManifestFiles {
  import opened Format
  import opened Tables
  import opened Fixed
  import opened Slices
  import opened Builder
  import opened Database
  import opened Runs
  import opened Manifests
  import V = VersionEdits
  import L = LogFormat
  import R = LogReader

  /** How internal keys are written, the comparator's name, and the tables on disk. */
  datatype Coding = Coding(key: InternalKey -> Bytes, unkey: Bytes -> InternalKey, name: Bytes, entries: nat -> seq<Entry>)

  ghost predicate WritesFile(k: Coding, x: (Word, V.Meta), l: nat, f: File) {
    && l < TWO32 && f.number < TWO64 && f.size < TWO64
    && x == (l, V.Meta(f.number, f.size, k.key(f.smallest), k.key(f.largest)))
    && k.unkey(k.key(f.smallest)) == f.smallest && k.unkey(k.key(f.largest)) == f.largest && k.entries(f.number) == f.entries
  }

  function PairsOf(s: seq<(Word, Long)>): set<(nat, nat)> {
    set d | d in s :: (d.0, d.1)
  }

  /** e says what the edit does, and the counters if they are told. */
  ghost predicate Says(k: Coding, e: V.Edit, edit: Edit, c: Option<Counters>) {
    && V.LengthsFit(e) && V.LevelsExist(e) && V.Ordered(e.deletedFiles)
    && (e.comparator.Some? ==> e.comparator.value == k.name)
    && e.logNumber == (if c.Some? then Some(c.value.logNumber) else None)
    && e.nextFileNumber == (if c.Some? then Some(c.value.nextFile) else None)
    && e.lastSequence == (if c.Some? then Some(c.value.lastSequence) else None)
    && PairsOf(e.deletedFiles) == edit.deleted
    && |e.newFiles| == |edit.added|
    && forall i :: 0 <= i < |edit.added| ==> WritesFile(k, e.newFiles[i], edit.added[i].0, edit.added[i].1)
  }

  ghost predicate SaysAll(k: Coding, es: seq<V.Edit>, m: Manifest) {
    && |es| == |m.edits| == |m.counters|
    && forall i :: 0 <= i < |es| ==> Says(k, es[i], m.edits[i], m.counters[i])
  }

  /** The numbers fit their fields, and the keys and tables can be found again. */
  ghost predicate Sayable(k: Coding, edit: Edit, c: Option<Counters>) {
    && |k.name| < TWO32
    && (forall d :: d in edit.deleted ==> d.0 < NUM_LEVELS && d.1 < TWO64)
    && (forall i :: 0 <= i < |edit.added| ==> FileSayable(k, edit.added[i].0, edit.added[i].1))
    && (c.Some? ==> c.value.logNumber < TWO64 && c.value.nextFile < TWO64 && c.value.lastSequence < TWO64)
  }

  ghost predicate FileSayable(k: Coding, l: nat, f: File) {
    && l < NUM_LEVELS && f.number < TWO64 && f.size < TWO64
    && |k.key(f.smallest)| < TWO32 && |k.key(f.largest)| < TWO32
    && k.unkey(k.key(f.smallest)) == f.smallest && k.unkey(k.key(f.largest)) == f.largest && k.entries(f.number) == f.entries
  }

  lemma {:induction false} InOrder(ds: set<(nat, nat)>) returns (s: seq<(Word, Long)>)
    requires forall d :: d in ds ==> d.0 < NUM_LEVELS && d.1 < TWO64
    ensures V.Ordered(s) && PairsOf(s) == ds
  {
    s := [];
    if d :| d in ds {
      var rest := InOrder(ds - {d});
      var x: (Word, Long) := (d.0, d.1);
      V.InsertOrdered(rest, x);
      s := V.Insert(rest, x);
      assert PairsOf(s) == PairsOf(rest) + {d};
    }
  }

  /** Every such edit has bytes. */
  lemma CanSay(k: Coding, edit: Edit, c: Option<Counters>) returns (e: V.Edit)
    requires Sayable(k, edit, c)
    ensures Says(k, e, edit, c)
  {
    var deleted := InOrder(edit.deleted);
    forall i | 0 <= i < |edit.added| ensures FileSayable(k, edit.added[i].0, edit.added[i].1) { }
    var added: seq<(Word, V.Meta)> := seq(|edit.added|, i requires 0 <= i < |edit.added| && FileSayable(k, edit.added[i].0, edit.added[i].1) =>
      (edit.added[i].0, MetaOf(k, edit.added[i].1)));
    e := V.Edit(Some(k.name), if c.Some? then Some(c.value.logNumber) else None, None,
                if c.Some? then Some(c.value.nextFile) else None, if c.Some? then Some(c.value.lastSequence) else None,
                [], deleted, added);
    forall x | x in deleted ensures x.0 < NUM_LEVELS { assert (x.0, x.1) in PairsOf(deleted); }
    assert V.LengthsFit(e) && V.LevelsExist(e);
  }

  function MetaOf(k: Coding, f: File): V.Meta
    requires f.number < TWO64 && f.size < TWO64
  {
    V.Meta(f.number, f.size, k.key(f.smallest), k.key(f.largest))
  }

  function BytesOf(e: V.Edit): Bytes {
    V.Encoding(V.Items(e))
  }

  function AllBytes(es: seq<V.Edit>): seq<Bytes> {
    seq(|es|, i requires 0 <= i < |es| => BytesOf(es[i]))
  }

  function FileFrom(k: Coding, meta: V.Meta): File {
    File(meta.number, meta.size, k.unkey(meta.smallest), k.unkey(meta.largest), k.entries(meta.number))
  }

  function AddedFrom(k: Coding, fs: seq<(Word, V.Meta)>): seq<(nat, File)> {
    seq(|fs|, i requires 0 <= i < |fs| => (fs[i].0, FileFrom(k, fs[i].1)))
  }

  /** One record decoded; none for a malformed one or another comparator's. */
  method ReadRecord(record: Bytes, k: Coding, ghost e: V.Edit, ghost edit: Edit, ghost c: Option<Counters>)
    returns (r: Option<Edit>, logNumber: Option<nat>, nextFile: Option<nat>, lastSequence: Option<nat>)
    requires record == BytesOf(e) && Says(k, e, edit, c)
    ensures r == Some(edit)
    ensures logNumber == (if c.Some? then Some(c.value.logNumber) else None)
    ensures nextFile == (if c.Some? then Some(c.value.nextFile) else None)
    ensures lastSequence == (if c.Some? then Some(c.value.lastSequence) else None)
  {
    r, logNumber, nextFile, lastSequence := None, None, None, None;
    var ve := new V.VersionEdit();
    V.DecodeEncode(ve.Contents(), e);
    var ok := ve.DecodeFrom(record);
    ghost var back := ve.Contents();
    assert [] + e.compactPointers == e.compactPointers;
    assert back == e;
    if !ok || (ve.hasComparator && ve.comparator != k.name) {
      return;
    }
    r := Some(Edit(PairsOf(ve.deletedFiles), AddedFrom(k, ve.newFiles)));
    assert AddedFrom(k, ve.newFiles) == edit.added;
    if ve.hasLogNumber { logNumber := Some(ve.logNumber); }
    if ve.hasNextFileNumber { nextFile := Some(ve.nextFileNumber); }
    if ve.hasLastSequence { lastSequence := Some(ve.lastSequence); }
  }

  /** A later value takes the place of an earlier one. */
  function Later(was: Option<nat>, now: Option<nat>): Option<nat> {
    if now.Some? then now else was
  }

  /** What the records say of the counters so far. */
  ghost predicate Told(cs: seq<Option<Counters>>, logNumber: Option<nat>, nextFile: Option<nat>, lastSequence: Option<nat>) {
    var c := LastCounters(cs);
    && logNumber == (if c.Some? then Some(c.value.logNumber) else None)
    && nextFile == (if c.Some? then Some(c.value.nextFile) else None)
    && lastSequence == (if c.Some? then Some(c.value.lastSequence) else None)
  }

  lemma LastSnoc(cs: seq<Option<Counters>>, i: nat)
    requires i < |cs|
    ensures LastCounters(cs[..i + 1]) == if cs[i].Some? then cs[i] else LastCounters(cs[..i])
  {
    assert cs[..i + 1][..i] == cs[..i];
  }

  /** The records of a manifest, decoded in turn. */
  method ReadRecords(records: seq<Bytes>, k: Coding, ghost es: seq<V.Edit>, ghost m: Manifest)
    returns (edits: Option<seq<Edit>>, counters: Option<Counters>)
    requires SaysAll(k, es, m) && records == AllBytes(es)
    ensures edits == Some(m.edits) && counters == LastCounters(m.counters)
  {
    var read: seq<Edit> := [];
    var logNumber, nextFile, lastSequence := None, None, None;
    for i := 0 to |records|
      invariant read == m.edits[..i] && Told(m.counters[..i], logNumber, nextFile, lastSequence)
    {
      assert Says(k, es[i], m.edits[i], m.counters[i]);
      LastSnoc(m.counters, i);
      var r, l, n, s := ReadRecord(records[i], k, es[i], m.edits[i], m.counters[i]);
      if r.None? {
        return None, None;
      }
      read := read + [r.value];
      logNumber, nextFile, lastSequence := Later(logNumber, l), Later(nextFile, n), Later(lastSequence, s);
    }
    assert m.counters[..|records|] == m.counters && m.edits[..|records|] == m.edits;
    edits := Some(read);
    counters := None;
    if logNumber.Some? && nextFile.Some? && lastSequence.Some? {
      counters := Some(Counters(logNumber.value, nextFile.value, lastSequence.value));
    }
  }

  /** VersionSet::Recover, at any moment of any run: from the bytes of the manifest, the
      current version and the counters it was last told. */
  method RecoverFile(file: Bytes, crc: L.Checksum, k: Coding, ghost es: seq<V.Edit>,
                     ghost states: seq<Db>, ghost actions: seq<Action>, ghost n: nat)
    returns (v: Option<Version>, counters: Option<Counters>)
    requires Run(states, actions) && n < |states| && SaysAll(k, es, ManifestAfter(states, actions, n))
    requires file == L.FileOf(crc, L.Fragments(AllBytes(es)))
    ensures v == Some(states[n].version) && counters == Some(CountersOf(states[n].disk))
  {
    ghost var m := ManifestAfter(states, actions, n);
    var records, reports := R.ReadAll(file, crc, true, AllBytes(es));
    if |records| < |AllBytes(es)| { R.AllInFile(crc, AllBytes(es), |records|); }
    var edits;
    edits, counters := ReadRecords(records, k, es, m);
    RunTells(states, actions, n);
    if edits.None? {
      return None, None;
    }
    var w := ReadManifest(Manifest(EMPTY_VERSION, edits.value, []), states, actions, n);
    v := Some(w);
  }
}
