/** The bytes of a log file (db/log_format.h, db/log_writer.cc, util/crc32c.h): records cut into fragments that never cross a block. */
module LogFormat {
  import opened Format
  import opened Fixed

  const BLOCK: nat := 32768
  const HEADER: nat := 7

  const FULL: nat := 1
  const FIRST: nat := 2
  const MIDDLE: nat := 3
  const LAST: nat := 4

  // ---- masked checksums ----

  const MASK_DELTA: nat := 0xa282_ead8

  /** Rotation to the right by 15 bits, and the constant added, in 32 bits. */
  function Mask(crc: Word): Word {
    (crc / 0x8000 + crc % 0x8000 * 0x2_0000 + MASK_DELTA) % TWO32
  }

  function Unmask(masked: Word): Word {
    var rot := (masked + TWO32 - MASK_DELTA) % TWO32;
    rot / 0x2_0000 + rot % 0x2_0000 * 0x8000
  }

  lemma UnmaskUndoesMask(crc: Word)
    ensures Unmask(Mask(crc)) == crc
  {
    var rot := crc / 0x8000 + crc % 0x8000 * 0x2_0000;
    assert rot < TWO32;
    assert (Mask(crc) + TWO32 - MASK_DELTA) % TWO32 == rot;
    assert rot / 0x2_0000 == crc % 0x8000;
    assert rot % 0x2_0000 == crc / 0x8000;
  }

  // ---- fragments ----

  /** crc32c::Value, whatever it computes. */
  type Checksum = Bytes -> Word

  datatype Fragment = Fragment(kind: nat, payload: Bytes)

  ghost predicate Proper(f: Fragment) {
    FULL <= f.kind <= LAST && |f.payload| <= BLOCK - HEADER
  }

  /** A physical record: checksum of type and payload, length, type, payload. */
  function Physical(crc: Checksum, t: byte, payload: Bytes): (b: Bytes)
    requires |payload| < 0x1_0000
    ensures |b| == HEADER + |payload| && b[HEADER..] == payload
  {
    var n := |payload|;
    Fixed32(Mask(crc([t] + payload))) + [(n % 256) as byte, (n / 256) as byte, t] + payload
  }

  /** EmitPhysicalRecord */
  function Encode(crc: Checksum, f: Fragment): (b: Bytes)
    requires Proper(f)
    ensures |b| == HEADER + |f.payload|
  {
    Physical(crc, f.kind as byte, f.payload)
  }

  function Zeros(n: nat): (b: Bytes)
    ensures |b| == n
  {
    seq(n, _ => 0)
  }

  /** Bytes of a block in use, at most BLOCK. */
  type Offset = o: nat | o <= BLOCK

  /** What is left of the block is zeroed if no header fits. */
  function PadLength(o: Offset): nat {
    if BLOCK - o < HEADER then BLOCK - o else 0
  }

  /** Where in its block the next fragment goes. */
  function Start(o: Offset): Offset {
    if BLOCK - o < HEADER then 0 else o
  }

  function Avail(o: Offset): nat {
    BLOCK - HEADER - Start(o)
  }

  /** The fragments of a record that starts at offset o of a block. */
  function Split(o: Offset, data: Bytes, begin: bool): (fs: seq<Fragment>)
    ensures fs != []
    decreases |data|, BLOCK - o >= HEADER
  {
    var avail := Avail(o);
    if |data| <= avail then
      [Fragment(if begin then FULL else LAST, data)]
    else
      [Fragment(if begin then FIRST else MIDDLE, data[..avail])] + Split(BLOCK, data[avail..], false)
  }

  lemma MaskUndoesUnmask(masked: Word)
    ensures Mask(Unmask(masked)) == masked
  {
    var rot := (masked + TWO32 - MASK_DELTA) % TWO32;
    var crc := Unmask(masked);
    assert crc / 0x8000 == rot % 0x2_0000 && crc % 0x8000 == rot / 0x2_0000 by {
      assert rot / 0x2_0000 < 0x8000;
    }
    assert (rot + MASK_DELTA) % TWO32 == masked;
  }

  // ---- files ----

  ghost predicate Fits(o: Offset, f: Fragment) {
    Proper(f) && |f.payload| <= Avail(o)
  }

  /** A run of fragments, each within one block, from the start of a file. */
  ghost predicate WellCut(fs: seq<Fragment>)
    decreases fs, 0
  {
    fs == [] || (WellCut(fs[..|fs| - 1]) && Fits(OffsetOf(fs[..|fs| - 1]), fs[|fs| - 1]))
  }

  /** Bytes of the last block in use after the fragments. */
  ghost function OffsetOf(fs: seq<Fragment>): Offset
    requires WellCut(fs)
    decreases fs, 1
  {
    if fs == [] then 0 else Start(OffsetOf(fs[..|fs| - 1])) + HEADER + |fs[|fs| - 1].payload|
  }

  /** Fragments one after the other, with zeroed block ends. */
  ghost function FileOf(crc: Checksum, fs: seq<Fragment>): Bytes
    requires WellCut(fs)
  {
    if fs == [] then []
    else FileOf(crc, fs[..|fs| - 1]) + Zeros(PadLength(OffsetOf(fs[..|fs| - 1]))) + Encode(crc, fs[|fs| - 1])
  }

  lemma Snoc(crc: Checksum, fs: seq<Fragment>, f: Fragment)
    requires WellCut(fs) && Fits(OffsetOf(fs), f)
    ensures WellCut(fs + [f]) && OffsetOf(fs + [f]) == Start(OffsetOf(fs)) + HEADER + |f.payload|
    ensures FileOf(crc, fs + [f]) == FileOf(crc, fs) + Zeros(PadLength(OffsetOf(fs))) + Encode(crc, f)
  {
    assert (fs + [f])[..|fs|] == fs;
  }

  /** Whole blocks before the last one in use. */
  ghost function BlocksOf(fs: seq<Fragment>): nat
    requires WellCut(fs)
  {
    if fs == [] then 0
    else BlocksOf(fs[..|fs| - 1]) + if BLOCK - OffsetOf(fs[..|fs| - 1]) < HEADER then 1 else 0
  }

  lemma {:induction false} OffsetIsLength(crc: Checksum, fs: seq<Fragment>)
    requires WellCut(fs)
    ensures |FileOf(crc, fs)| == BlocksOf(fs) * BLOCK + OffsetOf(fs)
  {
    if fs != [] { OffsetIsLength(crc, fs[..|fs| - 1]); }
  }

  /** Where the last fragment is. */
  lemma LastAt(crc: Checksum, fs: seq<Fragment>)
    requires WellCut(fs) && fs != []
    ensures var before, f := fs[..|fs| - 1], fs[|fs| - 1];
            && WellCut(before) && Fits(OffsetOf(before), f)
            && (var n := BlocksOf(fs) * BLOCK + Start(OffsetOf(before));
                n + HEADER + |f.payload| == |FileOf(crc, fs)| && FileOf(crc, fs)[n..] == Encode(crc, f))
  {
    var before, f := fs[..|fs| - 1], fs[|fs| - 1];
    OffsetIsLength(crc, before);
    var front := FileOf(crc, before) + Zeros(PadLength(OffsetOf(before)));
    EndsWith(front, Encode(crc, f));
  }

  lemma EndsWith(a: Bytes, b: Bytes)
    ensures (a + b)[|a|..] == b
  {
  }

  lemma WithinPrefix(a: Bytes, b: Bytes, n: nat)
    requires a <= b && n <= |a|
    ensures b[n..|a|] == a[n..]
  {
  }

  /** Where fragment i is in the file. */
  lemma FragmentAt(crc: Checksum, fs: seq<Fragment>, i: nat)
    requires WellCut(fs) && i < |fs|
    ensures WellCut(fs[..i]) && WellCut(fs[..i + 1]) && Fits(OffsetOf(fs[..i]), fs[i])
    ensures OffsetOf(fs[..i + 1]) == Start(OffsetOf(fs[..i])) + HEADER + |fs[i].payload|
    ensures BlocksOf(fs[..i + 1]) == BlocksOf(fs[..i]) + if BLOCK - OffsetOf(fs[..i]) < HEADER then 1 else 0
    ensures var file, n := FileOf(crc, fs), BlocksOf(fs[..i + 1]) * BLOCK + Start(OffsetOf(fs[..i]));
            n + HEADER + |fs[i].payload| == |FileOf(crc, fs[..i + 1])| <= |file|
            && file[n..n + HEADER + |fs[i].payload|] == Encode(crc, fs[i])
  {
    var upTo := fs[..i + 1];
    CutPrefix(crc, fs, i + 1);
    assert upTo[..i] == fs[..i];
    LastAt(crc, upTo);
    WithinPrefix(FileOf(crc, upTo), FileOf(crc, fs), BlocksOf(upTo) * BLOCK + Start(OffsetOf(fs[..i])));
  }

  lemma {:induction false} CutPrefix(crc: Checksum, fs: seq<Fragment>, i: nat)
    requires WellCut(fs) && i <= |fs|
    ensures WellCut(fs[..i]) && FileOf(crc, fs[..i]) <= FileOf(crc, fs)
  {
    if i < |fs| {
      assert fs[..|fs| - 1][..i] == fs[..i];
      CutPrefix(crc, fs[..|fs| - 1], i);
    } else {
      assert fs[..i] == fs;
    }
  }

  /** All the fragments of some records written from an empty file. */
  ghost function Fragments(rs: seq<Bytes>): (fs: seq<Fragment>)
    ensures WellCut(fs)
  {
    if rs == [] then []
    else
      var fs := Fragments(rs[..|rs| - 1]);
      SplitCut(fs, rs[|rs| - 1], true);
      fs + Split(OffsetOf(fs), rs[|rs| - 1], true)
  }

  lemma FragmentsSnoc(rs: seq<Bytes>, r: Bytes)
    ensures Fragments(rs + [r]) == Fragments(rs) + Split(OffsetOf(Fragments(rs)), r, true)
  {
    assert (rs + [r])[..|rs|] == rs;
  }

  /** The fragments still to come, after one of them. */
  lemma SplitOn(fs: seq<Fragment>, data: Bytes, begin: bool, f: Fragment)
    requires WellCut(fs)
    requires var n := if |data| < Avail(OffsetOf(fs)) then |data| else Avail(OffsetOf(fs));
             f.payload == data[..n]
             && f.kind == if |data| == n then (if begin then FULL else LAST) else if begin then FIRST else MIDDLE
    ensures WellCut(fs + [f])
    ensures |data| <= Avail(OffsetOf(fs)) ==> fs + Split(OffsetOf(fs), data, begin) == fs + [f]
    ensures |data| > Avail(OffsetOf(fs)) ==>
      OffsetOf(fs + [f]) == BLOCK
      && fs + Split(OffsetOf(fs), data, begin) == fs + [f] + Split(BLOCK, data[Avail(OffsetOf(fs))..], false)
  {
    SnocCut(fs, f);
    if |data| <= Avail(OffsetOf(fs)) {
      assert data[..|data|] == data;
    } else {
      var rest := Split(BLOCK, data[Avail(OffsetOf(fs))..], false);
      assert fs + ([f] + rest) == fs + [f] + rest;
    }
  }

  lemma {:induction false} SplitCut(fs: seq<Fragment>, data: Bytes, begin: bool)
    requires WellCut(fs)
    ensures WellCut(fs + Split(OffsetOf(fs), data, begin))
    decreases |data|, BLOCK - OffsetOf(fs) >= HEADER
  {
    var o := OffsetOf(fs);
    if |data| <= Avail(o) {
      SnocCut(fs, Fragment(if begin then FULL else LAST, data));
    } else {
      var f := Fragment(if begin then FIRST else MIDDLE, data[..Avail(o)]);
      SnocCut(fs, f);
      var rest := Split(BLOCK, data[Avail(o)..], false);
      SplitCut(fs + [f], data[Avail(o)..], false);
      assert fs + ([f] + rest) == fs + [f] + rest;
    }
  }

  lemma SnocCut(fs: seq<Fragment>, f: Fragment)
    requires WellCut(fs) && Fits(OffsetOf(fs), f)
    ensures WellCut(fs + [f]) && OffsetOf(fs + [f]) == Start(OffsetOf(fs)) + HEADER + |f.payload|
  {
    assert (fs + [f])[..|fs|] == fs;
  }

  // ---- reading a header ----

  function LengthIn(b: Bytes): nat
    requires |b| >= HEADER
  {
    b[4] as nat + 256 * b[5] as nat
  }

  predicate ChecksumOk(crc: Checksum, b: Bytes)
    requires |b| >= HEADER && |b| >= HEADER + LengthIn(b)
  {
    Unmask(Unfixed32(b[..4])) == crc(b[6..HEADER + LengthIn(b)])
  }

  /** The header of a physical record says what it holds. */
  lemma HeaderOf(crc: Checksum, t: byte, payload: Bytes)
    requires |payload| < 0x1_0000
    ensures var b := Physical(crc, t, payload);
            LengthIn(b) == |payload| && b[6] == t && ChecksumOk(crc, b)
  {
    var b := Physical(crc, t, payload);
    assert b[..4] == Fixed32(Mask(crc([t] + payload)));
    FixedRoundTrip(Mask(crc([t] + payload)));
    UnmaskUndoesMask(crc([t] + payload));
    assert b[6..HEADER + |payload|] == [t] + payload;
  }

  /** Bytes whose checksum fits are a physical record as the writer makes it. */
  lemma ChecksumMeans(crc: Checksum, b: Bytes)
    requires |b| >= HEADER && |b| == HEADER + LengthIn(b) && ChecksumOk(crc, b)
    ensures LengthIn(b) < 0x1_0000 && b == Physical(crc, b[6], b[HEADER..])
  {
    var payload := b[HEADER..];
    assert b[6..HEADER + LengthIn(b)] == [b[6]] + payload;
    FixedBack(b[..4]);
    MaskUndoesUnmask(Unfixed32(b[..4]));
    var p := Physical(crc, b[6], payload);
    assert p[..4] == b[..4];
    assert p[4] == b[4] && p[5] == b[5];
    assert b == b[..4] + [b[4], b[5], b[6]] + payload;
  }
}
