/** One sample of each byte format, written out byte by byte as the formats lay down
    (util/coding.cc, db/log_format.h, table/block_builder.cc, db/version_edit.cc,
    db/write_batch.cc, nanopb/pb_encode.c), and of Punycode (RFC 3492). */
module Samples {
  import opened Format
  import opened Fixed
  import opened Tables
  import opened Coding
  import opened Slices
  import L = LogFormat
  import B = BlockFormat
  import V = VersionEdits
  import W = WriteBatches
  import P = Punycode
  import opened PbMessages
  import opened PbFormat

  // ---- integers ----

  lemma Varints()
    ensures Varint(0) == [0] && Varint(127) == [127] && Varint(128) == [128, 1] && Varint(300) == [172, 2]
    ensures Varint(0xFFFF_FFFF) == [255, 255, 255, 255, 15]
  {
    assert Varint(1) == [1] && Varint(2) == [2];
    assert Varint(0xFFFF_FFFF / 128 / 128 / 128 / 128) == [15];
    assert Varint(0xFFFF_FFFF / 128 / 128 / 128) == [255, 15];
    assert Varint(0xFFFF_FFFF / 128 / 128) == [255, 255, 15];
    assert Varint(0xFFFF_FFFF / 128) == [255, 255, 255, 15];
  }

  lemma Fixeds()
    ensures Fixed32(0x0403_0201) == [1, 2, 3, 4] && Fixed64(0x0807_0605_0403_0201) == [1, 2, 3, 4, 5, 6, 7, 8]
  {
    assert 0x0807_0605_0403_0201 % TWO32 == 0x0403_0201 && 0x0807_0605_0403_0201 / TWO32 == 0x0807_0605;
    assert Fixed32(0x0807_0605) == [5, 6, 7, 8];
  }

  // ---- the log ----

  /** A checksum of 1 is masked to 0x20000 + 0xa282ead8. */
  lemma MaskedOne()
    ensures L.Mask(0) == 0xa282_ead8 && L.Mask(1) == 0xa284_ead8
  {
  }

  /** The one-byte record "a": masked checksum of type and payload, length, type, payload. */
  lemma LogRecord(crc: L.Checksum)
    requires crc([1, 97]) == 1
    ensures L.Encode(crc, L.Fragment(1, [97])) == [0xd8, 0xea, 0x84, 0xa2, 1, 0, 1, 97]
  {
    MaskedOne();
    var t: byte, payload: Bytes := 1, [97];
    assert [t] + payload == [1, 97];
    assert Fixed32(0xa284_ead8) == [0xd8, 0xea, 0x84, 0xa2];
  }

  /** A record of one byte more than a block of 32768 holds behind a header of 7 is cut in
      two; behind six bytes of a block there is no room for a header. */
  lemma LogCut(r: Bytes)
    requires |r| == 32762
    ensures L.Split(0, r, true) == [L.Fragment(2, r[..32761]), L.Fragment(4, r[32761..])]
    ensures L.PadLength(32762) == 6 && L.Start(32762) == 0 && L.PadLength(32761) == 0 && L.Start(32761) == 32761
  {
    assert L.Split(32768, r[32761..], false) == [L.Fragment(4, r[32761..])];
  }

  // ---- blocks ----

  /** Key "ab" behind "a": one byte shared, one not, a value of one byte. */
  lemma BlockEntry()
    ensures B.EntryBytes(1, B.Pair([97, 98], [7])) == [1, 1, 1, 98, 7]
  {
    assert [97, 98][1..] == [98];
  }

  /** A block of "a" and "ab", with one restart point. */
  lemma Block(l: B.Layout, data: Bytes)
    requires l == B.Layout([B.Pair([97], [6]), B.Pair([97, 98], [7])], [0, 1], [0]) && B.BlockOf(l, data)
    ensures data == [0, 1, 1, 97, 6, 1, 1, 1, 98, 7, 0, 0, 0, 0, 1, 0, 0, 0]
  {
    BlockEntry();
    assert B.SharesWith(l, 0) && B.SharesWith(l, 1);
    assert [97][0..] == [97];
    assert B.EntryOf(l, 0) == [0, 1, 1, 97, 6];
    assert B.Body(l, 0) == [];
    assert B.Body(l, 1) == [0, 1, 1, 97, 6];
    assert B.Body(l, 2) == [0, 1, 1, 97, 6, 1, 1, 1, 98, 7];
    assert Fixed32(0) == [0, 0, 0, 0] && Fixed32(1) == [1, 0, 0, 0];
    assert B.RestartArray(l, 0) == [];
    assert B.RestartArray(l, 1) == [0, 0, 0, 0];
  }

  // ---- version edits ----

  lemma EditItems()
    ensures V.Put(V.Comparator([99])) == [1, 1, 99] && V.Put(V.LogNumber(300)) == [2, 172, 2]
    ensures V.Put(V.NextFileNumber(5)) == [3, 5] && V.Put(V.LastSequence(6)) == [4, 6]
    ensures V.Put(V.CompactPointer(2, [97])) == [5, 2, 1, 97] && V.Put(V.DeletedFile(3, 9)) == [6, 3, 9]
    ensures V.Put(V.NewFile(1, V.Meta(8, 300, [97], [98, 99]))) == [7, 1, 8, 172, 2, 1, 97, 2, 98, 99]
    ensures V.Put(V.PrevLogNumber(0)) == [9, 0]
  {
    Varints();
  }

  // ---- write batches ----

  lemma BatchCalls()
    ensures W.Written(W.PutCall([97], [98, 99])) == [1, 1, 97, 2, 98, 99] && W.Written(W.DeleteCall([97])) == [0, 1, 97]
    ensures W.HEADER == 12
  {
  }

  // ---- messages ----

  predicate Gives(o: Option<Bytes>, b: Bytes) {
    o.Some? && o.value == b
  }

  /** A varint field 1 of 150 is 08 96 01. */
  lemma UnsignedField(t: LType, v: Value)
    requires t == UVarintType(4) && v == Num(150)
    ensures Gives(EncField(Field(1, Required, t, v), v), [0x08, 0x96, 0x01])
  {
    assert Varint(1) == [1] && Varint(150) == [0x96, 0x01];
    assert Gives(EncValue(t, v), [0x96, 0x01]);
    assert TagBytes(1, WireType(t)) == [0x08];
  }

  /** A string field 2 of "hi". */
  lemma TextField(t: LType, v: Value)
    requires t == StringType(9) && v == Text([104, 105])
    ensures Gives(EncField(Field(2, Required, t, v), v), [0x12, 2, 104, 105])
  {
    assert Varint(2) == [2];
    assert Gives(EncValue(t, v), [2, 104, 105]);
    assert TagBytes(2, WireType(t)) == [0x12];
  }

  /** A zigzag field 3 of -1. */
  lemma ZigZagField(t: LType, v: Value)
    requires t == SVarintType(4) && v == Num(-1)
    ensures Gives(EncField(Field(3, Required, t, v), v), [0x18, 1])
  {
    assert Varint(1) == [1];
    assert Gives(EncValue(t, v), [1]);
    assert TagBytes(3, WireType(t)) == [0x18];
  }

  /** A fixed 32-bit field 4 of 1. */
  lemma Fixed32Field(t: LType, v: Value)
    requires t == Fixed32Type && v == Num(1)
    ensures Gives(EncField(Field(4, Required, t, v), v), [0x25, 1, 0, 0, 0])
  {
    assert Fixed32(1) == [1, 0, 0, 0];
    assert Gives(EncValue(t, v), [1, 0, 0, 0]);
    assert TagBytes(4, WireType(t)) == [0x25];
  }

  /** A fixed 64-bit field 5 of 1. */
  lemma Fixed64Field(t: LType, v: Value)
    requires t == Fixed64Type && v == Num(1)
    ensures Gives(EncField(Field(5, Required, t, v), v), [0x29, 1, 0, 0, 0, 0, 0, 0, 0])
  {
    assert Fixed32(1) == [1, 0, 0, 0] && Fixed32(0) == [0, 0, 0, 0];
    assert Fixed64(1) == Fixed32(1) + Fixed32(0);
    assert Gives(EncValue(t, v), [1, 0, 0, 0, 0, 0, 0, 0]);
    assert TagBytes(5, WireType(t)) == [0x29];
  }

  lemma LongVarint(n: nat)
    requires n == 0x3_FFFF_FFFF_FFFF
    ensures Varint(n) == [255, 255, 255, 255, 255, 255, 255, 1]
  {
    assert Varint(0x1) == [1];
    assert Varint(0xFF) == [255, 1];
    assert Varint(0x7FFF) == [255, 255, 1];
    assert Varint(0x3F_FFFF) == [255, 255, 255, 1];
    assert Varint(0x1FFF_FFFF) == [255, 255, 255, 255, 1];
    assert Varint(0xF_FFFF_FFFF) == [255, 255, 255, 255, 255, 1];
    assert Varint(0x7FF_FFFF_FFFF) == [255, 255, 255, 255, 255, 255, 1];
  }

  lemma LongestVarint(n: nat)
    requires n == 0xFFFF_FFFF_FFFF_FFFF
    ensures Varint(n) == [255, 255, 255, 255, 255, 255, 255, 255, 255, 1]
  {
    LongVarint(0x3_FFFF_FFFF_FFFF);
    assert Varint(0x1FF_FFFF_FFFF_FFFF) == [255, 255, 255, 255, 255, 255, 255, 255, 1];
  }

  /** Minus one as a plain varint takes ten bytes. */
  lemma NegativeField(t: LType, v: Value)
    requires t == VarintType(4) && v == Num(-1)
    ensures Gives(EncField(Field(1, Required, t, v), v), [0x08, 255, 255, 255, 255, 255, 255, 255, 255, 255, 1])
  {
    var n := Cast64(v.n);
    LongestVarint(n);
    assert EncValue(t, v) == Some(Varint(n));
    assert TagBytes(1, WireType(t)) == [0x08];
  }

  /** The integers 3 and 270 in a packed array of field 4. */
  lemma PackedField(f: Field, items: seq<Value>)
    requires f.tag == 4 && f.htype == Repeated(9) && f.ltype == UVarintType(4) && items == [Num(3), Num(270)]
    ensures Gives(EncSlot(f, Many(items)), [0x22, 3, 3, 0x8E, 2])
  {
    var t, one := f.ltype, items[..1];
    assert Varint(2) == [2] && Varint(3) == [3] && Varint(270) == [0x8E, 2];
    assert one == [Num(3)] && one[..0] == [];
    assert Gives(EncPacked(t, one[..0]), []);
    assert Gives(EncValue(t, items[0]), [3]) && Gives(EncValue(t, items[1]), [0x8E, 2]);
    assert Gives(EncPacked(t, one), [3]);
    assert Gives(EncPacked(t, items), [3, 0x8E, 2]);
    assert TagBytes(4, WT_STRING) == [0x22];
    assert Gives(EncArray(f, 9, items), [0x22, 3, 3, 0x8E, 2]);
  }

  /** Without presence, zero is not written and one is. */
  lemma ImplicitField(f: Field)
    requires f.tag == 1 && f.htype == Implicit && f.ltype == UVarintType(4)
    ensures Gives(EncSlot(f, One(Num(0))), []) && Gives(EncSlot(f, One(Num(1))), [0x08, 1])
  {
    assert Varint(1) == [1];
    assert Gives(EncValue(f.ltype, Num(1)), [1]);
    assert TagBytes(1, WireType(f.ltype)) == [0x08];
  }

  // ---- punycode ----

  /** Biases of the trace in section 7.2 of RFC 3492 ("ihq", "wc" and "056p"). */
  lemma Biases()
    ensures P.Adapt(19853, 1, true) == 21 && P.Adapt(64, 2, false) == 20 && P.Adapt(46301, 8, false) == 84
  {
    P.DivModIs(28, 1);
    P.DivModIs(32, 2);
    P.DivModIs(23150, 8);
    assert P.ScaleDown(744, 36) == (21, 72);
    assert P.ScaleDown(26043, 0) == (21, 72);
  }

  /** "bcher-kva" is b, u with diaeresis, c, h, e, r. */
  lemma Decoded(basic: seq<P.Code>, digits: seq<P.Code>)
    requires basic == [98, 99, 104, 101, 114] && digits == [107, 118, 97]
    ensures P.Decode(basic + [45] + digits) == Some([98, 252, 99, 104, 101, 114])
  {
    var s, st := basic + [45] + digits, P.State(128, 0, 72, basic);
    P.LastDelimiterAt(basic, digits);
    assert s[..5] == basic && s[6..] == digits;
    assert digits[1..] == [118, 97] && digits[2..] == [97] && [118, 97][1..] == [97];
    assert P.ReadInt([97], 108, 1225, 72) == Some((0, 1));
    assert P.ReadInt([118, 97], 72, 35, 72) == Some((735, 2));
    assert P.ReadInt(digits, 36, 1, 72) == Some((745, 3));
    P.DivModIs(745, 6);
    var out := P.Advance(st, 745).output;
    assert out == [98, 252, 99, 104, 101, 114];
    assert digits[3..] == [];
    assert P.DecodeFrom(digits, st) == Some(out);
  }
}
