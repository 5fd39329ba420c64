/** The codec as a whole (nanopb): encode, decode, and encode again. */
module PbCodec {
  import opened Format
  import opened Fixed
  import opened Tables
  import opened PbMessages
  import opened PbFormat
  import opened PbParse
  import opened PbRoundTrip
  import opened PbRoundTripProof
  import opened PbEncode
  import opened PbDecode

  /** Into a buffer and back into a fresh struct. */
  method EncodeAndDecode(d: Desc, slots: seq<Slot>, bufferSize: nat) returns (encoded: bool, decoded: bool, back: seq<Slot>)
    requires WellFormed(d) && TagsFit(d) && MessageOk(d, slots) && OneChosen(d, slots) && bufferSize < TWO32
    ensures encoded <==> EncMessage(d, slots).Some? && |EncMessage(d, slots).value| <= bufferSize
    ensures encoded ==> (decoded <==> FieldsTerminated(d, slots, |slots|))
    ensures encoded && decoded ==> back == NormMessage(d, slots)
  {
    decoded, back := false, [];
    var bytes;
    encoded, bytes := EncodeToBuffer(d, slots, bufferSize);
    if encoded {
      DefaultsOk(d);
      MessageBack(d, slots);
      var s := new IStream(bytes);
      decoded, back := Decode(s, d);
    }
  }

  // ---- encoding what came back ----

  /** A field without a has_ flag starts at the value that is not encoded. */
  ghost predicate ImplicitZero(d: Desc)
    requires WellFormed(d)
    decreases d
  {
    forall i :: 0 <= i < |d.fields| ==> FieldZero(d, i)
  }

  ghost predicate FieldZero(d: Desc, i: nat)
    requires WellFormed(d) && i < |d.fields|
    decreases d.fields[i]
  {
    var f := d.fields[i];
    DefaultSlotOk(d, i);
    assert TypeFormed(f.ltype);
    && (f.htype.Implicit? ==> IsDefaultValue(f.ltype, DefaultSlot(f).value))
    && (f.ltype.SubMessageType? ==> ImplicitZero(f.ltype.desc))
  }

  ghost predicate TypeZero(t: LType)
    requires TypeFormed(t)
  {
    t.SubMessageType? ==> ImplicitZero(t.desc)
  }

  lemma {:induction false} SameValue(t: LType, v: Value)
    requires TypeFormed(t) && TypeZero(t) && ValueOk(t, v)
    ensures ValueOk(t, NormValue(t, v)) && EncValue(t, NormValue(t, v)) == EncValue(t, v)
    ensures IsDefaultValue(t, NormValue(t, v)) <==> IsDefaultValue(t, v)
    decreases t, 0, 0
  {
    NormValueOk(t, v);
    if t.SubMessageType? {
      SameMessage(t.desc, v.slots);
    }
  }

  lemma {:induction false} SameUnpacked(f: Field, items: seq<Value>)
    requires TypeFormed(f.ltype) && TypeZero(f.ltype) && forall v :: v in items ==> ValueOk(f.ltype, v)
    ensures forall v :: v in NormItems(f.ltype, items) ==> ValueOk(f.ltype, v)
    ensures EncUnpacked(f, NormItems(f.ltype, items)) == EncUnpacked(f, items)
    decreases f, 1, |items|
  {
    if items != [] {
      var init, v := items[..|items| - 1], items[|items| - 1];
      SameUnpacked(f, init);
      SameValue(f.ltype, v);
      assert NormItems(f.ltype, items) == NormItems(f.ltype, init) + [NormValue(f.ltype, v)];
      assert (NormItems(f.ltype, init) + [NormValue(f.ltype, v)])[..|items| - 1] == NormItems(f.ltype, init);
    }
  }

  lemma {:induction false} SameSlot(d: Desc, slots: seq<Slot>, i: nat)
    requires WellFormed(d) && ImplicitZero(d) && MessageOk(d, slots) && i < |slots|
    requires SlotOk(d.fields[i], slots[i]) && SlotOk(d.fields[i], NormSlot(d.fields[i], slots[i]))
    ensures EncSlot(d.fields[i], NormSlot(d.fields[i], slots[i])) == EncSlot(d.fields[i], slots[i])
    ensures IsDefault(d.fields[i], NormSlot(d.fields[i], slots[i])) <==> IsDefault(d.fields[i], slots[i])
    decreases d.fields[i], 2, 0
  {
    var f, s := d.fields[i], slots[i];
    assert FieldZero(d, i) && TypeFormed(f.ltype);
    match f.htype
    case Repeated(_) =>
      if Packable(f.ltype) {
        PackedTerminated(f.ltype, s.items);
      } else {
        SameUnpacked(f, s.items);
      }
    case _ => SameValue(f.ltype, s.value);
  }

  lemma {:induction false} SameFields(d: Desc, slots: seq<Slot>, i: nat)
    requires WellFormed(d) && ImplicitZero(d) && MessageOk(d, slots) && i <= |slots|
    requires MessageOk(d, NormMessage(d, slots))
    ensures EncFields(d, NormMessage(d, slots), i) == EncFields(d, slots, i)
    decreases d, 0, i
  {
    if i > 0 {
      SameFields(d, slots, i - 1);
      SameSlot(d, slots, i - 1);
    }
  }

  /** What came back encodes to the same bytes as what was sent. */
  lemma {:induction false} SameMessage(d: Desc, slots: seq<Slot>)
    requires WellFormed(d) && ImplicitZero(d) && MessageOk(d, slots)
    ensures MessageOk(d, NormMessage(d, slots))
    ensures EncMessage(d, NormMessage(d, slots)) == EncMessage(d, slots)
    ensures IsDefaultMessage(d, NormMessage(d, slots)) <==> IsDefaultMessage(d, slots)
    decreases d, 1, 0
  {
    NormMessageOk(d, slots);
    SameFields(d, slots, |slots|);
    forall i | 0 <= i < |slots| ensures IsDefault(d.fields[i], NormSlot(d.fields[i], slots[i])) <==> IsDefault(d.fields[i], slots[i]) {
      SameSlot(d, slots, i);
    }
  }

  // ---- a string that fills its buffer ----

  /** One required string, in a buffer of `size` bytes. */
  function StringMessage(size: nat): Desc {
    Desc([Field(1, Required, StringType(size), Text([]))])
  }

  lemma StringMessageOk(b: Bytes)
    requires 0 !in b
    ensures var d, slots := StringMessage(|b|), [One(Text(b))];
            WellFormed(d) && TagsFit(d) && MessageOk(d, slots) && OneChosen(d, slots)
  {
    var d, slots := StringMessage(|b|), [One(Text(b))];
    assert InitialOk(d.fields[0]) && TypeFormed(d.fields[0].ltype) && TagFits(d.fields[0]);
    assert SlotOk(d.fields[0], slots[0]) && SlotChosen(d.fields[0], slots[0]);
  }

  lemma StringEncodes(b: Bytes, d: Desc, slots: seq<Slot>)
    requires d == StringMessage(|b|) && slots == [One(Text(b))] && MessageOk(d, slots)
    ensures EncMessage(d, slots) == Some(TagBytes(1, WT_STRING) + StringBytes(b))
  {
    var f, e := d.fields[0], TagBytes(1, WT_STRING) + StringBytes(b);
    assert SlotOk(f, slots[0]);
    assert EncValue(f.ltype, slots[0].value) == Some(StringBytes(b));
    assert EncSlot(f, slots[0]) == Some(e);
    assert EncFields(d, slots, 0) == Some([]);
    assert [] + e == e;
    assert EncFields(d, slots, 1) == Some(e);
  }

  /** A text as long as its buffer is encoded, and its encoding is refused. */
  lemma FullStringIsRefused(b: Bytes, d: Desc, slots: seq<Slot>)
    requires 0 !in b && d == StringMessage(|b|) && slots == [One(Text(b))]
    requires |TagBytes(1, WT_STRING) + StringBytes(b)| < TWO32
    ensures WellFormed(d) && MessageOk(d, slots) && MessageOk(d, Defaults(d))
    ensures EncMessage(d, slots).Some? && DecFields(d, Defaults(d), {}, EncMessage(d, slots).value) == None
  {
    StringMessageOk(b);
    StringEncodes(b, d, slots);
    assert SlotOk(d.fields[0], slots[0]) && !SlotTerminated(d.fields[0], slots[0]);
    assert !FieldsTerminated(d, slots, 1);
    DefaultsOk(d);
    MessageBack(d, slots);
  }
}
