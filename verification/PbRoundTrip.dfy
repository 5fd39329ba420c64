/** Decoding what was encoded (nanopb/pb_encode.c, nanopb/pb_decode.c): for every
    descriptor and struct, exactly when and what the decoder gives back. */
module PbRoundTrip {
  import opened PbMessages
  import opened PbFormat
  import opened PbParse
  import opened PbScalars

  // ---- what comes back ----

  function NormValue(t: LType, v: Value): Value
    requires ValueOk(t, v)
    decreases t, 0
  {
    if t.SubMessageType? then Message(NormMessage(t.desc, v.slots)) else v
  }

  function NormItems(t: LType, items: seq<Value>): seq<Value>
    requires forall v :: v in items ==> ValueOk(t, v)
    decreases t, 1
  {
    seq(|items|, i requires 0 <= i < |items| => NormValue(t, items[i]))
  }

  /** A field that was not encoded comes back as its default, any other as it was. */
  function NormSlot(f: Field, s: Slot): Slot
    requires SlotOk(f, s)
    decreases f, 0
  {
    match f.htype
    case Required => One(NormValue(f.ltype, s.value))
    case Implicit => if IsDefaultValue(f.ltype, s.value) then DefaultSlot(f) else One(NormValue(f.ltype, s.value))
    case Optional => if s.has then Opt(true, NormValue(f.ltype, s.value)) else DefaultSlot(f)
    case OneOf(_) => if s.chosen then Union(true, NormValue(f.ltype, s.value)) else DefaultSlot(f)
    case Repeated(_) => Many(NormItems(f.ltype, s.items))
  }

  function NormMessage(d: Desc, slots: seq<Slot>): seq<Slot>
    requires MessageOk(d, slots)
    decreases d, 0
  {
    seq(|slots|, i requires 0 <= i < |slots| => NormSlot(d.fields[i], slots[i]))
  }

  lemma {:induction false} NormValueOk(t: LType, v: Value)
    requires TypeFormed(t) && ValueOk(t, v)
    ensures ValueOk(t, NormValue(t, v))
    decreases t, 0
  {
    if t.SubMessageType? {
      NormMessageOk(t.desc, v.slots);
    }
  }

  lemma DefaultSlotOk(d: Desc, i: nat)
    requires WellFormed(d) && i < |d.fields|
    ensures SlotOk(d.fields[i], DefaultSlot(d.fields[i]))
  {
    DefaultsOk(d);
    assert Defaults(d)[i] == DefaultSlot(d.fields[i]);
  }

  lemma {:induction false} NormSlotOk(d: Desc, slots: seq<Slot>, i: nat)
    requires WellFormed(d) && MessageOk(d, slots) && i < |slots|
    ensures SlotOk(d.fields[i], NormSlot(d.fields[i], slots[i]))
    decreases d.fields[i], 1
  {
    var f, s := d.fields[i], slots[i];
    assert TypeFormed(f.ltype) && SlotOk(f, s);
    DefaultSlotOk(d, i);
    match f.htype
    case Repeated(_) =>
      forall k | 0 <= k < |s.items| ensures ValueOk(f.ltype, NormItems(f.ltype, s.items)[k]) {
        NormValueOk(f.ltype, s.items[k]);
      }
    case _ => NormValueOk(f.ltype, s.value);
  }

  lemma {:induction false} NormMessageOk(d: Desc, slots: seq<Slot>)
    requires WellFormed(d) && MessageOk(d, slots)
    ensures MessageOk(d, NormMessage(d, slots))
    decreases d, 1
  {
    forall i | 0 <= i < |slots| ensures SlotOk(d.fields[i], NormSlot(d.fields[i], slots[i])) {
      NormSlotOk(d, slots, i);
    }
  }

  // ---- what has to hold ----

  /** Field numbers of 29 bits, as the tag is read in 32 with its wire type. */
  ghost predicate TagsFit(d: Desc)
    decreases d
  {
    forall i :: 0 <= i < |d.fields| ==> TagFits(d.fields[i])
  }

  ghost predicate TagFits(f: Field)
    decreases f
  {
    && 0 < f.tag < 0x2000_0000
    && (f.ltype.SubMessageType? ==> TagsFit(f.ltype.desc))
  }

  ghost predicate TypeFits(t: LType) {
    t.SubMessageType? ==> TagsFit(t.desc)
  }

  /** The fields of a oneof share one which_: at most one of them is chosen. */
  ghost predicate OneChosen(d: Desc, slots: seq<Slot>)
    requires MessageOk(d, slots)
    decreases d
  {
    && (forall i, j :: 0 <= i < j < |slots| && d.fields[i].htype.OneOf? && d.fields[i].htype == d.fields[j].htype ==>
          !Chosen(d, slots, i) || !Chosen(d, slots, j))
    && forall i :: 0 <= i < |slots| ==> SlotChosen(d.fields[i], slots[i])
  }

  ghost predicate Chosen(d: Desc, slots: seq<Slot>, i: nat)
    requires MessageOk(d, slots) && i < |slots| && d.fields[i].htype.OneOf?
  {
    assert SlotOk(d.fields[i], slots[i]);
    slots[i].chosen
  }

  ghost predicate SlotChosen(f: Field, s: Slot)
    requires SlotOk(f, s)
    decreases f
  {
    if f.htype.Repeated? then forall v :: v in s.items ==> ValueChosen(f.ltype, v)
    else ValueChosen(f.ltype, s.value)
  }

  ghost predicate ValueChosen(t: LType, v: Value)
    requires ValueOk(t, v)
    decreases t
  {
    t.SubMessageType? ==> OneChosen(t.desc, v.slots)
  }

  /** Every string that is encoded leaves room for its NUL. */
  predicate ValueTerminated(t: LType, v: Value)
    requires ValueOk(t, v)
    decreases t, 0, 0
  {
    if t.SubMessageType? then FieldsTerminated(t.desc, v.slots, |v.slots|) else v.Text? ==> Terminated(t, v.b)
  }

  predicate ItemsTerminated(t: LType, items: seq<Value>)
    requires forall v :: v in items ==> ValueOk(t, v)
    decreases t, 1, |items|
  {
    items == [] || (ItemsTerminated(t, items[..|items| - 1]) && ValueTerminated(t, items[|items| - 1]))
  }

  predicate SlotTerminated(f: Field, s: Slot)
    requires SlotOk(f, s)
    decreases f, 2, 0
  {
    match f.htype
    case Required => ValueTerminated(f.ltype, s.value)
    case Implicit => IsDefaultValue(f.ltype, s.value) || ValueTerminated(f.ltype, s.value)
    case Optional => !s.has || ValueTerminated(f.ltype, s.value)
    case OneOf(_) => !s.chosen || ValueTerminated(f.ltype, s.value)
    case Repeated(_) => ItemsTerminated(f.ltype, s.items)
  }

  predicate FieldsTerminated(d: Desc, slots: seq<Slot>, i: nat)
    requires MessageOk(d, slots) && i <= |slots|
    decreases d, 0, i
  {
    i == 0 || (FieldsTerminated(d, slots, i - 1) && SlotTerminated(d.fields[i - 1], slots[i - 1]))
  }
}
