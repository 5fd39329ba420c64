/** Message descriptors and the structs they describe (nanopb/pb.h). */
module PbMessages {
  import opened Format
  import opened Fixed
  import opened Slices

  /** data_size of an integer field */
  type Width = w: nat | w == 1 || w == 2 || w == 4 || w == 8 witness 1

  /** PB_LTYPE; `max` and `size` are what data_size leaves for the contents. */
  datatype LType =
    | BoolType
    | VarintType(width: Width)
    | UVarintType(width: Width)
    | SVarintType(width: Width)
    | Fixed32Type
    | Fixed64Type
    | BytesType(max: nat)
    | StringType(size: nat)
    | FixedBytesType(size: nat)
    | SubMessageType(desc: Desc)

  /** PB_HTYPE; Implicit is an optional field without a has_ flag, and a oneof's fields
      share a group. */
  datatype HType = Required | Optional | Implicit | Repeated(max: nat) | OneOf(group: nat)

  /** pb_field_t; `initial` is what ptr points to, or zeros. */
  datatype Field = Field(tag: nat, htype: HType, ltype: LType, initial: Value)

  /** A field array up to its terminator. */
  datatype Desc = Desc(fields: seq<Field>)

  /** Text is the contents of a bytes field, or a string up to its NUL. */
  datatype Value = Num(n: int) | Text(b: Bytes) | Message(slots: seq<Slot>)

  /** A field's place in its struct: with a has_ flag, a count or a which_ of its own. */
  datatype Slot = One(value: Value) | Opt(has: bool, value: Value) | Many(items: seq<Value>) | Union(chosen: bool, value: Value)

  function Span(w: Width): nat {
    if w == 1 then 0x100 else if w == 2 then 0x1_0000 else if w == 4 then TWO32 else TWO64
  }

  predicate Signed(n: int, w: Width) {
    -(Span(w) / 2) <= n < Span(w) / 2
  }

  /** A struct member of this type can hold the value. */
  ghost predicate ValueOk(t: LType, v: Value)
    decreases t
  {
    match t
    case BoolType => v.Num? && 0 <= v.n <= 1
    case VarintType(w) => v.Num? && Signed(v.n, w)
    case UVarintType(w) => v.Num? && 0 <= v.n < Span(w)
    case SVarintType(w) => v.Num? && Signed(v.n, w)
    case Fixed32Type => v.Num? && 0 <= v.n < TWO32
    case Fixed64Type => v.Num? && 0 <= v.n < TWO64
    case BytesType(_) => v.Text?
    case StringType(size) => v.Text? && |v.b| <= size && 0 !in v.b
    case FixedBytesType(size) => v.Text? && |v.b| == size
    case SubMessageType(d) => v.Message? && MessageOk(d, v.slots)
  }

  ghost predicate SlotOk(f: Field, s: Slot)
    decreases f
  {
    match f.htype
    case Required => s.One? && ValueOk(f.ltype, s.value)
    case Implicit => s.One? && ValueOk(f.ltype, s.value)
    case Optional => s.Opt? && ValueOk(f.ltype, s.value)
    case OneOf(_) => s.Union? && ValueOk(f.ltype, s.value)
    case Repeated(_) => s.Many? && forall v :: v in s.items ==> ValueOk(f.ltype, v)
  }

  ghost predicate MessageOk(d: Desc, slots: seq<Slot>)
    decreases d
  {
    && |slots| == |d.fields|
    && forall i :: 0 <= i < |slots| ==> SlotOk(d.fields[i], slots[i])
  }

  function Zeros(n: nat): Bytes {
    seq(n, i => 0)
  }

  /** The value at an untouched union or array place. */
  function Zero(t: LType): Value
    decreases t, 0
  {
    match t
    case BytesType(_) => Text([])
    case StringType(_) => Text([])
    case FixedBytesType(n) => Text(Zeros(n))
    case SubMessageType(d) => Message(Defaults(d))
    case _ => Num(0)
  }

  /** The pointed-to defaults have their field's type. */
  ghost predicate InitialsOk(d: Desc)
    decreases d
  {
    forall i :: 0 <= i < |d.fields| ==> InitialOk(d.fields[i])
  }

  ghost predicate InitialOk(f: Field)
    decreases f
  {
    if f.ltype.SubMessageType? then InitialsOk(f.ltype.desc) else ValueOk(f.ltype, f.initial)
  }

  /** pb_field_set_to_default */
  function DefaultSlot(f: Field): (s: Slot)
    decreases f, 0
  {
    var v := if f.ltype.SubMessageType? then Message(Defaults(f.ltype.desc)) else f.initial;
    match f.htype
    case Required => One(v)
    case Implicit => One(v)
    case Optional => Opt(false, v)
    case OneOf(_) => Union(false, Zero(f.ltype))
    case Repeated(_) => Many([])
  }

  /** pb_message_set_to_defaults */
  function Defaults(d: Desc): seq<Slot>
    decreases d, 0
  {
    seq(|d.fields|, i requires 0 <= i < |d.fields| => DefaultSlot(d.fields[i]))
  }

  lemma {:induction false} ZeroOk(t: LType)
    requires t.SubMessageType? ==> InitialsOk(t.desc)
    ensures ValueOk(t, Zero(t))
    decreases t
  {
    if t.SubMessageType? {
      DefaultsOk(t.desc);
    }
  }

  /** A struct set to its defaults holds values of its fields' types. */
  lemma {:induction false} DefaultsOk(d: Desc)
    requires InitialsOk(d)
    ensures MessageOk(d, Defaults(d))
    decreases d
  {
    forall i | 0 <= i < |d.fields| ensures SlotOk(d.fields[i], DefaultSlot(d.fields[i])) {
      var f := d.fields[i];
      assert InitialOk(f);
      ZeroOk(f.ltype);
      if f.ltype.SubMessageType? {
        DefaultsOk(f.ltype.desc);
      }
    }
  }
}
