/** The bytes of a message (nanopb/pb_encode.c), as a function of its struct. None where
    the encoder reports an error. */
module PbFormat {
  import opened Format
  import opened Fixed
  import opened Tables
  import opened Coding
  import opened Slices
  import opened PbMessages

  /** PB_LTYPE_LAST_PACKABLE */
  predicate Packable(t: LType) {
    !t.BytesType? && !t.StringType? && !t.FixedBytesType? && !t.SubMessageType?
  }

  const WT_VARINT: nat := 0
  const WT_64BIT: nat := 1
  const WT_STRING: nat := 2
  const WT_32BIT: nat := 5

  function WireType(t: LType): (w: nat)
    ensures w < 8
  {
    match t
    case Fixed32Type => WT_32BIT
    case Fixed64Type => WT_64BIT
    case _ => if Packable(t) then WT_VARINT else WT_STRING
  }

  function TagBytes(tag: nat, wire: nat): Bytes {
    Varint(tag * 8 + wire)
  }

  /** A signed value cast to 64 bits. */
  function Cast64(n: int): int {
    if n < 0 then n + TWO64 else n
  }

  function ZigZag(n: int): nat {
    if n < 0 then -2 * n - 1 else 2 * n
  }

  /** pb_encode_string */
  function StringBytes(b: Bytes): Bytes {
    Varint(|b|) + b
  }

  /** pb_enc_bool to pb_enc_fixed64 */
  function Scalar(t: LType, n: int): Bytes
    requires Packable(t) && ValueOk(t, Num(n))
  {
    match t
    case BoolType => Varint(n)
    case VarintType(_) => Varint(Cast64(n))
    case UVarintType(_) => Varint(n)
    case SVarintType(_) => Varint(ZigZag(n))
    case Fixed32Type => Fixed32(n)
    case Fixed64Type => Fixed64(n)
  }

  function EncValue(t: LType, v: Value): Option<Bytes>
    requires ValueOk(t, v)
    decreases t, 0, 0
  {
    match t
    case BytesType(max) => if |v.b| > max then None else Some(StringBytes(v.b))
    case StringType(_) => Some(StringBytes(v.b))
    case FixedBytesType(_) => Some(StringBytes(v.b))
    case SubMessageType(d) =>
      var e := EncMessage(d, v.slots);
      if e.None? then None else Some(StringBytes(e.value))
    case _ => Some(Scalar(t, v.n))
  }

  function Joined(a: Option<Bytes>, b: Option<Bytes>): Option<Bytes> {
    if a.None? || b.None? then None else Some(a.value + b.value)
  }

  /** A field's tag and value. */
  function EncField(f: Field, v: Value): Option<Bytes>
    requires ValueOk(f.ltype, v)
    decreases f, 0, 0
  {
    Joined(Some(TagBytes(f.tag, WireType(f.ltype))), EncValue(f.ltype, v))
  }

  /** The contents of a packed array. */
  function EncPacked(t: LType, items: seq<Value>): Option<Bytes>
    requires forall v :: v in items ==> ValueOk(t, v)
    decreases t, 1, |items|
  {
    if items == [] then Some([]) else Joined(EncPacked(t, items[..|items| - 1]), EncValue(t, items[|items| - 1]))
  }

  function EncUnpacked(f: Field, items: seq<Value>): Option<Bytes>
    requires forall v :: v in items ==> ValueOk(f.ltype, v)
    decreases f, 1, |items|
  {
    if items == [] then Some([]) else Joined(EncUnpacked(f, items[..|items| - 1]), EncField(f, items[|items| - 1]))
  }

  /** encode_array */
  function EncArray(f: Field, max: nat, items: seq<Value>): Option<Bytes>
    requires forall v :: v in items ==> ValueOk(f.ltype, v)
    decreases f, 2, 0
  {
    if items == [] then Some([])
    else if |items| > max then None
    else if Packable(f.ltype) then
      var e := EncPacked(f.ltype, items);
      if e.None? then None else Some(TagBytes(f.tag, WT_STRING) + StringBytes(e.value))
    else EncUnpacked(f, items)
  }

  /** pb_check_proto3_default_value. For a oneof the code looks at the which_ the group
      shares; over all of a message's fields that is the same as each one's own. */
  predicate IsDefault(f: Field, s: Slot)
    requires SlotOk(f, s)
    decreases f
  {
    match f.htype
    case Required => false
    case Repeated(_) => s.items == []
    case OneOf(_) => !s.chosen
    case Optional => !s.has
    case Implicit => IsDefaultValue(f.ltype, s.value)
  }

  predicate IsDefaultValue(t: LType, v: Value)
    requires ValueOk(t, v)
    decreases t
  {
    match t
    case BytesType(_) => v.b == []
    case StringType(_) => v.b == []
    case FixedBytesType(size) => size == 0
    case SubMessageType(d) => IsDefaultMessage(d, v.slots)
    case _ => v.n == 0
  }

  predicate IsDefaultMessage(d: Desc, slots: seq<Slot>)
    requires MessageOk(d, slots)
    decreases d
  {
    forall i :: 0 <= i < |d.fields| ==> IsDefault(d.fields[i], slots[i])
  }

  /** encode_basic_field */
  function EncSlot(f: Field, s: Slot): Option<Bytes>
    requires SlotOk(f, s)
    decreases f, 3, 0
  {
    match f.htype
    case Required => EncField(f, s.value)
    case Optional => if s.has then EncField(f, s.value) else Some([])
    case Implicit => if IsDefaultValue(f.ltype, s.value) then Some([]) else EncField(f, s.value)
    case OneOf(_) => if s.chosen then EncField(f, s.value) else Some([])
    case Repeated(max) => EncArray(f, max, s.items)
  }

  /** The first i fields. */
  function EncFields(d: Desc, slots: seq<Slot>, i: nat): Option<Bytes>
    requires MessageOk(d, slots) && i <= |slots|
    decreases d, 0, i
  {
    if i == 0 then Some([]) else Joined(EncFields(d, slots, i - 1), EncSlot(d.fields[i - 1], slots[i - 1]))
  }

  /** pb_encode */
  function EncMessage(d: Desc, slots: seq<Slot>): Option<Bytes>
    requires MessageOk(d, slots)
    decreases d, 1, 0
  {
    EncFields(d, slots, |slots|)
  }
}
