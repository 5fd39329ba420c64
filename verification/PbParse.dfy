/** Reading messages (nanopb/pb_decode.c), as functions of the bytes left. None where the
    decoder reports an error. */
module PbParse {
  import opened Format
  import opened Fixed
  import opened Tables
  import opened Coding
  import opened Slices
  import opened PbMessages
  import opened PbFormat
  import opened PbCommon

  // ---- integers ----

  /** A byte past the 32nd bit only repeats the sign. */
  predicate SignByte(b: nat, k: nat, result: nat) {
    b % 128 == 0 || (result >= 0x8000_0000 && b == if k < 9 then 0xFF else 0x01)
  }

  /** pb_decode_varint32_eof from its k-th byte on; ten bytes at most. */
  function Scan32(input: Bytes, k: nat, result: nat): (t: Taken<nat>)
    ensures t.Some? ==> |t.value.1| < |input|
    decreases |input|
  {
    if input == [] || k >= 10 then None
    else
      var b := input[0] as nat;
      if k >= 5 then
        if !SignByte(b, k, result) then None
        else if b >= 128 then Scan32(input[1..], k + 1, result) else Some((result, input[1..]))
      else
        var next := (result + b % 128 * Power128(k)) % TWO32;
        if b >= 128 then Scan32(input[1..], k + 1, next)
        else if k == 4 && b >= 16 then None
        else Some((next, input[1..]))
  }

  /** pb_decode_varint32 */
  function Read32(input: Bytes): (t: Taken<nat>)
    ensures t.Some? ==> |t.value.1| < |input|
  {
    Scan32(input, 0, 0)
  }

  function Half(m: int, span: nat): int {
    if m < span / 2 then m else m - span
  }

  /** A 64-bit value cast to int64_t, or for narrower fields to int32_t. */
  function CastSigned(value: Long, w: Width): int {
    if w == 8 then Half(value, TWO64) else Half(value % TWO32, TWO32)
  }

  function UnZigZag(value: nat): int {
    if value % 2 == 1 then -(value / 2) - 1 else value / 2
  }

  function Checked(n: int, ok: bool, rest: Bytes): Taken<int> {
    if ok then Some((n, rest)) else None
  }

  /** pb_read of n bytes */
  function Bytes0(input: Bytes, n: nat): (t: Taken<Bytes>)
    ensures t.Some? ==> |t.value.0| == n && |t.value.1| == |input| - n
  {
    if |input| < n then None else Some((input[..n], input[n..]))
  }

  /** pb_dec_bool to pb_dec_fixed64: the value read, if it fits its field. */
  function DecScalar(t: LType, input: Bytes): (r: Taken<int>)
    requires Packable(t)
    ensures r.Some? ==> ValueOk(t, Num(r.value.0)) && |r.value.1| < |input|
  {
    match t
    case BoolType =>
      var v := Read32(input);
      if v.None? then None else Some((if v.value.0 != 0 then 1 else 0, v.value.1))
    case VarintType(w) =>
      var v := Take64(input);
      if v.None? then None else Checked(CastSigned(v.value.0, w), Signed(CastSigned(v.value.0, w), w), v.value.1)
    case UVarintType(w) =>
      var v := Take64(input);
      if v.None? then None else Checked(v.value.0, v.value.0 < Span(w), v.value.1)
    case SVarintType(w) =>
      var v := Take64(input);
      if v.None? then None else Checked(UnZigZag(v.value.0), Signed(UnZigZag(v.value.0), w), v.value.1)
    case Fixed32Type =>
      var b := Bytes0(input, 4);
      if b.None? then None else Some((Unfixed32(b.value.0), b.value.1))
    case Fixed64Type =>
      var b := Bytes0(input, 8);
      if b.None? then None else Some((Unfixed64(b.value.0), b.value.1))
  }

  // ---- strings ----

  /** pb_make_string_substream: a length, and that many bytes. */
  function TakeSub(input: Bytes): (t: Taken<Bytes>)
    ensures t.Some? ==> |t.value.0| + |t.value.1| < |input|
  {
    var n := Read32(input);
    if n.None? then None else Bytes0(n.value.1, n.value.0)
  }

  function UpToNul(b: Bytes): (s: Bytes)
    ensures |s| <= |b| && 0 !in s
    ensures 0 !in b ==> s == b
  {
    if b == [] || b[0] == 0 then [] else
      var s := UpToNul(b[1..]);
      assert b == [b[0]] + b[1..];
      [b[0]] + s
  }

  function DecText(t: LType, input: Bytes): (r: Taken<Bytes>)
    requires t.BytesType? || t.StringType? || t.FixedBytesType?
    ensures r.Some? ==> ValueOk(t, Text(r.value.0)) && |r.value.1| < |input|
  {
    var n := Read32(input);
    if n.None? then None
    else
      match t
      case BytesType(max) => if n.value.0 > max then None else Bytes0(n.value.1, n.value.0)
      case StringType(size) =>
        if n.value.0 + 1 > size then None
        else
          var b := Bytes0(n.value.1, n.value.0);
          if b.None? then None else Some((UpToNul(b.value.0), b.value.1))
      case FixedBytesType(size) =>
        if n.value.0 == 0 then Some((Zeros(size), n.value.1))
        else if n.value.0 != size then None
        else Bytes0(n.value.1, size)
  }

  // ---- descriptors ----

  ghost predicate DistinctTags(fields: seq<Field>) {
    forall i, j :: 0 <= i < j < |fields| ==> fields[i].tag != fields[j].tag
  }

  /** A field's tag is its own, at every level. */
  ghost predicate WellFormed(d: Desc)
    decreases d
  {
    InitialsOk(d) && DistinctTags(d.fields) && forall i :: 0 <= i < |d.fields| ==> TypeFormed(d.fields[i].ltype)
  }

  ghost predicate TypeFormed(t: LType)
    decreases t
  {
    t.SubMessageType? ==> WellFormed(t.desc)
  }

  lemma FormedZero(t: LType)
    requires TypeFormed(t)
    ensures ValueOk(t, Zero(t))
  {
    if t.SubMessageType? {
      assert WellFormed(t.desc);
    }
    ZeroOk(t);
  }

  /** pb_field_iter_find */
  function FieldOf(fields: seq<Field>, tag: nat, i: nat): (r: Option<nat>)
    requires i <= |fields|
    ensures r.Some? ==> i <= r.value < |fields| && fields[r.value].tag == tag
    ensures r.None? ==> NoTag(fields, tag, i, |fields|)
    decreases |fields| - i
  {
    if i == |fields| then None else if fields[i].tag == tag then Some(i) else FieldOf(fields, tag, i + 1)
  }

  lemma {:induction false} FieldFound(fields: seq<Field>, i: nat, from: nat)
    requires DistinctTags(fields) && from <= i < |fields|
    ensures FieldOf(fields, fields[i].tag, from) == Some(i)
    decreases i - from
  {
    if from < i {
      FieldFound(fields, i, from + 1);
    }
  }

  const PB_MAX_REQUIRED_FIELDS: nat := 64

  /** Of the required fields that are kept track of, none is missing. */
  predicate AllSeen(fields: seq<Field>, seen: set<nat>) {
    forall i :: 0 <= i < CountRequired(fields, |fields|) && i < PB_MAX_REQUIRED_FIELDS ==> i in seen
  }

  function Mark(fields: seq<Field>, seen: set<nat>, i: nat): set<nat>
    requires i < |fields|
  {
    if fields[i].htype.Required? && CountRequired(fields, i) < PB_MAX_REQUIRED_FIELDS
    then seen + {CountRequired(fields, i)} else seen
  }

  // ---- skipping ----

  /** pb_skip_varint: of any length. */
  function SkipVarint(input: Bytes): (r: Option<Bytes>)
    ensures r.Some? ==> |r.value| < |input|
    decreases |input|
  {
    if input == [] then None else if input[0] < 128 then Some(input[1..]) else SkipVarint(input[1..])
  }

  /** pb_skip_field */
  function Skip(wire: nat, input: Bytes): (r: Option<Bytes>)
    ensures r.Some? ==> |r.value| <= |input|
  {
    if wire == WT_VARINT then SkipVarint(input)
    else if wire == WT_64BIT then (if |input| < 8 then None else Some(input[8..]))
    else if wire == WT_STRING then
      var s := TakeSub(input);
      if s.None? then None else Some(s.value.1)
    else if wire == WT_32BIT then (if |input| < 4 then None else Some(input[4..]))
    else None
  }

  // ---- messages ----

  /** The packed items of an array, on top of those it has. */
  function DecPacked(t: LType, max: nat, items: seq<Value>, input: Bytes): (r: Option<seq<Value>>)
    requires Packable(t) && forall v :: v in items ==> ValueOk(t, v)
    ensures r.Some? ==> forall v :: v in r.value ==> ValueOk(t, v)
    decreases |input|
  {
    if input == [] then Some(items)
    else if |items| >= max then None
    else
      var n := DecScalar(t, input);
      if n.None? then None else DecPacked(t, max, items + [Num(n.value.0)], n.value.1)
  }

  /** A field stores into its own slot; choosing a oneof's field unchooses the others. */
  function Store(fields: seq<Field>, slots: seq<Slot>, i: nat, s: Slot): (r: seq<Slot>)
    requires |slots| == |fields| && i < |slots|
    ensures |r| == |slots| && r[i] == s
  {
    if fields[i].htype.OneOf? then
      seq(|slots|, j requires 0 <= j < |slots| =>
        if j == i then s else if fields[j].htype == fields[i].htype then Union(false, Zero(fields[j].ltype)) else slots[j])
    else slots[i := s]
  }

  lemma StoreOk(d: Desc, slots: seq<Slot>, i: nat, s: Slot)
    requires WellFormed(d) && MessageOk(d, slots) && i < |slots| && SlotOk(d.fields[i], s)
    ensures MessageOk(d, Store(d.fields, slots, i, s))
  {
    forall j | 0 <= j < |slots| ensures SlotOk(d.fields[j], Store(d.fields, slots, i, s)[j]) {
      assert SlotOk(d.fields[j], slots[j]);
      assert TypeFormed(d.fields[j].ltype);
      FormedZero(d.fields[j].ltype);
    }
  }

  /** `was` is what the place holds; a submessage is merged into it. */
  function DecValue(t: LType, was: Value, input: Bytes): (r: Taken<Value>)
    requires TypeFormed(t) && ValueOk(t, was)
    ensures r.Some? ==> ValueOk(t, r.value.0) && |r.value.1| < |input|
    decreases t, 0, 0
  {
    if t.SubMessageType? then
      var s := TakeSub(input);
      if s.None? then None
      else
        var m := DecFields(t.desc, was.slots, {}, s.value.0);
        if m.None? then None else Some((Message(m.value), s.value.1))
    else if Packable(t) then
      var n := DecScalar(t, input);
      if n.None? then None else Some((Num(n.value.0), n.value.1))
    else
      var b := DecText(t, input);
      if b.None? then None else Some((Text(b.value.0), b.value.1))
  }

  /** decode_static_field */
  function DecSlot(f: Field, s: Slot, wire: nat, input: Bytes): (r: Taken<Slot>)
    requires TypeFormed(f.ltype) && SlotOk(f, s)
    ensures r.Some? ==> SlotOk(f, r.value.0) && |r.value.1| <= |input|
    decreases f, 0, 0
  {
    match f.htype
    case Repeated(max) =>
      if wire == WT_STRING && Packable(f.ltype) then
        var sub := TakeSub(input);
        if sub.None? then None
        else
          var items := DecPacked(f.ltype, max, s.items, sub.value.0);
          if items.None? then None else Some((Many(items.value), sub.value.1))
      else if |s.items| >= max then None
      else
        FormedZero(f.ltype);
        var v := DecValue(f.ltype, Zero(f.ltype), input);
        if v.None? then None else Some((Many(s.items + [v.value.0]), v.value.1))
    case OneOf(_) =>
      FormedZero(f.ltype);
      var v := DecValue(f.ltype, if f.ltype.SubMessageType? && !s.chosen then Zero(f.ltype) else s.value, input);
      if v.None? then None else Some((Union(true, v.value.0), v.value.1))
    case Optional =>
      var v := DecValue(f.ltype, s.value, input);
      if v.None? then None else Some((Opt(true, v.value.0), v.value.1))
    case _ =>
      var v := DecValue(f.ltype, s.value, input);
      if v.None? then None else Some((One(v.value.0), v.value.1))
  }

  function Finish(fields: seq<Field>, slots: seq<Slot>, seen: set<nat>): Option<seq<Slot>> {
    if AllSeen(fields, seen) then Some(slots) else None
  }

  /** The loop of pb_decode_noinit. */
  function DecFields(d: Desc, slots: seq<Slot>, seen: set<nat>, input: Bytes): (r: Option<seq<Slot>>)
    requires WellFormed(d) && MessageOk(d, slots)
    ensures r.Some? ==> MessageOk(d, r.value)
    decreases d, 1, |input|
  {
    if input == [] then Finish(d.fields, slots, seen)
    else
      var t := Read32(input);
      if t.None? then None
      else if t.value.0 == 0 then Finish(d.fields, slots, seen)
      else
        var tag, wire := t.value.0 / 8, t.value.0 % 8;
        var i := FieldOf(d.fields, tag, 0);
        if i.None? then
          var rest := Skip(wire, t.value.1);
          if rest.None? then None else DecFields(d, slots, seen, rest.value)
        else
          assert TypeFormed(d.fields[i.value].ltype) && SlotOk(d.fields[i.value], slots[i.value]);
          var s := DecSlot(d.fields[i.value], slots[i.value], wire, t.value.1);
          if s.None? then None
          else
            StoreOk(d, slots, i.value, s.value.0);
            DecFields(d, Store(d.fields, slots, i.value, s.value.0), Mark(d.fields, seen, i.value), s.value.1)
  }
}
