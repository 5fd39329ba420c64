/** The decoder (nanopb/pb_decode.c): its loops and its substreams, against the functions
    of the bytes left. */
module PbDecode {
  import opened Format
  import opened Fixed
  import opened Tables
  import opened Coding
  import opened Slices
  import opened PbMessages
  import opened PbFormat
  import opened PbCommon
  import opened PbParse

  class IStream {
    var data: Bytes      // what is left; |data| is bytes_left

    constructor (data: Bytes)
      ensures this.data == data
    {
      this.data := data;
    }

    /** pb_read */
    method Read(n: nat) returns (ok: bool, buf: Bytes)
      modifies this
      ensures ok <==> Bytes0(old(data), n).Some?
      ensures ok ==> Bytes0(old(data), n) == Some((buf, data))
    {
      if |data| < n {
        return false, [];
      }
      ok, buf := true, data[..n];
      data := data[n..];
    }

    /** pb_readbyte */
    method ReadByte() returns (ok: bool, b: byte)
      modifies this
      ensures ok <==> old(data) != []
      ensures ok ==> b == old(data)[0] && data == old(data)[1..]
      ensures !ok ==> data == old(data)
    {
      if data == [] {
        return false, 0;
      }
      ok, b := true, data[0];
      data := data[1..];
    }
  }

  // ---- integers ----

  /** pb_decode_varint32_eof */
  method DecodeVarint32(s: IStream) returns (ok: bool, result: nat)
    modifies s
    ensures ok <==> Read32(old(s.data)).Some?
    ensures ok ==> Read32(old(s.data)) == Some((result, s.data))
  {
    var b: byte;
    var k: nat := 0;
    result := 0;
    while true
      invariant Scan32(s.data, k, result) == Read32(old(s.data))
      decreases |s.data|
    {
      ok, b := s.ReadByte();
      if !ok || k >= 10 {
        return false, 0;
      }
      if k >= 5 {
        if !SignByte(b as nat, k, result) {
          return false, 0;
        }
      } else {
        result := (result + b as nat % 128 * Power128(k)) % TWO32;
      }
      if b < 128 {
        break;
      }
      k := k + 1;
    }
    // The fifth byte has room for four bits only.
    if k == 4 && b >= 16 {
      return false, 0;
    }
  }

  /** The seven bits of byte k, at their place. */
  function Shifted(bits: nat, k: nat): nat {
    bits * Power128(k)
  }

  /** The loop of pb_decode_varint is at byte k. */
  ghost predicate At(input: Bytes, k: nat, result: nat) {
    k <= 10 && k <= |input| && GetVarint(input, k, |input|, k, 10, result) == GetVarint(input, 0, |input|, 0, 10, 0)
  }

  lemma AtEnd(input: Bytes, k: nat, result: nat)
    requires At(input, k, result) && (k == 10 || k == |input|)
    ensures Take64(input) == None
  {
  }

  lemma AtLast(input: Bytes, k: nat, result: nat, b: byte)
    requires At(input, k, result) && k < 10 && k < |input| && input[k] == b && b < 128
    ensures Take64(input) == Some(((result + Shifted(b as nat, k)) % TWO64, input[k + 1..]))
  {
  }

  lemma Advance(input: Bytes, k: nat, result: nat, bits: nat, next: nat)
    requires k < 10 && k < |input| && bits < 128 && input[k] as nat == bits + 128 && next == result + Shifted(bits, k)
    ensures GetVarint(input, k, |input|, k, 10, result) == GetVarint(input, k + 1, |input|, k + 1, 10, next)
  {
    MoreBytes(input, k, |input|, k, 10, result, bits);
  }

  lemma AtMore(input: Bytes, k: nat, result: nat, b: byte, next: nat)
    requires At(input, k, result) && k < 10 && k < |input| && input[k] == b && b >= 128
    requires next == result + Shifted(b as nat - 128, k)
    ensures At(input, k + 1, next)
  {
    Advance(input, k, result, b as nat - 128, next);
  }

  /** pb_decode_varint: bits past the 64th are dropped. */
  method DecodeVarint(s: IStream) returns (ok: bool, value: nat)
    modifies s
    ensures ok <==> Take64(old(s.data)).Some?
    ensures ok ==> Take64(old(s.data)) == Some((value, s.data))
  {
    ghost var input := s.data;
    var b: byte;
    var k: nat := 0;
    value := 0;
    while true
      invariant At(input, k, value) && s.data == input[k..]
      decreases 10 - k
    {
      if k >= 10 {
        AtEnd(input, k, value);
        return false, 0;
      }
      ok, b := s.ReadByte();
      if !ok {
        AtEnd(input, k, value);
        return;
      }
      if b < 128 {
        AtLast(input, k, value, b);
        return true, (value + Shifted(b as nat, k)) % TWO64;
      }
      var next := value + Shifted(b as nat - 128, k);
      AtMore(input, k, value, b, next);
      value, k := next, k + 1;
    }
  }

  // ---- skipping ----

  method SkipVarintBytes(s: IStream) returns (ok: bool)
    modifies s
    ensures ok <==> SkipVarint(old(s.data)).Some?
    ensures ok ==> SkipVarint(old(s.data)) == Some(s.data)
  {
    while true
      invariant SkipVarint(s.data) == SkipVarint(old(s.data))
      decreases |s.data|
    {
      var b;
      ok, b := s.ReadByte();
      if !ok || b < 128 {
        return;
      }
    }
  }

  /** pb_make_string_substream; what the substream leaves is skipped when it is closed. */
  method MakeSubstream(s: IStream) returns (ok: bool, sub: IStream)
    modifies s
    ensures fresh(sub) && (ok <==> TakeSub(old(s.data)).Some?)
    ensures ok ==> TakeSub(old(s.data)) == Some((sub.data, s.data))
  {
    sub := new IStream([]);
    var size, b;
    ok, size := DecodeVarint32(s);
    if ok {
      ok, b := s.Read(size);
      sub.data := b;
    }
  }

  /** pb_skip_field */
  method SkipField(s: IStream, wire: nat) returns (ok: bool)
    modifies s
    ensures ok <==> Skip(wire, old(s.data)).Some?
    ensures ok ==> Skip(wire, old(s.data)) == Some(s.data)
  {
    var skipped, sub;
    if wire == WT_VARINT {
      ok := SkipVarintBytes(s);
    } else if wire == WT_64BIT {
      ok, skipped := s.Read(8);
    } else if wire == WT_STRING {
      ok, sub := MakeSubstream(s);
    } else if wire == WT_32BIT {
      ok, skipped := s.Read(4);
    } else {
      ok := false;
    }
  }

  // ---- values ----

  method DecodeScalar(s: IStream, t: LType) returns (ok: bool, n: int)
    requires Packable(t)
    modifies s
    ensures ok <==> DecScalar(t, old(s.data)).Some?
    ensures ok ==> DecScalar(t, old(s.data)) == Some((n, s.data))
  {
    n := 0;
    var v: nat, b;
    match t
    case BoolType =>
      ok, v := DecodeVarint32(s);
      n := if v != 0 then 1 else 0;
    case VarintType(w) =>
      ok, v := DecodeVarint(s);
      if ok {
        n := CastSigned(v, w);
        ok := Signed(n, w);
      }
    case UVarintType(w) =>
      ok, v := DecodeVarint(s);
      n := v;
      ok := ok && n < Span(w);
    case SVarintType(w) =>
      ok, v := DecodeVarint(s);
      n := UnZigZag(v);
      ok := ok && Signed(n, w);
    case Fixed32Type =>
      ok, b := s.Read(4);
      if ok { n := Unfixed32(b); }
    case Fixed64Type =>
      ok, b := s.Read(8);
      if ok { n := Unfixed64(b); }
  }

  /** pb_dec_bytes, pb_dec_string, pb_dec_fixed_length_bytes */
  method DecodeText(s: IStream, t: LType) returns (ok: bool, text: Bytes)
    requires t.BytesType? || t.StringType? || t.FixedBytesType?
    modifies s
    ensures ok <==> DecText(t, old(s.data)).Some?
    ensures ok ==> DecText(t, old(s.data)) == Some((text, s.data))
  {
    text := [];
    var size;
    ok, size := DecodeVarint32(s);
    if !ok {
      return;
    }
    match t
    case BytesType(max) =>
      if size > max {
        return false, [];
      }
      ok, text := s.Read(size);
    case StringType(room) =>
      if size + 1 > room {
        return false, [];
      }
      ok, text := s.Read(size);
      text := UpToNul(text);
    case FixedBytesType(length) =>
      if size == 0 {
        return true, Zeros(length);
      }
      if size != length {
        return false, [];
      }
      ok, text := s.Read(size);
  }

  /** The packed items, while the substream and the array last. */
  method DecodePacked(sub: IStream, t: LType, max: nat, have: seq<Value>) returns (ok: bool, items: seq<Value>)
    requires Packable(t) && forall v :: v in have ==> ValueOk(t, v)
    modifies sub
    ensures ok <==> DecPacked(t, max, have, old(sub.data)).Some?
    ensures ok ==> DecPacked(t, max, have, old(sub.data)) == Some(items)
  {
    items := have;
    while sub.data != [] && |items| < max
      invariant forall v :: v in items ==> ValueOk(t, v)
      invariant DecPacked(t, max, items, sub.data) == DecPacked(t, max, have, old(sub.data))
      decreases |sub.data|
    {
      var good, n := DecodeScalar(sub, t);
      if !good {
        return false, items;
      }
      items := items + [Num(n)];
    }
    ok := sub.data == [];
  }

  method DecodeValue(s: IStream, t: LType, was: Value) returns (ok: bool, v: Value)
    requires TypeFormed(t) && ValueOk(t, was)
    modifies s
    ensures ok <==> DecValue(t, was, old(s.data)).Some?
    ensures ok ==> DecValue(t, was, old(s.data)) == Some((v, s.data))
    decreases t, 0, 0
  {
    v := was;
    if t.SubMessageType? {
      var sub, slots;
      ok, sub := MakeSubstream(s);
      if ok {
        ok, slots := DecodeMessage(sub, t.desc, was.slots);
        v := Message(slots);
      }
    } else if Packable(t) {
      var n;
      ok, n := DecodeScalar(s, t);
      v := Num(n);
    } else {
      var b;
      ok, b := DecodeText(s, t);
      v := Text(b);
    }
  }

  /** decode_static_field */
  method DecodeSlot(s: IStream, f: Field, slot: Slot, wire: nat) returns (ok: bool, slot': Slot)
    requires TypeFormed(f.ltype) && SlotOk(f, slot)
    modifies s
    ensures ok <==> DecSlot(f, slot, wire, old(s.data)).Some?
    ensures ok ==> DecSlot(f, slot, wire, old(s.data)) == Some((slot', s.data))
    decreases f, 0, 0
  {
    slot' := slot;
    FormedZero(f.ltype);
    var v;
    match f.htype
    case Repeated(max) =>
      if wire == WT_STRING && Packable(f.ltype) {
        var sub, items;
        ok, sub := MakeSubstream(s);
        if ok {
          ok, items := DecodePacked(sub, f.ltype, max, slot.items);
          slot' := Many(items);
        }
      } else {
        if |slot.items| >= max {
          return false, slot;
        }
        ok, v := DecodeValue(s, f.ltype, Zero(f.ltype));
        slot' := Many(slot.items + [v]);
      }
    case OneOf(_) =>
      ok, v := DecodeValue(s, f.ltype, if f.ltype.SubMessageType? && !slot.chosen then Zero(f.ltype) else slot.value);
      slot' := Union(true, v);
    case Optional =>
      ok, v := DecodeValue(s, f.ltype, slot.value);
      slot' := Opt(true, v);
    case _ =>
      ok, v := DecodeValue(s, f.ltype, slot.value);
      slot' := One(v);
  }

  // ---- messages ----

  /** Walks the iterator to its end to count the required fields, then looks for each. */
  method CheckRequired(iter: FieldIter, seen: set<nat>) returns (ok: bool)
    requires iter.Ok()
    modifies iter
    ensures ok == AllSeen(iter.fields, seen)
  {
    var fields := iter.fields;
    var count: nat := 0;
    if fields != [] {
      var more := true;
      while more
        invariant iter.Ok() && (more ==> iter.pos < |fields|)
        invariant !more ==> count == CountRequired(fields, |fields|)
        decreases if more then |fields| - iter.pos else 0
      {
        count := iter.requiredFieldIndex + if fields[iter.pos].htype.Required? then 1 else 0;
        more := iter.Next();
      }
    }
    if count > PB_MAX_REQUIRED_FIELDS {
      count := PB_MAX_REQUIRED_FIELDS;
    }
    ok := true;
    for i := 0 to count
      invariant ok <==> forall k :: 0 <= k < i ==> k in seen
    {
      if i !in seen {
        ok := false;
      }
    }
  }

  lemma FoundIsFieldOf(fields: seq<Field>, tag: nat, i: nat)
    requires DistinctTags(fields) && i < |fields| && fields[i].tag == tag
    ensures FieldOf(fields, tag, 0) == Some(i)
  {
    FieldFound(fields, i, 0);
  }

  /** One field: read into its slot, or skipped if the message has none of its number. */
  method DecodeOne(s: IStream, d: Desc, iter: FieldIter, dest: seq<Slot>, seen: set<nat>, tag: nat, wire: nat)
      returns (ok: bool, dest': seq<Slot>, seen': set<nat>)
    requires WellFormed(d) && MessageOk(d, dest) && iter.Ok() && iter.fields == d.fields
    modifies s, iter
    ensures iter.Ok()
    ensures var i := FieldOf(d.fields, tag, 0);
            if i.None? then
              && (ok <==> Skip(wire, old(s.data)).Some?)
              && (ok ==> Some(s.data) == Skip(wire, old(s.data)) && dest' == dest && seen' == seen)
            else
              assert TypeFormed(d.fields[i.value].ltype) && SlotOk(d.fields[i.value], dest[i.value]);
              var r := DecSlot(d.fields[i.value], dest[i.value], wire, old(s.data));
              && (ok <==> r.Some?)
              && (ok ==> s.data == r.value.1 && dest' == Store(d.fields, dest, i.value, r.value.0) && seen' == Mark(d.fields, seen, i.value))
    decreases d, 0, 0
  {
    dest', seen' := dest, seen;
    var found := iter.Find(tag);
    if !found {
      ok := SkipField(s, wire);
      return;
    }
    var f := d.fields[iter.pos];
    FoundIsFieldOf(d.fields, tag, iter.pos);
    assert TypeFormed(f.ltype) && SlotOk(f, dest[iter.pos]);
    if f.htype.Required? && iter.requiredFieldIndex < PB_MAX_REQUIRED_FIELDS {
      seen' := seen + {iter.requiredFieldIndex};
    }
    var slot;
    ok, slot := DecodeSlot(s, f, dest[iter.pos], wire);
    dest' := Store(d.fields, dest, iter.pos, slot);
  }

  /** pb_decode_noinit */
  method DecodeMessage(s: IStream, d: Desc, dest: seq<Slot>) returns (ok: bool, dest': seq<Slot>)
    requires WellFormed(d) && MessageOk(d, dest)
    modifies s
    ensures ok <==> DecFields(d, dest, {}, old(s.data)).Some?
    ensures ok ==> DecFields(d, dest, {}, old(s.data)) == Some(dest')
    decreases d, 1, 0
  {
    var iter := new FieldIter(d.fields);
    var seen: set<nat> := {};
    dest' := dest;
    while s.data != []
      invariant fresh(iter) && iter.Ok() && iter.fields == d.fields && MessageOk(d, dest')
      invariant DecFields(d, dest', seen, s.data) == DecFields(d, dest, {}, old(s.data))
      decreases |s.data|
    {
      ghost var slots, before, input := dest', seen, s.data;
      var t;
      ok, t := DecodeVarint32(s);
      if !ok {
        return;
      }
      if t == 0 {
        break;
      }
      ghost var body := s.data;
      ok, dest', seen := DecodeOne(s, d, iter, dest', seen, t / 8, t % 8);
      OneStep(d, slots, before, input, t, body);
      if !ok {
        return;
      }
    }
    ok := CheckRequired(iter, seen);
  }

  /** What one turn of the loop has to do. */
  lemma OneStep(d: Desc, slots: seq<Slot>, seen: set<nat>, input: Bytes, t: nat, body: Bytes)
    requires WellFormed(d) && MessageOk(d, slots) && input != [] && Read32(input) == Some((t, body)) && t != 0
    ensures var i := FieldOf(d.fields, t / 8, 0);
            if i.None? then
              var rest := Skip(t % 8, body);
              DecFields(d, slots, seen, input) == if rest.None? then None else DecFields(d, slots, seen, rest.value)
            else
              assert TypeFormed(d.fields[i.value].ltype) && SlotOk(d.fields[i.value], slots[i.value]);
              var r := DecSlot(d.fields[i.value], slots[i.value], t % 8, body);
              if r.None? then DecFields(d, slots, seen, input) == None
              else
                && MessageOk(d, Store(d.fields, slots, i.value, r.value.0))
                && DecFields(d, slots, seen, input)
                   == DecFields(d, Store(d.fields, slots, i.value, r.value.0), Mark(d.fields, seen, i.value), r.value.1)
  {
    var i := FieldOf(d.fields, t / 8, 0);
    if i.Some? {
      assert TypeFormed(d.fields[i.value].ltype) && SlotOk(d.fields[i.value], slots[i.value]);
      var r := DecSlot(d.fields[i.value], slots[i.value], t % 8, body);
      if r.Some? { StoreOk(d, slots, i.value, r.value.0); }
    }
  }

  /** pb_decode */
  method Decode(s: IStream, d: Desc) returns (ok: bool, dest: seq<Slot>)
    requires WellFormed(d)
    modifies s
    ensures MessageOk(d, Defaults(d)) && (ok <==> DecFields(d, Defaults(d), {}, old(s.data)).Some?)
    ensures ok ==> DecFields(d, Defaults(d), {}, old(s.data)) == Some(dest) && MessageOk(d, dest)
  {
    DefaultsOk(d);
    ok, dest := DecodeMessage(s, d, Defaults(d));
  }
}
