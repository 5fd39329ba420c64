/** The encoder (nanopb/pb_encode.c): submessages and packed arrays are sized by a first
    pass over a stream that only counts, and written by a second one. */
module PbEncode {
  import opened Format
  import opened Fixed
  import opened Tables
  import opened Coding
  import opened Slices
  import opened PbMessages
  import opened PbFormat
  import opened PbCommon

  /** A stream at (w0, o0) was asked to take e: it succeeds exactly when there is
      something to take and room for it, and then has counted, or counted and
      written, exactly that. */
  ghost predicate Emits(writes: bool, max: nat, w0: nat, o0: Bytes, e: Option<Bytes>, ok: bool, w1: nat, o1: Bytes) {
    && (ok <==> e.Some? && (writes ==> w0 + |e.value| <= max))
    && (ok ==> w1 == w0 + |e.value| && o1 == if writes then o0 + e.value else o0)
  }

  lemma EmitsBoth(writes: bool, max: nat, w0: nat, o0: Bytes, a: Option<Bytes>, w1: nat, o1: Bytes,
                  b: Option<Bytes>, ok: bool, w2: nat, o2: Bytes)
    requires Emits(writes, max, w0, o0, a, true, w1, o1) && Emits(writes, max, w1, o1, b, ok, w2, o2)
    ensures Emits(writes, max, w0, o0, Joined(a, b), ok, w2, o2)
  {
    if b.Some? {
      assert o0 + a.value + b.value == o0 + (a.value + b.value);
    }
  }

  lemma EmitsFirst(writes: bool, max: nat, w0: nat, o0: Bytes, a: Option<Bytes>, b: Option<Bytes>, w1: nat, o1: Bytes)
    requires Emits(writes, max, w0, o0, a, false, w1, o1)
    ensures Emits(writes, max, w0, o0, Joined(a, b), false, w1, o1)
  {
  }

  class OStream {
    const writes: bool       // callback != NULL
    const maxSize: nat
    var bytesWritten: nat
    var output: Bytes        // what the callback was given

    constructor (writes: bool, maxSize: nat, output: Bytes)
      ensures this.writes == writes && this.maxSize == maxSize && this.output == output && bytesWritten == 0
    {
      this.writes, this.maxSize, this.output, bytesWritten := writes, maxSize, output, 0;
    }

    ghost predicate Ok()
      reads this
    {
      writes ==> bytesWritten <= maxSize
    }

    method Write(buf: Bytes) returns (ok: bool)
      requires Ok()
      modifies this
      ensures Ok() && Emits(writes, maxSize, old(bytesWritten), old(output), Some(buf), ok, bytesWritten, output)
    {
      if |buf| > 0 && writes {
        if bytesWritten + |buf| > maxSize {
          return false;
        }
        output := output + buf;
      }
      bytesWritten := bytesWritten + |buf|;
      return true;
    }

    /** pb_write of no buffer, on a stream that only counts. */
    method Count(size: nat) returns (ok: bool)
      requires !writes
      modifies this
      ensures ok && bytesWritten == old(bytesWritten) + size && output == old(output)
    {
      bytesWritten := bytesWritten + size;
      ok := true;
    }
  }

  // ---- varints ----

  /** The groups of seven bits, each but the last marked. */
  function Groups(v: nat): Bytes {
    if v == 0 then [] else [(v % 128 + 128) as byte] + Groups(v / 128)
  }

  lemma {:induction false} UnmarkLast(v: nat)
    requires v > 0
    ensures |Groups(v)| > 0 && Groups(v)[|Groups(v)| - 1] >= 128
    ensures var n := |Groups(v)| - 1; Groups(v)[n := Groups(v)[n] - 128] == Varint(v)
    decreases v
  {
    if v >= 128 {
      UnmarkLast(v / 128);
    } else {
      assert Groups(v / 128) == [];
    }
  }

  method EncodeVarint(s: OStream, value: nat) returns (ok: bool)
    requires s.Ok()
    modifies s
    ensures s.Ok() && Emits(s.writes, s.maxSize, old(s.bytesWritten), old(s.output), Some(Varint(value)), ok, s.bytesWritten, s.output)
  {
    if value <= 127 {
      ok := s.Write([value as byte]);
      return;
    }
    var buffer: Bytes := [];
    var v := value;
    while v != 0
      invariant buffer + Groups(v) == Groups(value)
      decreases v
    {
      buffer := buffer + [(v % 128 + 128) as byte];
      v := v / 128;
    }
    UnmarkLast(value);
    assert buffer == Groups(value);
    buffer := buffer[|buffer| - 1 := buffer[|buffer| - 1] - 128];
    ok := s.Write(buffer);
  }

  method EncodeTag(s: OStream, wire: nat, tag: nat) returns (ok: bool)
    requires s.Ok()
    modifies s
    ensures s.Ok() && Emits(s.writes, s.maxSize, old(s.bytesWritten), old(s.output), Some(TagBytes(tag, wire)), ok, s.bytesWritten, s.output)
  {
    ok := EncodeVarint(s, tag * 8 + wire);
  }

  method EncodeString(s: OStream, b: Bytes) returns (ok: bool)
    requires s.Ok()
    modifies s
    ensures s.Ok() && Emits(s.writes, s.maxSize, old(s.bytesWritten), old(s.output), Some(StringBytes(b)), ok, s.bytesWritten, s.output)
  {
    ghost var w0, o0 := s.bytesWritten, s.output;
    ok := EncodeVarint(s, |b|);
    if !ok {
      EmitsFirst(s.writes, s.maxSize, w0, o0, Some(Varint(|b|)), Some(b), s.bytesWritten, s.output);
      return;
    }
    ghost var w1, o1 := s.bytesWritten, s.output;
    ok := s.Write(b);
    EmitsBoth(s.writes, s.maxSize, w0, o0, Some(Varint(|b|)), w1, o1, Some(b), ok, s.bytesWritten, s.output);
  }

  /** pb_enc_bool to pb_enc_fixed64 */
  method EncodeScalar(s: OStream, t: LType, n: int) returns (ok: bool)
    requires s.Ok() && Packable(t) && ValueOk(t, Num(n))
    modifies s
    ensures s.Ok() && Emits(s.writes, s.maxSize, old(s.bytesWritten), old(s.output), Some(Scalar(t, n)), ok, s.bytesWritten, s.output)
  {
    match t
    case BoolType => ok := EncodeVarint(s, n);
    case VarintType(_) => ok := EncodeVarint(s, Cast64(n));
    case UVarintType(_) => ok := EncodeVarint(s, n);
    case SVarintType(_) => ok := EncodeVarint(s, ZigZag(n));
    case Fixed32Type => ok := s.Write(Fixed32(n));
    case Fixed64Type => ok := s.Write(Fixed64(n));
  }

  // ---- values, fields, messages ----

  method EncodeValue(s: OStream, t: LType, v: Value) returns (ok: bool)
    requires s.Ok() && ValueOk(t, v)
    modifies s
    ensures s.Ok() && Emits(s.writes, s.maxSize, old(s.bytesWritten), old(s.output), EncValue(t, v), ok, s.bytesWritten, s.output)
    decreases t, 0, 0
  {
    match t
    case BytesType(max) =>
      if |v.b| > max {
        return false;
      }
      ok := EncodeString(s, v.b);
    case StringType(_) => ok := EncodeString(s, v.b);
    case FixedBytesType(_) => ok := EncodeString(s, v.b);
    case SubMessageType(d) => ok := EncodeSubmessage(s, d, v.slots);
    case _ => ok := EncodeScalar(s, t, v.n);
  }

  ghost function SubBytes(e: Option<Bytes>): Option<Bytes> {
    if e.None? then None else Some(StringBytes(e.value))
  }

  lemma CountedSub(max: nat, w0: nat, o0: Bytes, b: Bytes, w1: nat, o1: Bytes, w2: nat)
    requires Emits(false, max, w0, o0, Some(Varint(|b|)), true, w1, o1) && w2 == w1 + |b|
    ensures Emits(false, max, w0, o0, Some(StringBytes(b)), true, w2, o1)
  {
  }

  lemma WrittenSub(max: nat, w0: nat, o0: Bytes, b: Bytes, w1: nat, o1: Bytes, w2: nat, o2: Bytes)
    requires Emits(true, max, w0, o0, Some(Varint(|b|)), true, w1, o1)
    requires w1 + |b| <= max && Emits(true, |b|, 0, o1, Some(b), true, w2, o2)
    ensures w2 == |b| && Emits(true, max, w0, o0, Some(StringBytes(b)), true, w1 + w2, o2)
  {
    assert o0 + Varint(|b|) + b == o0 + (Varint(|b|) + b);
  }

  /** Two passes: the size first, then the contents, which come to exactly that size. */
  method EncodeSubmessage(s: OStream, d: Desc, slots: seq<Slot>) returns (ok: bool)
    requires s.Ok() && MessageOk(d, slots)
    modifies s
    ensures s.Ok()
    ensures Emits(s.writes, s.maxSize, old(s.bytesWritten), old(s.output), SubBytes(EncMessage(d, slots)), ok, s.bytesWritten, s.output)
    decreases d, 2, 0
  {
    ghost var w0, o0 := s.bytesWritten, s.output;
    var sizing := new OStream(false, 0, []);
    ok := EncodeMessage(sizing, d, slots);
    if !ok {
      return;
    }
    var size := sizing.bytesWritten;
    ghost var e := EncMessage(d, slots).value;
    ok := EncodeVarint(s, size);
    if !ok {
      return;
    }
    ghost var w1, o1 := s.bytesWritten, s.output;
    if !s.writes {
      ok := s.Count(size);
      CountedSub(s.maxSize, w0, o0, e, w1, o1, s.bytesWritten);
      return;
    }
    if s.bytesWritten + size > s.maxSize {
      return false;
    }
    var sub := new OStream(true, size, s.output);
    var status := EncodeMessage(sub, d, slots);
    WrittenSub(s.maxSize, w0, o0, e, w1, o1, sub.bytesWritten, sub.output);
    s.bytesWritten := s.bytesWritten + sub.bytesWritten;
    s.output := sub.output;
    if sub.bytesWritten != size {
      return false;
    }
    return status;
  }

  /** A field's tag and value. */
  method EncodeField(s: OStream, f: Field, v: Value) returns (ok: bool)
    requires s.Ok() && ValueOk(f.ltype, v)
    modifies s
    ensures s.Ok() && Emits(s.writes, s.maxSize, old(s.bytesWritten), old(s.output), EncField(f, v), ok, s.bytesWritten, s.output)
    decreases f, 0, 0
  {
    ghost var w0, o0, tag := s.bytesWritten, s.output, Some(TagBytes(f.tag, WireType(f.ltype)));
    ok := EncodeTag(s, WireType(f.ltype), f.tag);
    if !ok {
      EmitsFirst(s.writes, s.maxSize, w0, o0, tag, EncValue(f.ltype, v), s.bytesWritten, s.output);
      return;
    }
    ghost var w1, o1 := s.bytesWritten, s.output;
    ok := EncodeValue(s, f.ltype, v);
    EmitsBoth(s.writes, s.maxSize, w0, o0, tag, w1, o1, EncValue(f.ltype, v), ok, s.bytesWritten, s.output);
  }

  /** encode_basic_field */
  method EncodeSlot(s: OStream, f: Field, slot: Slot) returns (ok: bool)
    requires s.Ok() && SlotOk(f, slot)
    modifies s
    ensures s.Ok() && Emits(s.writes, s.maxSize, old(s.bytesWritten), old(s.output), EncSlot(f, slot), ok, s.bytesWritten, s.output)
    decreases f, 3, 0
  {
    ok := true;
    match f.htype
    case Required => ok := EncodeField(s, f, slot.value);
    case Optional => if slot.has { ok := EncodeField(s, f, slot.value); }
    case Implicit => if !IsDefaultValue(f.ltype, slot.value) { ok := EncodeField(s, f, slot.value); }
    case OneOf(_) => if slot.chosen { ok := EncodeField(s, f, slot.value); }
    case Repeated(max) => ok := EncodeArray(s, f, max, slot.items);
  }

  lemma FieldsStep(writes: bool, max: nat, w0: nat, o0: Bytes, d: Desc, slots: seq<Slot>, i: nat, w1: nat, o1: Bytes,
                   ok: bool, w2: nat, o2: Bytes)
    requires MessageOk(d, slots) && i < |slots|
    requires Emits(writes, max, w0, o0, EncFields(d, slots, i), true, w1, o1)
    requires Emits(writes, max, w1, o1, EncSlot(d.fields[i], slots[i]), ok, w2, o2)
    ensures Emits(writes, max, w0, o0, EncFields(d, slots, i + 1), ok, w2, o2)
  {
    EmitsBoth(writes, max, w0, o0, EncFields(d, slots, i), w1, o1, EncSlot(d.fields[i], slots[i]), ok, w2, o2);
  }

  /** Once the first fields do not fit, the message does not. */
  lemma {:induction false} FieldsFail(writes: bool, max: nat, w0: nat, o0: Bytes, d: Desc, slots: seq<Slot>, i: nat, n: nat, w1: nat, o1: Bytes)
    requires MessageOk(d, slots) && i <= n <= |slots|
    requires Emits(writes, max, w0, o0, EncFields(d, slots, i), false, w1, o1)
    ensures Emits(writes, max, w0, o0, EncFields(d, slots, n), false, w1, o1)
    decreases n
  {
    if i < n {
      FieldsFail(writes, max, w0, o0, d, slots, i, n - 1, w1, o1);
      EmitsFirst(writes, max, w0, o0, EncFields(d, slots, n - 1), EncSlot(d.fields[n - 1], slots[n - 1]), w1, o1);
    }
  }

  /** pb_encode */
  method EncodeMessage(s: OStream, d: Desc, slots: seq<Slot>) returns (ok: bool)
    requires s.Ok() && MessageOk(d, slots)
    modifies s
    ensures s.Ok() && Emits(s.writes, s.maxSize, old(s.bytesWritten), old(s.output), EncMessage(d, slots), ok, s.bytesWritten, s.output)
    decreases d, 1, 0
  {
    var iter := new FieldIter(d.fields);
    if d.fields == [] {
      return true;
    }
    ghost var w0, o0 := s.bytesWritten, s.output;
    var more := true;
    while more
      invariant fresh(iter) && iter.Ok() && iter.fields == d.fields && s.Ok()
      invariant more ==> Emits(s.writes, s.maxSize, w0, o0, EncFields(d, slots, iter.pos), true, s.bytesWritten, s.output)
      invariant !more ==> Emits(s.writes, s.maxSize, w0, o0, EncMessage(d, slots), true, s.bytesWritten, s.output)
      decreases if more then |slots| - iter.pos else 0
    {
      ghost var i, w1, o1 := iter.pos, s.bytesWritten, s.output;
      ok := EncodeSlot(s, d.fields[iter.pos], slots[iter.pos]);
      FieldsStep(s.writes, s.maxSize, w0, o0, d, slots, i, w1, o1, ok, s.bytesWritten, s.output);
      if !ok {
        FieldsFail(s.writes, s.maxSize, w0, o0, d, slots, i + 1, |slots|, s.bytesWritten, s.output);
        return;
      }
      more := iter.Next();
    }
    ok := true;
  }

  // ---- arrays ----

  /** Fixed-size items need no sizing pass. */
  lemma {:induction false} FixedSizes(t: LType, items: seq<Value>)
    requires (t.Fixed32Type? || t.Fixed64Type?) && forall v :: v in items ==> ValueOk(t, v)
    ensures EncPacked(t, items).Some? && |EncPacked(t, items).value| == (if t.Fixed32Type? then 4 else 8) * |items|
    decreases |items|
  {
    if items != [] {
      FixedSizes(t, items[..|items| - 1]);
    }
  }

  lemma PackedStep(writes: bool, max: nat, w0: nat, o0: Bytes, t: LType, items: seq<Value>, i: nat, w1: nat, o1: Bytes,
                   ok: bool, w2: nat, o2: Bytes)
    requires i < |items| && forall v :: v in items ==> ValueOk(t, v)
    requires Emits(writes, max, w0, o0, EncPacked(t, items[..i]), true, w1, o1)
    requires Emits(writes, max, w1, o1, EncValue(t, items[i]), ok, w2, o2)
    ensures Emits(writes, max, w0, o0, EncPacked(t, items[..i + 1]), ok, w2, o2)
  {
    assert items[..i + 1][..i] == items[..i];
    EmitsBoth(writes, max, w0, o0, EncPacked(t, items[..i]), w1, o1, EncValue(t, items[i]), ok, w2, o2);
  }

  lemma {:induction false} PackedFail(writes: bool, max: nat, w0: nat, o0: Bytes, t: LType, items: seq<Value>, i: nat, n: nat, w1: nat, o1: Bytes)
    requires i <= n <= |items| && forall v :: v in items ==> ValueOk(t, v)
    requires Emits(writes, max, w0, o0, EncPacked(t, items[..i]), false, w1, o1)
    ensures Emits(writes, max, w0, o0, EncPacked(t, items[..n]), false, w1, o1)
    decreases n
  {
    if i < n {
      PackedFail(writes, max, w0, o0, t, items, i, n - 1, w1, o1);
      assert items[..n][..n - 1] == items[..n - 1];
      EmitsFirst(writes, max, w0, o0, EncPacked(t, items[..n - 1]), EncValue(t, items[n - 1]), w1, o1);
    }
  }

  /** One item after the other. */
  method EncodePacked(s: OStream, t: LType, items: seq<Value>) returns (ok: bool)
    requires s.Ok() && forall v :: v in items ==> ValueOk(t, v)
    modifies s
    ensures s.Ok() && Emits(s.writes, s.maxSize, old(s.bytesWritten), old(s.output), EncPacked(t, items), ok, s.bytesWritten, s.output)
    decreases t, 1, 0
  {
    ghost var w0, o0 := s.bytesWritten, s.output;
    assert items[..0] == [] && items[..|items|] == items;
    for i := 0 to |items|
      invariant s.Ok() && Emits(s.writes, s.maxSize, w0, o0, EncPacked(t, items[..i]), true, s.bytesWritten, s.output)
    {
      ghost var w1, o1 := s.bytesWritten, s.output;
      ok := EncodeValue(s, t, items[i]);
      PackedStep(s.writes, s.maxSize, w0, o0, t, items, i, w1, o1, ok, s.bytesWritten, s.output);
      if !ok {
        PackedFail(s.writes, s.maxSize, w0, o0, t, items, i + 1, |items|, s.bytesWritten, s.output);
        return;
      }
    }
    ok := true;
  }

  /** The size of a packed array: known for fixed-size items, else counted. */
  method SizePacked(t: LType, items: seq<Value>) returns (ok: bool, size: nat)
    requires forall v :: v in items ==> ValueOk(t, v)
    ensures ok <==> EncPacked(t, items).Some?
    ensures ok ==> size == |EncPacked(t, items).value|
    decreases t, 2, 0
  {
    if t.Fixed32Type? || t.Fixed64Type? {
      FixedSizes(t, items);
      return true, (if t.Fixed32Type? then 4 else 8) * |items|;
    }
    var sizing := new OStream(false, 0, []);
    ok := EncodePacked(sizing, t, items);
    size := sizing.bytesWritten;
  }

  /** The packed array behind its size. */
  method EncodePackedString(s: OStream, t: LType, items: seq<Value>) returns (ok: bool)
    requires s.Ok() && forall v :: v in items ==> ValueOk(t, v)
    modifies s
    ensures s.Ok()
    ensures Emits(s.writes, s.maxSize, old(s.bytesWritten), old(s.output), SubBytes(EncPacked(t, items)), ok, s.bytesWritten, s.output)
    decreases t, 3, 0
  {
    ghost var w0, o0 := s.bytesWritten, s.output;
    var size;
    ok, size := SizePacked(t, items);
    if !ok {
      return;
    }
    ghost var e := EncPacked(t, items).value;
    ok := EncodeVarint(s, size);
    if !ok {
      return;
    }
    ghost var w1, o1 := s.bytesWritten, s.output;
    if !s.writes {
      ok := s.Count(size);
      CountedSub(s.maxSize, w0, o0, e, w1, o1, s.bytesWritten);
      return;
    }
    ok := EncodePacked(s, t, items);
    EmitsBoth(s.writes, s.maxSize, w0, o0, Some(Varint(size)), w1, o1, Some(e), ok, s.bytesWritten, s.output);
  }

  lemma UnpackedStep(writes: bool, max: nat, w0: nat, o0: Bytes, f: Field, items: seq<Value>, i: nat, w1: nat, o1: Bytes,
                     ok: bool, w2: nat, o2: Bytes)
    requires i < |items| && forall v :: v in items ==> ValueOk(f.ltype, v)
    requires Emits(writes, max, w0, o0, EncUnpacked(f, items[..i]), true, w1, o1)
    requires Emits(writes, max, w1, o1, EncField(f, items[i]), ok, w2, o2)
    ensures Emits(writes, max, w0, o0, EncUnpacked(f, items[..i + 1]), ok, w2, o2)
  {
    assert items[..i + 1][..i] == items[..i];
    EmitsBoth(writes, max, w0, o0, EncUnpacked(f, items[..i]), w1, o1, EncField(f, items[i]), ok, w2, o2);
  }

  lemma {:induction false} UnpackedFail(writes: bool, max: nat, w0: nat, o0: Bytes, f: Field, items: seq<Value>, i: nat, n: nat, w1: nat, o1: Bytes)
    requires i <= n <= |items| && forall v :: v in items ==> ValueOk(f.ltype, v)
    requires Emits(writes, max, w0, o0, EncUnpacked(f, items[..i]), false, w1, o1)
    ensures Emits(writes, max, w0, o0, EncUnpacked(f, items[..n]), false, w1, o1)
    decreases n
  {
    if i < n {
      UnpackedFail(writes, max, w0, o0, f, items, i, n - 1, w1, o1);
      assert items[..n][..n - 1] == items[..n - 1];
      EmitsFirst(writes, max, w0, o0, EncUnpacked(f, items[..n - 1]), EncField(f, items[n - 1]), w1, o1);
    }
  }

  method EncodeUnpacked(s: OStream, f: Field, items: seq<Value>) returns (ok: bool)
    requires s.Ok() && forall v :: v in items ==> ValueOk(f.ltype, v)
    modifies s
    ensures s.Ok() && Emits(s.writes, s.maxSize, old(s.bytesWritten), old(s.output), EncUnpacked(f, items), ok, s.bytesWritten, s.output)
    decreases f, 1, 0
  {
    ghost var w0, o0 := s.bytesWritten, s.output;
    assert items[..0] == [] && items[..|items|] == items;
    for i := 0 to |items|
      invariant s.Ok() && Emits(s.writes, s.maxSize, w0, o0, EncUnpacked(f, items[..i]), true, s.bytesWritten, s.output)
    {
      ghost var w1, o1 := s.bytesWritten, s.output;
      ok := EncodeField(s, f, items[i]);
      UnpackedStep(s.writes, s.maxSize, w0, o0, f, items, i, w1, o1, ok, s.bytesWritten, s.output);
      if !ok {
        UnpackedFail(s.writes, s.maxSize, w0, o0, f, items, i + 1, |items|, s.bytesWritten, s.output);
        return;
      }
    }
    ok := true;
  }

  /** encode_array */
  method EncodeArray(s: OStream, f: Field, max: nat, items: seq<Value>) returns (ok: bool)
    requires s.Ok() && forall v :: v in items ==> ValueOk(f.ltype, v)
    modifies s
    ensures s.Ok() && Emits(s.writes, s.maxSize, old(s.bytesWritten), old(s.output), EncArray(f, max, items), ok, s.bytesWritten, s.output)
    decreases f, 2, 0
  {
    if items == [] {
      return true;
    }
    if |items| > max {
      return false;
    }
    if !Packable(f.ltype) {
      ok := EncodeUnpacked(s, f, items);
      return;
    }
    ghost var w0, o0, tag, packed := s.bytesWritten, s.output, Some(TagBytes(f.tag, WT_STRING)), SubBytes(EncPacked(f.ltype, items));
    ok := EncodeTag(s, WT_STRING, f.tag);
    if !ok {
      EmitsFirst(s.writes, s.maxSize, w0, o0, tag, packed, s.bytesWritten, s.output);
      return;
    }
    ghost var w1, o1 := s.bytesWritten, s.output;
    ok := EncodePackedString(s, f.ltype, items);
    EmitsBoth(s.writes, s.maxSize, w0, o0, tag, w1, o1, packed, ok, s.bytesWritten, s.output);
  }

  /** pb_get_encoded_size: what pb_encode would write. */
  method GetEncodedSize(d: Desc, slots: seq<Slot>) returns (ok: bool, size: nat)
    requires MessageOk(d, slots)
    ensures ok <==> EncMessage(d, slots).Some?
    ensures ok ==> size == |EncMessage(d, slots).value|
  {
    var stream := new OStream(false, 0, []);
    ok := EncodeMessage(stream, d, slots);
    size := stream.bytesWritten;
  }

  /** Into a buffer: succeeds exactly when the size the sizing pass gives fits. */
  method EncodeToBuffer(d: Desc, slots: seq<Slot>, bufferSize: nat) returns (ok: bool, bytes: Bytes)
    requires MessageOk(d, slots)
    ensures ok <==> EncMessage(d, slots).Some? && |EncMessage(d, slots).value| <= bufferSize
    ensures ok ==> bytes == EncMessage(d, slots).value
  {
    var stream := new OStream(true, bufferSize, []);
    ok := EncodeMessage(stream, d, slots);
    bytes := stream.output;
  }
}
