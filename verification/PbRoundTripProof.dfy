/** The proof that decoding undoes encoding: value by value, slot by slot, message by
    message. */
module PbRoundTripProof {
  import opened Format
  import opened Fixed
  import opened Tables
  import opened Sequences
  import opened Slices
  import opened PbMessages
  import opened PbFormat
  import opened PbCommon
  import opened PbParse
  import opened PbScalars
  import opened PbRoundTrip

  // ---- one field on the wire ----

  lemma TagBack(tag: nat, wire: nat, rest: Bytes)
    requires 0 < tag < 0x2000_0000 && wire < 8
    ensures Read32(TagBytes(tag, wire) + rest) == Some((tag * 8 + wire, rest))
    ensures (tag * 8 + wire) / 8 == tag && (tag * 8 + wire) % 8 == wire
  {
    Read32Back(tag * 8 + wire, rest);
  }

  ghost function AfterSlot(d: Desc, cur: seq<Slot>, seen: set<nat>, i: nat, r: Taken<Slot>): Option<seq<Slot>>
    requires WellFormed(d) && MessageOk(d, cur) && i < |cur|
    requires r.Some? ==> SlotOk(d.fields[i], r.value.0)
  {
    if r.None? then None
    else
      StoreOk(d, cur, i, r.value.0);
      DecFields(d, Store(d.fields, cur, i, r.value.0), Mark(d.fields, seen, i), r.value.1)
  }

  /** A field's tag leads to its slot. */
  lemma FieldStep(d: Desc, cur: seq<Slot>, seen: set<nat>, i: nat, wire: nat, rest: Bytes)
    requires WellFormed(d) && TagsFit(d) && MessageOk(d, cur) && i < |cur| && wire < 8
    ensures TypeFormed(d.fields[i].ltype) && SlotOk(d.fields[i], cur[i])
    ensures DecFields(d, cur, seen, TagBytes(d.fields[i].tag, wire) + rest)
         == AfterSlot(d, cur, seen, i, DecSlot(d.fields[i], cur[i], wire, rest))
  {
    var f := d.fields[i];
    assert TagFits(f) && TypeFormed(f.ltype) && SlotOk(f, cur[i]);
    TagBack(f.tag, wire, rest);
    FieldFound(d.fields, i, 0);
  }

  // ---- packed arrays ----

  lemma PackedItem(t: LType, max: nat, have: seq<Value>, v: Value, rest: Bytes)
    requires Packable(t) && |have| < max && ValueOk(t, v) && forall x :: x in have ==> ValueOk(t, x)
    ensures EncValue(t, v).Some? && DecPacked(t, max, have, EncValue(t, v).value + rest) == DecPacked(t, max, have + [v], rest)
  {
    ScalarBack(t, v.n, rest);
    assert v == Num(v.n);
  }

  /** The items decode one after the other. */
  lemma {:induction false} PackedBack(t: LType, max: nat, items: seq<Value>, rest: Bytes)
    requires Packable(t) && |items| <= max && forall v :: v in items ==> ValueOk(t, v)
    ensures EncPacked(t, items).Some? && DecPacked(t, max, [], EncPacked(t, items).value + rest) == DecPacked(t, max, items, rest)
    decreases |items|
  {
    if items == [] {
      assert EncPacked(t, items).value + rest == rest;
    } else {
      var init, v := items[..|items| - 1], items[|items| - 1];
      PackedItem(t, max, init, v, rest);
      PackedBack(t, max, init, EncValue(t, v).value + rest);
      Regroup(EncPacked(t, init).value, EncValue(t, v).value, rest);
      assert init + [v] == items;
    }
  }

  lemma {:induction false} PackedTerminated(t: LType, items: seq<Value>)
    requires Packable(t) && forall v :: v in items ==> ValueOk(t, v)
    ensures ItemsTerminated(t, items) && NormItems(t, items) == items
    decreases |items|
  {
    if items != [] {
      PackedTerminated(t, items[..|items| - 1]);
    }
  }

  /** A packed array comes back whole. */
  lemma PackedSlot(f: Field, items: seq<Value>, rest: Bytes)
    requires f.htype.Repeated? && Packable(f.ltype) && |items| <= f.htype.max && SlotOk(f, Many(items))
    requires EncPacked(f.ltype, items).Some? ==> |EncPacked(f.ltype, items).value| < TWO32
    ensures EncPacked(f.ltype, items).Some?
    ensures DecSlot(f, Many([]), WT_STRING, StringBytes(EncPacked(f.ltype, items).value) + rest) == Some((Many(items), rest))
  {
    PackedBack(f.ltype, f.htype.max, items, []);
    var b := EncPacked(f.ltype, items).value;
    assert b + [] == b;
    SubBack(b, rest);
  }

  // ---- how far a message has come back ----

  /** The first i slots as they come back, the others still at their defaults. */
  ghost function Partial(d: Desc, slots: seq<Slot>, i: nat): (r: seq<Slot>)
    requires MessageOk(d, slots) && i <= |slots|
    ensures |r| == |slots|
  {
    seq(|slots|, j requires 0 <= j < |slots| => if j < i then NormSlot(d.fields[j], slots[j]) else DefaultSlot(d.fields[j]))
  }

  lemma PartialOk(d: Desc, slots: seq<Slot>, i: nat)
    requires WellFormed(d) && MessageOk(d, slots) && i <= |slots|
    ensures MessageOk(d, Partial(d, slots, i))
  {
    forall j | 0 <= j < |slots| ensures SlotOk(d.fields[j], Partial(d, slots, i)[j]) {
      NormSlotOk(d, slots, j);
      DefaultSlotOk(d, j);
    }
  }

  ghost function Seen(fields: seq<Field>, i: nat): set<nat>
    requires i <= |fields|
  {
    if i == 0 then {} else Mark(fields, Seen(fields, i - 1), i - 1)
  }

  lemma {:induction false} SeenCounts(fields: seq<Field>, i: nat, k: nat)
    requires i <= |fields| && k < CountRequired(fields, i) && k < PB_MAX_REQUIRED_FIELDS
    ensures k in Seen(fields, i)
    decreases i
  {
    if k < CountRequired(fields, i - 1) {
      SeenCounts(fields, i - 1, k);
    }
  }

  lemma SeenAll(fields: seq<Field>)
    ensures AllSeen(fields, Seen(fields, |fields|))
  {
    forall k | 0 <= k < CountRequired(fields, |fields|) && k < PB_MAX_REQUIRED_FIELDS ensures k in Seen(fields, |fields|) {
      SeenCounts(fields, |fields|, k);
    }
  }

  /** Another field of a chosen one's oneof is unchosen, before and after. */
  lemma GroupAgrees(d: Desc, slots: seq<Slot>, i: nat, j: nat)
    requires MessageOk(d, slots) && OneChosen(d, slots) && i < |slots| && j < |slots| && i != j
    requires d.fields[i].htype.OneOf? && d.fields[i].htype == d.fields[j].htype && Chosen(d, slots, i)
    ensures SlotOk(d.fields[j], slots[j]) && NormSlot(d.fields[j], slots[j]) == Union(false, Zero(d.fields[j].ltype))
  {
    assert !Chosen(d, slots, j);
  }

  /** Storing slot i moves on by one. */
  lemma PartialNext(d: Desc, slots: seq<Slot>, i: nat)
    requires WellFormed(d) && MessageOk(d, slots) && OneChosen(d, slots) && i < |slots|
    requires d.fields[i].htype.OneOf? ==> Chosen(d, slots, i)
    ensures Store(d.fields, Partial(d, slots, i), i, NormSlot(d.fields[i], slots[i])) == Partial(d, slots, i + 1)
  {
    var f, p := d.fields[i], Partial(d, slots, i);
    var r := Store(d.fields, p, i, NormSlot(f, slots[i]));
    forall j | 0 <= j < |slots| ensures r[j] == Partial(d, slots, i + 1)[j] {
      if f.htype.OneOf? && j != i && d.fields[j].htype == f.htype {
        GroupAgrees(d, slots, i, j);
      }
    }
  }

  /** A slot that is not encoded is at its default already. */
  lemma PartialSkips(d: Desc, slots: seq<Slot>, i: nat)
    requires MessageOk(d, slots) && i < |slots| && NormSlot(d.fields[i], slots[i]) == DefaultSlot(d.fields[i])
    requires !d.fields[i].htype.Required?
    ensures Partial(d, slots, i) == Partial(d, slots, i + 1) && Seen(d.fields, i) == Seen(d.fields, i + 1)
  {
    forall j | 0 <= j < |slots| ensures Partial(d, slots, i)[j] == Partial(d, slots, i + 1)[j] {
    }
  }

  // ---- values ----

  /** Into a place at its default, a value comes back, unless a string in it is not
      terminated. */
  lemma {:induction false} ValueBack(t: LType, v: Value, was: Value, rest: Bytes)
    requires TypeFormed(t) && TypeFits(t) && ValueOk(t, v) && ValueChosen(t, v)
    requires ValueOk(t, was) && (t.SubMessageType? ==> was == Zero(t))
    requires EncValue(t, v).Some? && |EncValue(t, v).value| < TWO32
    ensures DecValue(t, was, EncValue(t, v).value + rest)
         == if ValueTerminated(t, v) then Some((NormValue(t, v), rest)) else None
    decreases t, 0, 0
  {
    if t.SubMessageType? {
      var e := EncMessage(t.desc, v.slots).value;
      SubBack(e, rest);
      MessageBack(t.desc, v.slots);
    } else if Packable(t) {
      ScalarBack(t, v.n, rest);
    } else {
      TextBack(t, v.b, rest);
    }
  }

  // ---- slots ----

  ghost predicate Encoded(f: Field, s: Slot)
    requires SlotOk(f, s)
  {
    match f.htype
    case Required => true
    case Implicit => !IsDefaultValue(f.ltype, s.value)
    case Optional => s.has
    case OneOf(_) => s.chosen
    case Repeated(_) => false
  }

  /** A field of one value comes back into its slot. */
  lemma {:induction false} DecOne(f: Field, s: Slot, rest: Bytes)
    requires TypeFormed(f.ltype) && TypeFits(f.ltype) && SlotOk(f, s) && SlotChosen(f, s) && Encoded(f, s)
    requires SlotOk(f, DefaultSlot(f))
    requires EncValue(f.ltype, s.value).Some? && |EncValue(f.ltype, s.value).value| < TWO32
    ensures DecSlot(f, DefaultSlot(f), WireType(f.ltype), EncValue(f.ltype, s.value).value + rest)
         == if SlotTerminated(f, s) then Some((NormSlot(f, s), rest)) else None
    decreases f, 0, 0
  {
    FormedZero(f.ltype);
    ValueBack(f.ltype, s.value, DefaultSlot(f).value, rest);
  }

  lemma {:induction false} OneBack(d: Desc, slots: seq<Slot>, i: nat, rest: Bytes)
    requires WellFormed(d) && TagsFit(d) && MessageOk(d, slots) && OneChosen(d, slots) && i < |slots|
    requires SlotOk(d.fields[i], slots[i]) && Encoded(d.fields[i], slots[i])
    requires EncSlot(d.fields[i], slots[i]).Some? && |EncSlot(d.fields[i], slots[i]).value| < TWO32
    requires MessageOk(d, Partial(d, slots, i)) && MessageOk(d, Partial(d, slots, i + 1))
    ensures DecFields(d, Partial(d, slots, i), Seen(d.fields, i), EncSlot(d.fields[i], slots[i]).value + rest)
         == if SlotTerminated(d.fields[i], slots[i]) then DecFields(d, Partial(d, slots, i + 1), Seen(d.fields, i + 1), rest) else None
    decreases d.fields[i], 1, 0
  {
    var f, s, cur := d.fields[i], slots[i], Partial(d, slots, i);
    assert TagFits(f) && TypeFormed(f.ltype) && SlotChosen(f, s);
    assert cur[i] == DefaultSlot(f) && SlotOk(f, cur[i]);
    var tag, value := TagBytes(f.tag, WireType(f.ltype)), EncValue(f.ltype, s.value).value;
    Regroup(tag, value, rest);
    FieldStep(d, cur, Seen(d.fields, i), i, WireType(f.ltype), value + rest);
    DecOne(f, s, rest);
    PartialNext(d, slots, i);
  }

  // ---- arrays ----

  lemma {:induction false} ItemBack(f: Field, have: seq<Value>, v: Value, rest: Bytes)
    requires f.htype.Repeated? && !Packable(f.ltype) && |have| < f.htype.max && SlotOk(f, Many(have))
    requires TypeFormed(f.ltype) && TypeFits(f.ltype) && ValueOk(f.ltype, v) && ValueChosen(f.ltype, v)
    requires EncValue(f.ltype, v).Some? && |EncValue(f.ltype, v).value| < TWO32
    ensures DecSlot(f, Many(have), WireType(f.ltype), EncValue(f.ltype, v).value + rest)
         == if ValueTerminated(f.ltype, v) then Some((Many(have + [NormValue(f.ltype, v)]), rest)) else None
    decreases f, 0, 0
  {
    FormedZero(f.ltype);
    ValueBack(f.ltype, v, Zero(f.ltype), rest);
  }

  /** Slot i with the first j of its items back. */
  ghost function Filled(d: Desc, slots: seq<Slot>, i: nat, j: nat): seq<Slot>
    requires MessageOk(d, slots) && i < |slots| && SlotOk(d.fields[i], slots[i]) && slots[i].Many? && j <= |slots[i].items|
    requires d.fields[i].htype.Repeated?
  {
    Partial(d, slots, i)[i := Many(NormItems(d.fields[i].ltype, slots[i].items[..j]))]
  }

  lemma FilledOk(d: Desc, slots: seq<Slot>, i: nat, j: nat)
    requires WellFormed(d) && MessageOk(d, slots) && i < |slots|
    requires d.fields[i].htype.Repeated? && SlotOk(d.fields[i], slots[i]) && j <= |slots[i].items|
    ensures MessageOk(d, Filled(d, slots, i, j))
  {
    var f, items := d.fields[i], slots[i].items[..j];
    PartialOk(d, slots, i);
    assert TypeFormed(f.ltype);
    forall k | 0 <= k < j ensures ValueOk(f.ltype, NormItems(f.ltype, items)[k]) {
      NormValueOk(f.ltype, items[k]);
    }
  }

  lemma FilledNext(d: Desc, slots: seq<Slot>, i: nat, j: nat)
    requires WellFormed(d) && MessageOk(d, slots) && i < |slots|
    requires d.fields[i].htype.Repeated? && SlotOk(d.fields[i], slots[i]) && j < |slots[i].items|
    ensures Store(d.fields, Filled(d, slots, i, j), i, Many(NormItems(d.fields[i].ltype, slots[i].items[..j]) + [NormValue(d.fields[i].ltype, slots[i].items[j])]))
         == Filled(d, slots, i, j + 1)
  {
    var f, items := d.fields[i], slots[i].items;
    assert NormItems(f.ltype, items[..j + 1]) == NormItems(f.ltype, items[..j]) + [NormValue(f.ltype, items[j])];
  }

  lemma FilledEnds(d: Desc, slots: seq<Slot>, i: nat)
    requires WellFormed(d) && MessageOk(d, slots) && i < |slots|
    requires d.fields[i].htype.Repeated? && SlotOk(d.fields[i], slots[i])
    ensures Filled(d, slots, i, 0) == Partial(d, slots, i)
    ensures Filled(d, slots, i, |slots[i].items|) == Partial(d, slots, i + 1)
    ensures Seen(d.fields, i + 1) == Seen(d.fields, i)
  {
    var items := slots[i].items;
    assert items[..|items|] == items;
    assert NormItems(d.fields[i].ltype, items[..0]) == [] && Partial(d, slots, i)[i] == Many([]);
  }

  /** An item more of an array that is not packed. */
  lemma {:induction false} UnpackedNext(d: Desc, slots: seq<Slot>, i: nat, j: nat, rest: Bytes)
    requires WellFormed(d) && TagsFit(d) && MessageOk(d, slots) && OneChosen(d, slots) && i < |slots|
    requires d.fields[i].htype.Repeated? && !Packable(d.fields[i].ltype) && SlotOk(d.fields[i], slots[i])
    requires j < |slots[i].items| <= d.fields[i].htype.max
    requires EncField(d.fields[i], slots[i].items[j]).Some? && |EncField(d.fields[i], slots[i].items[j]).value| < TWO32
    requires MessageOk(d, Filled(d, slots, i, j)) && MessageOk(d, Filled(d, slots, i, j + 1))
    ensures DecFields(d, Filled(d, slots, i, j), Seen(d.fields, i), EncField(d.fields[i], slots[i].items[j]).value + rest)
         == if ValueTerminated(d.fields[i].ltype, slots[i].items[j])
            then DecFields(d, Filled(d, slots, i, j + 1), Seen(d.fields, i), rest) else None
    decreases d.fields[i], 1, 0
  {
    var f, v, cur := d.fields[i], slots[i].items[j], Filled(d, slots, i, j);
    assert TagFits(f) && TypeFormed(f.ltype) && SlotChosen(f, slots[i]) && ValueChosen(f.ltype, v);
    var have := NormItems(f.ltype, slots[i].items[..j]);
    assert cur[i] == Many(have) && SlotOk(f, cur[i]);
    var tag, value := TagBytes(f.tag, WireType(f.ltype)), EncValue(f.ltype, v).value;
    Regroup(tag, value, rest);
    FieldStep(d, cur, Seen(d.fields, i), i, WireType(f.ltype), value + rest);
    ItemBack(f, have, v, rest);
    FilledNext(d, slots, i, j);
  }

  lemma {:induction false} UnpackedBack(d: Desc, slots: seq<Slot>, i: nat, j: nat, rest: Bytes)
    requires WellFormed(d) && TagsFit(d) && MessageOk(d, slots) && OneChosen(d, slots) && i < |slots|
    requires d.fields[i].htype.Repeated? && !Packable(d.fields[i].ltype) && SlotOk(d.fields[i], slots[i])
    requires j <= |slots[i].items| <= d.fields[i].htype.max
    requires EncUnpacked(d.fields[i], slots[i].items[..j]).Some? && |EncUnpacked(d.fields[i], slots[i].items[..j]).value| < TWO32
    requires MessageOk(d, Filled(d, slots, i, 0)) && MessageOk(d, Filled(d, slots, i, j))
    ensures DecFields(d, Filled(d, slots, i, 0), Seen(d.fields, i), EncUnpacked(d.fields[i], slots[i].items[..j]).value + rest)
         == if ItemsTerminated(d.fields[i].ltype, slots[i].items[..j])
            then DecFields(d, Filled(d, slots, i, j), Seen(d.fields, i), rest) else None
    decreases d.fields[i], 2, j
  {
    var f, items := d.fields[i], slots[i].items[..j];
    if j == 0 {
      assert EncUnpacked(f, items).value + rest == rest;
    } else {
      var init, v := slots[i].items[..j - 1], slots[i].items[j - 1];
      assert items[..j - 1] == init && items[j - 1] == v;
      FilledOk(d, slots, i, j - 1);
      Regroup(EncUnpacked(f, init).value, EncField(f, v).value, rest);
      UnpackedBack(d, slots, i, j - 1, EncField(f, v).value + rest);
      UnpackedNext(d, slots, i, j - 1, rest);
    }
  }

  /** An array comes back, packed or not. */
  lemma {:induction false} ArrayBack(d: Desc, slots: seq<Slot>, i: nat, rest: Bytes)
    requires WellFormed(d) && TagsFit(d) && MessageOk(d, slots) && OneChosen(d, slots) && i < |slots|
    requires d.fields[i].htype.Repeated? && SlotOk(d.fields[i], slots[i])
    requires EncSlot(d.fields[i], slots[i]).Some? && |EncSlot(d.fields[i], slots[i]).value| < TWO32
    requires MessageOk(d, Partial(d, slots, i)) && MessageOk(d, Partial(d, slots, i + 1))
    ensures DecFields(d, Partial(d, slots, i), Seen(d.fields, i), EncSlot(d.fields[i], slots[i]).value + rest)
         == if SlotTerminated(d.fields[i], slots[i]) then DecFields(d, Partial(d, slots, i + 1), Seen(d.fields, i + 1), rest) else None
    decreases d.fields[i], 3, 0
  {
    var f, items := d.fields[i], slots[i].items;
    FilledEnds(d, slots, i);
    if items == [] {
      assert EncSlot(f, slots[i]).value + rest == rest;
    } else if Packable(f.ltype) {
      PackedArrayBack(d, slots, i, rest);
    } else {
      assert items[..|items|] == items;
      UnpackedBack(d, slots, i, |items|, rest);
    }
  }

  lemma PackedArrayBack(d: Desc, slots: seq<Slot>, i: nat, rest: Bytes)
    requires WellFormed(d) && TagsFit(d) && MessageOk(d, slots) && i < |slots|
    requires d.fields[i].htype.Repeated? && Packable(d.fields[i].ltype) && SlotOk(d.fields[i], slots[i]) && slots[i].items != []
    requires EncSlot(d.fields[i], slots[i]).Some? && |EncSlot(d.fields[i], slots[i]).value| < TWO32
    requires MessageOk(d, Partial(d, slots, i)) && MessageOk(d, Partial(d, slots, i + 1))
    ensures SlotTerminated(d.fields[i], slots[i])
    ensures DecFields(d, Partial(d, slots, i), Seen(d.fields, i), EncSlot(d.fields[i], slots[i]).value + rest)
         == DecFields(d, Partial(d, slots, i + 1), Seen(d.fields, i + 1), rest)
  {
    var f, items, cur := d.fields[i], slots[i].items, Partial(d, slots, i);
    PackedTerminated(f.ltype, items);
    var tag, value := TagBytes(f.tag, WT_STRING), StringBytes(EncPacked(f.ltype, items).value);
    assert cur[i] == Many([]);
    Regroup(tag, value, rest);
    FieldStep(d, cur, Seen(d.fields, i), i, WT_STRING, value + rest);
    PackedSlot(f, items, rest);
    FilledEnds(d, slots, i);
    PartialNext0(d, slots, i);
  }

  lemma PartialNext0(d: Desc, slots: seq<Slot>, i: nat)
    requires WellFormed(d) && MessageOk(d, slots) && i < |slots| && !d.fields[i].htype.OneOf?
    ensures Store(d.fields, Partial(d, slots, i), i, NormSlot(d.fields[i], slots[i])) == Partial(d, slots, i + 1)
  {
  }

  // ---- messages ----

  /** Slot by slot. */
  lemma {:induction false} SlotBack(d: Desc, slots: seq<Slot>, i: nat, rest: Bytes)
    requires WellFormed(d) && TagsFit(d) && MessageOk(d, slots) && OneChosen(d, slots) && i < |slots|
    requires SlotOk(d.fields[i], slots[i])
    requires EncSlot(d.fields[i], slots[i]).Some? && |EncSlot(d.fields[i], slots[i]).value| < TWO32
    requires MessageOk(d, Partial(d, slots, i)) && MessageOk(d, Partial(d, slots, i + 1))
    ensures DecFields(d, Partial(d, slots, i), Seen(d.fields, i), EncSlot(d.fields[i], slots[i]).value + rest)
         == if SlotTerminated(d.fields[i], slots[i]) then DecFields(d, Partial(d, slots, i + 1), Seen(d.fields, i + 1), rest) else None
    decreases d.fields[i], 4, 0
  {
    var f, s := d.fields[i], slots[i];
    if f.htype.Repeated? {
      ArrayBack(d, slots, i, rest);
    } else if Encoded(f, s) {
      OneBack(d, slots, i, rest);
    } else {
      PartialSkips(d, slots, i);
      assert EncSlot(f, s).value + rest == rest;
    }
  }

  lemma {:induction false} FieldsBack(d: Desc, slots: seq<Slot>, i: nat, rest: Bytes)
    requires WellFormed(d) && TagsFit(d) && MessageOk(d, slots) && OneChosen(d, slots) && i <= |slots|
    requires EncFields(d, slots, i).Some? && |EncFields(d, slots, i).value| < TWO32
    requires MessageOk(d, Partial(d, slots, 0)) && MessageOk(d, Partial(d, slots, i))
    ensures DecFields(d, Partial(d, slots, 0), {}, EncFields(d, slots, i).value + rest)
         == if FieldsTerminated(d, slots, i) then DecFields(d, Partial(d, slots, i), Seen(d.fields, i), rest) else None
    decreases d, 0, i
  {
    if i == 0 {
      assert EncFields(d, slots, 0).value + rest == rest;
    } else {
      var e, more := EncFields(d, slots, i - 1).value, EncSlot(d.fields[i - 1], slots[i - 1]).value;
      PartialOk(d, slots, i - 1);
      Regroup(e, more, rest);
      FieldsBack(d, slots, i - 1, more + rest);
      SlotBack(d, slots, i - 1, rest);
    }
  }

  /** Into a struct at its defaults, a message comes back, unless an encoded string in it
      is not terminated: then decoding fails. */
  lemma {:induction false} MessageBack(d: Desc, slots: seq<Slot>)
    requires WellFormed(d) && TagsFit(d) && MessageOk(d, slots) && OneChosen(d, slots)
    requires EncMessage(d, slots).Some? && |EncMessage(d, slots).value| < TWO32
    requires MessageOk(d, Defaults(d))
    ensures DecFields(d, Defaults(d), {}, EncMessage(d, slots).value)
         == if FieldsTerminated(d, slots, |slots|) then Some(NormMessage(d, slots)) else None
    decreases d, 1, 0
  {
    var n, e := |slots|, EncMessage(d, slots).value;
    assert Partial(d, slots, 0) == Defaults(d) && Partial(d, slots, n) == NormMessage(d, slots);
    PartialOk(d, slots, n);
    FieldsBack(d, slots, n, []);
    assert e + [] == e;
    SeenAll(d.fields);
  }
}
