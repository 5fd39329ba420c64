/** Fields the descriptor does not have, and fields out of order (nanopb/pb_decode.c
    pb_skip_field, pb_decode_noinit): what the decoder makes of bytes that another
    encoder, or another version of the message, may write. */
module PbUnknown {
  import opened Format
  import opened Fixed
  import opened Tables
  import opened Coding
  import opened Sequences
  import opened Slices
  import opened PbMessages
  import opened PbFormat
  import opened PbCommon
  import opened PbParse
  import opened PbScalars
  import opened PbRoundTrip
  import opened PbRoundTripProof

  // ---- unknown fields ----

  /** A field of any wire type there is. */
  datatype Unknown =
    | VarintField(tag: nat, n: nat)
    | Fixed64Field(tag: nat, long: Long)
    | StringField(tag: nat, b: Bytes)
    | Fixed32Field(tag: nat, word: Word)

  /** Tag and wire type in one varint, then the payload. */
  function BytesOf(u: Unknown): Bytes {
    match u
    case VarintField(tag, n) => Varint(tag * 8 + 0) + Varint(n)
    case Fixed64Field(tag, long) => Varint(tag * 8 + 1) + Fixed64(long)
    case StringField(tag, b) => Varint(tag * 8 + 2) + (Varint(|b|) + b)
    case Fixed32Field(tag, word) => Varint(tag * 8 + 5) + Fixed32(word)
  }

  /** No field of the message has its tag. */
  ghost predicate Foreign(d: Desc, u: Unknown) {
    && 0 < u.tag < 0x2000_0000 && (u.StringField? ==> |u.b| < TWO32)
    && forall i :: 0 <= i < |d.fields| ==> d.fields[i].tag != u.tag
  }

  lemma {:induction false} VarintSkips(n: nat, rest: Bytes)
    ensures SkipVarint(Varint(n) + rest) == Some(rest)
    decreases n
  {
    if n < 128 {
      assert (Varint(n) + rest)[1..] == rest;
    } else {
      var low := (n % 128 + 128) as byte;
      assert Varint(n) + rest == [low] + (Varint(n / 128) + rest);
      assert ([low] + (Varint(n / 128) + rest))[1..] == Varint(n / 128) + rest;
      VarintSkips(n / 128, rest);
    }
  }

  lemma FixedSkips(b: Bytes, rest: Bytes)
    ensures |b| == 8 ==> Skip(1, b + rest) == Some(rest)
    ensures |b| == 4 ==> Skip(5, b + rest) == Some(rest)
  {
    assert (b + rest)[|b|..] == rest;
  }

  lemma StringSkips(b: Bytes, rest: Bytes)
    requires |b| < TWO32
    ensures Skip(2, (Varint(|b|) + b) + rest) == Some(rest)
  {
    SubBack(b, rest);
  }

  /** Behind a foreign tag, the payload of its wire type is passed over. */
  lemma TagThenSkip(d: Desc, slots: seq<Slot>, seen: set<nat>, tag: nat, wire: nat, more: Bytes)
    requires WellFormed(d) && MessageOk(d, slots) && 0 < tag < 0x2000_0000 && wire < 8
    requires forall i :: 0 <= i < |d.fields| ==> d.fields[i].tag != tag
    ensures DecFields(d, slots, seen, Varint(tag * 8 + wire) + more)
         == if Skip(wire, more).None? then None else DecFields(d, slots, seen, Skip(wire, more).value)
  {
    TagBack(tag, wire, more);
    assert TagBytes(tag, wire) + more != [];
    assert FieldOf(d.fields, tag, 0).None?;
  }

  lemma PayloadSkips(d: Desc, slots: seq<Slot>, seen: set<nat>, tag: nat, wire: nat, payload: Bytes, rest: Bytes)
    requires WellFormed(d) && MessageOk(d, slots) && 0 < tag < 0x2000_0000 && wire < 8
    requires forall i :: 0 <= i < |d.fields| ==> d.fields[i].tag != tag
    requires Skip(wire, payload + rest) == Some(rest)
    ensures DecFields(d, slots, seen, Varint(tag * 8 + wire) + payload + rest) == DecFields(d, slots, seen, rest)
  {
    Regroup(Varint(tag * 8 + wire), payload, rest);
    TagThenSkip(d, slots, seen, tag, wire, payload + rest);
  }

  lemma PartsOf(u: Unknown, rest: Bytes) returns (wire: nat, payload: Bytes)
    requires u.StringField? ==> |u.b| < TWO32
    ensures wire < 8 && BytesOf(u) == Varint(u.tag * 8 + wire) + payload && Skip(wire, payload + rest) == Some(rest)
  {
    match u
    case VarintField(_, n) =>
      VarintSkips(n, rest);
      wire, payload := 0, Varint(n);
    case Fixed64Field(_, long) =>
      FixedSkips(Fixed64(long), rest);
      wire, payload := 1, Fixed64(long);
    case StringField(_, b) =>
      StringSkips(b, rest);
      wire, payload := 2, Varint(|b|) + b;
    case Fixed32Field(_, word) =>
      FixedSkips(Fixed32(word), rest);
      wire, payload := 5, Fixed32(word);
  }

  /** An unknown field changes nothing. */
  lemma UnknownIsSkipped(d: Desc, slots: seq<Slot>, seen: set<nat>, u: Unknown, rest: Bytes)
    requires WellFormed(d) && MessageOk(d, slots) && Foreign(d, u)
    ensures DecFields(d, slots, seen, BytesOf(u) + rest) == DecFields(d, slots, seen, rest)
  {
    var wire, payload := PartsOf(u, rest);
    PayloadSkips(d, slots, seen, u.tag, wire, payload, rest);
  }

  /** The wire types there are not, of groups and beyond, end the decoding. */
  lemma OtherWireIsRefused(d: Desc, slots: seq<Slot>, seen: set<nat>, tag: nat, wire: nat, more: Bytes)
    requires WellFormed(d) && MessageOk(d, slots) && 0 < tag < 0x2000_0000
    requires wire == 3 || wire == 4 || wire == 6 || wire == 7
    requires forall i :: 0 <= i < |d.fields| ==> d.fields[i].tag != tag
    ensures DecFields(d, slots, seen, Varint(tag * 8 + wire) + more) == None
  {
    TagThenSkip(d, slots, seen, tag, wire, more);
  }

  function AllBytes(us: seq<Unknown>): Bytes {
    if us == [] then [] else BytesOf(us[0]) + AllBytes(us[1..])
  }

  ghost predicate AllForeign(d: Desc, us: seq<Unknown>) {
    forall u :: u in us ==> Foreign(d, u)
  }

  lemma {:induction false} UnknownsAreSkipped(d: Desc, slots: seq<Slot>, seen: set<nat>, us: seq<Unknown>, rest: Bytes)
    requires WellFormed(d) && MessageOk(d, slots) && AllForeign(d, us)
    ensures DecFields(d, slots, seen, AllBytes(us) + rest) == DecFields(d, slots, seen, rest)
    decreases |us|
  {
    if us == [] {
      assert AllBytes(us) + rest == rest;
    } else {
      Regroup(BytesOf(us[0]), AllBytes(us[1..]), rest);
      UnknownIsSkipped(d, slots, seen, us[0], AllBytes(us[1..]) + rest);
      UnknownsAreSkipped(d, slots, seen, us[1..], rest);
    }
  }

  // ---- an encoding with unknown fields between its fields ----

  /** The first i fields, with unknown ones in front of each and behind the last. */
  function Mixed(d: Desc, slots: seq<Slot>, between: seq<seq<Unknown>>, i: nat): Option<Bytes>
    requires MessageOk(d, slots) && i <= |slots| && |between| == |slots| + 1
    decreases i
  {
    if i == 0 then Some(AllBytes(between[0]))
    else Joined(Joined(Mixed(d, slots, between, i - 1), EncSlot(d.fields[i - 1], slots[i - 1])), Some(AllBytes(between[i])))
  }

  /** One slot, and unknown fields behind it. */
  lemma SlotThenUnknowns(d: Desc, slots: seq<Slot>, i: nat, us: seq<Unknown>, rest: Bytes)
    requires WellFormed(d) && TagsFit(d) && MessageOk(d, slots) && OneChosen(d, slots) && i < |slots|
    requires AllForeign(d, us)
    requires SlotOk(d.fields[i], slots[i])
    requires EncSlot(d.fields[i], slots[i]).Some? && |EncSlot(d.fields[i], slots[i]).value| < TWO32
    requires MessageOk(d, Partial(d, slots, i)) && MessageOk(d, Partial(d, slots, i + 1))
    ensures DecFields(d, Partial(d, slots, i), Seen(d.fields, i), EncSlot(d.fields[i], slots[i]).value + (AllBytes(us) + rest))
         == if SlotTerminated(d.fields[i], slots[i]) then DecFields(d, Partial(d, slots, i + 1), Seen(d.fields, i + 1), rest) else None
  {
    SlotBack(d, slots, i, AllBytes(us) + rest);
    UnknownsAreSkipped(d, Partial(d, slots, i + 1), Seen(d.fields, i + 1), us, rest);
  }

  lemma MixedSplit(d: Desc, slots: seq<Slot>, between: seq<seq<Unknown>>, i: nat, rest: Bytes)
    requires MessageOk(d, slots) && 0 < i <= |slots| && |between| == |slots| + 1 && Mixed(d, slots, between, i).Some?
    ensures Mixed(d, slots, between, i - 1).Some? && EncSlot(d.fields[i - 1], slots[i - 1]).Some?
    ensures Mixed(d, slots, between, i).value + rest
         == Mixed(d, slots, between, i - 1).value + (EncSlot(d.fields[i - 1], slots[i - 1]).value + (AllBytes(between[i]) + rest))
    ensures |Mixed(d, slots, between, i - 1).value| + |EncSlot(d.fields[i - 1], slots[i - 1]).value| <= |Mixed(d, slots, between, i).value|
  {
    var e, more := Mixed(d, slots, between, i - 1).value, EncSlot(d.fields[i - 1], slots[i - 1]).value;
    Regroup(e + more, AllBytes(between[i]), rest);
    Regroup(e, more, AllBytes(between[i]) + rest);
  }

  /** The slots before i back, their unknown fields gone, in front of `rest`. */
  ghost predicate BackTo(d: Desc, slots: seq<Slot>, i: nat, input: Bytes, rest: Bytes)
    requires WellFormed(d) && MessageOk(d, slots) && i <= |slots|
  {
    PartialOk(d, slots, 0);
    PartialOk(d, slots, i);
    DecFields(d, Partial(d, slots, 0), {}, input)
      == if FieldsTerminated(d, slots, i) then DecFields(d, Partial(d, slots, i), Seen(d.fields, i), rest) else None
  }

  lemma BackOneMore(d: Desc, slots: seq<Slot>, i: nat, us: seq<Unknown>, input: Bytes, rest: Bytes)
    requires WellFormed(d) && TagsFit(d) && MessageOk(d, slots) && OneChosen(d, slots) && i < |slots| && AllForeign(d, us)
    requires SlotOk(d.fields[i], slots[i])
    requires EncSlot(d.fields[i], slots[i]).Some? && |EncSlot(d.fields[i], slots[i]).value| < TWO32
    requires BackTo(d, slots, i, input, EncSlot(d.fields[i], slots[i]).value + (AllBytes(us) + rest))
    ensures BackTo(d, slots, i + 1, input, rest)
  {
    PartialOk(d, slots, i);
    PartialOk(d, slots, i + 1);
    SlotThenUnknowns(d, slots, i, us, rest);
  }

  lemma {:induction false} MixedFields(d: Desc, slots: seq<Slot>, between: seq<seq<Unknown>>, i: nat, rest: Bytes)
    requires WellFormed(d) && TagsFit(d) && MessageOk(d, slots) && OneChosen(d, slots) && i <= |slots|
    requires |between| == |slots| + 1 && forall k :: 0 <= k < |between| ==> AllForeign(d, between[k])
    requires Mixed(d, slots, between, i).Some? && |Mixed(d, slots, between, i).value| < TWO32
    ensures BackTo(d, slots, i, Mixed(d, slots, between, i).value + rest, rest)
    decreases i
  {
    assert AllForeign(d, between[i]);
    if i == 0 {
      PartialOk(d, slots, 0);
      UnknownsAreSkipped(d, Partial(d, slots, 0), {}, between[0], rest);
    } else {
      var more := EncSlot(d.fields[i - 1], slots[i - 1]).value;
      MixedSplit(d, slots, between, i, rest);
      MixedFields(d, slots, between, i - 1, more + (AllBytes(between[i]) + rest));
      BackOneMore(d, slots, i - 1, between[i], Mixed(d, slots, between, i).value + rest, rest);
    }
  }

  /** Unknown fields between its fields leave what a message decodes to as it is. */
  lemma MixedBack(d: Desc, slots: seq<Slot>, between: seq<seq<Unknown>>)
    requires WellFormed(d) && TagsFit(d) && MessageOk(d, slots) && OneChosen(d, slots) && MessageOk(d, Defaults(d))
    requires |between| == |slots| + 1 && forall k :: 0 <= k < |between| ==> AllForeign(d, between[k])
    requires Mixed(d, slots, between, |slots|).Some? && |Mixed(d, slots, between, |slots|).value| < TWO32
    ensures DecFields(d, Defaults(d), {}, Mixed(d, slots, between, |slots|).value)
         == if FieldsTerminated(d, slots, |slots|) then Some(NormMessage(d, slots)) else None
  {
    var n, e := |slots|, Mixed(d, slots, between, |slots|).value;
    assert Partial(d, slots, 0) == Defaults(d) && Partial(d, slots, n) == NormMessage(d, slots);
    PartialOk(d, slots, n);
    MixedFields(d, slots, between, n, []);
    assert e + [] == e;
    SeenAll(d.fields);
  }

  // ---- fields in any order, any number of times ----

  /** What one more field with value v does to the struct: the last of a single field
      counts, an array grows until it is full, a oneof forgets its other fields. */
  function Stored(d: Desc, slots: seq<Slot>, i: nat, v: Value): Option<seq<Slot>>
    requires |slots| == |d.fields| && i < |slots| && (d.fields[i].htype.Repeated? ==> slots[i].Many?)
  {
    match d.fields[i].htype
    case Required => Some(slots[i := One(v)])
    case Implicit => Some(slots[i := One(v)])
    case Optional => Some(slots[i := Opt(true, v)])
    case Repeated(max) => if |slots[i].items| < max then Some(slots[i := Many(slots[i].items + [v])]) else None
    case OneOf(group) =>
      Some(seq(|slots|, j requires 0 <= j < |slots| =>
        if j == i then Union(true, v)
        else if d.fields[j].htype == OneOf(group) then Union(false, Zero(d.fields[j].ltype)) else slots[j]))
  }

  lemma StoredOk(d: Desc, slots: seq<Slot>, i: nat, v: Value)
    requires WellFormed(d) && MessageOk(d, slots) && i < |slots| && ValueOk(d.fields[i].ltype, v)
    ensures d.fields[i].htype.Repeated? ==> slots[i].Many?
    ensures Stored(d, slots, i, v).Some? ==> MessageOk(d, Stored(d, slots, i, v).value)
  {
    assert SlotOk(d.fields[i], slots[i]);
    var r := Stored(d, slots, i, v);
    if r.Some? {
      forall j | 0 <= j < |slots| ensures SlotOk(d.fields[j], r.value[j]) {
        assert SlotOk(d.fields[j], slots[j]) && TypeFormed(d.fields[j].ltype);
        FormedZero(d.fields[j].ltype);
      }
    }
  }

  /** A value of a field, not of a message type, read into its slot. */
  lemma ValueStores(f: Field, s: Slot, v: Value, rest: Bytes)
    requires TypeFormed(f.ltype) && !f.ltype.SubMessageType? && ValueOk(f.ltype, v) && SlotOk(f, s)
    requires EncValue(f.ltype, v).Some? && |EncValue(f.ltype, v).value| < TWO32
    ensures var r := DecSlot(f, s, WireType(f.ltype), EncValue(f.ltype, v).value + rest);
            if f.htype.Repeated? && |s.items| >= f.htype.max then r == None
            else if !ValueTerminated(f.ltype, v) then r == None
            else r == Some((match f.htype
                            case Repeated(_) => Many(s.items + [v])
                            case OneOf(_) => Union(true, v)
                            case Optional => Opt(true, v)
                            case _ => One(v), rest))
  {
    FormedZero(f.ltype);
    ValueBack(f.ltype, v, if f.htype.Repeated? then Zero(f.ltype) else s.value, rest);
  }

  /** In any state of the struct and in front of anything, a field is stored; one that is
      too many, or whose text has no room for its NUL, ends the decoding. */
  lemma FieldIsStored(d: Desc, slots: seq<Slot>, seen: set<nat>, i: nat, v: Value, rest: Bytes)
    requires WellFormed(d) && TagsFit(d) && MessageOk(d, slots) && i < |slots|
    requires !d.fields[i].ltype.SubMessageType? && ValueOk(d.fields[i].ltype, v)
    requires EncField(d.fields[i], v).Some? && |EncField(d.fields[i], v).value| < TWO32
    requires d.fields[i].htype.Repeated? ==> slots[i].Many?
    requires Stored(d, slots, i, v).Some? ==> MessageOk(d, Stored(d, slots, i, v).value)
    ensures DecFields(d, slots, seen, EncField(d.fields[i], v).value + rest)
         == if Stored(d, slots, i, v).None? || !ValueTerminated(d.fields[i].ltype, v) then None
            else DecFields(d, Stored(d, slots, i, v).value, Mark(d.fields, seen, i), rest)
  {
    var f, s := d.fields[i], slots[i];
    assert TagFits(f) && TypeFormed(f.ltype) && SlotOk(f, s);
    var tag, value := TagBytes(f.tag, WireType(f.ltype)), EncValue(f.ltype, v).value;
    Regroup(tag, value, rest);
    FieldStep(d, slots, seen, i, WireType(f.ltype), value + rest);
    ValueStores(f, s, v, rest);
    if Stored(d, slots, i, v).Some? { StoresSame(d, slots, i, v); }
  }

  lemma StoresSame(d: Desc, slots: seq<Slot>, i: nat, v: Value)
    requires |slots| == |d.fields| && i < |slots| && (d.fields[i].htype.Repeated? ==> slots[i].Many?)
    requires Stored(d, slots, i, v).Some?
    ensures Store(d.fields, slots, i, Stored(d, slots, i, v).value[i]) == Stored(d, slots, i, v).value
  {
  }
}
