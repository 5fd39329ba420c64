/** Fields of any order and number, with unknown ones among them (nanopb/pb_decode.c
    pb_decode): when the decoder accepts them, and what it then makes of them. */
module PbAnyOrder {
  import opened Format
  import opened Fixed
  import opened Tables
  import opened PbMessages
  import opened PbFormat
  import opened PbCommon
  import opened PbParse
  import opened PbRoundTrip
  import opened PbUnknown

  /** One field on the wire. */
  datatype Item = Known(index: nat, value: Value) | Other(field: Unknown)

  ghost predicate ItemOk(d: Desc, it: Item) {
    match it
    case Known(i, v) =>
      && i < |d.fields| && !d.fields[i].ltype.SubMessageType? && ValueOk(d.fields[i].ltype, v)
      && EncField(d.fields[i], v).Some? && |EncField(d.fields[i], v).value| < TWO32
    case Other(u) => Foreign(d, u)
  }

  ghost predicate ItemsOk(d: Desc, items: seq<Item>) {
    forall it :: it in items ==> ItemOk(d, it)
  }

  function ItemBytes(d: Desc, it: Item): Bytes
    requires ItemOk(d, it)
  {
    match it
    case Known(i, v) => EncField(d.fields[i], v).value
    case Other(u) => BytesOf(u)
  }

  function ItemsBytes(d: Desc, items: seq<Item>): Bytes
    requires ItemsOk(d, items)
  {
    if items == [] then [] else ItemBytes(d, items[0]) + ItemsBytes(d, items[1..])
  }

  /** The struct after one field. */
  function AfterItem(d: Desc, slots: seq<Slot>, it: Item): (r: Option<seq<Slot>>)
    requires WellFormed(d) && MessageOk(d, slots) && ItemOk(d, it)
    ensures r.Some? ==> MessageOk(d, r.value)
  {
    match it
    case Known(i, v) =>
      StoredOk(d, slots, i, v);
      if ValueTerminated(d.fields[i].ltype, v) then PbUnknown.Stored(d, slots, i, v) else None
    case Other(_) => Some(slots)
  }

  function AfterItems(d: Desc, slots: seq<Slot>, items: seq<Item>): (r: Option<seq<Slot>>)
    requires WellFormed(d) && MessageOk(d, slots) && ItemsOk(d, items)
    ensures r.Some? ==> MessageOk(d, r.value)
    decreases |items|
  {
    if items == [] then Some(slots)
    else
      var s := AfterItem(d, slots, items[0]);
      if s.None? then None else AfterItems(d, s.value, items[1..])
  }

  function SeenAfter(d: Desc, seen: set<nat>, it: Item): set<nat>
    requires ItemOk(d, it)
  {
    if it.Known? then Mark(d.fields, seen, it.index) else seen
  }

  function SeenAfterAll(d: Desc, seen: set<nat>, items: seq<Item>): set<nat>
    requires ItemsOk(d, items)
    decreases |items|
  {
    if items == [] then seen else SeenAfterAll(d, SeenAfter(d, seen, items[0]), items[1..])
  }

  lemma OneItem(d: Desc, slots: seq<Slot>, seen: set<nat>, it: Item, rest: Bytes)
    requires WellFormed(d) && TagsFit(d) && MessageOk(d, slots) && ItemOk(d, it)
    ensures var s := AfterItem(d, slots, it);
            DecFields(d, slots, seen, ItemBytes(d, it) + rest)
            == if s.None? then None else DecFields(d, s.value, SeenAfter(d, seen, it), rest)
  {
    match it
    case Known(i, v) =>
      StoredOk(d, slots, i, v);
      FieldIsStored(d, slots, seen, i, v, rest);
    case Other(u) => UnknownIsSkipped(d, slots, seen, u, rest);
  }

  lemma {:induction false} AllItems(d: Desc, slots: seq<Slot>, seen: set<nat>, items: seq<Item>)
    requires WellFormed(d) && TagsFit(d) && MessageOk(d, slots) && ItemsOk(d, items)
    ensures var s := AfterItems(d, slots, items);
            DecFields(d, slots, seen, ItemsBytes(d, items))
            == if s.None? then None else Finish(d.fields, s.value, SeenAfterAll(d, seen, items))
    decreases |items|
  {
    if items != [] {
      OneItem(d, slots, seen, items[0], ItemsBytes(d, items[1..]));
      var s := AfterItem(d, slots, items[0]);
      if s.Some? { AllItems(d, s.value, SeenAfter(d, seen, items[0]), items[1..]); }
    }
  }

  // ---- required fields ----

  predicate Occurs(items: seq<Item>, i: nat) {
    exists k :: 0 <= k < |items| && items[k].Known? && items[k].index == i
  }

  /** Field i is required, and no more than 63 required fields come before it. */
  predicate Tracked(fields: seq<Field>, i: nat) {
    i < |fields| && fields[i].htype.Required? && CountRequired(fields, i) < 64
  }

  lemma OccursFirst(items: seq<Item>, i: nat)
    requires items != []
    ensures Occurs(items, i) <==> (items[0].Known? && items[0].index == i) || Occurs(items[1..], i)
  {
    if Occurs(items, i) {
      var k :| 0 <= k < |items| && items[k].Known? && items[k].index == i;
      if k > 0 { assert items[1..][k - 1] == items[k]; }
    }
    if Occurs(items[1..], i) {
      var k :| 0 <= k < |items[1..]| && items[1..][k].Known? && items[1..][k].index == i;
      assert items[k + 1] == items[1..][k];
    }
  }

  lemma {:induction false} CountGrows(fields: seq<Field>, i: nat, j: nat)
    requires i < j <= |fields|
    ensures CountRequired(fields, i) + (if fields[i].htype.Required? then 1 else 0) <= CountRequired(fields, j)
    decreases j
  {
    if i < j - 1 { CountGrows(fields, i, j - 1); }
  }

  /** The required field with so many required ones before it. */
  lemma {:induction false} SomeRequired(fields: seq<Field>, k: nat, n: nat) returns (i: nat)
    requires n <= |fields| && k < CountRequired(fields, n)
    ensures i < n && fields[i].htype.Required? && CountRequired(fields, i) == k
    decreases n
  {
    if k < CountRequired(fields, n - 1) {
      i := SomeRequired(fields, k, n - 1);
    } else {
      i := n - 1;
    }
  }

  lemma SameCount(fields: seq<Field>, i: nat, j: nat)
    requires Tracked(fields, i) && Tracked(fields, j) && CountRequired(fields, i) == CountRequired(fields, j)
    ensures i == j
  {
    if i < j { CountGrows(fields, i, j); }
    if j < i { CountGrows(fields, j, i); }
  }

  /** A tracked field is marked by what it itself is in, and by nothing else. */
  lemma {:induction false} SeenExactly(d: Desc, seen: set<nat>, items: seq<Item>, i: nat)
    requires ItemsOk(d, items) && Tracked(d.fields, i)
    ensures CountRequired(d.fields, i) in SeenAfterAll(d, seen, items) <==>
      CountRequired(d.fields, i) in seen || Occurs(items, i)
    decreases |items|
  {
    if items != [] {
      OccursFirst(items, i);
      SeenExactly(d, SeenAfter(d, seen, items[0]), items[1..], i);
      var it := items[0];
      if it.Known? && Tracked(d.fields, it.index) && CountRequired(d.fields, it.index) == CountRequired(d.fields, i) {
        SameCount(d.fields, it.index, i);
      }
    }
  }

  lemma AllSeenExactly(d: Desc, items: seq<Item>)
    requires ItemsOk(d, items)
    ensures AllSeen(d.fields, SeenAfterAll(d, {}, items)) <==> forall i :: Tracked(d.fields, i) ==> Occurs(items, i)
  {
    var fields, seen := d.fields, SeenAfterAll(d, {}, items);
    if AllSeen(fields, seen) {
      forall i | Tracked(fields, i) ensures Occurs(items, i) {
        CountGrows(fields, i, |fields|);
        SeenExactly(d, {}, items, i);
      }
    }
    if forall i :: Tracked(fields, i) ==> Occurs(items, i) {
      forall k | 0 <= k < CountRequired(fields, |fields|) && k < PB_MAX_REQUIRED_FIELDS ensures k in seen {
        var i := SomeRequired(fields, k, |fields|);
        assert Tracked(fields, i);
        SeenExactly(d, {}, items, i);
      }
    }
  }

  /** What is decoded of any fields in any order: nothing if a text has no room for its
      NUL, an array overflows or one of the first 64 required fields is missing, or else
      what storing one after the other gives. */
  lemma AnyOrder(d: Desc, items: seq<Item>)
    requires WellFormed(d) && TagsFit(d) && MessageOk(d, Defaults(d)) && ItemsOk(d, items)
    ensures var s := AfterItems(d, Defaults(d), items);
            DecFields(d, Defaults(d), {}, ItemsBytes(d, items))
            == if s.Some? && (forall i :: Tracked(d.fields, i) ==> Occurs(items, i)) then s else None
  {
    AllItems(d, Defaults(d), {}, items);
    AllSeenExactly(d, items);
  }
}
