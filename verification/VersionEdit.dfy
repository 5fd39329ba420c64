/** VersionEdit and its bytes in the manifest (db/version_edit.h, db/version_edit.cc).
    Keys are the encoded internal keys. */
module VersionEdits {
  import opened Format
  import opened Fixed
  import opened Tables
  import opened Coding
  import opened Slices

  datatype Meta = Meta(number: Long, size: Long, smallest: Bytes, largest: Bytes)

  /** What an edit says; the deleted files in the order of their std::set. */
  datatype Edit = Edit(comparator: Option<Bytes>, logNumber: Option<Long>, prevLogNumber: Option<Long>,
                       nextFileNumber: Option<Long>, lastSequence: Option<Long>,
                       compactPointers: seq<(Word, Bytes)>, deletedFiles: seq<(Word, Long)>,
                       newFiles: seq<(Word, Meta)>)

  // ---- std::set<std::pair<int, uint64_t>> ----

  predicate PairLess(a: (Word, Long), b: (Word, Long)) {
    a.0 < b.0 || (a.0 == b.0 && a.1 < b.1)
  }

  ghost predicate Ordered(s: seq<(Word, Long)>) {
    forall i, j :: 0 <= i < j < |s| ==> PairLess(s[i], s[j])
  }

  function Insert(s: seq<(Word, Long)>, x: (Word, Long)): (t: seq<(Word, Long)>)
    ensures forall y :: y in t <==> y in s || y == x
  {
    if s == [] then [x]
    else
      var n := |s| - 1;
      if PairLess(s[n], x) then s + [x]
      else if s[n] == x then s
      else Insert(s[..n], x) + [s[n]]
  }

  lemma {:induction false} InsertOrdered(s: seq<(Word, Long)>, x: (Word, Long))
    requires Ordered(s)
    ensures Ordered(Insert(s, x))
  {
    if s != [] {
      var n := |s| - 1;
      InsertOrdered(s[..n], x);
      assert forall y :: y in s[..n] ==> PairLess(y, s[n]);
    }
  }

  // ---- the items of an edit ----

  datatype Item =
    | Comparator(name: Bytes)
    | LogNumber(n: Long)
    | NextFileNumber(n: Long)
    | LastSequence(n: Long)
    | CompactPointer(level: Word, key: Bytes)
    | DeletedFile(level: Word, n: Long)
    | NewFile(level: Word, meta: Meta)
    | PrevLogNumber(n: Long)

  function Tag(item: Item): Word {
    match item
    case Comparator(_) => 1
    case LogNumber(_) => 2
    case NextFileNumber(_) => 3
    case LastSequence(_) => 4
    case CompactPointer(_, _) => 5
    case DeletedFile(_, _) => 6
    case NewFile(_, _) => 7
    case PrevLogNumber(_) => 9
  }

  function Payload(item: Item): Bytes {
    match item
    case Comparator(name) => Prefixed(name)
    case CompactPointer(level, key) => Varint(level) + Prefixed(key)
    case DeletedFile(level, n) => Varint(level) + Varint(n)
    case NewFile(level, f) => Varint(level) + Varint(f.number) + Varint(f.size) + Prefixed(f.smallest) + Prefixed(f.largest)
    case _ => Varint(item.n)
  }

  function Put(item: Item): Bytes {
    Varint(Tag(item)) + Payload(item)
  }

  function Encoding(items: seq<Item>): Bytes {
    if items == [] then [] else Put(items[0]) + Encoding(items[1..])
  }

  function Numbered(tag: nat, n: Long): Item {
    match tag
    case 2 => LogNumber(n)
    case 3 => NextFileNumber(n)
    case 4 => LastSequence(n)
    case _ => PrevLogNumber(n)
  }

  function NameItem(o: Option<Bytes>): seq<Item> {
    if o.Some? then [Comparator(o.value)] else []
  }

  function NumberItem(tag: nat, o: Option<Long>): seq<Item> {
    if o.Some? then [Numbered(tag, o.value)] else []
  }

  function Pointers(s: seq<(Word, Bytes)>): seq<Item> {
    seq(|s|, i requires 0 <= i < |s| => CompactPointer(s[i].0, s[i].1))
  }

  function Deletions(s: seq<(Word, Long)>): seq<Item> {
    seq(|s|, i requires 0 <= i < |s| => DeletedFile(s[i].0, s[i].1))
  }

  function Additions(s: seq<(Word, Meta)>): seq<Item> {
    seq(|s|, i requires 0 <= i < |s| => NewFile(s[i].0, s[i].1))
  }

  function Header(e: Edit): seq<Item> {
    NameItem(e.comparator) + NumberItem(2, e.logNumber) + NumberItem(9, e.prevLogNumber)
    + NumberItem(3, e.nextFileNumber) + NumberItem(4, e.lastSequence)
  }

  /** The order EncodeTo writes them in. */
  function Items(e: Edit): seq<Item> {
    Header(e) + Pointers(e.compactPointers) + Deletions(e.deletedFiles) + Additions(e.newFiles)
  }

  // ---- decoding ----

  /** GetLevel */
  function TakeLevel(input: Bytes): (t: Taken<Word>)
    ensures t.Some? ==> |t.value.1| < |input| && t.value.0 < NUM_LEVELS
  {
    var t := Take32(input);
    if t.Some? && t.value.0 < NUM_LEVELS then t else None
  }

  function TakeNewFile(input: Bytes): (t: Taken<Item>)
    ensures t.Some? ==> |t.value.1| < |input|
  {
    var level := TakeLevel(input);
    if level.None? then None
    else
      var number := Take64(level.value.1);
      if number.None? then None
      else
        var size := Take64(number.value.1);
        if size.None? then None
        else
          var smallest := TakeSlice(size.value.1);
          if smallest.None? then None
          else
            var largest := TakeSlice(smallest.value.1);
            if largest.None? then None
            else
              Some((NewFile(level.value.0, Meta(number.value.0, size.value.0, smallest.value.0, largest.value.0)), largest.value.1))
  }

  function TakeNumber(tag: nat, input: Bytes): (t: Taken<Item>)
    ensures t.Some? ==> |t.value.1| < |input|
  {
    var n := Take64(input);
    if n.Some? then Some((Numbered(tag, n.value.0), n.value.1)) else None
  }

  function TakeComparator(input: Bytes): (t: Taken<Item>)
    ensures t.Some? ==> |t.value.1| < |input|
  {
    var s := TakeSlice(input);
    if s.Some? then Some((Comparator(s.value.0), s.value.1)) else None
  }

  function TakePointer(input: Bytes): (t: Taken<Item>)
    ensures t.Some? ==> |t.value.1| < |input|
  {
    var level := TakeLevel(input);
    if level.None? then None
    else
      var key := TakeSlice(level.value.1);
      if key.Some? then Some((CompactPointer(level.value.0, key.value.0), key.value.1)) else None
  }

  function TakeDeleted(input: Bytes): (t: Taken<Item>)
    ensures t.Some? ==> |t.value.1| < |input|
  {
    var level := TakeLevel(input);
    if level.None? then None
    else
      var n := Take64(level.value.1);
      if n.Some? then Some((DeletedFile(level.value.0, n.value.0), n.value.1)) else None
  }

  /** The switch of DecodeFrom. */
  function TakePayload(tag: nat, input: Bytes): (t: Taken<Item>)
    ensures t.Some? ==> |t.value.1| < |input|
  {
    match tag
    case 1 => TakeComparator(input)
    case 2 => TakeNumber(tag, input)
    case 3 => TakeNumber(tag, input)
    case 4 => TakeNumber(tag, input)
    case 5 => TakePointer(input)
    case 6 => TakeDeleted(input)
    case 7 => TakeNewFile(input)
    case 9 => TakeNumber(tag, input)
    case _ => None
  }

  function Add(e: Edit, item: Item): Edit {
    match item
    case Comparator(name) => e.(comparator := Some(name))
    case LogNumber(n) => e.(logNumber := Some(n))
    case NextFileNumber(n) => e.(nextFileNumber := Some(n))
    case LastSequence(n) => e.(lastSequence := Some(n))
    case CompactPointer(level, key) => e.(compactPointers := e.compactPointers + [(level, key)])
    case DeletedFile(level, n) => e.(deletedFiles := Insert(e.deletedFiles, (level, n)))
    case NewFile(level, meta) => e.(newFiles := e.newFiles + [(level, meta)])
    case PrevLogNumber(n) => e.(prevLogNumber := Some(n))
  }

  /** The loop of DecodeFrom from here on: None when it reports corruption. */
  function Decode(e: Edit, input: Bytes): Option<Edit>
    decreases |input|
  {
    var tag := Take32(input);
    if tag.None? then (if input == [] then Some(e) else None)
    else
      var item := TakePayload(tag.value.0, tag.value.1);
      if item.None? then None else Decode(Add(e, item.value.0), item.value.1)
  }

  /** Clear leaves the compaction pointers as they are. */
  function Cleared(e: Edit): Edit {
    Edit(None, None, None, None, None, e.compactPointers, [], [])
  }

  // ---- decoding undoes encoding ----

  predicate Leveled(item: Item) {
    (item.CompactPointer? || item.DeletedFile? || item.NewFile?) ==> item.level < NUM_LEVELS
  }

  /** Lengths are written in 32 bits. */
  predicate Writable(item: Item) {
    match item
    case Comparator(name) => |name| < TWO32
    case CompactPointer(_, key) => |key| < TWO32
    case NewFile(_, f) => |f.smallest| < TWO32 && |f.largest| < TWO32
    case _ => true
  }

  lemma TakeLevelBack(level: Word, rest: Bytes)
    ensures TakeLevel(Varint(level) + rest) == if level < NUM_LEVELS then Some((level, rest)) else None
  {
    Take32Back(level, rest);
  }

  lemma NewFileBack(item: Item, rest: Bytes)
    requires item.NewFile? && Writable(item)
    ensures TakeNewFile(Payload(item) + rest) == if Leveled(item) then Some((item, rest)) else None
  {
    var f := item.meta;
    var r4 := Prefixed(f.largest) + rest;
    var r3 := Prefixed(f.smallest) + r4;
    var r2 := Varint(f.size) + r3;
    var r1 := Varint(f.number) + r2;
    assert Payload(item) + rest == Varint(item.level) + r1;
    TakeLevelBack(item.level, r1);
    Take64Back(f.number, r2);
    Take64Back(f.size, r3);
    TakeSliceBack(f.smallest, r4);
    TakeSliceBack(f.largest, rest);
  }

  lemma PointerBack(item: Item, rest: Bytes)
    requires item.CompactPointer? && Writable(item)
    ensures TakePointer(Payload(item) + rest) == if Leveled(item) then Some((item, rest)) else None
  {
    assert Payload(item) + rest == Varint(item.level) + (Prefixed(item.key) + rest);
    TakeLevelBack(item.level, Prefixed(item.key) + rest);
    TakeSliceBack(item.key, rest);
  }

  lemma DeletedBack(item: Item, rest: Bytes)
    requires item.DeletedFile?
    ensures TakeDeleted(Payload(item) + rest) == if Leveled(item) then Some((item, rest)) else None
  {
    assert Payload(item) + rest == Varint(item.level) + (Varint(item.n) + rest);
    TakeLevelBack(item.level, Varint(item.n) + rest);
    Take64Back(item.n, rest);
  }

  lemma NumberBack(item: Item, rest: Bytes)
    requires item.LogNumber? || item.NextFileNumber? || item.LastSequence? || item.PrevLogNumber?
    ensures TakeNumber(Tag(item), Payload(item) + rest) == Some((item, rest))
  {
    Take64Back(item.n, rest);
  }

  /** An item is read back, unless its level is out of range. */
  lemma PayloadBack(item: Item, rest: Bytes)
    requires Writable(item)
    ensures TakePayload(Tag(item), Payload(item) + rest) == if Leveled(item) then Some((item, rest)) else None
  {
    match item
    case Comparator(name) => TakeSliceBack(name, rest);
    case CompactPointer(_, _) => PointerBack(item, rest);
    case DeletedFile(_, _) => DeletedBack(item, rest);
    case NewFile(_, _) => NewFileBack(item, rest);
    case _ => NumberBack(item, rest);
  }

  ghost function AddAll(e: Edit, items: seq<Item>): Edit
    decreases |items|
  {
    if items == [] then e else AddAll(Add(e, items[0]), items[1..])
  }

  predicate AllLeveled(items: seq<Item>) {
    items == [] || (Leveled(items[0]) && AllLeveled(items[1..]))
  }

  predicate AllWritable(items: seq<Item>) {
    items == [] || (Writable(items[0]) && AllWritable(items[1..]))
  }

  lemma DecodeOne(e: Edit, item: Item, rest: Bytes)
    requires Writable(item)
    ensures Decode(e, Put(item) + rest) == if Leveled(item) then Decode(Add(e, item), rest) else None
  {
    assert Put(item) + rest == Varint(Tag(item)) + (Payload(item) + rest);
    Take32Back(Tag(item), Payload(item) + rest);
    PayloadBack(item, rest);
  }

  lemma {:induction false} DecodeItems(e: Edit, items: seq<Item>)
    requires AllWritable(items)
    ensures Decode(e, Encoding(items)) == if AllLeveled(items) then Some(AddAll(e, items)) else None
    decreases |items|
  {
    if items != [] {
      DecodeOne(e, items[0], Encoding(items[1..]));
      DecodeItems(Add(e, items[0]), items[1..]);
    }
  }

  // ---- the items of an edit add up to the edit ----

  lemma {:induction false} Parts(e: Edit, xs: seq<Item>, ys: seq<Item>)
    ensures AddAll(e, xs + ys) == AddAll(AddAll(e, xs), ys)
    ensures AllLeveled(xs + ys) <==> AllLeveled(xs) && AllLeveled(ys)
    ensures AllWritable(xs + ys) <==> AllWritable(xs) && AllWritable(ys)
    decreases |xs|
  {
    if xs == [] {
      assert xs + ys == ys;
    } else {
      assert (xs + ys)[1..] == xs[1..] + ys;
      Parts(Add(e, xs[0]), xs[1..], ys);
    }
  }

  ghost predicate LevelsOk<T>(s: seq<(Word, T)>) {
    forall x :: x in s ==> x.0 < NUM_LEVELS
  }

  lemma LevelsOfRest<T>(s: seq<(Word, T)>)
    requires s != []
    ensures LevelsOk(s) <==> s[0].0 < NUM_LEVELS && LevelsOk(s[1..])
  {
    assert forall x :: x in s <==> x == s[0] || x in s[1..];
  }

  lemma {:induction false} AddPointers(e: Edit, s: seq<(Word, Bytes)>)
    ensures AddAll(e, Pointers(s)) == e.(compactPointers := e.compactPointers + s)
    ensures AllLeveled(Pointers(s)) <==> LevelsOk(s)
    ensures (forall x :: x in s ==> |x.1| < TWO32) ==> AllWritable(Pointers(s))
    decreases |s|
  {
    if s == [] {
      assert e.compactPointers + s == e.compactPointers;
    } else {
      assert Pointers(s)[1..] == Pointers(s[1..]);
      var e' := Add(e, Pointers(s)[0]);
      AddPointers(e', s[1..]);
      LevelsOfRest(s);
      assert e'.compactPointers + s[1..] == e.compactPointers + s;
    }
  }

  lemma {:induction false} AddDeletions(e: Edit, s: seq<(Word, Long)>)
    requires Ordered(e.deletedFiles + s)
    ensures AddAll(e, Deletions(s)) == e.(deletedFiles := e.deletedFiles + s)
    ensures AllLeveled(Deletions(s)) <==> LevelsOk(s)
    ensures AllWritable(Deletions(s))
    decreases |s|
  {
    var d := e.deletedFiles;
    if s == [] {
      assert d + s == d;
    } else {
      assert Deletions(s)[1..] == Deletions(s[1..]);
      assert d != [] ==> PairLess((d + s)[|d| - 1], (d + s)[|d|]);
      assert Insert(d, s[0]) == d + [s[0]] && d + s == d + [s[0]] + s[1..];
      AddDeletions(Add(e, Deletions(s)[0]), s[1..]);
      LevelsOfRest(s);
    }
  }

  lemma {:induction false} AddAdditions(e: Edit, s: seq<(Word, Meta)>)
    ensures AddAll(e, Additions(s)) == e.(newFiles := e.newFiles + s)
    ensures AllLeveled(Additions(s)) <==> LevelsOk(s)
    ensures (forall x :: x in s ==> |x.1.smallest| < TWO32 && |x.1.largest| < TWO32) ==> AllWritable(Additions(s))
    decreases |s|
  {
    if s == [] {
      assert e.newFiles + s == e.newFiles;
    } else {
      assert Additions(s)[1..] == Additions(s[1..]);
      var e' := Add(e, Additions(s)[0]);
      AddAdditions(e', s[1..]);
      LevelsOfRest(s);
      assert e'.newFiles + s[1..] == e.newFiles + s;
    }
  }

  /** No levels, and no lengths but the name's, to go wrong. */
  ghost predicate Plain(items: seq<Item>) {
    AllLeveled(items) && AllWritable(items)
  }

  lemma AddName(e: Edit, o: Option<Bytes>)
    requires o.Some? ==> |o.value| < TWO32
    ensures AddAll(e, NameItem(o)) == (if o.Some? then e.(comparator := o) else e) && Plain(NameItem(o))
  {
    if o.Some? {
      assert NameItem(o)[1..] == [];
    }
  }

  lemma AddNumber(e: Edit, tag: nat, o: Option<Long>)
    ensures AddAll(e, NumberItem(tag, o)) == (if o.Some? then Add(e, Numbered(tag, o.value)) else e) && Plain(NumberItem(tag, o))
  {
    if o.Some? {
      assert NumberItem(tag, o)[1..] == [];
    }
  }

  /** One more number at the end of a plain header. */
  lemma AddsNumber(e: Edit, items: seq<Item>, now: Edit, tag: nat, o: Option<Long>)
    requires AddAll(e, items) == now && Plain(items)
    ensures AddAll(e, items + NumberItem(tag, o)) == if o.Some? then Add(now, Numbered(tag, o.value)) else now
    ensures Plain(items + NumberItem(tag, o))
  {
    AddNumber(now, tag, o);
    Parts(e, items, NumberItem(tag, o));
  }

  lemma AddHeader(base: Edit, e: Edit)
    requires e.comparator.Some? ==> |e.comparator.value| < TWO32
    ensures Plain(Header(e))
    ensures AddAll(Cleared(base), Header(e))
         == Edit(e.comparator, e.logNumber, e.prevLogNumber, e.nextFileNumber, e.lastSequence, base.compactPointers, [], [])
  {
    var c := Cleared(base);
    var name := NameItem(e.comparator);
    AddName(c, e.comparator);
    var e1 := c.(comparator := e.comparator);
    AddsNumber(c, name, e1, 2, e.logNumber);
    var e2, to2 := e1.(logNumber := e.logNumber), name + NumberItem(2, e.logNumber);
    AddsNumber(c, to2, e2, 9, e.prevLogNumber);
    var e3, to3 := e2.(prevLogNumber := e.prevLogNumber), to2 + NumberItem(9, e.prevLogNumber);
    AddsNumber(c, to3, e3, 3, e.nextFileNumber);
    var e4, to4 := e3.(nextFileNumber := e.nextFileNumber), to3 + NumberItem(3, e.nextFileNumber);
    AddsNumber(c, to4, e4, 4, e.lastSequence);
  }

  /** The lengths fit the 32 bits they are written in. */
  ghost predicate LengthsFit(e: Edit) {
    && (e.comparator.Some? ==> |e.comparator.value| < TWO32)
    && (forall x :: x in e.compactPointers ==> |x.1| < TWO32)
    && (forall x :: x in e.newFiles ==> |x.1.smallest| < TWO32 && |x.1.largest| < TWO32)
  }

  ghost predicate LevelsExist(e: Edit) {
    LevelsOk(e.compactPointers) && LevelsOk(e.deletedFiles) && LevelsOk(e.newFiles)
  }

  /** The items so far add up to `now`; their levels exist if `ok`. */
  ghost predicate Built(c: Edit, items: seq<Item>, now: Edit, ok: bool) {
    AddAll(c, items) == now && AllWritable(items) && (AllLeveled(items) <==> ok)
  }

  lemma ThenPointers(c: Edit, items: seq<Item>, now: Edit, ok: bool, s: seq<(Word, Bytes)>)
    requires Built(c, items, now, ok) && forall x :: x in s ==> |x.1| < TWO32
    ensures Built(c, items + Pointers(s), now.(compactPointers := now.compactPointers + s), ok && LevelsOk(s))
  {
    Parts(c, items, Pointers(s));
    AddPointers(now, s);
  }

  lemma ThenDeletions(c: Edit, items: seq<Item>, now: Edit, ok: bool, s: seq<(Word, Long)>)
    requires Built(c, items, now, ok) && now.deletedFiles == [] && Ordered(s)
    ensures Built(c, items + Deletions(s), now.(deletedFiles := s), ok && LevelsOk(s))
  {
    Parts(c, items, Deletions(s));
    assert now.deletedFiles + s == s;
    AddDeletions(now, s);
  }

  lemma ThenAdditions(c: Edit, items: seq<Item>, now: Edit, ok: bool, s: seq<(Word, Meta)>)
    requires Built(c, items, now, ok) && now.newFiles == []
    requires forall x :: x in s ==> |x.1.smallest| < TWO32 && |x.1.largest| < TWO32
    ensures Built(c, items + Additions(s), now.(newFiles := s), ok && LevelsOk(s))
  {
    Parts(c, items, Additions(s));
    assert now.newFiles + s == s;
    AddAdditions(now, s);
  }

  lemma BuiltDecodes(c: Edit, items: seq<Item>, now: Edit, ok: bool)
    requires Built(c, items, now, ok)
    ensures Decode(c, Encoding(items)) == if ok then Some(now) else None
  {
    DecodeItems(c, items);
  }

  /** Any edit, decoded into any object: DecodeFrom succeeds exactly when every level
      exists, and then gives the edit back, after the compaction pointers the object
      already had. */
  lemma DecodeEncode(base: Edit, e: Edit)
    requires LengthsFit(e) && Ordered(e.deletedFiles)
    ensures Decode(Cleared(base), Encoding(Items(e)))
         == if LevelsExist(e) then Some(e.(compactPointers := base.compactPointers + e.compactPointers)) else None
  {
    var c, h := Cleared(base), Header(e);
    AddHeader(base, e);
    var e1 := AddAll(c, h);
    ThenPointers(c, h, e1, true, e.compactPointers);
    var p, e2 := h + Pointers(e.compactPointers), e1.(compactPointers := base.compactPointers + e.compactPointers);
    ThenDeletions(c, p, e2, LevelsOk(e.compactPointers), e.deletedFiles);
    var d, e3 := p + Deletions(e.deletedFiles), e2.(deletedFiles := e.deletedFiles);
    ThenAdditions(c, d, e3, LevelsOk(e.compactPointers) && LevelsOk(e.deletedFiles), e.newFiles);
    BuiltDecodes(c, Items(e), e3.(newFiles := e.newFiles), LevelsExist(e));
  }

  lemma {:induction false} EncodingSnoc(items: seq<Item>, x: Item)
    ensures Encoding(items + [x]) == Encoding(items) + Put(x)
    decreases |items|
  {
    if items == [] {
      assert Encoding([x]) == Put(x) + Encoding([]);
    } else {
      assert (items + [x])[1..] == items[1..] + [x];
      EncodingSnoc(items[1..], x);
    }
  }

  lemma EncodingStep(items: seq<Item>, more: seq<Item>, i: nat)
    requires i < |more|
    ensures Encoding(items + more[..i + 1]) == Encoding(items + more[..i]) + Put(more[i])
  {
    assert items + more[..i + 1] == items + more[..i] + [more[i]];
    EncodingSnoc(items + more[..i], more[i]);
  }

  class VersionEdit {
    var comparator: Bytes
    var logNumber: Long
    var prevLogNumber: Long
    var nextFileNumber: Long
    var lastSequence: Long
    var hasComparator: bool
    var hasLogNumber: bool
    var hasPrevLogNumber: bool
    var hasNextFileNumber: bool
    var hasLastSequence: bool
    var compactPointers: seq<(Word, Bytes)>
    var deletedFiles: seq<(Word, Long)>
    var newFiles: seq<(Word, Meta)>

    /** What the edit says; a value without its flag says nothing. */
    ghost function Contents(): Edit
      reads this
    {
      Edit(if hasComparator then Some(comparator) else None,
           if hasLogNumber then Some(logNumber) else None,
           if hasPrevLogNumber then Some(prevLogNumber) else None,
           if hasNextFileNumber then Some(nextFileNumber) else None,
           if hasLastSequence then Some(lastSequence) else None,
           compactPointers, deletedFiles, newFiles)
    }

    ghost predicate Valid()
      reads this
    {
      Ordered(deletedFiles)
    }

    constructor ()
      ensures Valid() && Contents() == Edit(None, None, None, None, None, [], [], [])
    {
      comparator, logNumber, prevLogNumber, nextFileNumber, lastSequence := [], 0, 0, 0, 0;
      hasComparator, hasLogNumber, hasPrevLogNumber, hasNextFileNumber, hasLastSequence := false, false, false, false, false;
      compactPointers, deletedFiles, newFiles := [], [], [];
    }

    method Clear()
      modifies this
      ensures Valid() && Contents() == Cleared(old(Contents()))
    {
      comparator, logNumber, prevLogNumber, nextFileNumber, lastSequence := [], 0, 0, 0, 0;
      hasComparator, hasLogNumber, hasPrevLogNumber, hasNextFileNumber, hasLastSequence := false, false, false, false, false;
      deletedFiles, newFiles := [], [];
    }

    /** The setters SetComparatorName to AddFile and DeleteFile: one item more. */
    method Set(item: Item)
      requires Valid()
      modifies this
      ensures Valid() && Contents() == Add(old(Contents()), item)
    {
      match item
      case Comparator(name) => comparator, hasComparator := name, true;
      case LogNumber(n) => logNumber, hasLogNumber := n, true;
      case NextFileNumber(n) => nextFileNumber, hasNextFileNumber := n, true;
      case LastSequence(n) => lastSequence, hasLastSequence := n, true;
      case CompactPointer(level, key) => compactPointers := compactPointers + [(level, key)];
      case DeletedFile(level, n) =>
        InsertOrdered(deletedFiles, (level, n));
        deletedFiles := Insert(deletedFiles, (level, n));
      case NewFile(level, meta) => newFiles := newFiles + [(level, meta)];
      case PrevLogNumber(n) => prevLogNumber, hasPrevLogNumber := n, true;
    }

    method EncodeHeader() returns (dst: Bytes)
      ensures dst == Encoding(Header(Contents()))
    {
      dst := [];
      ghost var items: seq<Item> := [];
      if hasComparator {
        items := items + [Comparator(comparator)];
        dst := dst + Put(Comparator(comparator));
      }
      assert items == NameItem(Contents().comparator) && dst == Encoding(items);
      dst, items := EncodeNumber(dst, items, 2, hasLogNumber, logNumber);
      dst, items := EncodeNumber(dst, items, 9, hasPrevLogNumber, prevLogNumber);
      dst, items := EncodeNumber(dst, items, 3, hasNextFileNumber, nextFileNumber);
      dst, items := EncodeNumber(dst, items, 4, hasLastSequence, lastSequence);
    }

    static method EncodeNumber(dst: Bytes, ghost items: seq<Item>, tag: nat, has: bool, n: Long)
        returns (dst': Bytes, ghost items': seq<Item>)
      requires dst == Encoding(items)
      ensures items' == items + NumberItem(tag, if has then Some(n) else None) && dst' == Encoding(items')
    {
      dst', items' := dst, items + NumberItem(tag, if has then Some(n) else None);
      if has {
        EncodingSnoc(items, Numbered(tag, n));
        dst' := dst' + Put(Numbered(tag, n));
      } else {
        assert items' == items;
      }
    }

    static method EncodeAll(dst: Bytes, ghost items: seq<Item>, more: seq<Item>) returns (dst': Bytes)
      requires dst == Encoding(items)
      ensures dst' == Encoding(items + more)
    {
      dst' := dst;
      assert items + more[..0] == items;
      for i := 0 to |more|
        invariant dst' == Encoding(items + more[..i])
      {
        EncodingStep(items, more, i);
        dst' := dst' + Put(more[i]);
      }
      assert more[..|more|] == more;
    }

    method EncodeTo() returns (dst: Bytes)
      ensures dst == Encoding(Items(Contents()))
    {
      dst := EncodeHeader();
      ghost var h := Header(Contents());
      dst := EncodeAll(dst, h, Pointers(compactPointers));
      dst := EncodeAll(dst, h + Pointers(compactPointers), Deletions(deletedFiles));
      dst := EncodeAll(dst, h + Pointers(compactPointers) + Deletions(deletedFiles), Additions(newFiles));
    }

    method DecodeFrom(src: Bytes) returns (ok: bool)
      modifies this
      ensures ok <==> Decode(Cleared(old(Contents())), src).Some?
      ensures ok ==> Valid() && Contents() == Decode(Cleared(old(Contents())), src).value
    {
      Clear();
      var input := src;
      while true
        invariant Valid() && Decode(Contents(), input) == Decode(Cleared(old(Contents())), src)
        decreases |input|
      {
        var tag := Take32(input);
        if tag.None? {
          return input == [];
        }
        var item := TakePayload(tag.value.0, tag.value.1);
        if item.None? {
          return false;
        }
        Set(item.value.0);
        input := item.value.1;
      }
    }
  }

  /** Writing an edit and reading it into a new object. */
  method EncodeAndDecode(edit: VersionEdit) returns (back: VersionEdit, ok: bool)
    requires edit.Valid() && LengthsFit(edit.Contents())
    ensures ok <==> LevelsExist(edit.Contents())
    ensures ok ==> back.Contents() == edit.Contents()
  {
    var bytes := edit.EncodeTo();
    back := new VersionEdit();
    DecodeEncode(back.Contents(), edit.Contents());
    ok := back.DecodeFrom(bytes);
    assert [] + edit.compactPointers == edit.compactPointers;
  }

  // ---- two edits that do not come back as they are ----

  const NOTHING: Edit := Edit(None, None, None, None, None, [], [], [])

  /** The deletion of a file of level 7 is written, and refused by any object. */
  lemma LevelSevenIsRefused(base: Edit)
    ensures Decode(Cleared(base), Encoding(Items(NOTHING.(deletedFiles := [(7, 1)])))) == None
  {
    var e := NOTHING.(deletedFiles := [(7, 1)]);
    assert (7, 1) in e.deletedFiles;
    DecodeEncode(base, e);
  }

  /** An object that holds a compaction pointer still holds it after decoding an edit
      that says nothing. */
  lemma PointerStays()
    ensures var held := NOTHING.(compactPointers := [(1, [5])]);
            Decode(Cleared(held), Encoding(Items(NOTHING))) == Some(held) && held != NOTHING
  {
    DecodeEncode(NOTHING.(compactPointers := [(1, [5])]), NOTHING);
  }
}
