/** Block and Block::Iter (table/block.cc): a cursor over a block's entries, found by
    their restart points and decoded one after another. */
module BlockIteration {
  import opened Format
  import opened Fixed
  import opened Tables
  import opened Cursor
  import opened Coding
  import opened BlockFormat

  // ---- the block ----

  /** What Block and NewIterator make of the contents. */
  datatype Opened = BadContents | NoRestarts | Usable(restartsAt: nat, numRestarts: nat)

  function NumRestarts(contents: Bytes): Word
    requires |contents| >= 4
  {
    Unfixed32(contents[|contents| - 4..])
  }

  function OpenBlock(contents: Bytes): (o: Opened)
    ensures o.Usable? ==> o.numRestarts > 0 && o.restartsAt + 4 * o.numRestarts + 4 == |contents|
  {
    if |contents| < 4 then BadContents
    else if NumRestarts(contents) > (|contents| - 4) / 4 then BadContents
    else if NumRestarts(contents) == 0 then NoRestarts
    else Usable(|contents| - (1 + NumRestarts(contents)) * 4, NumRestarts(contents))
  }

  /** The parts of a block a cursor uses. */
  ghost predicate Formed(l: Layout, data: Bytes, limit: nat, num: nat) {
    && Complete(l) && Off(l, |l.es|) == limit < TWO32 && num == |l.restarts| && |data| < TWO32
    && Has(data, 0, Body(l, |l.es|)) && Has(data, limit, RestartArray(l, num))
  }

  /** A finished block opens to its own parts. */
  lemma OpensBlock(l: Layout, data: Bytes)
    requires BlockOf(l, data)
    ensures OpenBlock(data) == Usable(Off(l, |l.es|), |l.restarts|)
    ensures Formed(l, data, Off(l, |l.es|), |l.restarts|)
  {
    var n, body := |l.restarts|, Body(l, |l.es|);
    var points := RestartArray(l, n);
    assert data[|data| - 4..] == Fixed32(n);
    FixedRoundTrip(n);
    assert data[..|body|] == body && data[|body|..|body| + 4 * n] == points;
  }

  // ---- entries whose lengths wrap ----

  /** An accepted entry stays within the limit exactly when its two lengths add up in 32
      bits: DecodeEntry compares their wrapped sum with what is left. */
  lemma AcceptedStaysInside(data: Bytes, p: nat, limit: nat, h: Header)
    requires limit <= |data| && limit < TWO32 && DecodeEntry(data, p, limit) == Some(h)
    ensures h.at + h.nonShared + h.valueLength <= limit <==> h.nonShared + h.valueLength < TWO32
  {
  }

  /** shared 0, non_shared 2^32 - 1, value_length 1, and no more bytes. */
  const WRAPPING: Bytes := [0, 0xFF, 0xFF, 0xFF, 0xFF, 0x0F, 1]

  lemma WrappingLengths()
    ensures Varint(0) == [0] && Varint(1) == [1] && Varint(0xFFFF_FFFF) == [0xFF, 0xFF, 0xFF, 0xFF, 0x0F]
  {
    assert Varint(0xF) == [0xF];
    assert Varint(0x7FF) == [0xFF] + Varint(0xF);
    assert Varint(0x3_FFFF) == [0xFF] + Varint(0x7FF);
    assert Varint(0x1FF_FFFF) == [0xFF] + Varint(0x3_FFFF);
    assert Varint(0xFFFF_FFFF) == [0xFF] + Varint(0x1FF_FFFF);
  }

  /** This entry is accepted, and asks for 2^32 - 1 bytes past the end of the entries. */
  lemma WrappingIsAccepted()
    ensures DecodeEntry(WRAPPING, 0, 7) == Some(Header(0, 0xFFFF_FFFF, 1, 7))
    ensures 7 + 0xFFFF_FFFF + 1 > 7 == |WRAPPING|
  {
    WrappingLengths();
    ReadLengths(WRAPPING, 0, 7, 0, 1, 0xFFFF_FFFF, 6, 1, 7);
  }

  /** n bytes from place p on: the block's, and past its end whatever memory holds. */
  function Memory(data: Bytes, beyond: nat -> byte, p: nat, n: nat): (b: Bytes)
    ensures |b| == n && (p + n <= |data| ==> b == data[p..p + n])
  {
    seq(n, i requires 0 <= i < n => if p + i < |data| then data[p + i] else beyond(p + i))
  }

  // ---- one entry, as values ----

  /** Restart point r is at or before entry i, and the next one not before it. */
  ghost predicate InRegion(l: Layout, i: nat, r: nat) {
    && r < |l.restarts| && l.restarts[r] <= i
    && (r + 1 < |l.restarts| ==> l.restarts[r + 1] >= i)
  }

  /** key holds what entry i shares. */
  ghost predicate Carries(l: Layout, i: nat, key: Bytes)
    requires Shares(l)
  {
    i < |l.es| ==> (assert SharesWith(l, i); l.shared[i] <= |key| && key[..l.shared[i]] == l.es[i].key[..l.shared[i]])
  }

  /** Entry i comes next. */
  ghost predicate ComesNext(l: Layout, i: nat, r: nat, key: Bytes, next: nat)
    requires Proper(l)
  {
    && r < |l.restarts| && l.restarts[r] <= i <= |l.es|
    && next == Off(l, i) && Carries(l, i, key)
  }

  /** Entry i is decoded. */
  ghost predicate Holds(l: Layout, data: Bytes, i: nat, key: Bytes, valueAt: nat, valueLength: nat)
    requires Shares(l) && i < |l.es|
  {
    && key == l.es[i].key && valueLength == |l.es[i].value| && Has(data, valueAt, l.es[i].value)
    && valueAt + valueLength == Off(l, i + 1)
  }

  /** A cast to uint32_t */
  function Cut32(n: nat): nat {
    if n < TWO32 then n else n % TWO32
  }

  /** Where the next entry is, in 32 bits, is where its wrapped lengths say. */
  lemma WrapsBack(at: nat, nonShared: nat, length: nat)
    requires at + (nonShared + length) % TWO32 < TWO32
    ensures Cut32(at + nonShared + length) == at + (nonShared + length) % TWO32
  {
    var n := nonShared + length;
    assert n == n / TWO32 * TWO32 + n % TWO32;
  }

  lemma CarriesNext(l: Layout, i: nat)
    requires Shares(l) && i < |l.es|
    ensures Carries(l, i + 1, l.es[i].key)
  {
    if i + 1 < |l.es| {
      assert SharesWith(l, i + 1);
    }
  }

  /** With entry i decoded, the next one comes next. */
  lemma NextComes(l: Layout, data: Bytes, i: nat, r: nat, key: Bytes, valueAt: nat, valueLength: nat, next: nat, i': nat)
    requires Proper(l) && i < |l.es| && i' == i + 1 && InRegion(l, i, r) && Holds(l, data, i, key, valueAt, valueLength)
    requires Off(l, i') < TWO32 && next == Cut32(valueAt + valueLength)
    ensures ComesNext(l, i', r, key, next)
  {
    CarriesNext(l, i);
  }

  lemma CarriesRestart(l: Layout, k: nat)
    requires Proper(l) && k < |l.restarts|
    ensures ComesNext(l, l.restarts[k], k, [], Point(l, k))
  {
    assert RestartsAt(l, k);
  }

  lemma PointOrder(l: Layout, k: nat, i: nat)
    requires Proper(l) && k < |l.restarts| && i <= |l.es|
    ensures Point(l, k) < Off(l, i) <==> l.restarts[k] < i
  {
    assert RestartsAt(l, k);
    if l.restarts[k] < i {
      OffsetsGrow(l, l.restarts[k], i);
    } else {
      OffsetsGrow(l, i, l.restarts[k]);
    }
  }

  lemma OffOrder(l: Layout, i: nat, j: nat)
    requires Shares(l) && i <= |l.es| && j <= |l.es|
    ensures Off(l, i) < Off(l, j) <==> i < j
  {
    if i < j {
      OffsetsGrow(l, i, j);
    } else {
      OffsetsGrow(l, j, i);
    }
  }

  /** The header of entry i, in front of the rest of its key and its value. */
  ghost predicate EntryHere(l: Layout, data: Bytes, i: nat, h: Header)
    requires Shares(l) && i < |l.es|
  {
    var e := l.es[i];
    && h.shared == l.shared[i] <= |e.key| && h.nonShared == |e.key| - h.shared && h.valueLength == |e.value|
    && Has(data, h.at, e.key[h.shared..]) && Has(data, h.at + h.nonShared, e.value)
    && h.at + h.nonShared + h.valueLength == Off(l, i + 1)
  }

  lemma EntryPlace(l: Layout, data: Bytes, limit: nat, num: nat, i: nat)
    requires Formed(l, data, limit, num) && i < |l.es|
    ensures l.shared[i] <= |l.es[i].key| < TWO32 && Has(data, Off(l, i), EntryBytes(l.shared[i], l.es[i]))
    ensures Off(l, i) + |EntryBytes(l.shared[i], l.es[i])| == Off(l, i + 1) <= limit
  {
    assert SharesWith(l, i);
    EntryAt(l, data, i);
    KeyFits(l, i);
  }

  /** Entry i is decoded where it is. */
  lemma EntryRead(l: Layout, data: Bytes, limit: nat, num: nat, i: nat) returns (h: Header)
    requires Formed(l, data, limit, num) && i < |l.es|
    ensures DecodeEntry(data, Off(l, i), limit) == Some(h) && EntryHere(l, data, i, h)
    ensures Off(l, i) < Off(l, i + 1) <= limit
  {
    EntryPlace(l, data, limit, num, i);
    var s: nat, e, p := l.shared[i], l.es[i], Off(l, i);
    var at := DecodesEntry(data, p, limit, s, e);
    h := Header(s, |e.key| - s, |e.value|, at);
    HeaderFits(l, data, i, s, e, at);
  }

  lemma HeaderFits(l: Layout, data: Bytes, i: nat, s: nat, e: Pair, at: nat)
    requires Shares(l) && i < |l.es| && e == l.es[i] && s == l.shared[i] <= |e.key|
    requires Has(data, at, e.key[s..]) && Has(data, at + |e.key| - s, e.value) && at + |e.key| - s + |e.value| == Off(l, i + 1)
    ensures EntryHere(l, data, i, Header(s, |e.key| - s, |e.value|, at))
  {
  }

  /** It continues a key that carries what it shares. */
  lemma EntryJoins(l: Layout, data: Bytes, i: nat, key: Bytes, h: Header)
    requires Shares(l) && i < |l.es| && EntryHere(l, data, i, h) && Carries(l, i, key)
    ensures h.shared <= |key| && h.at + h.nonShared <= |data|
    ensures Holds(l, data, i, key[..h.shared] + data[h.at..h.at + h.nonShared], h.at + h.nonShared, h.valueLength)
  {
    assert SharesWith(l, i);
    var k := l.es[i].key;
    assert k[..h.shared] + k[h.shared..] == k;
  }

  lemma EntryUnshared(l: Layout, data: Bytes, i: nat, h: Header)
    requires Shares(l) && i < |l.es| && EntryHere(l, data, i, h) && l.shared[i] == 0
    ensures h.shared == 0 && h.at + h.nonShared <= |data| && data[h.at..h.at + h.nonShared] == l.es[i].key
  {
    var k := l.es[i].key;
    assert k[0..] == k;
  }

  ghost predicate AllBelow(l: Layout, rank: Bytes -> real, target: Bytes, p: nat) {
    p <= |l.es| && forall k :: 0 <= k < p ==> rank(l.es[k].key) < rank(target)
  }

  /** The first entry at or above the target. */
  ghost predicate SeekEnds(l: Layout, rank: Bytes -> real, target: Bytes, p: nat) {
    AllBelow(l, rank, target, p) && (p < |l.es| ==> rank(l.es[p].key) >= rank(target))
  }

  lemma OneMoreBelow(l: Layout, rank: Bytes -> real, target: Bytes, p: nat)
    requires AllBelow(l, rank, target, p) && p < |l.es| && rank(l.es[p].key) < rank(target)
    ensures AllBelow(l, rank, target, p + 1)
  {
  }

  lemma AllBeforeBelow(l: Layout, rank: Bytes -> real, target: Bytes, p: nat)
    requires KeysAscend(l, rank) && p < |l.es| && rank(l.es[p].key) < rank(target)
    ensures AllBelow(l, rank, target, p)
  {
  }

  ghost predicate KeysAscend(l: Layout, rank: Bytes -> real) {
    forall i, j :: 0 <= i < j < |l.es| ==> rank(l.es[i].key) < rank(l.es[j].key)
  }

  lemma RestartRead(l: Layout, data: Bytes, limit: nat, num: nat, k: nat)
    requires Formed(l, data, limit, num) && k < num && limit + 4 * num <= |data|
    ensures Unfixed32(data[limit + 4 * k..limit + 4 * k + 4]) == Point(l, k)
  {
    RestartAt(l, data, limit, num, k);
    FixedRoundTrip(Point(l, k));
  }

  class Iter {
    const rank: Bytes -> real      // comparator_: a key's place in its order
    const data: Bytes
    const beyond: nat -> byte      // the memory behind it
    const restartsAt: nat          // restarts_
    const numRestarts: nat
    var current: nat
    var restartIndex: nat
    var key: Bytes
    var valueAt: nat               // value_
    var valueLength: nat
    var corrupt: bool              // status_
    ghost const l: Layout          // the block's, if it was built by a BlockBuilder
    ghost var pos: nat             // the current entry

    ghost predicate Fits() {
      numRestarts > 0 && restartsAt + 4 * numRestarts <= |data| < TWO32
    }

    ghost predicate Good() {
      Formed(l, data, restartsAt, numRestarts)
    }

    predicate Valid()
      reads this
    {
      current < restartsAt
    }

    /** In 32 bits. */
    function NextEntryOffset(): nat
      reads this
    {
      Cut32(valueAt + valueLength)
    }

    ghost predicate Ok()
      reads this
    {
      && Fits()
      && (Valid() ==> restartIndex < numRestarts && current < NextEntryOffset() <= restartsAt)
      && (Good() ==> !corrupt && At())
    }

    /** The cursor is on entry pos of a good block, or past its end. */
    ghost predicate At()
      reads this
      requires Good()
    {
      && pos <= |l.es| && current == Off(l, pos)
      && (pos < |l.es| ==> Valid() && Holds(l, data, pos, key, valueAt, valueLength) && InRegion(l, pos, restartIndex))
    }

    ghost predicate Ready()
      reads this
    {
      && Fits() && restartIndex < numRestarts
      && (Good() ==> !corrupt && ComesNext(l, pos, restartIndex, key, NextEntryOffset()))
    }

    constructor (rank: Bytes -> real, data: Bytes, beyond: nat -> byte, restartsAt: nat, numRestarts: nat, ghost l: Layout)
      requires numRestarts > 0 && restartsAt + 4 * numRestarts <= |data| < TWO32
      ensures Ok() && !Valid() && this.rank == rank && this.data == data && this.l == l
      ensures this.restartsAt == restartsAt && this.numRestarts == numRestarts
    {
      this.rank, this.data, this.beyond, this.restartsAt, this.numRestarts, this.l := rank, data, beyond, restartsAt, numRestarts, l;
      current, restartIndex := restartsAt, numRestarts;
      key, valueAt, valueLength, corrupt := [], 0, 0, false;
      pos := |l.es|;
    }

    function GetRestartPoint(index: nat): Word
      requires Fits() && index < numRestarts
    {
      Unfixed32(data[restartsAt + 4 * index..restartsAt + 4 * index + 4])
    }

    lemma RestartPoint(index: nat)
      requires Fits() && index < numRestarts && Good()
      ensures GetRestartPoint(index) == Point(l, index)
    {
      RestartRead(l, data, restartsAt, numRestarts, index);
    }

    method SeekToRestartPoint(index: nat)
      requires Fits() && index < numRestarts && (Good() ==> !corrupt)
      modifies this
      ensures Ready() && restartIndex == index && unchanged(`corrupt)
      ensures Good() ==> pos == l.restarts[index]
    {
      key, restartIndex := [], index;
      valueAt, valueLength := GetRestartPoint(index), 0;
      if Good() {
        RestartPoint(index);
        CarriesRestart(l, index);
        pos := l.restarts[index];
      }
    }

    method CorruptionError()
      modifies this
      ensures !Valid() && restartIndex == numRestarts && corrupt && pos == old(pos)
    {
      current, restartIndex, corrupt := restartsAt, numRestarts, true;
      key, valueAt, valueLength := [], 0, 0;
    }

    /** Moves restart_index_ on to the region of the entry just decoded. */
    method AdvanceRestartIndex()
      requires Fits() && restartIndex < numRestarts
      requires Good() ==> pos < |l.es| && current == Off(l, pos) && l.restarts[restartIndex] <= pos
      modifies `restartIndex
      ensures restartIndex < numRestarts
      ensures Good() ==> InRegion(l, pos, restartIndex)
    {
      while restartIndex + 1 < numRestarts && GetRestartPoint(restartIndex + 1) < current
        invariant restartIndex < numRestarts
        invariant Good() ==> l.restarts[restartIndex] <= pos
      {
        if Good() {
          RestartPoint(restartIndex + 1);
          PointOrder(l, restartIndex + 1, pos);
        }
        restartIndex := restartIndex + 1;
      }
      if Good() && restartIndex + 1 < numRestarts {
        RestartPoint(restartIndex + 1);
        PointOrder(l, restartIndex + 1, pos);
      }
    }

    /** DecodeEntry at offset p. */
    method ReadHeader(p: nat, ghost i: nat) returns (h: Option<Header>)
      requires Fits()
      ensures h.Some? ==> p < Cut32(h.value.at + h.value.nonShared + h.value.valueLength) <= restartsAt
      ensures Good() && i < |l.es| && p == Off(l, i) ==> h.Some? && EntryHere(l, data, i, h.value)
    {
      h := DecodeEntry(data, p, restartsAt);
      if h.Some? {
        WrapsBack(h.value.at, h.value.nonShared, h.value.valueLength);
      }
      if Good() && i < |l.es| && p == Off(l, i) {
        var _ := EntryRead(l, data, restartsAt, numRestarts, i);
      }
    }

    /** Decodes the entry at current_; false if it makes no sense. */
    method DecodeCurrent() returns (ok: bool)
      requires Fits() && Valid()
      requires Good() ==> pos < |l.es| && current == Off(l, pos) && Carries(l, pos, key)
      modifies `key, `valueAt, `valueLength
      ensures ok ==> current < NextEntryOffset() <= restartsAt
      ensures Good() ==> ok && Holds(l, data, pos, key, valueAt, valueLength)
    {
      var h := ReadHeader(current, pos);
      if Good() {
        EntryJoins(l, data, pos, key, h.value);
      }
      if h.None? || |key| < h.value.shared {
        return false;
      }
      var Header(shared, nonShared, length, at) := h.value;
      key := key[..shared] + Memory(data, beyond, at, nonShared);
      valueAt, valueLength := at + nonShared, length;
      return true;
    }

    method ParseNextKey() returns (ok: bool)
      requires Ready()
      modifies this
      ensures Ok() && pos == old(pos) && ok == Valid()
      ensures ok ==> current == old(NextEntryOffset())
      ensures Good() ==> (ok <==> pos < |l.es|)
    {
      current := NextEntryOffset();
      if Good() { OffOrder(l, pos, |l.es|); }
      if current >= restartsAt {
        current, restartIndex := restartsAt, numRestarts;
        return false;
      }
      ok := DecodeCurrent();
      if ok {
        AdvanceRestartIndex();
      } else {
        CorruptionError();
      }
    }

    /** From one entry to the next. */
    method Step() returns (ok: bool)
      requires Ok() && Valid()
      modifies this
      ensures Ok() && ok == Valid()
      ensures ok ==> current == old(NextEntryOffset())
      ensures Good() ==> pos == old(pos) + 1 && (ok <==> pos < |l.es|)
    {
      ghost var next := pos + 1;
      if Good() {
        NextComes(l, data, pos, restartIndex, key, valueAt, valueLength, NextEntryOffset(), next);
      }
      pos := next;
      ok := ParseNextKey();
    }

    method Next()
      requires Ok() && Valid()
      modifies this
      ensures Ok() && (Good() ==> pos == old(pos) + 1)
    {
      var _ := Step();
    }

    method SeekToFirst()
      requires Ok()
      modifies this
      ensures Ok() && (Good() ==> pos == 0)
    {
      SeekToRestartPoint(0);
      var _ := ParseNextKey();
    }

    lemma NextOrder(limit: nat, goal: nat)
      requires Ok() && Valid() && Good() && goal <= |l.es| && limit == Off(l, goal)
      ensures NextEntryOffset() < limit <==> pos + 1 < goal
    {
      OffOrder(l, pos + 1, goal);
    }

    /** Decodes on until the next entry starts at the offset of entry `goal`. */
    method ParseUpTo(limit: nat, ghost goal: nat)
      requires Ready() && limit <= restartsAt
      requires Good() ==> goal <= |l.es| && limit == Off(l, goal) && (pos < goal || goal == |l.es|)
      modifies this
      ensures Ok() && (Good() ==> pos == if old(pos) < goal then goal - 1 else |l.es|)
    {
      var ok := ParseNextKey();
      while ok && NextEntryOffset() < limit
        invariant Ok() && ok == Valid()
        invariant Good() && ok ==> pos < goal
        invariant Good() && !ok ==> pos == |l.es| && old(pos) == goal
        decreases restartsAt - current
      {
        if Good() { NextOrder(limit, goal); }
        ok := Step();
      }
      if Good() && ok { NextOrder(limit, goal); }
    }

    method SeekToLast()
      requires Ok()
      modifies this
      ensures Ok() && (Good() ==> pos == StepBack(|l.es|, |l.es|))
    {
      SeekToRestartPoint(numRestarts - 1);
      ParseUpTo(restartsAt, |l.es|);
    }

    /** Back to a restart point before the current entry, if there is one. */
    method RestartBefore() returns (found: bool)
      requires Ok() && Valid()
      modifies `restartIndex
      ensures restartIndex < numRestarts
      ensures Good() ==> if found then l.restarts[restartIndex] < pos else pos == 0
    {
      while GetRestartPoint(restartIndex) >= current
        invariant restartIndex < numRestarts
        decreases restartIndex
      {
        if restartIndex == 0 {
          if Good() {
            RestartPoint(0);
            PointOrder(l, 0, pos);
          }
          return false;
        }
        restartIndex := restartIndex - 1;
      }
      if Good() {
        RestartPoint(restartIndex);
        PointOrder(l, restartIndex, pos);
      }
      return true;
    }

    method Prev()
      requires Ok() && Valid()
      modifies this
      ensures Ok() && (Good() ==> pos == StepBack(|l.es|, old(pos)))
    {
      var original := current;
      ghost var goal := pos;
      var found := RestartBefore();
      if !found {
        current, restartIndex := restartsAt, numRestarts;
        pos := |l.es|;
        return;
      }
      SeekToRestartPoint(restartIndex);
      ParseUpTo(original, goal);
    }

    /** The key at a restart point; none if it does not start with an unshared key. */
    method KeyAtRestart(index: nat) returns (key: Option<Bytes>)
      requires Fits() && index < numRestarts
      ensures Good() && l.restarts[index] < |l.es| ==> key == Some(l.es[l.restarts[index]].key)
    {
      ghost var i := if Good() then l.restarts[index] else 0;
      if Good() {
        RestartPoint(index);
      }
      var h := ReadHeader(GetRestartPoint(index), i);
      if Good() && i < |l.es| {
        assert RestartsAt(l, index);
        EntryUnshared(l, data, i, h.value);
      }
      if h.None? || h.value.shared != 0 {
        return None;
      }
      return Some(Memory(data, beyond, h.value.at, h.value.nonShared));
    }

    /** The last restart point with a key below the target, or the first. */
    method BinarySearch(target: Bytes) returns (left: Option<nat>)
      requires Fits()
      ensures left.Some? ==> left.value < numRestarts
      ensures Good() ==> left.Some? && (left.value == 0 || BelowAt(target, left.value))
    {
      var lo: nat, hi: nat := 0, numRestarts - 1;
      while lo < hi
        invariant lo <= hi < numRestarts
        invariant Good() ==> lo == 0 || BelowAt(target, lo)
      {
        var mid: nat := (lo + hi + 1) / 2;
        if Good() { RestartInside(l, mid); }
        var midKey := KeyAtRestart(mid);
        if midKey.None? {
          return None;
        }
        if rank(midKey.value) < rank(target) {
          lo := mid;
        } else {
          hi := mid - 1;
        }
      }
      return Some(lo);
    }

    ghost predicate BelowAt(target: Bytes, k: nat)
      requires Good() && k < numRestarts
    {
      l.restarts[k] < |l.es| && rank(l.es[l.restarts[k]].key) < rank(target)
    }

    /** Decodes on until a key is not below the target. */
    method ParseTo(target: Bytes)
      requires Ready() && (Good() ==> AllBelow(l, rank, target, pos))
      modifies this
      ensures Ok() && (Good() ==> SeekEnds(l, rank, target, pos))
    {
      var ok := ParseNextKey();
      while ok
        invariant Ok() && ok == Valid()
        invariant Good() ==> AllBelow(l, rank, target, pos)
        decreases restartsAt - current
      {
        var reached := Reached(target);
        if reached {
          return;
        }
        ok := Step();
      }
    }

    /** Compare(key_, target) >= 0 */
    method Reached(target: Bytes) returns (b: bool)
      requires Ok() && Valid() && (Good() ==> AllBelow(l, rank, target, pos))
      ensures Good() ==> if b then SeekEnds(l, rank, target, pos) else AllBelow(l, rank, target, pos + 1)
    {
      b := rank(key) >= rank(target);
      if Good() && !b {
        OneMoreBelow(l, rank, target, pos);
      }
    }

    method Seek(target: Bytes)
      requires Ok() && (Good() ==> KeysAscend(l, rank))
      modifies this
      ensures Ok() && (Good() ==> SeekEnds(l, rank, target, pos))
    {
      var left := BinarySearch(target);
      if left.None? {
        CorruptionError();
        return;
      }
      SeekToRestartPoint(left.value);
      if Good() && left.value > 0 {
        AllBeforeBelow(l, rank, target, pos);
      }
      ParseTo(target);
    }
  }

  /** Restart points after the first start an entry. */
  lemma RestartInside(l: Layout, k: nat)
    requires Complete(l) && 0 < k < |l.restarts|
    ensures l.restarts[k] < |l.es|
  {
    assert RestartsAt(l, k);
    assert l.restarts[0] < l.restarts[k];
  }
}
