/** The bytes of a table block (table/block_builder.cc, table/block.cc): entries with
    shared key prefixes, then the offsets of the restart points and their number. */
module BlockFormat {
  import opened Format
  import opened Fixed
  import opened Tables
  import opened Coding

  datatype Pair = Pair(key: Bytes, value: Bytes)

  /** A block's entries, how much of each key is shared with the key before, and which
      entries are restart points. */
  datatype Layout = Layout(es: seq<Pair>, shared: seq<nat>, restarts: seq<nat>)

  /** Entry i shares a prefix of the key before it. */
  ghost predicate SharesWith(l: Layout, i: nat)
    requires |l.shared| == |l.es| && i < |l.es|
  {
    if i == 0 then l.shared[i] == 0
    else l.shared[i] <= |l.es[i - 1].key| && l.shared[i] <= |l.es[i].key|
         && l.es[i].key[..l.shared[i]] == l.es[i - 1].key[..l.shared[i]]
  }

  ghost predicate Shares(l: Layout) {
    && |l.shared| == |l.es|
    && forall i :: 0 <= i < |l.es| ==> SharesWith(l, i)
  }

  /** The entry at a restart point shares nothing. */
  ghost predicate RestartsAt(l: Layout, k: nat)
    requires |l.shared| == |l.es| && k < |l.restarts|
  {
    l.restarts[k] <= |l.es| && (l.restarts[k] < |l.es| ==> l.shared[l.restarts[k]] == 0)
  }

  ghost predicate Ascending(s: seq<nat>) {
    forall j, k :: 0 <= j < k < |s| ==> s[j] < s[k]
  }

  ghost predicate Restarts(l: Layout)
    requires |l.shared| == |l.es|
  {
    && |l.restarts| > 0 && l.restarts[0] == 0 && Ascending(l.restarts)
    && forall k :: 0 <= k < |l.restarts| ==> RestartsAt(l, k)
  }

  ghost predicate Proper(l: Layout) {
    Shares(l) && Restarts(l)
  }

  /** Every restart point but that of an empty block starts an entry. */
  ghost predicate Complete(l: Layout) {
    Proper(l) && (|l.es| > 0 ==> l.restarts[|l.restarts| - 1] < |l.es|)
  }

  // ---- entries ----

  /** Add: "<shared><non_shared><value_size>", the key's rest, the value. */
  function EntryBytes(shared: nat, p: Pair): (b: Bytes)
    requires shared <= |p.key|
    ensures |b| >= 3
  {
    Varint(shared) + Varint(|p.key| - shared) + Varint(|p.value|) + p.key[shared..] + p.value
  }

  ghost function EntryOf(l: Layout, i: nat): Bytes
    requires Shares(l) && i < |l.es|
  {
    assert SharesWith(l, i);
    EntryBytes(l.shared[i], l.es[i])
  }

  /** The first i entries. */
  ghost function Body(l: Layout, i: nat): Bytes
    requires Shares(l) && i <= |l.es|
  {
    if i == 0 then [] else Body(l, i - 1) + EntryOf(l, i - 1)
  }

  /** Where entry i starts, or the entries end. */
  ghost function Off(l: Layout, i: nat): nat
    requires Shares(l) && i <= |l.es|
  {
    |Body(l, i)|
  }

  lemma {:induction false} OffsetsGrow(l: Layout, i: nat, j: nat)
    requires Shares(l) && i <= j <= |l.es|
    ensures Off(l, i) + 3 * (j - i) <= Off(l, j) && Has(Body(l, j), 0, Body(l, i))
    decreases j
  {
    if i < j {
      OffsetsGrow(l, i, j - 1);
    }
  }

  /** Where things are in anything that starts with the entries. */
  lemma EntryAt(l: Layout, data: Bytes, i: nat)
    requires Shares(l) && i < |l.es| && Has(data, 0, Body(l, |l.es|))
    ensures Has(data, Off(l, i), EntryOf(l, i))
    ensures Off(l, i + 1) == Off(l, i) + |EntryOf(l, i)| <= Off(l, |l.es|)
  {
    OffsetsGrow(l, i + 1, |l.es|);
    HasInside(data, Body(l, |l.es|), Body(l, i + 1));
    HasParts(data, 0, Body(l, i), EntryOf(l, i));
  }

  lemma HasInside(b: Bytes, x: Bytes, y: Bytes)
    requires Has(b, 0, x) && Has(x, 0, y)
    ensures Has(b, 0, y)
  {
    assert b[..|y|] == b[..|x|][..|y|];
  }

  // ---- restart points ----

  /** The offset of restart point k. */
  ghost function Point(l: Layout, k: nat): (r: nat)
    requires Proper(l) && k < |l.restarts|
    ensures r <= Off(l, |l.es|)
  {
    assert RestartsAt(l, k);
    OffsetsGrow(l, l.restarts[k], |l.es|);
    Off(l, l.restarts[k])
  }

  ghost function RestartArray(l: Layout, k: nat): (b: Bytes)
    requires Proper(l) && k <= |l.restarts| && Off(l, |l.es|) < TWO32
    ensures |b| == 4 * k
  {
    if k == 0 then [] else RestartArray(l, k - 1) + Fixed32(Point(l, k - 1))
  }

  lemma {:induction false} RestartAt(l: Layout, data: Bytes, p: nat, n: nat, k: nat)
    requires Proper(l) && k < n <= |l.restarts| && Off(l, |l.es|) < TWO32 && Has(data, p, RestartArray(l, n))
    ensures Has(data, p + 4 * k, Fixed32(Point(l, k)))
    decreases n
  {
    var init, last := RestartArray(l, n - 1), Fixed32(Point(l, n - 1));
    assert Has(data, p, init + last);
    HasParts(data, p, init, last);
    if k < n - 1 {
      RestartAt(l, data, p, n - 1, k);
    }
  }

  /** The finished block, small enough for its 32-bit offsets. */
  ghost predicate BlockOf(l: Layout, data: Bytes) {
    && Complete(l) && Off(l, |l.es|) < TWO32 && |l.restarts| < TWO32 && |data| < TWO32
    && data == Body(l, |l.es|) + RestartArray(l, |l.restarts|) + Fixed32(|l.restarts|)
  }

  // ---- reading ----

  /** DecodeEntry: shared, non-shared and value lengths, and where the key's rest starts. */
  datatype Header = Header(shared: nat, nonShared: nat, valueLength: nat, at: nat)

  function DecodeLengths(data: Bytes, p: nat, limit: nat): Option<Header>
    requires limit <= |data|
  {
    var a := GetVarint32(data, p, limit);
    if a.None? then None
    else
      var b := GetVarint32(data, a.value.1, limit);
      if b.None? then None
      else
        var c := GetVarint32(data, b.value.1, limit);
        if c.None? then None else Some(Header(a.value.0, b.value.0, c.value.0, c.value.1))
  }

  function DecodeEntry(data: Bytes, p: nat, limit: nat): (r: Option<Header>)
    requires limit <= |data|
    ensures r.Some? ==> p + 3 <= r.value.at <= limit
    ensures r.Some? ==> r.value.at + (r.value.nonShared + r.value.valueLength) % TWO32 <= limit
  {
    if p + 3 > limit then None
    else
      var lengths :=
        if data[p] < 128 && data[p + 1] < 128 && data[p + 2] < 128 then
          Some(Header(data[p] as nat, data[p + 1] as nat, data[p + 2] as nat, p + 3))
        else DecodeLengths(data, p, limit);
      if lengths.None? then None
      else
        var h := lengths.value;
        if limit - h.at < (h.nonShared + h.valueLength) % TWO32 then None else Some(h)
  }

  lemma OneByte(data: Bytes, p: nat, limit: nat)
    requires p < limit <= |data| && data[p] < 128
    ensures GetVarint32(data, p, limit) == Some((data[p] as nat, p + 1))
  {
    assert data[p] as nat * Power128(0) == data[p] as nat;
  }

  /** The fast path reads what the slow one would. */
  lemma FastPath(data: Bytes, p: nat, limit: nat)
    requires p + 3 <= limit <= |data| && data[p] < 128 && data[p + 1] < 128 && data[p + 2] < 128
    ensures DecodeLengths(data, p, limit) == Some(Header(data[p] as nat, data[p + 1] as nat, data[p + 2] as nat, p + 3))
  {
    OneByte(data, p, limit);
    OneByte(data, p + 1, limit);
    OneByte(data, p + 2, limit);
  }

  lemma HasPartsAt(b: Bytes, p: nat, x: Bytes, y: Bytes) returns (q: nat)
    requires Has(b, p, x + y)
    ensures q == p + |x| && Has(b, p, x) && Has(b, q, y)
  {
    q := p + |x|;
    HasParts(b, p, x, y);
  }

  /** Where the parts of an entry are. */
  lemma PartsAt(data: Bytes, p: nat, a: Bytes, b: Bytes, c: Bytes, d: Bytes, e: Bytes) returns (p1: nat, p2: nat, p3: nat, p4: nat)
    requires Has(data, p, a + b + c + d + e)
    ensures p1 == p + |a| && p2 == p1 + |b| && p3 == p2 + |c| && p4 == p3 + |d| && p4 + |e| <= |data|
    ensures Has(data, p, a) && Has(data, p1, b) && Has(data, p2, c) && Has(data, p3, d) && Has(data, p4, e)
  {
    p4 := HasPartsAt(data, p, a + b + c + d, e);
    p3 := HasPartsAt(data, p, a + b + c, d);
    p2 := HasPartsAt(data, p, a + b, c);
    p1 := HasPartsAt(data, p, a, b);
  }

  lemma LengthsRead(data: Bytes, p: nat, limit: nat, x: Word, p1: nat, y: Word, p2: nat, z: Word, p3: nat)
    requires limit <= |data| && GetVarint32(data, p, limit) == Some((x, p1))
    requires GetVarint32(data, p1, limit) == Some((y, p2)) && GetVarint32(data, p2, limit) == Some((z, p3))
    ensures DecodeLengths(data, p, limit) == Some(Header(x, y, z, p3))
  {
  }

  /** What the general path reads, DecodeEntry reads, if the rest of the entry fits. */
  lemma ReadEither(data: Bytes, p: nat, limit: nat, h: Header)
    requires limit <= |data| && limit < TWO32 && DecodeLengths(data, p, limit) == Some(h)
    requires p + 3 <= h.at && h.at + h.nonShared + h.valueLength <= limit
    ensures DecodeEntry(data, p, limit) == Some(h)
  {
    if data[p] < 128 && data[p + 1] < 128 && data[p + 2] < 128 {
      FastPath(data, p, limit);
    }
  }

  lemma ReadOne(data: Bytes, p: nat, limit: nat, x: Word, q: nat)
    requires limit <= |data| && q == p + |Varint(x)| <= limit && Has(data, p, Varint(x))
    ensures GetVarint32(data, p, limit) == Some((x, q))
  {
    Varint32RoundTrip(data, p, limit, x);
  }

  lemma ReadLengths(data: Bytes, p: nat, limit: nat, x: Word, p1: nat, y: Word, p2: nat, z: Word, p3: nat)
    requires limit <= |data| && p3 <= limit
    requires p1 == p + |Varint(x)| && p2 == p1 + |Varint(y)| && p3 == p2 + |Varint(z)|
    requires Has(data, p, Varint(x)) && Has(data, p1, Varint(y)) && Has(data, p2, Varint(z))
    ensures DecodeLengths(data, p, limit) == Some(Header(x, y, z, p3))
  {
    ReadOne(data, p, limit, x, p1);
    ReadOne(data, p1, limit, y, p2);
    ReadOne(data, p2, limit, z, p3);
    LengthsRead(data, p, limit, x, p1, y, p2, z, p3);
  }

  /** An entry decodes to what was added. */
  lemma DecodesEntry(data: Bytes, p: nat, limit: nat, shared: Word, e: Pair) returns (at: nat)
    requires shared <= |e.key| && Has(data, p, EntryBytes(shared, e)) && p + |EntryBytes(shared, e)| <= limit <= |data| < TWO32
    ensures DecodeEntry(data, p, limit) == Some(Header(shared, |e.key| - shared, |e.value|, at))
    ensures Has(data, at, e.key[shared..]) && Has(data, at + (|e.key| - shared), e.value)
    ensures at + (|e.key| - shared) + |e.value| == p + |EntryBytes(shared, e)|
  {
    var y, z, rest := |e.key| - shared, |e.value|, e.key[shared..];
    var p1, p2, p4;
    p1, p2, at, p4 := PartsAt(data, p, Varint(shared), Varint(y), Varint(z), rest, e.value);
    ReadLengths(data, p, limit, shared, p1, y, p2, z, at);
    ReadEither(data, p, limit, Header(shared, y, z, at));
  }

  /** A key is no longer than the block up to it, so its length fits 32 bits. */
  lemma {:induction false} KeyFits(l: Layout, i: nat)
    requires Shares(l) && i < |l.es|
    ensures |l.es[i].key| <= Off(l, i + 1)
  {
    assert SharesWith(l, i);
    if i > 0 { KeyFits(l, i - 1); }
  }
}
