/** Reading integers and strings off the front of a slice (util/coding.h, util/coding.cc). */
module Slices {
  import opened Format
  import opened Fixed
  import opened Tables
  import opened Coding

  const TWO64: nat := 0x1_0000_0000_0000_0000

  type Long = w: nat | w < TWO64

  /** What was read, and what is left of the input. */
  type Taken<T> = Option<(T, Bytes)>

  function Rest(input: Bytes, r: Option<(nat, nat)>): (t: Taken<nat>)
    requires r.Some? ==> 0 < r.value.1 <= |input|
    ensures t.Some? ==> |t.value.1| < |input|
  {
    if r.Some? then Some((r.value.0, input[r.value.1..])) else None
  }

  /** GetVarint32(Slice*, uint32_t*) */
  function Take32(input: Bytes): (t: Taken<nat>)
    ensures t.Some? ==> |t.value.1| < |input|
  {
    Rest(input, GetVarint32(input, 0, |input|))
  }

  /** GetVarint64(Slice*, uint64_t*): ten bytes at most, bits past the 64th dropped. */
  function Take64(input: Bytes): (t: Taken<nat>)
    ensures t.Some? ==> |t.value.1| < |input| && t.value.0 < TWO64
  {
    var t := Rest(input, GetVarint(input, 0, |input|, 0, 10, 0));
    if t.Some? then Some((t.value.0 % TWO64, t.value.1)) else None
  }

  /** PutLengthPrefixedSlice */
  function Prefixed(s: Bytes): (b: Bytes)
    ensures b != []
  {
    Varint(|s| % TWO32) + s
  }

  /** GetLengthPrefixedSlice(Slice*, Slice*) */
  function TakeSlice(input: Bytes): (t: Taken<Bytes>)
    ensures t.Some? ==> |t.value.1| < |input|
  {
    var n := Take32(input);
    if n.None? || |n.value.1| < n.value.0 then None
    else Some((n.value.1[..n.value.0], n.value.1[n.value.0..]))
  }

  lemma PrefixHas(x: Bytes, rest: Bytes)
    ensures Has(x + rest, 0, x) && (x + rest)[|x|..] == rest
  {
  }

  /** Each kind of number and string reads back as it was put, and leaves what follows. */
  lemma Take32Back(v: Word, rest: Bytes)
    ensures Take32(Varint(v) + rest) == Some((v, rest))
  {
    PrefixHas(Varint(v), rest);
    Varint32RoundTrip(Varint(v) + rest, 0, |Varint(v) + rest|, v);
  }

  lemma Powers()
    ensures Power128(0) == 1 && Power128(10) == 64 * TWO64
  {
    assert Power128(5) == 128 * (128 * (128 * (128 * (128 * Power128(0)))));
    assert Power128(10) == 128 * (128 * (128 * (128 * (128 * Power128(5)))));
  }

  lemma Varint64RoundTrip(b: Bytes, v: Long, q: nat)
    requires Has(b, 0, Varint(v)) && q == |Varint(v)|
    ensures GetVarint(b, 0, |b|, 0, 10, 0) == Some((v, q))
  {
    Powers();
    var low := Power128(0);
    assert 0 + v * low == v;
    VarintRead(b, 0, |b|, 0, 10, 0, v);
  }

  lemma Cut64(v: Long)
    ensures v % TWO64 == v
  {
  }

  lemma Take64Back(v: Long, rest: Bytes)
    ensures Take64(Varint(v) + rest) == Some((v, rest))
  {
    var x := Varint(v);
    PrefixHas(x, rest);
    Varint64RoundTrip(x + rest, v, |x|);
    Cut64(v);
  }

  lemma TakeSliceBack(s: Bytes, rest: Bytes)
    requires |s| < TWO32
    ensures TakeSlice(Prefixed(s) + rest) == Some((s, rest))
  {
    assert Prefixed(s) + rest == Varint(|s|) + (s + rest);
    Take32Back(|s|, s + rest);
  }

  // ---- 64-bit integers ----

  /** EncodeFixed64 */
  function Fixed64(w: Long): (b: Bytes)
    ensures |b| == 8
  {
    Fixed32(w % TWO32) + Fixed32(w / TWO32)
  }

  /** DecodeFixed64 */
  function Unfixed64(b: Bytes): Long
    requires |b| == 8
  {
    Unfixed32(b[..4]) + TWO32 * Unfixed32(b[4..])
  }

  lemma Fixed64RoundTrip(w: Long)
    ensures Unfixed64(Fixed64(w)) == w
  {
    FixedRoundTrip(w % TWO32);
    FixedRoundTrip(w / TWO32);
  }
}
