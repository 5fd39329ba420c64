/** Integers and strings as bytes (util/coding.h, util/coding.cc). */
module Coding {
  import opened Format
  import opened Fixed
  import opened Tables

  // ---- bytes at a place ----

  /** b holds x at p. */
  ghost predicate Has(b: Bytes, p: nat, x: Bytes) {
    p + |x| <= |b| && b[p..p + |x|] == x
  }

  lemma HasParts(b: Bytes, p: nat, x: Bytes, y: Bytes)
    ensures Has(b, p, x + y) <==> Has(b, p, x) && Has(b, p + |x|, y)
  {
    if Has(b, p, x) && Has(b, p + |x|, y) {
      assert b[p..p + |x + y|] == b[p..p + |x|] + b[p + |x|..p + |x| + |y|];
    }
    if Has(b, p, x + y) {
      assert b[p..p + |x|] == (x + y)[..|x|];
      assert b[p + |x|..p + |x| + |y|] == (x + y)[|x|..];
    }
  }

  // ---- varints ----

  /** PutVarint32 and PutVarint64 */
  function Varint(v: nat): (b: Bytes)
    ensures b != []
  {
    if v < 128 then [v as byte] else [(v % 128 + 128) as byte] + Varint(v / 128)
  }

  function Power128(k: nat): (p: nat)
    ensures p > 0
  {
    if k == 0 then 1 else 128 * Power128(k - 1)
  }

  /** The loop of GetVarint32PtrFallback (max 5 bytes) and of GetVarint64Ptr (max 10),
      from the k-th byte on: the value, before it is cut to its width, and the place
      behind it. */
  function GetVarint(b: Bytes, p: nat, limit: nat, k: nat, max: nat, acc: nat): (r: Option<(nat, nat)>)
    requires limit <= |b|
    ensures r.Some? ==> p < r.value.1 <= limit
    decreases max - k
  {
    if k >= max || p >= limit then None
    else if b[p] >= 128 then GetVarint(b, p + 1, limit, k + 1, max, acc + (b[p] as nat - 128) * Power128(k))
    else Some((acc + b[p] as nat * Power128(k), p + 1))
  }

  function GetVarint32(b: Bytes, p: nat, limit: nat): (r: Option<(nat, nat)>)
    requires limit <= |b|
    ensures r.Some? ==> p < r.value.1 <= limit && r.value.0 < TWO32
  {
    var r := GetVarint(b, p, limit, 0, 5, 0);
    if r.Some? then Some((r.value.0 % TWO32, r.value.1)) else None
  }

  lemma VarintStep(v: nat, k: nat)
    ensures (v % 128) * Power128(k) + (v / 128) * Power128(k + 1) == v * Power128(k)
  {
    var q, r, p := v / 128, v % 128, Power128(k);
    assert v == r + 128 * q;
    assert q * (128 * p) == (128 * q) * p;
    assert r * p + (128 * q) * p == (r + 128 * q) * p;
  }

  lemma {:induction false} VarintRead(b: Bytes, p: nat, limit: nat, k: nat, max: nat, acc: nat, v: nat)
    requires limit <= |b| && k < max && v < Power128(max - k)
    requires Has(b, p, Varint(v)) && p + |Varint(v)| <= limit
    ensures GetVarint(b, p, limit, k, max, acc) == Some((acc + v * Power128(k), p + |Varint(v)|))
    decreases max - k
  {
    if v >= 128 {
      var low, rest := [(v % 128 + 128) as byte], Varint(v / 128);
      HasParts(b, p, low, rest);
      FirstByte(b, p, low);
      VarintStep(v, k);
      VarintRead(b, p + 1, limit, k + 1, max, acc + (v % 128) * Power128(k), v / 128);
      MoreBytes(b, p, limit, k, max, acc, v % 128);
    } else {
      FirstByte(b, p, [v as byte]);
    }
  }

  lemma FirstByte(b: Bytes, p: nat, x: Bytes)
    requires Has(b, p, x) && x != []
    ensures b[p] == x[0]
  {
    assert b[p] == b[p..p + |x|][0];
  }

  lemma MoreBytes(b: Bytes, p: nat, limit: nat, k: nat, max: nat, acc: nat, low: nat)
    requires p < limit <= |b| && k < max && low < 128 && b[p] as nat == low + 128
    ensures GetVarint(b, p, limit, k, max, acc) == GetVarint(b, p + 1, limit, k + 1, max, acc + low * Power128(k))
  {
  }

  /** Reading a varint of 32 bits gives back what was put. */
  lemma Varint32RoundTrip(b: Bytes, p: nat, limit: nat, v: Word)
    requires limit <= |b| && Has(b, p, Varint(v)) && p + |Varint(v)| <= limit
    ensures GetVarint32(b, p, limit) == Some((v, p + |Varint(v)|))
  {
    assert Power128(5) == 128 * (128 * (128 * (128 * (128 * Power128(0)))));
    assert v * Power128(0) == v;
    VarintRead(b, p, limit, 0, 5, 0, v);
  }
}
