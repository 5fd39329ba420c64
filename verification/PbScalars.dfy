/** The decoder's integers and strings undo the encoder's (nanopb/pb_encode.c,
    nanopb/pb_decode.c). */
module PbScalars {
  import opened Format
  import opened Fixed
  import opened Tables
  import opened Coding
  import opened Slices
  import opened PbMessages
  import opened PbFormat
  import opened PbParse

  lemma Small(n: nat)
    requires n < TWO32
    ensures n % TWO32 == n
  {
  }

  /** One byte of a varint that fits 32 bits. */
  lemma ScanLast(b: byte, rest: Bytes, k: nat, result: nat)
    requires k <= 4 && b < 128 && (k == 4 ==> b < 16) && result + b as nat * Power128(k) < TWO32
    ensures Scan32([b] + rest, k, result) == Some((result + b as nat * Power128(k), rest))
  {
    var input := [b] + rest;
    assert input[1..] == rest;
    Small(result + b as nat * Power128(k));
  }

  lemma ScanMore(b: byte, rest: Bytes, k: nat, result: nat)
    requires k <= 4 && b >= 128 && result + (b as nat - 128) * Power128(k) < TWO32
    ensures Scan32([b] + rest, k, result) == Scan32(rest, k + 1, result + (b as nat - 128) * Power128(k))
  {
    var input := [b] + rest;
    assert input[1..] == rest;
    Small(result + (b as nat - 128) * Power128(k));
  }

  lemma Power4(v: nat)
    requires v * Power128(4) < TWO32
    ensures v < 16
  {
    assert Power128(4) == 128 * (128 * (128 * (128 * Power128(0))));
  }

  lemma {:induction false} ScanBack(v: nat, rest: Bytes, k: nat, result: nat)
    requires k <= 4 && result + v * Power128(k) < TWO32
    ensures Scan32(Varint(v) + rest, k, result) == Some((result + v * Power128(k), rest))
    decreases v
  {
    if k == 4 { Power4(v); }
    if v < 128 {
      ScanLast(v as byte, rest, k, result);
    } else {
      var low, more := (v % 128 + 128) as byte, Varint(v / 128) + rest;
      VarintStep(v, k);
      assert Varint(v) + rest == [low] + more;
      ScanMore(low, more, k, result);
      ScanBack(v / 128, rest, k + 1, result + v % 128 * Power128(k));
    }
  }

  lemma Read32Back(v: Word, rest: Bytes)
    ensures Read32(Varint(v) + rest) == Some((v, rest))
  {
    assert v * Power128(0) == v;
    ScanBack(v, rest, 0, 0);
  }

  lemma CastBack(n: int, w: Width)
    requires Signed(n, w)
    ensures 0 <= Cast64(n) < TWO64 && CastSigned(Cast64(n), w) == n
  {
    if w != 8 && n < 0 {
      assert n + TWO64 == (n + TWO32) + 0xFFFF_FFFF * TWO32;
    }
  }

  lemma ZigZagBack(n: int)
    requires Signed(n, 8)
    ensures ZigZag(n) < TWO64 && UnZigZag(ZigZag(n)) == n
  {
  }

  lemma SignedWider(n: int, w: Width)
    requires Signed(n, w)
    ensures Signed(n, 8)
  {
  }

  lemma BytesBack(b: Bytes, rest: Bytes)
    ensures Bytes0(b + rest, |b|) == Some((b, rest))
  {
  }

  lemma ScalarBack(t: LType, n: int, rest: Bytes)
    requires Packable(t) && ValueOk(t, Num(n))
    ensures DecScalar(t, Scalar(t, n) + rest) == Some((n, rest))
  {
    match t
    case BoolType => Read32Back(n, rest);
    case VarintType(w) =>
      CastBack(n, w);
      Take64Back(Cast64(n), rest);
    case UVarintType(w) => Take64Back(n, rest);
    case SVarintType(w) =>
      SignedWider(n, w);
      ZigZagBack(n);
      Take64Back(ZigZag(n), rest);
    case Fixed32Type =>
      BytesBack(Fixed32(n), rest);
      FixedRoundTrip(n);
    case Fixed64Type =>
      BytesBack(Fixed64(n), rest);
      Fixed64RoundTrip(n);
  }

  lemma StringReads(b: Bytes, rest: Bytes)
    requires |b| < TWO32
    ensures Read32(StringBytes(b) + rest) == Some((|b|, b + rest))
  {
    assert StringBytes(b) + rest == Varint(|b|) + (b + rest);
    Read32Back(|b|, b + rest);
  }

  lemma SubBack(b: Bytes, rest: Bytes)
    requires |b| < TWO32
    ensures TakeSub(StringBytes(b) + rest) == Some((b, rest))
  {
    StringReads(b, rest);
    BytesBack(b, rest);
  }

  /** A string that fills its buffer has no room for its NUL. */
  predicate Terminated(t: LType, b: Bytes) {
    t.StringType? ==> |b| < t.size
  }

  lemma TextBack(t: LType, b: Bytes, rest: Bytes)
    requires (t.BytesType? && |b| <= t.max) || t.StringType? || t.FixedBytesType?
    requires ValueOk(t, Text(b)) && |b| < TWO32
    ensures DecText(t, StringBytes(b) + rest) == if Terminated(t, b) then Some((b, rest)) else None
  {
    StringReads(b, rest);
    BytesBack(b, rest);
    if t.FixedBytesType? && b == [] {
      assert Zeros(0) == b;
    }
  }
}
