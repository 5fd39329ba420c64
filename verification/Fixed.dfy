/** Fixed-width integers as bytes (util/coding.h, util/coding.cc). */
module Fixed {
  import opened Format

  const TWO32: nat := 0x1_0000_0000

  type Word = w: nat | w < TWO32

  /** EncodeFixed32, little-endian */
  function Fixed32(w: Word): (b: Bytes)
    ensures |b| == 4
  {
    [(w % 256) as byte, (w / 256 % 256) as byte, (w / 256 / 256 % 256) as byte, (w / 256 / 256 / 256) as byte]
  }

  /** DecodeFixed32 */
  function Unfixed32(b: Bytes): Word
    requires |b| == 4
  {
    b[0] as nat + 256 * (b[1] as nat + 256 * (b[2] as nat + 256 * b[3] as nat))
  }

  lemma Unfold256(low: nat, high: nat)
    requires low < 256
    ensures (low + 256 * high) % 256 == low && (low + 256 * high) / 256 == high
  {
  }

  /** EncodeFixed32 and DecodeFixed32 undo each other. */
  lemma FixedRoundTrip(w: Word)
    ensures Unfixed32(Fixed32(w)) == w
  {
    var x := w / 256;
    var y := x / 256;
    assert w == w % 256 + 256 * x && x == x % 256 + 256 * y && y == y % 256 + 256 * (y / 256);
  }

  lemma FixedBack(b: Bytes)
    requires |b| == 4
    ensures Fixed32(Unfixed32(b)) == b
  {
    var z := b[3] as nat;
    var y := b[2] as nat + 256 * z;
    var x := b[1] as nat + 256 * y;
    Unfold256(b[0] as nat, x);
    Unfold256(b[1] as nat, y);
    Unfold256(b[2] as nat, z);
  }
}
