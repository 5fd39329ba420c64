/** A block written by BlockBuilder and read by Block::Iter. */
module Blocks {
  import opened Format
  import opened Fixed
  import opened BlockFormat
  import opened BlockBuilding
  import opened BlockIteration
  import opened Sequences

  /** All pairs in one block. */
  method BuildBlock(interval: nat, pairs: seq<Pair>) returns (block: Bytes, ghost l: Layout)
    requires interval >= 1
    ensures l.es == pairs && (|block| < TWO32 ==> BlockOf(l, block))
  {
    var builder := new BlockBuilder(interval);
    for i := 0 to |pairs|
      invariant fresh(builder) && builder.Valid() && builder.layout.es == pairs[..i]
    {
      builder.Add(pairs[i].key, pairs[i].value);
    }
    block := builder.Finish();
    l := builder.layout;
    assert pairs[..|pairs|] == pairs;
  }

  /** Block::NewIterator: none for bad contents or no restart points. */
  method NewIterator(rank: Bytes -> real, contents: Bytes, beyond: nat -> byte, ghost l: Layout) returns (it: Iter?)
    requires |contents| < TWO32
    ensures it != null ==> fresh(it) && it.Ok() && it.data == contents && it.rank == rank && it.l == l
    ensures BlockOf(l, contents) ==> it != null && it.Good()
  {
    if BlockOf(l, contents) { OpensBlock(l, contents); }
    match OpenBlock(contents)
    case Usable(restartsAt, numRestarts) =>
      it := new Iter(rank, contents, beyond, restartsAt, numRestarts, l);
    case _ =>
      it := null;
  }

  /** The entry a cursor is on, as the block was given it. */
  method Current(it: Iter) returns (p: Pair)
    requires it.Ok() && it.Valid()
    ensures it.Good() ==> it.pos < |it.l.es| && p == it.l.es[it.pos]
  {
    p := Pair(it.key, Memory(it.data, it.beyond, it.valueAt, it.valueLength));
  }

  lemma AtEnd(it: Iter)
    requires it.Ok() && it.Good() && !it.Valid()
    ensures it.pos == |it.l.es|
  {
    OffOrder(it.l, it.pos, |it.l.es|);
  }

  /** The current entry goes out, and the cursor on. */
  method CopyOne(it: Iter, out: seq<Pair>) returns (out': seq<Pair>)
    requires it.Ok() && it.Good() && it.Valid() && it.pos <= |it.l.es| && out == it.l.es[..it.pos]
    modifies it
    ensures it.Ok() && it.pos == old(it.pos) + 1 <= |it.l.es| && out' == it.l.es[..it.pos]
  {
    var p := Current(it);
    TakeOneMore(it.l.es, it.pos);
    out' := out + [p];
    it.Next();
  }

  method ScanAll(it: Iter) returns (out: seq<Pair>)
    requires it.Ok() && it.Good()
    modifies it
    ensures out == it.l.es
  {
    out := [];
    it.SeekToFirst();
    while it.Valid()
      invariant it.Ok() && it.pos <= |it.l.es| && out == it.l.es[..it.pos]
      decreases |it.l.es| - it.pos
    {
      out := CopyOne(it, out);
    }
    AtEnd(it);
  }

  /** Iterating a finished block gives back what was added, in order. */
  method BuildAndScan(rank: Bytes -> real, beyond: nat -> byte, interval: nat, pairs: seq<Pair>) returns (size: nat, out: seq<Pair>)
    requires interval >= 1
    ensures size < TWO32 ==> out == pairs
  {
    var block, l := BuildBlock(interval, pairs);
    size, out := |block|, [];
    if size < TWO32 {
      var it := NewIterator(rank, block, beyond, l);
      out := ScanAll(it);
    }
  }
}
