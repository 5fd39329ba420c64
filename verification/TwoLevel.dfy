/** TwoLevelIterator (table/two_level_iterator.cc): an index over blocks and a cursor in
    one block behave as one cursor over the blocks' concatenation, empty blocks included. */
module TwoLevel {
  import opened Format
  import opened Tables
  import opened Cursor

  function Concat(blocks: seq<seq<Entry>>): seq<Entry> {
    if blocks == [] then [] else Concat(blocks[..|blocks| - 1]) + blocks[|blocks| - 1]
  }

  /** Where block b starts in the concatenation. */
  function Offset(blocks: seq<seq<Entry>>, b: nat): nat
    requires b <= |blocks|
  {
    |Concat(blocks[..b])|
  }

  lemma {:induction false} ConcatPrefix(blocks: seq<seq<Entry>>, b: nat)
    requires b <= |blocks|
    ensures Concat(blocks[..b]) <= Concat(blocks)
    decreases |blocks|
  {
    if b < |blocks| {
      var init := blocks[..|blocks| - 1];
      assert init[..b] == blocks[..b];
      ConcatPrefix(init, b);
    } else {
      assert blocks[..b] == blocks;
    }
  }

  lemma OffsetNext(blocks: seq<seq<Entry>>, b: nat)
    requires b < |blocks|
    ensures Offset(blocks, b + 1) == Offset(blocks, b) + |blocks[b]|
    ensures Offset(blocks, b + 1) <= |Concat(blocks)|
    ensures forall j :: 0 <= j < |blocks[b]| ==> Concat(blocks)[Offset(blocks, b) + j] == blocks[b][j]
  {
    var upTo, before := blocks[..b + 1], blocks[..b];
    assert upTo[..b] == before && upTo[b] == blocks[b];
    var whole := Concat(upTo);
    assert whole == Concat(before) + blocks[b];
    ConcatPrefix(blocks, b + 1);
    assert whole <= Concat(blocks);
  }

  lemma OffsetEnds(blocks: seq<seq<Entry>>)
    ensures Offset(blocks, 0) == 0 && Offset(blocks, |blocks|) == |Concat(blocks)|
  {
    assert blocks[..|blocks|] == blocks && blocks[..0] == [];
  }

  /** Index keys: seps[i] is at or above every key of block i and below every later key. */
  ghost predicate Separates(seps: seq<InternalKey>, blocks: seq<seq<Entry>>) {
    && |seps| == |blocks|
    && (forall i, j :: 0 <= i < j < |seps| ==> Less(seps[i], seps[j]))
    && (forall i, e :: 0 <= i < |blocks| && e in blocks[i] ==> !Less(seps[i], e.key))
    && (forall i, j, e :: 0 <= i < j < |blocks| && e in blocks[j] ==> Less(seps[i], e.key))
  }

  function IndexSeek(seps: seq<InternalKey>, target: InternalKey, i: nat): (r: nat)
    requires i <= |seps|
    ensures i <= r <= |seps|
    ensures forall j :: i <= j < r ==> Less(seps[j], target)
    ensures r < |seps| ==> !Less(seps[r], target)
    decreases |seps| - i
  {
    if i < |seps| && Less(seps[i], target) then IndexSeek(seps, target, i + 1) else i
  }

  lemma {:induction false} EntryBlock(blocks: seq<seq<Entry>>, k: nat) returns (b: nat)
    requires k < |Concat(blocks)|
    ensures b < |blocks| && Offset(blocks, b) <= k < Offset(blocks, b) + |blocks[b]|
    ensures Concat(blocks)[k] == blocks[b][k - Offset(blocks, b)]
    decreases |blocks|
  {
    var n := |blocks| - 1;
    if k < |Concat(blocks[..n])| {
      b := EntryBlock(blocks[..n], k);
      assert blocks[..n][..b] == blocks[..b];
      ConcatPrefix(blocks, n);
    } else {
      b := n;
    }
  }

  /** Everything before the block the index finds is below the target. */
  lemma BlocksBelow(seps: seq<InternalKey>, blocks: seq<seq<Entry>>, target: InternalKey, k: nat)
    requires Separates(seps, blocks) && k < Offset(blocks, IndexSeek(seps, target, 0))
    ensures k < |Concat(blocks)| && Less(Concat(blocks)[k].key, target)
  {
    var i := IndexSeek(seps, target, 0);
    ConcatPrefix(blocks, i);
    var b := EntryBlock(blocks[..i], k);
    assert blocks[..i][b] == blocks[b];
    assert blocks[b][k - Offset(blocks[..i], b)] in blocks[b];
  }

  lemma SeekUnique(es: seq<Entry>, target: InternalKey, a: nat)
    requires a <= |es| && (forall k :: 0 <= k < a ==> Less(es[k].key, target))
    requires a < |es| ==> !Less(es[a].key, target)
    ensures SeekFrom(es, target, 0) == a
  {
  }

  /** The position after seeking in the index and then in the block it finds. */
  lemma SeekPosition(seps: seq<InternalKey>, blocks: seq<seq<Entry>>, target: InternalKey)
    requires Separates(seps, blocks)
    ensures var i := IndexSeek(seps, target, 0);
            SeekFrom(Concat(blocks), target, 0)
            == if i == |blocks| then |Concat(blocks)| else Offset(blocks, i) + SeekFrom(blocks[i], target, 0)
  {
    var i, flat := IndexSeek(seps, target, 0), Concat(blocks);
    OffsetEnds(blocks);
    forall k | 0 <= k < Offset(blocks, i) ensures k < |flat| && Less(flat[k].key, target) {
      BlocksBelow(seps, blocks, target, k);
    }
    if i == |blocks| {
      SeekUnique(flat, target, |flat|);
    } else {
      OffsetNext(blocks, i);
      var p := SeekFrom(blocks[i], target, 0);
      var a := Offset(blocks, i) + p;
      forall k | 0 <= k < a ensures Less(flat[k].key, target) {
        if k >= Offset(blocks, i) {
          assert flat[k] == blocks[i][k - Offset(blocks, i)];
        }
      }
      if a < |flat| && p == |blocks[i]| {
        NextBlockAbove(seps, blocks, target, i, a);
      }
      SeekUnique(flat, target, a);
    }
  }

  lemma NextBlockAbove(seps: seq<InternalKey>, blocks: seq<seq<Entry>>, target: InternalKey, i: nat, a: nat)
    requires Separates(seps, blocks) && i < |blocks| && !Less(seps[i], target)
    requires Offset(blocks, i + 1) <= a < |Concat(blocks)|
    ensures !Less(Concat(blocks)[a].key, target)
  {
    var b := EntryBlock(blocks, a);
    if b <= i {
      OffsetMonotone(blocks, b + 1, i + 1);
      OffsetNext(blocks, b);
      assert false;
    }
    assert blocks[b][a - Offset(blocks, b)] in blocks[b];
  }

  lemma {:induction false} OffsetMonotone(blocks: seq<seq<Entry>>, b: nat, c: nat)
    requires b <= c <= |blocks|
    ensures Offset(blocks, b) <= Offset(blocks, c)
  {
    assert blocks[..c][..b] == blocks[..b];
    ConcatPrefix(blocks[..c], b);
  }

  class TwoLevelIterator {
    const blocks: seq<seq<Entry>>      // what block_function_ opens, by index entry
    const seps: seq<InternalKey>       // the index entries' keys
    var index: nat                     // index_iter_, |blocks| when not valid
    var data: RunIterator?             // data_iter_
    var handle: nat                    // data_block_handle_
    ghost var at: nat

    ghost function Repr(): set<object>
      reads this
    {
      {this} + if data == null then {} else {data}
    }

    ghost predicate Shape()
      reads Repr()
    {
      && Separates(seps, blocks) && Sorted(Concat(blocks))
      && index <= |blocks|
      && (data != null ==> index < |blocks| && handle == index && data.Ok() && data.es == blocks[index])
      && (index < |blocks| ==> data != null)
    }

    ghost predicate Ok()
      reads Repr()
    {
      && Shape()
      && if data == null then at == |Concat(blocks)|
         else data.Valid() && at == Offset(blocks, index) + data.pos && at < |Concat(blocks)|
    }

    constructor (blocks: seq<seq<Entry>>, seps: seq<InternalKey>)
      requires Separates(seps, blocks) && Sorted(Concat(blocks))
      ensures Ok() && fresh(Repr()) && this.blocks == blocks && this.seps == seps && !Valid()
    {
      this.blocks, this.seps := blocks, seps;
      index, data, handle, at := |blocks|, null, 0, |Concat(blocks)|;
    }

    predicate Valid()
      reads Repr()
    {
      data != null && data.Valid()
    }

    lemma BlockSorted(b: nat)
      requires Sorted(Concat(blocks)) && b < |blocks|
      ensures Sorted(blocks[b])
    {
      OffsetNext(blocks, b);
      var o := Offset(blocks, b);
      forall i, j | 0 <= i < j < |blocks[b]| ensures Before(blocks[b][i].key, blocks[b][j].key) {
        assert Before(Concat(blocks)[o + i].key, Concat(blocks)[o + j].key);
      }
    }

    method InitDataBlock()
      requires Separates(seps, blocks) && Sorted(Concat(blocks)) && index <= |blocks|
      requires data != null ==> handle < |blocks| && data.Ok() && data.es == blocks[handle]
      modifies this
      ensures Shape() && index == old(index) && at == old(at)
      ensures data != null ==> data == old(data) || fresh(data)
    {
      if index == |blocks| {
        data := null;
      } else {
        BlockSorted(index);
        if data != null && handle == index {
        } else {
          handle := index;
          data := new RunIterator(blocks[index]);
        }
      }
    }

    /** From data at (or past the end of) its block, at global position a. */
    method SkipEmptyDataBlocksForward(ghost a: nat)
      requires Shape()
      requires if data == null then a == |Concat(blocks)| else a == Offset(blocks, index) + data.pos
      modifies Repr()
      ensures Ok() && at == a
      ensures fresh(Repr() - old(Repr()))
    {
      while data == null || !data.Valid()
        invariant Shape() && fresh(Repr() - old(Repr()))
        invariant if data == null then a == |Concat(blocks)| else a == Offset(blocks, index) + data.pos
        decreases |blocks| - index, data != null
      {
        if index == |blocks| {
          data := null;
          at := a;
          return;
        }
        OffsetNext(blocks, index);
        OffsetEnds(blocks);
        index := index + 1;
        InitDataBlock();
        if data != null {
          data.SeekToFirst();
        }
      }
      OffsetNext(blocks, index);
      at := a;
    }

    /** From data just before, or with nothing before in its block, global position a. */
    method SkipEmptyDataBlocksBackward(ghost a: nat)
      requires Shape()
      requires if data == null then a == 0
               else if data.Valid() then a == Offset(blocks, index) + data.pos + 1 else a == Offset(blocks, index)
      modifies Repr()
      ensures Ok() && at == StepBack(|Concat(blocks)|, a)
      ensures fresh(Repr() - old(Repr()))
    {
      while data == null || !data.Valid()
        invariant Shape() && fresh(Repr() - old(Repr()))
        invariant if data == null then a == 0
                  else if data.Valid() then a == Offset(blocks, index) + data.pos + 1 else a == Offset(blocks, index)
        decreases if data == null then 0 else index + 1
      {
        if index == |blocks| {
          data := null;
          at := |Concat(blocks)|;
          return;
        }
        OffsetEnds(blocks);
        index := StepBack(|blocks|, index);
        if index < |blocks| { OffsetNext(blocks, index); }
        InitDataBlock();
        if data != null {
          data.SeekToLast();
        }
      }
      OffsetNext(blocks, index);
      at := a - 1;
    }

    method Seek(target: InternalKey)
      requires Ok()
      modifies Repr()
      ensures Ok() && at == SeekFrom(Concat(blocks), target, 0)
      ensures fresh(Repr() - old(Repr()))
    {
      SeekPosition(seps, blocks, target);
      index := IndexSeek(seps, target, 0);
      InitDataBlock();
      if data != null {
        data.Seek(target);
      }
      SkipEmptyDataBlocksForward(SeekFrom(Concat(blocks), target, 0));
    }

    method SeekToFirst()
      requires Ok()
      modifies Repr()
      ensures Ok() && at == 0
      ensures fresh(Repr() - old(Repr()))
    {
      OffsetEnds(blocks);
      index := 0;
      InitDataBlock();
      if data != null {
        data.SeekToFirst();
      }
      SkipEmptyDataBlocksForward(0);
    }

    method SeekToLast()
      requires Ok()
      modifies Repr()
      ensures Ok() && at == StepBack(|Concat(blocks)|, |Concat(blocks)|)
      ensures fresh(Repr() - old(Repr()))
    {
      OffsetEnds(blocks);
      index := StepBack(|blocks|, |blocks|);
      if index < |blocks| { OffsetNext(blocks, index); }
      InitDataBlock();
      if data != null {
        data.SeekToLast();
      }
      SkipEmptyDataBlocksBackward(|Concat(blocks)|);
    }

    method Next()
      requires Ok() && Valid()
      modifies Repr()
      ensures Ok() && at == old(at) + 1
      ensures fresh(Repr() - old(Repr()))
    {
      data.Next();
      SkipEmptyDataBlocksForward(at + 1);
    }

    method Prev()
      requires Ok() && Valid()
      modifies Repr()
      ensures Ok() && at == StepBack(|Concat(blocks)|, old(at))
      ensures fresh(Repr() - old(Repr()))
    {
      data.Prev();
      SkipEmptyDataBlocksBackward(at);
    }

    function Current(): (e: Entry)
      requires Ok() && Valid()
      reads Repr()
      ensures e == Concat(blocks)[at]
    {
      OffsetNext(blocks, index);
      data.es[data.pos]
    }
  }
}
