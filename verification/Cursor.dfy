/** A cursor over one sorted run of entries: what a memtable or table iterator offers,
    and the specification the composed iterators are held to. */
module Cursor {
  import opened Format
  import opened Tables

  /** One step back from i, or past the end from the first entry. */
  function StepBack(n: nat, i: nat): nat {
    if i == 0 then n else i - 1
  }

  class RunIterator {
    const es: seq<Entry>
    var pos: nat     // |es| when not valid

    ghost predicate Ok()
      reads this
    {
      Sorted(es) && pos <= |es|
    }

    constructor (es: seq<Entry>)
      requires Sorted(es)
      ensures Ok() && this.es == es && pos == |es|
    {
      this.es := es;
      pos := |es|;
    }

    predicate Valid()
      reads this
    {
      pos < |es|
    }

    function Key(): InternalKey
      requires Ok() && Valid()
      reads this
    {
      es[pos].key
    }

    method SeekToFirst()
      requires Ok()
      modifies this
      ensures Ok() && pos == 0
    {
      pos := 0;
    }

    method SeekToLast()
      requires Ok()
      modifies this
      ensures Ok() && pos == StepBack(|es|, |es|)
    {
      pos := StepBack(|es|, |es|);
    }

    method Seek(target: InternalKey)
      requires Ok()
      modifies this
      ensures Ok() && pos == SeekFrom(es, target, 0)
    {
      pos := SeekFrom(es, target, 0);
    }

    method Next()
      requires Ok() && Valid()
      modifies this
      ensures Ok() && pos == old(pos) + 1
    {
      pos := pos + 1;
    }

    method Prev()
      requires Ok() && Valid()
      modifies this
      ensures Ok() && pos == StepBack(|es|, old(pos))
    {
      pos := StepBack(|es|, pos);
    }
  }
}
