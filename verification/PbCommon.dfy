/** pb_field_iter_t, a cursor that wraps around a field array (nanopb/pb_common.c). */
module PbCommon {
  import opened PbMessages

  /** How many of the first k fields are required. */
  function CountRequired(fields: seq<Field>, k: nat): (c: nat)
    requires k <= |fields|
    ensures c <= k
  {
    if k == 0 then 0 else CountRequired(fields, k - 1) + if fields[k - 1].htype.Required? then 1 else 0
  }

  ghost predicate NoTag(fields: seq<Field>, tag: nat, from: nat, to: nat)
    requires to <= |fields|
  {
    forall i :: from <= i < to ==> fields[i].tag != tag
  }

  class FieldIter {
    const fields: seq<Field>      // the array at start, up to its terminator
    var pos: nat
    var requiredFieldIndex: nat

    ghost predicate Ok()
      reads this
    {
      && (if fields == [] then pos == 0 else pos < |fields|)
      && requiredFieldIndex == CountRequired(fields, pos)
    }

    /** pb_field_iter_begin */
    constructor (fields: seq<Field>)
      ensures Ok() && this.fields == fields && pos == 0
    {
      this.fields, pos, requiredFieldIndex := fields, 0, 0;
    }

    /** False when it wraps around. */
    method Next() returns (more: bool)
      requires Ok()
      modifies this
      ensures Ok() && more == (old(pos) + 1 < |fields|)
      ensures pos == if more then old(pos) + 1 else 0
    {
      if fields == [] {
        return false;
      }
      if pos + 1 == |fields| {
        pos, requiredFieldIndex := 0, 0;
        return false;
      }
      if fields[pos].htype.Required? {
        requiredFieldIndex := requiredFieldIndex + 1;
      }
      pos := pos + 1;
      return true;
    }

    /** From anywhere in the array: finds a field with the tag if there is one. */
    method Find(tag: nat) returns (found: bool)
      requires Ok()
      modifies this
      ensures Ok() && (found ==> pos < |fields| && fields[pos].tag == tag)
      ensures found <==> !NoTag(fields, tag, 0, |fields|)
      ensures !found ==> pos == old(pos)
    {
      if fields == [] {
        return false;
      }
      var start := pos;
      ghost var steps: nat := 0;
      while true
        invariant Ok() && steps < |fields|
        invariant if start + steps < |fields| then pos == start + steps else pos == start + steps - |fields|
        invariant if pos >= start then NoTag(fields, tag, start, pos)
                  else NoTag(fields, tag, start, |fields|) && NoTag(fields, tag, 0, pos)
        decreases |fields| - steps
      {
        if fields[pos].tag == tag {
          return true;
        }
        var _ := Next();
        if pos == start {
          return false;
        }
        steps := steps + 1;
      }
    }
  }
}
