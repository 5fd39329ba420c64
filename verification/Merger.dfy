/** MergingIterator (table/merger.cc): n sorted children behave as one cursor over
    their sorted union, whatever the mix of seeks, Next and Prev. */
module Merger {
  import opened Format
  import opened Tables
  import opened Cursor

  datatype Direction = Forward | Reverse

  /** The children's entries, each in one child only, make up `merged`. */
  ghost predicate Merges(runs: seq<seq<Entry>>, merged: seq<Entry>) {
    && Sorted(merged)
    && (forall i :: 0 <= i < |runs| ==> Sorted(runs[i]))
    && (forall e :: e in merged <==> exists i :: 0 <= i < |runs| && e in runs[i])
    && (forall i, j, e :: 0 <= i < j < |runs| && e in runs[i] ==> e !in runs[j])
  }

  /** Where a run stands when the merge stands at position a: past its entries before
      merged[a]. */
  function Place(run: seq<Entry>, merged: seq<Entry>, a: nat): nat
    requires a <= |merged|
  {
    if a == |merged| then |run| else SeekFrom(run, merged[a].key, 0)
  }

  lemma OneOf(runs: seq<seq<Entry>>, merged: seq<Entry>, i: nat, j: nat) returns (k: nat)
    requires Merges(runs, merged) && i < |runs| && j < |runs[i]|
    ensures k < |merged| && merged[k] == runs[i][j]
  {
    assert runs[i][j] in runs[i];
    assert runs[i][j] in merged;
    k :| 0 <= k < |merged| && merged[k] == runs[i][j];
  }

  lemma OrderOf(merged: seq<Entry>, k: nat, a: nat)
    requires Sorted(merged) && k < |merged| && a < |merged|
    ensures Less(merged[k].key, merged[a].key) <==> k < a
  {
    assert k < a ==> Before(merged[k].key, merged[a].key);
    assert a < k ==> Before(merged[a].key, merged[k].key);
  }

  /** An entry stands before the run's place exactly when it stands before a. */
  lemma PlaceSplits(runs: seq<seq<Entry>>, merged: seq<Entry>, i: nat, j: nat, k: nat, a: nat)
    requires Merges(runs, merged) && i < |runs| && j < |runs[i]| && a <= |merged|
    requires k < |merged| && merged[k] == runs[i][j]
    ensures j < Place(runs[i], merged, a) <==> k < a
  {
    if a < |merged| {
      OrderOf(merged, k, a);
      var p := Place(runs[i], merged, a);
      if p <= j {
        var m := OneOf(runs, merged, i, p);
        OrderOf(merged, m, a);
        assert p < j ==> Before(runs[i][p].key, runs[i][j].key);
        OrderOf(merged, m, k);
      }
    }
  }

  /** merged[a] stands at the place of the one run that holds it. */
  lemma PlaceHolds(runs: seq<seq<Entry>>, merged: seq<Entry>, i: nat, a: nat)
    requires Merges(runs, merged) && i < |runs| && a < |merged|
    ensures merged[a] in runs[i] <==> Place(runs[i], merged, a) < |runs[i]| && runs[i][Place(runs[i], merged, a)] == merged[a]
  {
    var p := Place(runs[i], merged, a);
    if merged[a] in runs[i] {
      var j :| 0 <= j < |runs[i]| && runs[i][j] == merged[a];
      PlaceSplits(runs, merged, i, j, a, a);
      assert p < j ==> Before(runs[i][p].key, runs[i][j].key);
      if p < j {
        var k := OneOf(runs, merged, i, p);
        PlaceSplits(runs, merged, i, p, k, a);
        OrderOf(merged, k, a);
        assert false;
      }
    }
  }

  /** Advancing the merge moves only the run that held merged[a]. */
  lemma PlaceNext(runs: seq<seq<Entry>>, merged: seq<Entry>, i: nat, a: nat)
    requires Merges(runs, merged) && i < |runs| && a < |merged|
    ensures Place(runs[i], merged, a + 1) == Place(runs[i], merged, a) + if merged[a] in runs[i] then 1 else 0
  {
    var p, q := Place(runs[i], merged, a), Place(runs[i], merged, a + 1);
    PlaceHolds(runs, merged, i, a);
    if p < |runs[i]| {
      var k := OneOf(runs, merged, i, p);
      PlaceSplits(runs, merged, i, p, k, a);
      PlaceSplits(runs, merged, i, p, k, a + 1);
    }
    if p + 1 < |runs[i]| {
      var k := OneOf(runs, merged, i, p + 1);
      PlaceSplits(runs, merged, i, p + 1, k, a);
      PlaceSplits(runs, merged, i, p + 1, k, a + 1);
      var m := OneOf(runs, merged, i, p);
      assert Before(runs[i][p].key, runs[i][p + 1].key);
    }
    if 0 < p {
      var k := OneOf(runs, merged, i, p - 1);
      PlaceSplits(runs, merged, i, p - 1, k, a);
      PlaceSplits(runs, merged, i, p - 1, k, a + 1);
    }
  }

  /** The run that holds merged[a - 1] has it one step before its place at a. */
  lemma RunBehind(runs: seq<seq<Entry>>, merged: seq<Entry>, a: nat) returns (i: nat)
    requires Merges(runs, merged) && 0 < a <= |merged|
    ensures i < |runs| && Place(runs[i], merged, a) > 0 && runs[i][Place(runs[i], merged, a) - 1] == merged[a - 1]
  {
    assert merged[a - 1] in merged;
    i :| 0 <= i < |runs| && merged[a - 1] in runs[i];
    PlaceNext(runs, merged, i, a - 1);
    PlaceHolds(runs, merged, i, a - 1);
  }

  /** An entry one step before a run's place stands before a in the merge. */
  lemma BehindPlace(runs: seq<seq<Entry>>, merged: seq<Entry>, i: nat, a: nat, p: nat) returns (k: nat)
    requires Merges(runs, merged) && i < |runs| && a <= |merged|
    requires p == StepBack(|runs[i]|, Place(runs[i], merged, a)) && p < |runs[i]|
    ensures k < a && merged[k] == runs[i][p]
  {
    k := OneOf(runs, merged, i, p);
    PlaceSplits(runs, merged, i, p, k, a);
  }

  /** Seeking in a run and seeking in the merge agree. */
  lemma SeekIsPlace(runs: seq<seq<Entry>>, merged: seq<Entry>, i: nat, target: InternalKey)
    requires Merges(runs, merged) && i < |runs|
    ensures SeekFrom(runs[i], target, 0) == Place(runs[i], merged, SeekFrom(merged, target, 0))
  {
    var a := SeekFrom(merged, target, 0);
    var p, q := SeekFrom(runs[i], target, 0), Place(runs[i], merged, a);
    if p < q {
      var k := OneOf(runs, merged, i, p);
      PlaceSplits(runs, merged, i, p, k, a);
    }
    if q < p {
      var k := OneOf(runs, merged, i, q);
      PlaceSplits(runs, merged, i, q, k, a);
      SeekSplits(merged, target, k);
    }
  }

  lemma SeekSplits(es: seq<Entry>, target: InternalKey, k: nat)
    requires Sorted(es) && k < |es|
    ensures Less(es[k].key, target) <==> k < SeekFrom(es, target, 0)
  {
    var a := SeekFrom(es, target, 0);
    assert a < k ==> Before(es[a].key, es[k].key);
  }

  class MergingIterator {
    const children: seq<RunIterator>
    var current: Option<nat>          // index of current_, None for nullptr
    var direction: Direction
    ghost const runs: seq<seq<Entry>>
    ghost const merged: seq<Entry>
    ghost var at: nat                 // the merged position, |merged| when not valid

    /** Children are distinct cursors over the runs. */
    ghost predicate Shape()
      reads this, children
    {
      && |runs| == |children|
      && (forall i, j :: 0 <= i < j < |children| ==> children[i] != children[j])
      && (forall i :: 0 <= i < |children| ==> children[i].Ok() && children[i].es == runs[i])
      && Merges(runs, merged)
      && at <= |merged|
    }

    /** Forward: every child is at its place. Reverse: the current child is at its place
        and every other child one step before its own. */
    ghost predicate Positioned()
      requires Shape()
      reads this, children
    {
      && (current.None? <==> at == |merged|)
      && (current.Some? ==>
            && Holds(at)
            && forall i :: 0 <= i < |children| ==>
                 children[i].pos == if direction.Forward? || i == current.value then Place(runs[i], merged, at)
                                    else StepBack(|runs[i]|, Place(runs[i], merged, at)))
    }

    ghost predicate Ok()
      reads this, children
    {
      Shape() && Positioned()
    }

    constructor (children: seq<RunIterator>, ghost merged: seq<Entry>)
      requires forall i :: 0 <= i < |children| ==> children[i].Ok()
      requires forall i, j :: 0 <= i < j < |children| ==> children[i] != children[j]
      requires Merges(seq(|children|, i requires 0 <= i < |children| reads children => children[i].es), merged)
      ensures Ok() && this.children == children && this.merged == merged && !Valid()
    {
      this.children := children;
      this.runs := seq(|children|, i requires 0 <= i < |children| reads children => children[i].es);
      this.merged := merged;
      current, direction, at := None, Forward, |merged|;
    }

    predicate Valid()
      reads this
    {
      current.Some?
    }

    /** The current child stands at merged[a]. */
    ghost predicate Holds(a: nat)
      requires Shape() && current.Some?
      reads this, children
    {
      a < |merged| && current.value < |children| && children[current.value].Valid()
      && children[current.value].es[children[current.value].pos] == merged[a]
    }

    method FindSmallest(ghost a: nat)
      requires Shape() && a <= |merged|
      requires forall i :: 0 <= i < |children| ==> children[i].pos == Place(runs[i], merged, a)
      modifies this
      ensures Shape() && at == a && direction == old(direction)
      ensures current.None? <==> a == |merged|
      ensures current.Some? ==> Holds(a)
    {
      current := None;
      at := a;
      for i := 0 to |children|
        invariant Shape() && at == a && direction == old(direction)
        invariant forall k :: 0 <= k < |children| ==> children[k].pos == old(children[k].pos)
        invariant current.Some? ==> current.value < i && children[current.value].Valid()
        invariant current.None? ==> forall k :: 0 <= k < i ==> !children[k].Valid()
        invariant current.Some? ==> forall k :: 0 <= k < i && children[k].Valid() ==>
          !Less(children[k].Key(), children[current.value].Key())
      {
        var child := children[i];
        if child.Valid() {
          if current.None? {
            current := Some(i);
          } else if Less(child.Key(), children[current.value].Key()) {
            current := Some(i);
          }
        }
      }
      SmallestIsNext(a);
    }

    /** Among children at their places, the smallest key is merged[a]. */
    lemma SmallestIsNext(a: nat)
      requires Shape() && a <= |merged|
      requires forall i :: 0 <= i < |children| ==> children[i].pos == Place(runs[i], merged, a)
      requires current.None? ==> forall k :: 0 <= k < |children| ==> !children[k].Valid()
      requires current.Some? ==> current.value < |children| && children[current.value].Valid()
      requires current.Some? ==> forall k :: 0 <= k < |children| && children[k].Valid() ==>
        !Less(children[k].Key(), children[current.value].Key())
      ensures current.None? <==> a == |merged|
      ensures current.Some? ==> Holds(a)
    {
      if a < |merged| {
        assert merged[a] in merged;
        var i :| 0 <= i < |runs| && merged[a] in runs[i];
        PlaceHolds(runs, merged, i, a);
        assert children[i].Valid();
        var c := current.value;
        var p := children[c].pos;
        var k := OneOf(runs, merged, c, p);
        PlaceSplits(runs, merged, c, p, k, a);
        OrderOf(merged, a, k);
      }
    }

    method FindLargest(ghost a: nat)
      requires Shape() && a <= |merged|
      requires forall i :: 0 <= i < |children| ==> children[i].pos == StepBack(|runs[i]|, Place(runs[i], merged, a))
      modifies this
      ensures Shape() && at == StepBack(|merged|, a) && direction == old(direction)
      ensures current.None? <==> a == 0
      ensures current.Some? ==> Holds(a - 1)
    {
      current := None;
      at := StepBack(|merged|, a);
      var i: nat := |children|;
      while i > 0
        invariant Shape() && at == StepBack(|merged|, a) && direction == old(direction) && i <= |children|
        invariant forall k :: 0 <= k < |children| ==> children[k].pos == old(children[k].pos)
        invariant current.Some? ==> i <= current.value < |children| && children[current.value].Valid()
        invariant current.None? ==> forall k :: i <= k < |children| ==> !children[k].Valid()
        invariant current.Some? ==> forall k :: i <= k < |children| && children[k].Valid() ==>
          !Less(children[current.value].Key(), children[k].Key())
      {
        i := i - 1;
        var child := children[i];
        if child.Valid() {
          if current.None? {
            current := Some(i);
          } else if Less(children[current.value].Key(), child.Key()) {
            current := Some(i);
          }
        }
      }
      LargestIsPrevious(a);
    }

    /** Among children one step before their places, the largest key is merged[a - 1]. */
    lemma LargestIsPrevious(a: nat)
      requires Shape() && a <= |merged|
      requires forall i :: 0 <= i < |children| ==> children[i].pos == StepBack(|runs[i]|, Place(runs[i], merged, a))
      requires current.None? ==> forall k :: 0 <= k < |children| ==> !children[k].Valid()
      requires current.Some? ==> current.value < |children| && children[current.value].Valid()
      requires current.Some? ==> forall k :: 0 <= k < |children| && children[k].Valid() ==>
        !Less(children[current.value].Key(), children[k].Key())
      ensures current.None? <==> a == 0
      ensures current.Some? ==> Holds(a - 1)
    {
      if a > 0 {
        var i := RunBehind(runs, merged, a);
        assert children[i].Valid() && children[i].es[children[i].pos] == merged[a - 1];
      }
      if current.Some? {
        var c := current.value;
        var k := BehindPlace(runs, merged, c, a, children[c].pos);
        OrderOf(merged, k, a - 1);
      }
    }

    /** Once every child is one step before its place at a, the new current child is at
        its place and the others one step before theirs, at a - 1. */
    lemma SettledBack(a: nat)
      requires Shape() && a <= |merged| && at == StepBack(|merged|, a) && direction.Reverse?
      requires forall i :: 0 <= i < |children| ==> children[i].pos == StepBack(|runs[i]|, Place(runs[i], merged, a))
      requires current.None? <==> a == 0
      requires current.Some? ==> Holds(a - 1)
      ensures Ok()
    {
      if current.Some? {
        forall i | 0 <= i < |children|
          ensures children[i].pos == if i == current.value then Place(runs[i], merged, at)
                                     else StepBack(|runs[i]|, Place(runs[i], merged, at))
        {
          PlaceNext(runs, merged, i, at);
          PlaceHolds(runs, merged, i, at);
          assert merged[at] in runs[current.value];
        }
      }
    }

    method SeekToFirst()
      requires Shape()
      modifies this, children
      ensures Ok() && at == 0
    {
      for i := 0 to |children|
        invariant Shape()
        invariant forall k :: 0 <= k < i ==> children[k].pos == 0
      {
        children[i].SeekToFirst();
      }
      PlaceAtStart();
      FindSmallest(0);
      direction := Forward;
    }

    lemma PlaceAtStart()
      requires Shape()
      ensures forall i :: 0 <= i < |children| ==> Place(runs[i], merged, 0) == 0
    {
      forall i | 0 <= i < |children| ensures Place(runs[i], merged, 0) == 0 {
        if |runs[i]| > 0 {
          var k := OneOf(runs, merged, i, 0);
          PlaceSplits(runs, merged, i, 0, k, 0);
        }
      }
    }

    method SeekToLast()
      requires Shape()
      modifies this, children
      ensures Ok() && at == StepBack(|merged|, |merged|)
    {
      for i := 0 to |children|
        invariant Shape()
        invariant forall k :: 0 <= k < i ==> children[k].pos == StepBack(|runs[k]|, |runs[k]|)
      {
        children[i].SeekToLast();
      }
      FindLargest(|merged|);
      direction := Reverse;
      SettledBack(|merged|);
    }

    method Seek(target: InternalKey)
      requires Shape()
      modifies this, children
      ensures Ok() && at == SeekFrom(merged, target, 0)
    {
      for i := 0 to |children|
        invariant Shape()
        invariant forall k :: 0 <= k < i ==> children[k].pos == SeekFrom(runs[k], target, 0)
      {
        children[i].Seek(target);
      }
      ghost var a := SeekFrom(merged, target, 0);
      forall i | 0 <= i < |children| ensures SeekFrom(runs[i], target, 0) == Place(runs[i], merged, a) {
        SeekIsPlace(runs, merged, i, target);
      }
      FindSmallest(a);
      direction := Forward;
    }

    /** Puts every child but the current one at its place. */
    method FaceForward()
      requires Ok() && Valid() && direction.Reverse?
      modifies children
      ensures Shape()
      ensures forall i :: 0 <= i < |children| ==> children[i].pos == Place(runs[i], merged, at)
    {
      var key := children[current.value].Key();
      for i := 0 to |children|
        invariant Shape() && Holds(at)
        invariant children[current.value].pos == Place(runs[current.value], merged, at)
        invariant forall k :: 0 <= k < i ==> children[k].pos == Place(runs[k], merged, at)
      {
        if i != current.value {
          var child := children[i];
          child.Seek(key);
          if child.Valid() && child.Key() == key {
            child.Next();
          }
          OnlyCurrent(i);
        }
      }
    }

    /** Puts every child but the current one a step before its place. */
    method FaceBackward()
      requires Ok() && Valid() && direction.Forward?
      modifies children
      ensures Shape() && Holds(at)
      ensures forall i :: 0 <= i < |children| ==>
        children[i].pos == if i == current.value then Place(runs[i], merged, at)
                           else StepBack(|runs[i]|, Place(runs[i], merged, at))
    {
      var key := children[current.value].Key();
      for i := 0 to |children|
        invariant Shape() && Holds(at)
        invariant children[current.value].pos == Place(runs[current.value], merged, at)
        invariant forall k :: 0 <= k < i && k != current.value ==>
          children[k].pos == StepBack(|runs[k]|, Place(runs[k], merged, at))
      {
        if i != current.value {
          var child := children[i];
          child.Seek(key);
          if child.Valid() {
            child.Prev();
          } else {
            child.SeekToLast();
          }
        }
      }
    }

    /** No other child holds the current key. */
    lemma OnlyCurrent(i: nat)
      requires Shape() && current.Some? && Holds(at) && i < |children| && i != current.value
      ensures var p := Place(runs[i], merged, at);
              p < |runs[i]| ==> runs[i][p].key != merged[at].key
    {
      var p := Place(runs[i], merged, at);
      assert merged[at] in runs[current.value];
      if p < |runs[i]| {
        var k := OneOf(runs, merged, i, p);
        assert k != at;
        assert k < at ==> Before(merged[k].key, merged[at].key);
        assert at < k ==> Before(merged[at].key, merged[k].key);
      }
    }

    method Next()
      requires Ok() && Valid()
      modifies this, children
      ensures Ok() && at == old(at) + 1
    {
      if direction.Reverse? {
        FaceForward();
        direction := Forward;
      }
      ghost var a := at;
      forall i | 0 <= i < |children|
        ensures Place(runs[i], merged, a + 1) == Place(runs[i], merged, a) + if i == current.value then 1 else 0
      {
        PlaceNext(runs, merged, i, a);
        assert merged[a] in runs[current.value];
      }
      children[current.value].Next();
      FindSmallest(a + 1);
    }

    method Prev()
      requires Ok() && Valid()
      modifies this, children
      ensures Ok() && at == StepBack(|merged|, old(at))
    {
      if direction.Forward? {
        FaceBackward();
        direction := Reverse;
      }
      ghost var a := at;
      children[current.value].Prev();
      FindLargest(a);
      SettledBack(a);
    }

    /** key() and value() */
    function Current(): (e: Entry)
      requires Ok() && Valid()
      reads this, children
      ensures e == merged[at]
    {
      children[current.value].es[children[current.value].pos]
    }
  }
}
