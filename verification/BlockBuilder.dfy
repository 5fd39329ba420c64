/** BlockBuilder (table/block_builder.cc). */
module BlockBuilding {
  import opened Format
  import opened Fixed
  import opened Coding
  import opened BlockFormat

  // ---- layouts grow at the end ----

  function Extend(l: Layout, p: Pair, shared: nat, restart: bool): Layout {
    Layout(l.es + [p], l.shared + [shared], if restart then l.restarts + [|l.es|] else l.restarts)
  }

  ghost predicate LongestShared(a: Bytes, b: Bytes, s: nat) {
    && s <= |a| && s <= |b| && a[..s] == b[..s]
    && (s < |a| && s < |b| ==> a[s] != b[s])
  }

  /** A restart point after every `interval` entries ... */
  ghost predicate Spaced(restarts: seq<nat>, interval: nat) {
    forall k :: 0 < k < |restarts| ==> restarts[k] == restarts[k - 1] + interval
  }

  /** ... and in between as much shared with the key before as there is to share. */
  ghost predicate SharesMost(l: Layout)
    requires |l.shared| == |l.es|
  {
    forall i :: 0 < i < |l.es| && i !in l.restarts ==> SharesMostAt(l, i)
  }

  ghost predicate SharesMostAt(l: Layout, i: nat)
    requires |l.shared| == |l.es| && 0 < i < |l.es|
  {
    LongestShared(l.es[i - 1].key, l.es[i].key, l.shared[i])
  }

  ghost function LastKey(l: Layout): Bytes {
    if l.es == [] then [] else l.es[|l.es| - 1].key
  }

  /** `counter` entries since the last restart point. */
  ghost predicate Grown(l: Layout, interval: nat, counter: nat) {
    && Proper(l) && Spaced(l.restarts, interval) && SharesMost(l)
    && counter == |l.es| - l.restarts[|l.restarts| - 1] <= interval
    && (|l.es| > 0 ==> counter > 0)
  }

  /** What Add may share: nothing at a restart point, else the longest common prefix. */
  ghost predicate Choice(l: Layout, key: Bytes, shared: nat, restart: bool) {
    if restart then shared == 0 else LongestShared(LastKey(l), key, shared)
  }

  lemma ExtendShares(l: Layout, p: Pair, shared: nat, restart: bool)
    requires Shares(l) && Choice(l, p.key, shared, restart)
    ensures Shares(Extend(l, p, shared, restart))
  {
    var m := Extend(l, p, shared, restart);
    forall i | 0 <= i < |m.es| ensures SharesWith(m, i) {
      if i < |l.es| {
        assert SharesWith(l, i);
      }
    }
  }

  lemma ExtendRestarts(l: Layout, p: Pair, shared: nat, restart: bool)
    requires |l.shared| == |l.es| && Restarts(l)
    requires l.es == [] || restart ==> shared == 0
    requires restart ==> l.es != []
    requires l.es != [] ==> l.restarts[|l.restarts| - 1] < |l.es|
    ensures Restarts(Extend(l, p, shared, restart))
  {
    var m := Extend(l, p, shared, restart);
    forall k | 0 <= k < |m.restarts| ensures RestartsAt(m, k) {
      if k < |l.restarts| {
        assert RestartsAt(l, k);
      }
    }
  }

  lemma ExtendSharesMost(l: Layout, p: Pair, shared: nat, restart: bool)
    requires |l.shared| == |l.es| && SharesMost(l) && Choice(l, p.key, shared, restart)
    ensures SharesMost(Extend(l, p, shared, restart))
  {
    var m := Extend(l, p, shared, restart);
    assert restart ==> m.restarts[|l.restarts|] == |l.es|;
    forall i | 0 < i < |m.es| && i !in m.restarts ensures SharesMostAt(m, i) {
      assert i !in l.restarts;
      if i < |l.es| {
        assert SharesMostAt(l, i);
      }
    }
  }

  lemma GrowsBy(l: Layout, p: Pair, shared: nat, restart: bool, interval: nat, counter: nat)
    requires Grown(l, interval, counter) && interval >= 1
    requires restart == (counter == interval) && Choice(l, p.key, shared, restart)
    ensures Grown(Extend(l, p, shared, restart), interval, if restart then 1 else counter + 1)
  {
    ExtendShares(l, p, shared, restart);
    ExtendRestarts(l, p, shared, restart);
    ExtendSharesMost(l, p, shared, restart);
  }

  lemma {:induction false} BodySame(l: Layout, m: Layout, i: nat)
    requires Shares(l) && Shares(m) && i <= |l.es| && l.es <= m.es && l.shared <= m.shared
    ensures Body(l, i) == Body(m, i)
  {
    if i > 0 {
      BodySame(l, m, i - 1);
    }
  }

  /** "<shared><non_shared><value_size>", the key's rest, the value, lengths cut to 32 bits. */
  function RawEntry(s: nat, p: Pair): Bytes
    requires s <= |p.key|
  {
    Varint(s % TWO32) + Varint((|p.key| - s) % TWO32) + Varint(|p.value| % TWO32) + p.key[s..] + p.value
  }

  lemma RawIsExact(s: nat, p: Pair)
    requires s <= |p.key| && s < TWO32 && |RawEntry(s, p)| < TWO32
    ensures RawEntry(s, p) == EntryBytes(s, p)
  {
    Uncut(s);
    Uncut(|p.key| - s);
    Uncut(|p.value|);
  }

  lemma SharedFits(l: Layout, s: nat)
    requires Shares(l) && s <= |LastKey(l)|
    ensures s <= |Body(l, |l.es|)|
  {
    if l.es != [] {
      KeyFits(l, |l.es| - 1);
    }
  }

  lemma BodyNext(l: Layout, i: nat)
    requires Shares(l) && i < |l.es|
    ensures SharesWith(l, i) && Body(l, i + 1) == Body(l, i) + EntryBytes(l.shared[i], l.es[i])
  {
    assert SharesWith(l, i);
  }

  /** What Add appends is the entry. */
  lemma Written(before: Bytes, after: Bytes, l: Layout, m: Layout, p: Pair, s: nat)
    requires Shares(l) && Shares(m) && before == Body(l, |l.es|)
    requires m.es == l.es + [p] && m.shared == l.shared + [s]
    requires s <= |LastKey(l)| && s <= |p.key| && after == before + RawEntry(s, p) && |after| < TWO32
    ensures after == Body(m, |m.es|)
  {
    SharedFits(l, s);
    RawIsExact(s, p);
    BodySame(l, m, |l.es|);
    BodyNext(m, |l.es|);
  }

  /** restarts_ holds the offsets of the restart points. */
  ghost predicate Points(l: Layout, restarts: seq<Word>) {
    && Proper(l) && |restarts| == |l.restarts|
    && forall k :: 0 <= k < |restarts| ==> restarts[k] == Point(l, k)
  }

  lemma PointsKept(l: Layout, m: Layout, restarts: seq<Word>, now: seq<Word>)
    requires Points(l, restarts) && Proper(m) && l.es <= m.es && l.shared <= m.shared
    requires if l.restarts == m.restarts then now == restarts
             else m.restarts == l.restarts + [|l.es|] && now == restarts + [Off(l, |l.es|)]
    ensures Points(m, now)
  {
    forall k | 0 <= k < |now| ensures now[k] == Point(m, k) {
      assert RestartsAt(m, k);
      if k < |restarts| { assert RestartsAt(l, k); }
      BodySame(l, m, if k < |restarts| then l.restarts[k] else |l.es|);
    }
  }

  /** As long as its 32-bit offsets do not overflow, the buffer holds the layout. */
  ghost predicate Holds(l: Layout, buffer: Bytes, restarts: seq<Word>) {
    |buffer| < TWO32 ==> Points(l, restarts) && buffer == Body(l, |l.es|)
  }

  lemma StillHolds(l: Layout, buffer: Bytes, restarts: seq<Word>, p: Pair, s: nat, restart: bool, now: seq<Word>)
    requires Holds(l, buffer, restarts) && Proper(l) && Proper(Extend(l, p, s, restart))
    requires s <= |LastKey(l)| && s <= |p.key|
    requires now == if restart then restarts + [|buffer| % TWO32] else restarts
    ensures Holds(Extend(l, p, s, restart), buffer + RawEntry(s, p), now)
  {
    var m, after := Extend(l, p, s, restart), buffer + RawEntry(s, p);
    if |after| < TWO32 {
      Uncut(|buffer|);
      Written(buffer, after, l, m, p, s);
      PointsKept(l, m, restarts, now);
    }
  }

  lemma Rejoined(a: Bytes, b: Bytes, s: nat)
    requires s <= |a| && s <= |b| && a[..s] == b[..s]
    ensures a[..s] + b[s..] == b
  {
  }

  lemma GrownIsComplete(l: Layout, interval: nat, counter: nat)
    requires Grown(l, interval, counter)
    ensures Complete(l) && Spaced(l.restarts, interval) && SharesMost(l)
  {
  }

  lemma Uncut(n: nat)
    requires n < TWO32
    ensures n % TWO32 == n
  {
  }

  lemma FinishedBlock(l: Layout, buffer: Bytes, restarts: seq<Word>, whole: Bytes)
    requires Complete(l) && Holds(l, buffer, restarts)
    requires |whole| == |buffer| + 4 * |restarts|
    requires Points(l, restarts) && Off(l, |l.es|) < TWO32 ==> whole == buffer + RestartArray(l, |restarts|)
    ensures |whole| + 4 < TWO32 ==> BlockOf(l, whole + Fixed32(|restarts| % TWO32))
  {
    if |whole| + 4 < TWO32 {
      var n := |restarts|;
      Uncut(n);
      assert whole == Body(l, |l.es|) + RestartArray(l, n);
    }
  }

  class BlockBuilder {
    const interval: nat        // options_->block_restart_interval
    var buffer: Bytes
    var restarts: seq<Word>
    var counter: nat
    var finished: bool
    var lastKey: Bytes
    ghost var layout: Layout   // what was added, and how

    ghost predicate Valid()
      reads this
    {
      && interval >= 1 && !finished && Grown(layout, interval, counter) && lastKey == LastKey(layout)
      && Holds(layout, buffer, restarts)
    }

    constructor (interval: nat)
      requires interval >= 1
      ensures Valid() && layout.es == [] && this.interval == interval
    {
      this.interval := interval;
      buffer, restarts, counter, finished, lastKey := [], [0], 0, false, [];
      layout := Layout([], [], [0]);
    }

    method Reset()
      requires interval >= 1
      modifies this
      ensures Valid() && layout.es == []
    {
      buffer, restarts, counter, finished, lastKey := [], [0], 0, false, [];
      layout := Layout([], [], [0]);
    }

    /** How much of the key to take from the last one, and whether to restart instead. */
    method ChooseShared(key: Bytes) returns (shared: nat, ghost restart: bool)
      requires counter <= interval
      modifies `restarts, `counter
      ensures restart == (old(counter) == interval)
      ensures counter == (if restart then 0 else old(counter))
      ensures restarts == (if restart then old(restarts) + [|buffer| % TWO32] else old(restarts))
      ensures if restart then shared == 0 else LongestShared(lastKey, key, shared)
    {
      shared, restart := 0, counter == interval;
      if counter < interval {
        var minLength := if |lastKey| < |key| then |lastKey| else |key|;
        while shared < minLength && lastKey[shared] == key[shared]
          invariant shared <= minLength && lastKey[..shared] == key[..shared]
        {
          shared := shared + 1;
        }
      } else {
        restarts := restarts + [|buffer| % TWO32];
        counter := 0;
      }
    }

    method Add(key: Bytes, value: Bytes)
      requires Valid()
      modifies this
      ensures Valid() && layout.es == old(layout.es) + [Pair(key, value)]
      ensures old(buffer) <= buffer
    {
      ghost var l, p := layout, Pair(key, value);
      var shared, restart := ChooseShared(key);
      buffer := buffer + RawEntry(shared, Pair(key, value));
      lastKey := lastKey[..shared] + key[shared..];
      counter := counter + 1;
      layout := Extend(l, p, shared, restart);
      Rejoined(old(lastKey), key, shared);
      GrowsBy(l, p, shared, restart, interval, old(counter));
      StillHolds(l, old(buffer), old(restarts), p, shared, restart, restarts);
    }

    method AppendRestarts()
      modifies `buffer
      ensures |buffer| == |old(buffer)| + 4 * |restarts|
      ensures Points(layout, restarts) && Off(layout, |layout.es|) < TWO32 ==>
                buffer == old(buffer) + RestartArray(layout, |restarts|)
    {
      ghost var fits := Points(layout, restarts) && Off(layout, |layout.es|) < TWO32;
      for i := 0 to |restarts|
        invariant |buffer| == |old(buffer)| + 4 * i
        invariant fits ==> buffer == old(buffer) + RestartArray(layout, i)
      {
        buffer := buffer + Fixed32(restarts[i]);
      }
    }

    /** The restart array and its length follow the entries. */
    method Finish() returns (block: Bytes)
      requires Valid()
      modifies this
      ensures finished && layout == old(layout) && block == buffer
      ensures Complete(layout) && Spaced(layout.restarts, interval) && SharesMost(layout)
      ensures |block| < TWO32 ==> BlockOf(layout, block)
    {
      GrownIsComplete(layout, interval, counter);
      AppendRestarts();
      FinishedBlock(layout, old(buffer), restarts, buffer);
      buffer := buffer + Fixed32(|restarts| % TWO32);
      finished := true;
      block := buffer;
    }
  }
}
