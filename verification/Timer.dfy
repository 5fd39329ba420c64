/** Timers (src/timer.c) on the heap: starting, stopping, and running those due. */
module Timer {
  import opened Heaps

  const MAX64: nat := 0xFFFF_FFFF_FFFF_FFFF
  const INT_MAX: nat := 0x7FFF_FFFF
  const EINVAL: int := -22

  /** loop->time + timeout in 64 bits, clamped to the maximum when it wraps. */
  function Clamped(time: nat, timeout: nat): nat {
    var sum := (time + timeout) % (MAX64 + 1);
    if sum < timeout then MAX64 else sum
  }

  lemma ClampedIsMin(time: nat, timeout: nat)
    requires time <= MAX64 && timeout <= MAX64
    ensures Clamped(time, timeout) == if time + timeout > MAX64 then MAX64 else time + timeout
  {
    if time + timeout > MAX64 {
      assert (time + timeout) % (MAX64 + 1) == time + timeout - (MAX64 + 1);
    }
  }

  /** A repeating timer is armed for later than now exactly when the clock is below its
      maximum; at the maximum it is due again at once, for ever. */
  lemma RearmedLater(time: nat, repeat: nat)
    requires time <= MAX64 && 0 < repeat <= MAX64
    ensures Clamped(time, repeat) > time <==> time < MAX64
  {
    ClampedIsMin(time, repeat);
  }

  class Loop {
    var time: nat
    var timerCounter: nat
    const heap: Heap

    /** The active timers are those in the heap, told apart by their start ids. */
    ghost predicate Valid()
      reads this, heap, heap.nodes, heap.repr
    {
      && heap.Valid()
      && time <= MAX64
      && Ticking(heap.repr)
    }

    /** Running timers, each with a start id of its own. */
    ghost predicate Ticking(ns: set<Node>)
      reads this`timerCounter, ns`active, ns`callback, ns`closing, ns`startId, ns`repeat
    {
      && (forall n :: n in ns ==> n.active && n.callback && !n.closing && n.startId < timerCounter && n.repeat <= MAX64)
      && forall m, n :: m in ns && n in ns && m.startId == n.startId ==> m == n
    }

    constructor ()
      ensures Valid() && heap.repr == {} && fresh(heap)
    {
      time, timerCounter := 0, 0;
      heap := new Heap();
    }

    /** uv_timer_stop */
    method Stop(handle: Node)
      requires Valid() && (handle.active <==> handle in heap.repr)
      modifies heap, heap.repr`left, heap.repr`right, heap.repr`parent, handle`active
      ensures Valid() && !handle.active && heap.repr == old(heap.repr) - {handle}
    {
      if !handle.active {
        return;
      }
      heap.Remove(handle);
      handle.active := false;
    }

    /** Fills in a timer that is not running and puts it in the heap. */
    method Arm(handle: Node, timeout: nat, repeat: nat)
      requires Valid() && handle !in heap.repr && !handle.closing && timeout <= MAX64 && repeat <= MAX64
      modifies this`timerCounter, heap, heap.repr`left, heap.repr`right, heap.repr`parent, handle
      ensures Valid() && heap.repr == old(heap.repr) + {handle} && timerCounter == old(timerCounter) + 1
      ensures handle.timeout == Clamped(time, timeout) && handle.startId == old(timerCounter)
      ensures handle.repeat == repeat && handle.active && handle.callback && handle.closing == old(handle.closing)
    {
      Fill(handle, timeout, repeat);
      ghost var all := heap.repr + {handle};
      assert Ticking(all);
      heap.Insert(handle);
      assert Ticking(all);
    }

    method Fill(handle: Node, timeout: nat, repeat: nat)
      requires Valid() && handle !in heap.repr
      modifies this`timerCounter, handle
      ensures Valid() && timerCounter == old(timerCounter) + 1
      ensures handle.timeout == Clamped(time, timeout) && handle.startId == old(timerCounter)
      ensures handle.repeat == repeat && handle.active && handle.callback && handle.closing == old(handle.closing)
      ensures forall n :: n in heap.repr ==> n.startId < old(timerCounter)
    {
      handle.callback := true;
      handle.timeout := Clamped(time, timeout);
      handle.repeat := repeat;
      handle.startId := timerCounter;
      handle.active := true;
      timerCounter := timerCounter + 1;
      heap.StaysValid();
    }

    /** uv_timer_start */
    method Start(handle: Node, callback: bool, timeout: nat, repeat: nat) returns (r: int)
      requires Valid() && (handle.active <==> handle in heap.repr) && timeout <= MAX64 && repeat <= MAX64
      modifies this`timerCounter, heap, heap.repr`left, heap.repr`right, heap.repr`parent, handle
      ensures Valid() && r == if old(handle.closing) || !callback then EINVAL else 0
      ensures r == EINVAL ==>
        && heap.repr == old(heap.repr) && timerCounter == old(timerCounter) && unchanged(handle)
      ensures r == 0 ==>
        && heap.repr == old(heap.repr) + {handle} && timerCounter == old(timerCounter) + 1
        && handle.timeout == Clamped(time, timeout) && handle.startId == old(timerCounter)
        && handle.repeat == repeat && handle.active && handle.callback && !handle.closing
    {
      if handle.closing || !callback {
        return EINVAL;
      }
      if handle.active {
        Stop(handle);
      }
      Arm(handle, timeout, repeat);
      r := 0;
    }

    /** uv_timer_again, on a timer just stopped. */
    method Again(handle: Node) returns (r: int)
      requires Valid() && (handle.active <==> handle in heap.repr) && handle.repeat <= MAX64
      modifies this`timerCounter, heap, heap.repr`left, heap.repr`right, heap.repr`parent, handle
      ensures Valid() && r == if !old(handle.callback) then EINVAL else 0
      ensures old(handle.callback) && old(handle.repeat) > 0 && !old(handle.closing) ==>
        && heap.repr == old(heap.repr) + {handle} && timerCounter == old(timerCounter) + 1
        && handle.timeout == Clamped(time, handle.repeat) && handle.startId == old(timerCounter)
        && handle.repeat == old(handle.repeat) && handle.active && handle.callback && !handle.closing
      ensures !old(handle.callback) || old(handle.repeat) == 0 || old(handle.closing) ==>
        heap.repr == old(heap.repr) && timerCounter == old(timerCounter) && unchanged(handle)
    {
      if !handle.callback {
        return EINVAL;
      }
      if handle.repeat > 0 {
        Stop(handle);
        var _ := Start(handle, handle.callback, handle.repeat, handle.repeat);
      }
      r := 0;
    }

    // ---- running the timers ----

    /** The timers running, with what they are ordered by. */
    ghost function Ranks(): map<Node, Key>
      reads heap`repr, heap.repr`timeout, heap.repr`startId
    {
      map n | n in heap.repr :: n.Rank()
    }

    /** One timer fires: it stops, and starts again if it repeats. */
    method Fire(handle: Node)
      requires Valid() && handle in heap.repr
      modifies this`timerCounter, heap, heap.repr`left, heap.repr`right, heap.repr`parent, handle
      ensures Valid() && SettingOf(handle) == old(SettingOf(handle))
      ensures heap.repr == old(heap.repr) - if handle.repeat > 0 then {} else {handle}
      ensures timerCounter == old(timerCounter) + if handle.repeat > 0 then 1 else 0
      ensures handle.repeat > 0 ==> handle.Rank() == TimerKey(Clamped(time, handle.repeat), old(timerCounter))
    {
      Stop(handle);
      var _ := Again(handle);
    }

    /** What that is on the ranks; the settings of all timers are kept. */
    method FireNext(handle: Node, ghost was: map<Node, Setting>, ghost now: map<Node, Key>) returns (ghost now': map<Node, Key>)
      requires Valid() && handle in now && now == Ranks() && Kept(was)
      modifies this`timerCounter, heap, heap.repr`left, heap.repr`right, heap.repr`parent, handle
      ensures Valid() && now' == Ranks() && heap.repr <= old(heap.repr) && Kept(was) && handle.repeat == old(handle.repeat)
      ensures now' == AfterFiring(now, time, old(timerCounter), handle, handle.repeat)
      ensures timerCounter == old(timerCounter) + if handle.repeat > 0 then 1 else 0
    {
      Fire(handle);
      now' := Ranks();
      FiringIs(now, time, old(timerCounter), handle, handle.repeat, now');
    }

    /** The least timer, if it is due. */
    method NextDue(ghost was: map<Node, Setting>, ghost now: map<Node, Key>) returns (handle: Node?)
      requires Valid() && now == Ranks() && Kept(was)
      ensures Valid() && now == Ranks() && Kept(was)
      ensures handle == null ==> NoneDue(now, time)
      ensures handle != null ==> handle in now && now[handle].timeout <= time && LeastOf(now, handle)
    {
      handle := heap.Min();
      if handle != null && handle.timeout > time {
        handle := null;
      }
    }

    /** uv__run_timers, with callbacks that touch no timer: returns the timers in the
        order their callbacks ran. */
    method RunTimers() returns (fired: seq<Node>)
      requires Valid() && Ends(Ranks(), Settings(heap.repr), time)
      modifies this`timerCounter, heap, heap.repr
      ensures Valid() && AllRun(old(Ranks()), old(Settings(heap.repr)), time, fired, Ranks())
      ensures Kept(old(Settings(heap.repr)))
    {
      ghost var ranks, was, now, all, rest := Ranks(), Settings(heap.repr), Ranks(), heap.repr, heap.repr;
      fired := [];
      while true
        invariant Valid() && now == Ranks() && heap.repr <= all && Kept(was)
        invariant SoFar(ranks, was, time, fired, now, timerCounter)
        invariant Rest(was.Keys, fired, rest)
        decreases rest
      {
        var handle := NextDue(was, now);
        if handle == null {
          NoneLeft(ranks, was, time, fired, now, timerCounter);
          return;
        }
        var node: Node := handle;
        var fired' := fired + [node];
        ghost var counter, rest' := timerCounter, rest - {node};
        ghost var now' := FireNext(node, was, now);
        SoFarNext(ranks, was, time, fired, now, counter, node, was[node].repeat, fired', now', timerCounter);
        RestNext(was.Keys, fired, rest, node, fired', rest');
        fired, now, rest := fired', now', rest';
      }
    }

    /** Otherwise no turn of that loop is the last: after any number of them, a timer is
        due that repeats. */
    method RunTurns(turns: nat) returns (fired: seq<Node>)
      requires Valid() && !Ends(Ranks(), Settings(heap.repr), time)
      modifies this`timerCounter, heap, heap.repr
      ensures Valid() && !Ends(Ranks(), Settings(heap.repr), time)
      ensures |fired| == turns && forall n :: n in fired ==> n in old(heap.repr)
    {
      ghost var all, now, was := heap.repr, Ranks(), Settings(heap.repr);
      ghost var r :| r in now && now[r].timeout <= time && was[r].repeat > 0;
      fired := [];
      for t := 0 to turns
        invariant Valid() && now == Ranks() && heap.repr <= all && |fired| == t
        invariant forall n :: n in fired ==> n in all
        invariant Kept(was) && Due(now, r)
      {
        var handle := NextDue(was, now);
        var node: Node := handle;
        ghost var counter := timerCounter;
        ghost var now' := FireNext(node, was, now);
        StaysDue(now, counter, node, node.repeat, r, now');
        fired, now := fired + [node], now';
      }
    }

    /** uv__next_timeout: -1 with no timer, 0 with one due, else the milliseconds to the
        next, up to the largest int. */
    method NextTimeout() returns (r: int)
      requires Valid()
      ensures heap.repr == {} <==> r == -1
      ensures r == 0 <==> exists n :: n in heap.repr && n.timeout <= time
      ensures r > 0 ==> r <= INT_MAX && forall n :: n in heap.repr ==> time + r <= n.timeout
      ensures 0 < r < INT_MAX ==> exists n :: n in heap.repr && n.timeout == time + r
    {
      var handle := heap.Min();
      if handle == null {
        return -1;
      }
      if handle.timeout <= time {
        return 0;
      }
      r := handle.timeout - time;
      if r > INT_MAX {
        r := INT_MAX;
      }
    }
  }

  // ---- what firing does, on the ranks of the timers running ----

  datatype Setting = Setting(repeat: nat, callback: bool, closing: bool)

  ghost function SettingOf(n: Node): Setting
    reads n`repeat, n`callback, n`closing
  {
    Setting(n.repeat, n.callback, n.closing)
  }

  ghost function Settings(ns: set<Node>): map<Node, Setting>
    reads ns`repeat, ns`callback, ns`closing
  {
    map n | n in ns :: SettingOf(n)
  }

  ghost predicate Kept(was: map<Node, Setting>)
    reads was.Keys`repeat, was.Keys`callback, was.Keys`closing
  {
    forall n :: n in was ==> SettingOf(n) == was[n]
  }

  ghost predicate NoneDue(now: map<Node, Key>, time: nat) {
    forall n :: n in now ==> now[n].timeout > time
  }

  ghost predicate LeastOf(now: map<Node, Key>, handle: Node)
    requires handle in now
  {
    forall n :: n in now ==> !KeyLess(now[n], now[handle])
  }

  /** A timer stops, and starts again if it repeats. */
  ghost function AfterFiring(now: map<Node, Key>, time: nat, counter: nat, handle: Node, repeat: nat): map<Node, Key> {
    if repeat > 0 then now[handle := TimerKey(Clamped(time, repeat), counter)] else now - {handle}
  }

  lemma FiringIs(now: map<Node, Key>, time: nat, counter: nat, handle: Node, repeat: nat, after: map<Node, Key>)
    requires after.Keys == if repeat > 0 then now.Keys else now.Keys - {handle}
    requires forall n :: n in after && n != handle ==> n in now && after[n] == now[n]
    requires handle in now && (handle in after ==> after[handle] == TimerKey(Clamped(time, repeat), counter))
    ensures after == AfterFiring(now, time, counter, handle, repeat)
  {
  }

  ghost predicate Due(now: map<Node, Key>, r: Node) {
    r in now && now[r].timeout <= MAX64
  }

  /** At the maximum, a repeating timer that is due stays so, whichever fires. */
  lemma StaysDue(now: map<Node, Key>, counter: nat, handle: Node, repeat: nat, r: Node, now': map<Node, Key>)
    requires Due(now, r) && (handle == r ==> 0 < repeat <= MAX64)
    requires now' == AfterFiring(now, MAX64, counter, handle, repeat)
    ensures Due(now', r)
  {
    if handle == r { RearmedLater(MAX64, repeat); }
  }

  /** The clock is below its maximum, or no timer due repeats. */
  ghost predicate Ends(now: map<Node, Key>, was: map<Node, Setting>, time: nat) {
    time < MAX64 || forall n :: n in now && n in was && now[n].timeout <= time ==> was[n].repeat == 0
  }

  ghost predicate InOrder(ranks: map<Node, Key>, fired: seq<Node>)
    requires forall n :: n in fired ==> n in ranks
  {
    forall i, j :: 0 <= i < j < |fired| ==> KeyLess(ranks[fired[i]], ranks[fired[j]])
  }

  ghost predicate InFront(ranks: map<Node, Key>, fired: seq<Node>)
    requires forall n :: n in fired ==> n in ranks
  {
    forall n, m :: n in fired && m in ranks && m !in fired ==> KeyLess(ranks[n], ranks[m])
  }

  /** Timers that run again have new start ids, in the order they fired. */
  ghost predicate Renumbered(fired: seq<Node>, now: map<Node, Key>) {
    forall i, j :: 0 <= i < j < |fired| && fired[i] in now && fired[j] in now ==>
      now[fired[i]].startId < now[fired[j]].startId
  }

  ghost predicate Rearmed(setting: Setting, time: nat, now: map<Node, Key>, n: Node) {
    && (n in now <==> setting.repeat > 0)
    && (n in now ==> now[n].timeout == Clamped(time, setting.repeat) > time)
  }

  ghost predicate Covered(ranks: map<Node, Key>, was: map<Node, Setting>, fired: seq<Node>, now: map<Node, Key>) {
    && ranks.Keys == was.Keys && now.Keys <= ranks.Keys
    && (forall n :: n in fired ==> n in ranks)
    && (forall n :: n in ranks && n !in fired ==> n in now && now[n] == ranks[n])
  }

  /** Part of the way through a run that began with `ranks` and `was`. */
  ghost predicate SoFar(ranks: map<Node, Key>, was: map<Node, Setting>, time: nat, fired: seq<Node>,
                        now: map<Node, Key>, counter: nat) {
    && Covered(ranks, was, fired, now) && Ends(ranks, was, time)
    && (forall n :: n in fired ==> ranks[n].timeout <= time && Rearmed(was[n], time, now, n))
    && (forall n :: n in now ==> now[n].startId < counter)
    && InOrder(ranks, fired) && InFront(ranks, fired) && Renumbered(fired, now)
    && (forall m, n :: m in ranks && n in ranks && ranks[m].startId == ranks[n].startId ==> m == n)
    && (forall n :: n in was ==> was[n].repeat <= MAX64)
  }

  /** The least timer, when due, has not fired before, and its firing goes on the run. */
  lemma SoFarNext(ranks: map<Node, Key>, was: map<Node, Setting>, time: nat, fired: seq<Node>,
                  now: map<Node, Key>, counter: nat, handle: Node, repeat: nat,
                  fired': seq<Node>, now': map<Node, Key>, counter': nat)
    requires SoFar(ranks, was, time, fired, now, counter) && time <= MAX64
    requires handle in now && now[handle].timeout <= time && LeastOf(now, handle)
    requires handle in was && repeat == was[handle].repeat && fired' == fired + [handle]
    requires now' == AfterFiring(now, time, counter, handle, repeat) && counter' == counter + if repeat > 0 then 1 else 0
    ensures handle !in fired && SoFar(ranks, was, time, fired', now', counter')
  {
    if repeat > 0 { RearmedLater(time, repeat); }
    assert handle !in fired;
    OrderNext(ranks, fired, handle, fired');
    RenumberedNext(fired, now, counter, handle, fired', now');
    forall n | n in fired' ensures ranks[n].timeout <= time && Rearmed(was[n], time, now', n) {
      assert n in fired ==> Rearmed(was[n], time, now, n);
    }
  }

  lemma OrderNext(ranks: map<Node, Key>, fired: seq<Node>, handle: Node, fired': seq<Node>)
    requires (forall n :: n in fired ==> n in ranks) && handle in ranks && handle !in fired && fired' == fired + [handle]
    requires InOrder(ranks, fired) && InFront(ranks, fired)
    requires forall m :: m in ranks && m !in fired ==> m == handle || KeyLess(ranks[handle], ranks[m])
    ensures InOrder(ranks, fired') && InFront(ranks, fired')
  {
  }

  lemma RenumberedNext(fired: seq<Node>, now: map<Node, Key>, counter: nat, handle: Node, fired': seq<Node>, now': map<Node, Key>)
    requires handle !in fired && fired' == fired + [handle] && Renumbered(fired, now)
    requires forall n :: n in now ==> now[n].startId < counter
    requires forall n :: n in now' && n != handle ==> n in now && now'[n] == now[n]
    requires handle in now' ==> now'[handle].startId == counter
    ensures Renumbered(fired', now')
  {
  }

  ghost predicate Rest(all: set<Node>, fired: seq<Node>, rest: set<Node>) {
    rest == set n | n in all && n !in fired
  }

  lemma RestNext(all: set<Node>, fired: seq<Node>, rest: set<Node>, n: Node, fired': seq<Node>, rest': set<Node>)
    requires Rest(all, fired, rest) && n in all && n !in fired && fired' == fired + [n] && rest' == rest - {n}
    ensures Rest(all, fired', rest') && rest' < rest
  {
  }

  /** Each timer due at the start fired once, in (timeout, start id) order; exactly the
      repeating ones of them run again, later than now, with start ids in that order;
      the others are as they were; none is due. */
  ghost predicate AllRun(ranks: map<Node, Key>, was: map<Node, Setting>, time: nat, fired: seq<Node>, now: map<Node, Key>) {
    && Covered(ranks, was, fired, now) && NoneDue(now, time)
    && (forall n :: n in ranks ==> (n in fired <==> ranks[n].timeout <= time))
    && (forall n :: n in fired ==> Rearmed(was[n], time, now, n))
    && InOrder(ranks, fired) && Renumbered(fired, now)
  }

  lemma NoneLeft(ranks: map<Node, Key>, was: map<Node, Setting>, time: nat, fired: seq<Node>, now: map<Node, Key>, counter: nat)
    requires SoFar(ranks, was, time, fired, now, counter) && NoneDue(now, time)
    ensures AllRun(ranks, was, time, fired, now)
  {
  }

  /** One timer that repeats every millisecond, and the clock at its maximum. */
  method FiresForEver(handle: Node, turns: nat) returns (fired: seq<Node>)
    requires !handle.active && !handle.closing
    modifies handle
    ensures |fired| == turns && forall n :: n in fired ==> n == handle
  {
    var loop := new Loop();
    label Made:
    loop.time := MAX64;
    loop.heap.StaysValid@Made();
    var _ := loop.Start(handle, true, 0, 1);
    ClampedIsMin(MAX64, 0);
    assert handle in loop.Ranks() && loop.Ranks()[handle].timeout <= MAX64 && Settings(loop.heap.repr)[handle].repeat == 1;
    fired := loop.RunTurns(turns);
  }
}
