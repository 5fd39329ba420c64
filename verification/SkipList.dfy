/** The memtable's skip list (db/skiplist.h): searches while an insertion is part way
    through. Loads and stores of links are single steps. */
module SkipList {

  /** A key stands for its place in the comparator's order. */
  type Key = real

  const MAX_HEIGHT: nat := 12

  class Node {
    const key: Key
    var next: seq<Node?>

    constructor (key: Key, height: nat)
      ensures this.key == key && next == seq(height, _ => null)
    {
      this.key := key;
      next := seq(height, _ => null);
    }
  }

  function After(s: seq<Node>, i: nat): Node? {
    if i + 1 < |s| then s[i + 1] else null
  }

  /** What a search looks for: the first node at or after a key, the last before a key,
      or the last of all. */
  datatype Search = AtOrAfter(key: Key) | Below(key: Key) | Last

  predicate GoesPast(search: Search, k: Key) {
    search.Last? || k < search.key
  }

  ghost predicate LinkAt(s: seq<Node>, l: nat, i: nat)
    requires i < |s|
    reads s
  {
    l < |s[i].next| && s[i].next[l] == After(s, i)
  }

  ghost predicate Headed(head: Node, s: seq<Node>) {
    |s| > 0 && s[0] == head && forall i :: 0 < i < |s| ==> s[i] != head
  }

  /** s is the list of one level, headed by `head`: linked and sorted. */
  ghost predicate Level(head: Node, s: seq<Node>, l: nat)
    reads s
  {
    && Headed(head, s)
    && (forall i, j :: 0 < i < j < |s| ==> s[i].key < s[j].key)
    && (forall i :: 0 <= i < |s| ==> LinkAt(s, l, i))
  }

  /** x, at place p, is the last node of the level the search goes past. */
  ghost predicate SplitsAt(s: seq<Node>, p: nat, search: Search) {
    && p < |s|
    && (forall i :: 0 < i <= p ==> GoesPast(search, s[i].key))
    && (forall i :: p < i < |s| ==> !GoesPast(search, s[i].key))
  }

  ghost predicate Within(s: seq<Node>, nodes: set<Node>) {
    forall i :: 0 <= i < |s| ==> s[i] in nodes
  }

  /** Every node of a level is on the one below. */
  ghost predicate Nested(levels: seq<seq<Node>>, l: nat)
    requires 0 < l < |levels|
  {
    forall n :: n in levels[l] ==> n in levels[l - 1]
  }

  ghost function KeysOf(s: seq<Node>): set<Key> {
    set i | 0 < i < |s| :: s[i].key
  }

  class SkipList {
    const head: Node
    var maxHeight: nat
    ghost var levels: seq<seq<Node>>     // of each level, the head first
    ghost var repr: set<Node>

    ghost predicate LevelOk(l: nat)
      requires l < |levels|
      reads this, repr
    {
      Within(levels[l], repr) && Level(head, levels[l], l)
    }

    ghost predicate Valid()
      reads this, repr
    {
      && 1 <= maxHeight <= MAX_HEIGHT && |levels| == MAX_HEIGHT
      && (forall l :: 0 <= l < MAX_HEIGHT ==> LevelOk(l))
      && (forall l :: 0 < l < MAX_HEIGHT ==> Nested(levels, l))
      && (forall l :: maxHeight <= l < MAX_HEIGHT ==> |levels[l]| == 1)
    }

    /** The keys of the bottom level. */
    ghost function Keys(): set<Key>
      requires Valid()
      reads this, repr
    {
      KeysOf(levels[0])
    }

    constructor ()
      ensures Valid() && Keys() == {} && fresh(repr)
    {
      head := new Node(0.0, MAX_HEIGHT);
      maxHeight := 1;
      new;
      levels := seq(MAX_HEIGHT, _ => [head]);
      repr := {head};
    }

    /** A search may stand at x on a level: x is there, and not beyond what it seeks. */
    ghost predicate Stands(x: Node, level: nat, search: Search)
      reads this
    {
      level < |levels| && x in levels[level] && (x == head || GoesPast(search, x.key))
    }

    ghost predicate StandsAt(x: Node, level: nat, p: nat)
      reads this
    {
      level < |levels| && p < |levels[level]| && levels[level][p] == x
    }

    /** One load of a search: whether to go on along the level, and the node ahead. */
    method Ahead(x: Node, level: nat, search: Search, ghost p: nat) returns (goesOn: bool, next: Node?)
      requires Valid() && Stands(x, level, search) && StandsAt(x, level, p)
      ensures next == After(levels[level], p)
      ensures goesOn ==> next != null && Stands(next, level, search) && StandsAt(next, level, p + 1)
      ensures !goesOn ==> SplitsAt(levels[level], p, search) && (level > 0 ==> Stands(x, level - 1, search))
    {
      assert LevelOk(level) && (level > 0 ==> Nested(levels, level));
      assert LinkAt(levels[level], level, p);
      next := x.next[level];
      goesOn := next != null && GoesPast(search, next.key);
    }

    /** The first node of the bottom level at or after key, null if none. */
    ghost predicate FirstFrom(key: Key, r: Node?)
      requires Valid()
      reads this, repr
    {
      && (r == null ==> forall k :: k in Keys() ==> k < key)
      && (r != null ==> r in levels[0] && r != head && r.key >= key && r.key in Keys()
                        && forall k :: k in Keys() && k >= key ==> k >= r.key)
    }

    /** The last node of the bottom level the search goes past, the head if none. */
    ghost predicate LastPast(search: Search, r: Node)
      requires Valid()
      reads this, repr
    {
      && r in levels[0]
      && (r == head ==> forall k :: k in Keys() ==> !GoesPast(search, k))
      && (r != head ==> r.key in Keys() && GoesPast(search, r.key)
                        && forall k :: k in Keys() && GoesPast(search, k) ==> k <= r.key)
    }

    lemma SplitAnswers(p: nat, search: Search)
      requires Valid() && SplitsAt(levels[0], p, search)
      ensures LastPast(search, levels[0][p])
      ensures search.AtOrAfter? ==> FirstFrom(search.key, After(levels[0], p))
    {
      assert LevelOk(0);
    }

    ghost predicate LastOn(l: nat, search: Search, x: Node)
      requires l < |levels|
      reads this
    {
      exists p :: StandsAt(x, l, p) && SplitsAt(levels[l], p, search)
    }

    /** FindGreaterOrEqual; prev holds, for each level in use, the last node before key. */
    method FindGreaterOrEqual(key: Key) returns (r: Node?, prev: seq<Node>)
      requires Valid()
      ensures FirstFrom(key, r)
      ensures |prev| == maxHeight && forall l :: 0 <= l < maxHeight ==> LastOn(l, AtOrAfter(key), prev[l])
    {
      var x: Node, level: nat := head, maxHeight - 1;
      prev := seq(maxHeight, _ => head);
      assert LevelOk(level);
      ghost var p: nat := 0;
      while true
        invariant level < maxHeight && |prev| == maxHeight
        invariant Stands(x, level, AtOrAfter(key)) && StandsAt(x, level, p)
        invariant forall l :: level < l < maxHeight ==> LastOn(l, AtOrAfter(key), prev[l])
        decreases level, |levels[level]| - p
      {
        var goesOn, next := Ahead(x, level, AtOrAfter(key), p);
        if goesOn {
          x, p := next, p + 1;
        } else {
          assert LastOn(level, AtOrAfter(key), x);
          prev := prev[level := x];
          if level == 0 {
            SplitAnswers(p, AtOrAfter(key));
            return next, prev;
          }
          level := level - 1;
          ghost var q :| 0 <= q < |levels[level]| && levels[level][q] == x;
          p := q;
        }
      }
    }

    method FindLessThan(key: Key) returns (r: Node)
      requires Valid()
      ensures LastPast(Below(key), r)
    {
      r := FindPast(Below(key));
    }

    method FindLast() returns (r: Node)
      requires Valid()
      ensures LastPast(Last, r)
    {
      r := FindPast(Last);
    }

    /** The loop of FindLessThan and of FindLast. */
    method FindPast(search: Search) returns (r: Node)
      requires Valid()
      ensures LastPast(search, r)
    {
      var x: Node, level: nat := head, maxHeight - 1;
      assert LevelOk(level);
      ghost var p: nat := 0;
      while true
        invariant level < maxHeight && Stands(x, level, search) && StandsAt(x, level, p)
        decreases level, |levels[level]| - p
      {
        var goesOn, next := Ahead(x, level, search, p);
        if goesOn {
          x, p := next, p + 1;
        } else {
          if level == 0 {
            SplitAnswers(p, search);
            return x;
          }
          level := level - 1;
          ghost var q :| 0 <= q < |levels[level]| && levels[level][q] == x;
          p := q;
        }
      }
    }

    // ---- insertion, link by link ----

    /** An insertion of x has linked the levels below i. */
    ghost predicate Inserting(x: Node, prev: seq<Node>, i: nat)
      requires Valid()
      reads this, repr, x
    {
      && i <= |x.next| <= maxHeight && |x.next| <= |prev|
      && (forall l :: 0 <= l < i ==> x in levels[l])
      && (forall l :: i <= l < MAX_HEIGHT ==> x !in levels[l] && x.key !in KeysOf(levels[l]))
      && (forall l :: i <= l < |x.next| ==> LastOn(l, AtOrAfter(x.key), prev[l]))
      && x != head
    }

    /** NoBarrier_SetNext on x, then the store that publishes x on level i. */
    method Link(x: Node, prev: seq<Node>, i: nat)
      requires Valid() && Inserting(x, prev, i) && i < |x.next|
      modifies `levels, `repr, repr`next, x`next
      ensures Valid() && Inserting(x, prev, i + 1)
      ensures Grown(old(levels), i, x) && |x.next| == old(|x.next|) && repr == old(repr) + {x}
      ensures Keys() == if i == 0 then old(Keys()) + {x.key} else old(Keys())
    {
      ghost var p: nat :| StandsAt(prev[i], i, p) && SplitsAt(levels[i], p, AtOrAfter(x.key));
      assert LevelOk(i);
      SetLinks(x, prev[i], i, p);
      Publish(x, i, p);
      if i == 0 { KeysGrow(old(Keys()), old(levels[0]), x); }
      forall l | i < l < |x.next| ensures LastOn(l, AtOrAfter(x.key), prev[l]) {
        ghost var q :| old(StandsAt(prev[l], l, q)) && SplitsAt(old(levels[l]), q, AtOrAfter(x.key));
        assert StandsAt(prev[l], l, q) && SplitsAt(levels[l], q, AtOrAfter(x.key));
      }
    }

    /** x has joined level i; nothing else changed on any level. */
    ghost predicate Grown(was: seq<seq<Node>>, i: nat, x: Node)
      reads this
    {
      && |levels| == |was| && i < |was|
      && (forall l :: 0 <= l < |was| && l != i ==> levels[l] == was[l])
      && (forall n :: n in levels[i] ==> n in was[i] || n == x)
      && x in levels[i]
      && (forall n :: n in was[i] ==> n in levels[i])
    }

    method SetLinks(x: Node, before: Node, i: nat, ghost p: nat)
      requires Valid() && i < |x.next| && i < MAX_HEIGHT && x != head && x !in levels[i] && x.key !in KeysOf(levels[i])
      requires StandsAt(before, i, p) && SplitsAt(levels[i], p, AtOrAfter(x.key))
      modifies repr`next, x`next
      ensures forall l :: 0 <= l < MAX_HEIGHT && l != i ==> LevelOk(l)
      ensures Level(head, Spliced(levels[i], p, x), i) && |x.next| == old(|x.next|)
    {
      assert LevelOk(i) && LinkAt(levels[i], i, p) && before in repr;
      x.next := x.next[i := before.next[i]];
      before.next := before.next[i := x];
      SplicedSorted(head, levels[i], p, x);
      forall l | 0 <= l < MAX_HEIGHT && l != i ensures LevelOk(l) {
        assert old(LevelOk(l));
        forall j | 0 <= j < |levels[l]| ensures LinkAt(levels[l], l, j) { assert old(LinkAt(levels[l], l, j)); }
      }
      ghost var t := Spliced(levels[i], p, x);
      forall j | 0 <= j < |t| ensures LinkAt(t, i, j) {
        SplicedFrom(levels[i], p, x, j);
        if j < |levels[i]| { SplicedFrom(levels[i], p, x, j + 1); }
        if j != p + 1 {
          assert old(LinkAt(levels[i], i, if j <= p then j else j - 1));
        }
      }
    }

    ghost method Publish(x: Node, i: nat, p: nat)
      requires 1 <= maxHeight <= MAX_HEIGHT == |levels| && i < maxHeight && p < |levels[i]| && Within(levels[i], repr)
      requires forall l :: 0 <= l < MAX_HEIGHT && l != i ==> LevelOk(l)
      requires forall l :: 0 < l < MAX_HEIGHT ==> Nested(levels, l)
      requires forall l :: maxHeight <= l < MAX_HEIGHT ==> |levels[l]| == 1
      requires Level(head, Spliced(levels[i], p, x), i) && (i > 0 ==> x in levels[i - 1])
      modifies `levels, `repr
      ensures Valid() && levels == old(levels)[i := Spliced(old(levels[i]), p, x)] && repr == old(repr) + {x}
      ensures Grown(old(levels), i, x)
    {
      var was := levels;
      SplicedMembers(was[i], p, x);
      levels := levels[i := Spliced(levels[i], p, x)];
      repr := repr + {x};
      forall l | 0 <= l < MAX_HEIGHT ensures LevelOk(l) {
        if l != i { assert old(LevelOk(l)); }
      }
      forall l | 0 < l < MAX_HEIGHT ensures Nested(levels, l) { assert Nested(was, l); }
    }

    lemma KeysOnLevel(l: nat)
      requires Valid() && l < MAX_HEIGHT
      ensures KeysOf(levels[l]) <= Keys()
    {
      if l > 0 {
        KeysOnLevel(l - 1);
        assert Nested(levels, l) && LevelOk(l) && LevelOk(l - 1);
        forall k | k in KeysOf(levels[l]) ensures k in KeysOf(levels[l - 1]) {
          KeysMember(head, levels[l], k);
          KeysMember(head, levels[l - 1], k);
        }
      }
    }

    /** Insert up to the first link: the search, the height, the node. */
    method Begin(key: Key, height: nat) returns (x: Node, prev: seq<Node>)
      requires Valid() && key !in Keys() && 1 <= height <= MAX_HEIGHT
      modifies `maxHeight
      ensures Valid() && fresh(x) && x.key == key && |x.next| == height && Inserting(x, prev, 0)
    {
      prev := Reserve(key, height);
      forall l | 0 <= l < MAX_HEIGHT ensures key !in KeysOf(levels[l]) && Within(levels[l], repr) {
        KeysOnLevel(l);
        assert LevelOk(l);
      }
      label Before:
      x := new Node(key, height);
      forall l | 0 <= l < MAX_HEIGHT ensures LevelOk(l) { assert old@Before(LevelOk(l)); }
      forall l | 0 <= l < height ensures LastOn(l, AtOrAfter(key), prev[l]) {
        assert old@Before(LastOn(l, AtOrAfter(key), prev[l]));
      }
    }

    /** prev[level] for every level of the new node; maxHeight grows if it must. */
    method Reserve(key: Key, height: nat) returns (prev: seq<Node>)
      requires Valid() && 1 <= height <= MAX_HEIGHT
      modifies `maxHeight
      ensures Valid() && height <= maxHeight && height <= |prev|
      ensures forall l :: 0 <= l < height ==> LastOn(l, AtOrAfter(key), prev[l])
    {
      var r;
      r, prev := FindGreaterOrEqual(key);
      if height > maxHeight {
        for i := maxHeight to height
          invariant |prev| == i && Valid()
          invariant forall l :: 0 <= l < i ==> LastOn(l, AtOrAfter(key), prev[l])
        {
          assert LevelOk(i);
          assert StandsAt(head, i, 0) && SplitsAt(levels[i], 0, AtOrAfter(key));
          prev := prev + [head];
        }
        maxHeight := height;
        forall l | 0 <= l < MAX_HEIGHT ensures LevelOk(l) { assert old(LevelOk(l)); }
      }
    }

    lemma KeysGrow(was: set<Key>, below: seq<Node>, x: Node)
      requires Valid() && Headed(head, below) && was == KeysOf(below) && x != head
      requires forall n :: n in levels[0] <==> n in below || n == x
      ensures Keys() == was + {x.key}
    {
      assert LevelOk(0);
      forall k ensures k in Keys() <==> k in was + {x.key} {
        KeysMember(head, levels[0], k);
        KeysMember(head, below, k);
      }
    }

    /** Contains */
    method Contains(key: Key) returns (r: bool)
      requires Valid()
      ensures r <==> key in Keys()
    {
      var x, prev := FindGreaterOrEqual(key);
      r := x != null && x.key == key;
    }

    /** What a search has passed on its way from x0 to x: keys that ascend, past which it
        is to go. */
    ghost predicate Walked(x0: Node, x: Node, passed: set<Key>, search: Search) {
      && (forall k :: k in passed ==> x != head && k <= x.key && GoesPast(search, k) && (x0 == head || x0.key < k))
      && (x == x0 || (x != head && x.key in passed))
    }

    /** One step of a search: along the level, down a level, or to its end. */
    method Move(search: Search, x0: Node, x: Node, level: nat, ghost passed: set<Key>)
      returns (ended: bool, x': Node, next: Node?, level': nat, ghost passed': set<Key>)
      requires Valid() && Stands(x, level, search) && Walked(x0, x, passed, search) && passed <= Keys()
      ensures Walked(x0, x', passed', search) && passed' <= Keys() && level' <= level
      ensures !ended ==> Stands(x', level', search) && level - level' + |passed'| == 1 + |passed|
      ensures ended ==> level' == level == 0 && passed' == passed
      ensures ended ==> LastPast(search, x') && (search.AtOrAfter? ==> FirstFrom(search.key, next))
    {
      ghost var p: nat :| p < |levels[level]| && levels[level][p] == x;
      var goesOn;
      goesOn, next := Ahead(x, level, search, p);
      ended, x', level', passed' := false, x, level, passed;
      if goesOn {
        AheadIsNew(x, level, p);
        x', passed' := next, passed + {next.key};
      } else if level == 0 {
        SplitAnswers(p, search);
        ended := true;
      } else {
        level' := level - 1;
      }
    }

    lemma AheadIsNew(x: Node, level: nat, p: nat)
      requires Valid() && StandsAt(x, level, p) && p + 1 < |levels[level]|
      ensures var next := levels[level][p + 1];
              next != head && next.key in Keys() && (x == head || x.key < next.key)
    {
      assert LevelOk(level);
      KeysOnLevel(level);
      assert levels[level][p + 1].key in KeysOf(levels[level]);
    }

    /** A turn of the insertion, if it has a link left to make: a search stands as it did. */
    method InsertTurn(node: Node, prev: seq<Node>, i: nat, ghost was: set<Key>, ghost search: Search, ghost x: Node, ghost level: nat)
      returns (i': nat)
      requires Valid() && Inserting(node, prev, i) && Stands(x, level, search)
      requires Keys() == if i == 0 then was else was + {node.key}
      requires |node.next| > 0
      modifies `levels, `repr, repr`next, node`next
      ensures Valid() && Inserting(node, prev, i') && 0 < i' && Stands(x, level, search)
      ensures Keys() == was + {node.key} && old(Keys()) <= Keys() && |node.next| == old(|node.next|) && repr <= old(repr) + {node}
    {
      i' := i;
      if i < |node.next| {
        Link(node, prev, i);
        i' := i + 1;
      }
    }

    /** A search at any point of its way, while an insertion runs: the schedule says who
        makes the next step, true the insertion and false the search. Each false is one
        step of the search: past a key, or down a level. A search that ends, after n
        turns, has the right answer for the bottom level of that moment, which holds the
        new key once the insertion has made a step; one that does not can go on from
        where it stands, through the next insertion too. It ends within as many steps as
        there are levels and keys, whatever the insertion does meanwhile. */
    method SearchDuringInsert(search: Search, x0: Node, level0: nat, key: Key, height: nat, schedule: seq<bool>)
      returns (done: bool, last: Node, next: Node?, level: nat, n: nat, ghost passed: set<Key>)
      requires Valid() && key !in Keys() && 1 <= height <= MAX_HEIGHT && Stands(x0, level0, search)
      modifies this, repr`next
      ensures Valid() && n <= |schedule| && (!done ==> n == |schedule|)
      ensures Keys() == if true in schedule[..n] then old(Keys()) + {key} else old(Keys())
      ensures done ==> LastPast(search, last) && (search.AtOrAfter? ==> FirstFrom(search.key, next))
      ensures !done ==> Stands(last, level, search)
      ensures passed <= Keys() && Walked(x0, last, passed, search) && level <= level0
      ensures Falses(schedule[..n]) == level0 - level + |passed| + if done then 1 else 0
      ensures Falses(schedule) > level0 + |Keys()| ==> done
    {
      var i: nat := 0;
      ghost var was, turns: nat := Keys(), 0;
      last, next, level, done, n, passed := x0, null, level0, false, 0, {};
      var node, prev := Begin(key, height);
      while n < |schedule|
        invariant Valid() && Inserting(node, prev, i) && |node.next| == height && node.key == key && n <= |schedule|
        invariant fresh(node) && fresh(repr - old(repr)) && Stands(last, level, search)
        invariant Keys() == if i == 0 then was else was + {key}
        invariant Tally(schedule, n, turns, i > 0)
        invariant Walked(x0, last, passed, search) && passed <= Keys() && level <= level0
        invariant turns == level0 - level + |passed|
      {
        TallyNext(schedule, n, turns, i > 0);
        n := n + 1;
        if schedule[n - 1] {
          i := InsertTurn(node, prev, i, was, search, last, level);
        } else {
          turns := turns + 1;
          done, last, next, level, passed := Move(search, x0, last, level, passed);
          if done {
            return;
          }
        }
      }
      TallyAll(schedule, turns, i > 0);
      SubsetSize(passed, Keys());
    }

    /** Insert: `height` is what RandomHeight returned. */
    method Insert(key: Key, height: nat)
      requires Valid() && key !in Keys() && 1 <= height <= MAX_HEIGHT
      modifies this, repr`next
      ensures Valid() && Keys() == old(Keys()) + {key}
    {
      var x, prev := Begin(key, height);
      ghost var keys := Keys();
      for i := 0 to height
        invariant Valid() && |x.next| == height && Inserting(x, prev, i) && x.key == key
        invariant fresh(repr - old(repr))
        invariant Keys() == if i == 0 then keys else keys + {key}
      {
        Link(x, prev, i);
      }
    }
  }

  /** How many of the turns are the search's. */
  function Falses(schedule: seq<bool>): nat {
    if schedule == [] then 0
    else Falses(schedule[..|schedule| - 1]) + if schedule[|schedule| - 1] then 0 else 1
  }

  /** The first n turns: how many are the search's, and whether any is the insertion's. */
  ghost predicate Tally(schedule: seq<bool>, n: nat, searches: nat, inserts: bool) {
    n <= |schedule| && Falses(schedule[..n]) == searches && (inserts <==> true in schedule[..n])
  }

  lemma TallyNext(schedule: seq<bool>, n: nat, searches: nat, inserts: bool)
    requires n < |schedule| && Tally(schedule, n, searches, inserts)
    ensures schedule[n] ==> Tally(schedule, n + 1, searches, true)
    ensures !schedule[n] ==> Tally(schedule, n + 1, searches + 1, inserts)
  {
    assert schedule[..n + 1][..n] == schedule[..n];
    assert schedule[..n + 1] == schedule[..n] + [schedule[n]];
  }

  lemma TallyAll(schedule: seq<bool>, searches: nat, inserts: bool)
    requires Tally(schedule, |schedule|, searches, inserts)
    ensures Falses(schedule) == searches
  {
    assert schedule[..|schedule|] == schedule;
  }

  lemma {:induction false} SubsetSize<T>(a: set<T>, b: set<T>)
    requires a <= b
    ensures |a| <= |b|
  {
    if k :| k in a {
      SubsetSize(a - {k}, b - {k});
    }
  }

  lemma KeysMember(head: Node, s: seq<Node>, k: Key)
    requires Headed(head, s)
    ensures k in KeysOf(s) <==> exists n :: n in s && n != head && n.key == k
  {
    if n :| n in s && n != head && n.key == k {
      var i :| 0 <= i < |s| && s[i] == n;
    }
    if i :| 0 < i < |s| && s[i].key == k {
      assert s[i] in s;
    }
  }

  function Spliced(s: seq<Node>, p: nat, x: Node): seq<Node>
    requires p < |s|
  {
    s[..p + 1] + [x] + s[p + 1..]
  }

  lemma SplicedFrom(s: seq<Node>, p: nat, x: Node, j: nat)
    requires p < |s| && j <= |s|
    ensures |Spliced(s, p, x)| == |s| + 1
    ensures Spliced(s, p, x)[j] == if j <= p then s[j] else if j == p + 1 then x else s[j - 1]
  {
  }

  lemma SplicedMembers(s: seq<Node>, p: nat, x: Node)
    requires p < |s|
    ensures forall n :: n in Spliced(s, p, x) <==> n in s || n == x
    ensures |Spliced(s, p, x)| == |s| + 1
    ensures forall j :: 0 <= j < |s| + 1 ==> Spliced(s, p, x)[j] == if j <= p then s[j] else if j == p + 1 then x else s[j - 1]
  {
    assert s == s[..p + 1] + s[p + 1..];
  }

  lemma SplicedSorted(head: Node, s: seq<Node>, p: nat, x: Node)
    requires |s| > 0 && s[0] == head && x != head && SplitsAt(s, p, AtOrAfter(x.key)) && x.key !in KeysOf(s)
    requires forall i :: 0 < i < |s| ==> s[i] != head
    requires forall i, j :: 0 < i < j < |s| ==> s[i].key < s[j].key
    ensures var t := Spliced(s, p, x);
            t[0] == head && (forall i :: 0 < i < |t| ==> t[i] != head)
            && forall i, j :: 0 < i < j < |t| ==> t[i].key < t[j].key
  {
    SplicedMembers(s, p, x);
    assert forall i :: 0 < i < |s| ==> s[i].key in KeysOf(s);
  }
}
