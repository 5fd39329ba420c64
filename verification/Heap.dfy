/** The pointer-linked binary min heap of libuv (src/heap-inl.h), with the comparison of
    its timers (src/timer.c). */
module Heaps {

  // ---- order ----

  /** What timer_less_than compares. */
  datatype Key = TimerKey(timeout: nat, startId: nat)

  predicate KeyLess(a: Key, b: Key) {
    a.timeout < b.timeout || (a.timeout == b.timeout && a.startId < b.startId)
  }

  /** The place above place i, counting from 0 at the root. */
  function Up(i: nat): nat
    requires i > 0
  {
    (i - 1) / 2
  }

  ghost predicate InOrder(ks: seq<Key>, i: nat)
    requires 0 < i < |ks|
  {
    !KeyLess(ks[i], ks[Up(i)])
  }

  ghost predicate HeapOrdered(ks: seq<Key>) {
    forall i :: 0 < i < |ks| ==> InOrder(ks, i)
  }

  /** In order but for place q against its parent and, if `down`, against its children;
      those children fit under q's parent. */
  ghost predicate Loose(ks: seq<Key>, q: nat, down: bool) {
    && q < |ks|
    && (forall i :: 0 < i < |ks| && i != q && (down ==> Up(i) != q) ==> InOrder(ks, i))
    && (q > 0 ==> forall i :: 0 < i < |ks| && Up(i) == q ==> !KeyLess(ks[i], ks[Up(q)]))
  }

  function Swapped<T>(s: seq<T>, p: nat, c: nat): seq<T>
    requires p < |s| && c < |s|
  {
    s[p := s[c]][c := s[p]]
  }

  /** No child of place q precedes k. */
  ghost predicate ChildrenAbove(ks: seq<Key>, q: nat, k: Key) {
    (2 * q + 1 < |ks| ==> !KeyLess(ks[2 * q + 1], k)) && (2 * q + 2 < |ks| ==> !KeyLess(ks[2 * q + 2], k))
  }

  lemma StopsDown(ks: seq<Key>, q: nat)
    requires Loose(ks, q, true) && ChildrenAbove(ks, q, ks[q])
    ensures Loose(ks, q, false)
  {
    forall i | 0 < i < |ks| && i != q ensures InOrder(ks, i) {
      if Up(i) == q { assert i == 2 * q + 1 || i == 2 * q + 2; }
    }
  }

  lemma SiftDown(ks: seq<Key>, q: nat, s: nat)
    requires Loose(ks, q, true) && q < s < |ks| && Up(s) == q && KeyLess(ks[s], ks[q]) && ChildrenAbove(ks, q, ks[s])
    ensures Loose(Swapped(ks, q, s), s, true)
  {
    var ks' := Swapped(ks, q, s);
    forall i | 0 < i < |ks'| && i != s && Up(i) != s ensures InOrder(ks', i) {
      if i != q && Up(i) != q { assert InOrder(ks, i); }
      if Up(i) == q { assert i == 2 * q + 1 || i == 2 * q + 2; }
    }
    forall i | 0 < i < |ks'| && Up(i) == s ensures !KeyLess(ks'[i], ks'[Up(s)]) {
      assert InOrder(ks, i);
    }
  }

  lemma SiftUp(ks: seq<Key>, q: nat)
    requires Loose(ks, q, false) && q > 0 && KeyLess(ks[q], ks[Up(q)])
    ensures Loose(Swapped(ks, Up(q), q), Up(q), false)
  {
    var p := Up(q);
    var ks' := Swapped(ks, p, q);
    forall i | 0 < i < |ks'| && i != p ensures InOrder(ks', i) {
      if i != q && Up(i) != q { assert InOrder(ks, i); }
    }
    if p > 0 {
      assert InOrder(ks, p);
      forall i | 0 < i < |ks'| && Up(i) == p ensures !KeyLess(ks'[i], ks'[Up(p)]) {
        if i != q { assert InOrder(ks, i); }
      }
    }
  }

  lemma LooseSettles(ks: seq<Key>, q: nat)
    requires Loose(ks, q, false) && (q > 0 ==> !KeyLess(ks[q], ks[Up(q)]))
    ensures HeapOrdered(ks)
  {
    forall i | 0 < i < |ks| ensures InOrder(ks, i) { }
  }

  /** Taking the last place off and putting its key in place r. */
  lemma Replace(ks: seq<Key>, r: nat)
    requires HeapOrdered(ks) && r + 1 < |ks|
    ensures Loose(ks[..|ks| - 1][r := ks[|ks| - 1]], r, true)
  {
    var ks' := ks[..|ks| - 1][r := ks[|ks| - 1]];
    forall i | 0 < i < |ks'| && i != r && Up(i) != r ensures InOrder(ks', i) {
      assert InOrder(ks, i);
    }
    forall i | r > 0 && 0 < i < |ks'| && Up(i) == r ensures !KeyLess(ks'[i], ks'[Up(r)]) {
      assert InOrder(ks, i) && InOrder(ks, r);
    }
  }

  /** The root is least. */
  lemma {:induction false} RootIsLeast(ks: seq<Key>, i: nat)
    requires HeapOrdered(ks) && i < |ks|
    ensures !KeyLess(ks[i], ks[0])
  {
    if i > 0 {
      RootIsLeast(ks, Up(i));
      assert InOrder(ks, i);
    }
  }

  // ---- the path from the root to a place ----

  /** From place `pos`, counting from 1, k steps as the bits of path say lead to place n. */
  predicate Leads(path: nat, k: nat, pos: nat, n: nat) {
    if k == 0 then pos == n else Leads(path / 2, k - 1, 2 * pos + path % 2, n)
  }

  lemma {:induction false} LeadsDown(path: nat, k: nat, pos: nat, n: nat)
    requires Leads(path, k, pos, n) && pos > 0
    ensures if k == 0 then pos == n else 2 * pos + path % 2 <= n
  {
    if k > 0 {
      LeadsDown(path / 2, k - 1, 2 * pos + path % 2, n);
    }
  }

  method PathTo(target: nat) returns (path: nat, k: nat)
    requires target > 0
    ensures Leads(path, k, 1, target)
  {
    path, k := 0, 0;
    var n := target;
    while n >= 2
      invariant n > 0 && Leads(path, k, n, target)
    {
      path, k, n := 2 * path + n % 2, k + 1, n / 2;
    }
  }

  // ---- nodes and links ----

  /** A uv_timer_t with its embedded heap_node; the heap touches the links only. */
  class Node {
    var left: Node?
    var right: Node?
    var parent: Node?
    var timeout: nat
    var startId: nat
    var repeat: nat
    var callback: bool              // timer_cb != NULL
    var active: bool
    var closing: bool

    function Rank(): Key
      reads this`timeout, this`startId
    {
      TimerKey(timeout, startId)
    }
  }

  datatype Links = Links(left: Node?, right: Node?, parent: Node?)

  function LinksOf(n: Node): Links
    reads n`left, n`right, n`parent
  {
    Links(n.left, n.right, n.parent)
  }

  function At(nodes: seq<Node>, j: nat): Node? {
    if j < |nodes| then nodes[j] else null
  }

  function Above(nodes: seq<Node>, i: nat): Node?
    requires i < |nodes|
  {
    if i == 0 then null else nodes[Up(i)]
  }

  /** The links of place i in the complete binary tree. */
  function Proper(nodes: seq<Node>, i: nat): Links
    requires i < |nodes|
  {
    Links(At(nodes, 2 * i + 1), At(nodes, 2 * i + 2), Above(nodes, i))
  }

  ghost predicate LinkedAt(nodes: seq<Node>, i: nat)
    requires i < |nodes|
    reads nodes
  {
    LinksOf(nodes[i]) == Proper(nodes, i)
  }

  ghost predicate LinkedAll(nodes: seq<Node>)
    reads nodes
  {
    forall i :: 0 <= i < |nodes| ==> LinkedAt(nodes, i)
  }

  ghost predicate Distinct(nodes: seq<Node>) {
    nodes == [] || (nodes[|nodes| - 1] !in nodes[..|nodes| - 1] && Distinct(nodes[..|nodes| - 1]))
  }

  lemma {:induction false} DistinctPairs(nodes: seq<Node>)
    ensures Distinct(nodes) <==> forall i, j :: 0 <= i < j < |nodes| ==> nodes[i] != nodes[j]
  {
    if nodes != [] {
      var init, last := nodes[..|nodes| - 1], nodes[|nodes| - 1];
      DistinctPairs(init);
      assert forall i :: 0 <= i < |init| ==> nodes[i] == init[i] && init[i] in init;
    }
  }

  ghost predicate RankedAs(nodes: seq<Node>, keys: seq<Key>)
    reads nodes
  {
    |keys| == |nodes| && forall i :: 0 <= i < |nodes| ==> nodes[i].Rank() == keys[i]
  }

  ghost function Those(n: Node?): set<Node> {
    if n == null then {} else {n}
  }

  /** Where a node hangs: heap->min, or a child pointer of a node. */
  datatype Slot = MinSlot | LeftSlot(node: Node) | RightSlot(node: Node)

  ghost predicate IsSlot(nodes: seq<Node>, slot: Slot, i: nat) {
    match slot
    case MinSlot => i == 0
    case LeftSlot(n) => i > 0 && Up(i) < |nodes| && n == nodes[Up(i)] && i == 2 * Up(i) + 1
    case RightSlot(n) => i > 0 && Up(i) < |nodes| && n == nodes[Up(i)] && i == 2 * Up(i) + 2
  }

  ghost function Holder(slot: Slot): set<Node> {
    if slot.MinSlot? then {} else {slot.node}
  }

  class Heap {
    var min: Node?
    var nelts: nat
    ghost var nodes: seq<Node>      // by place, the root first
    ghost var keys: seq<Key>
    ghost var repr: set<Node>

    /** The nodes form the complete binary tree, with links both ways. */
    ghost predicate Linked()
      reads this, nodes, repr
    {
      && nelts == |nodes|
      && (forall n :: n in nodes ==> n in repr) && (forall n :: n in repr ==> n in nodes)
      && min == At(nodes, 0)
      && Distinct(nodes)
      && LinkedAll(nodes)
      && RankedAs(nodes, keys)
    }

    ghost predicate Valid()
      reads this, nodes, repr
    {
      Linked() && HeapOrdered(keys)
    }

    constructor ()
      ensures Valid() && repr == {}
    {
      min, nelts, nodes, keys, repr := null, 0, [], [], {};
    }

    /** heap_min: a node no other precedes. */
    method Min() returns (r: Node?)
      requires Valid()
      ensures r == null <==> repr == {}
      ensures r != null ==> r in repr && forall n :: n in repr ==> !KeyLess(n.Rank(), r.Rank())
    {
      r := min;
      assert nodes != [] ==> nodes[0] in nodes;
      forall n | n in nodes ensures !KeyLess(n.Rank(), nodes[0].Rank()) {
        var i :| 0 <= i < |nodes| && nodes[i] == n;
        RootIsLeast(keys, i);
      }
    }

    /** Nothing that happens to other nodes disturbs the heap. */
    twostate lemma StaysValid()
      requires old(Valid()) && unchanged(this) && forall n :: n in old(repr) ==> unchanged(n)
      ensures Valid()
    {
      assert forall i :: 0 <= i < |nodes| ==> nodes[i] in nodes;
      forall i | 0 <= i < |nodes| ensures LinkedAt(nodes, i) { assert old(LinkedAt(nodes, i)); }
    }

    ghost predicate Fits(after: seq<Node>, ranks: seq<Key>, members: set<Node>)
      reads this, after
    {
      && nelts == |after| && min == At(after, 0)
      && Distinct(after) && LinkedAll(after) && RankedAs(after, ranks)
      && (forall n :: n in after ==> n in members) && (forall n :: n in members ==> n in after)
    }

    /** Names the nodes anew; no pointer changes. */
    ghost method Rename(after: seq<Node>, ranks: seq<Key>, members: set<Node>)
      requires Fits(after, ranks, members)
      modifies `nodes, `keys, `repr
      ensures Linked() && nodes == after && keys == ranks && repr == members
    {
      nodes, keys, repr := after, ranks, members;
      forall i | 0 <= i < |after| ensures LinkedAt(after, i) { assert old(LinkedAt(after, i)); }
    }

    // ---- finding a place ----

    method Fetch(slot: Slot) returns (n: Node?)
      ensures n == match slot case MinSlot => min case LeftSlot(h) => h.left case RightSlot(h) => h.right
    {
      n := match slot case MinSlot => min case LeftSlot(h) => h.left case RightSlot(h) => h.right;
    }

    /** Follows the path to place `target`, counting from 1; `above` is what the slot
        passed last held. */
    method Descend(path0: nat, k0: nat, ghost target: nat) returns (slot: Slot, above: Node?)
      requires Linked() && 0 < target <= nelts + 1 && Leads(path0, k0, 1, target)
      ensures IsSlot(nodes, slot, target - 1)
      ensures above == if target == 1 then min else nodes[Up(target - 1)]
    {
      var path, k := path0, k0;
      slot := MinSlot;
      above := min;
      ghost var pos: nat := 1;
      while k > 0
        invariant 0 < pos <= target && Leads(path, k, pos, target) && IsSlot(nodes, slot, pos - 1)
        invariant above == if pos == 1 then min else nodes[Up(pos - 1)]
      {
        LeadsDown(path, k, pos, target);
        assert pos > 1 ==> LinkedAt(nodes, Up(pos - 1));
        above := Fetch(slot);
        slot := if path % 2 == 1 then RightSlot(above) else LeftSlot(above);
        path, k, pos := path / 2, k - 1, 2 * pos + path % 2;
      }
    }
    /** `*slot = n` */
    method Store(slot: Slot, n: Node?)
      modifies `min, Holder(slot)`left, Holder(slot)`right
      ensures min == if slot.MinSlot? then n else old(min)
      ensures slot.LeftSlot? ==> LinksOf(slot.node) == old(LinksOf(slot.node)).(left := n)
      ensures slot.RightSlot? ==> LinksOf(slot.node) == old(LinksOf(slot.node)).(right := n)
    {
      match slot {
        case MinSlot => min := n;
        case LeftSlot(h) => h.left := n;
        case RightSlot(h) => h.right := n;
      }
    }

    /** Hangs a new node at the left-most free place of the bottom row. */
    method Append(node: Node)
      requires Linked() && node !in repr
      modifies `min, `nelts, `nodes, `keys, `repr, repr`left, repr`right, node`left, node`right, node`parent
      ensures Linked() && nodes == old(nodes) + [node] && keys == old(keys) + [node.Rank()] && repr == old(repr) + {node}
    {
      AppendLinks(node);
      nelts := nelts + 1;
      DistinctAppended(nodes, node);
      Rename(nodes + [node], keys + [node.Rank()], repr + {node});
    }

    method AppendLinks(node: Node)
      requires Linked() && node !in repr
      modifies `min, repr`left, repr`right, node`left, node`right, node`parent
      ensures LinkedAll(nodes + [node]) && min == At(nodes + [node], 0)
    {
      node.left, node.right, node.parent := null, null, null;
      var path, k := PathTo(1 + nelts);
      var slot, above := Descend(path, k, 1 + nelts);
      node.parent := above;
      Store(slot, node);
      ghost var after := nodes + [node];
      forall i | 0 <= i < |after| ensures LinkedAt(after, i) {
        AppendedProper(nodes, node, i);
        if i < |nodes| {
          NearApart(nodes, i, Up(|nodes|));
          assert nodes[i] in nodes && old(LinkedAt(nodes, i));
          assert i != Up(|nodes|) ==> LinksOf(nodes[i]) == old(LinksOf(nodes[i]));
        }
      }
    }

    /** Takes the last node off. */
    method DetachLast() returns (last: Node)
      requires Linked() && nelts > 0
      modifies `min, `nelts, `nodes, `keys, `repr, repr`left, repr`right
      ensures Linked() && last == old(nodes)[|old(nodes)| - 1] && nodes == old(nodes)[..|old(nodes)| - 1]
      ensures keys == old(keys)[..|old(keys)| - 1] && repr == old(repr) - {last}
      ensures last.Rank() == old(keys)[|old(keys)| - 1]
    {
      last := DetachLinks();
      nelts := nelts - 1;
      DistinctDetached(nodes);
      Rename(nodes[..|nodes| - 1], keys[..|keys| - 1], repr - {last});
    }

    method DetachLinks() returns (last: Node)
      requires Linked() && nelts > 0
      modifies `min, repr`left, repr`right
      ensures last == nodes[|nodes| - 1] && LinkedAll(nodes[..|nodes| - 1]) && min == At(nodes[..|nodes| - 1], 0)
    {
      last := ClearLast();
      ghost var after := nodes[..|nodes| - 1];
      forall i | 0 <= i < |after| ensures LinkedAt(after, i) {
        DetachedProper(nodes, i);
      }
    }

    /** Clears the link to the last node. */
    method ClearLast() returns (last: Node)
      requires Linked() && nelts > 0
      modifies `min, repr`left, repr`right
      ensures last == nodes[|nodes| - 1] && min == if nelts == 1 then null else old(min)
      ensures forall i :: 0 <= i < |nodes| - 1 ==> LinksOf(nodes[i]) == WithoutLast(nodes, i)
    {
      var slot;
      slot, last := LastSlot();
      Store(slot, null);
      forall i | 0 <= i < |nodes| - 1 ensures LinksOf(nodes[i]) == WithoutLast(nodes, i) {
        SlotClears(nodes, slot, i);
        assert old(LinkedAt(nodes, i));
        assert nodes[i] !in Holder(slot) ==> LinksOf(nodes[i]) == old(LinksOf(nodes[i]));
      }
    }

    /** The link to the last node, and the node. */
    method LastSlot() returns (slot: Slot, last: Node)
      requires Linked() && nelts > 0
      ensures IsSlot(nodes, slot, nelts - 1) && last == nodes[nelts - 1]
      ensures forall n :: n in Holder(slot) ==> n in repr
    {
      var path, k := PathTo(nelts);
      var above;
      slot, above := Descend(path, k, nelts);
      assert nelts > 1 ==> LinkedAt(nodes, Up(nelts - 1));
      last := Fetch(slot);
    }

    /** heap_node_swap on the two nodes and their neighbours: `up` above the parent,
        `other` beside the child, `l` and `r` below it. */
    method Relink(parent: Node, child: Node, ghost up: Node?, ghost other: Node?, ghost l: Node?, ghost r: Node?)
      requires Apart(parent, child, up, other, l, r)
      requires parent.parent == up && LinksOf(child) == Links(l, r, parent)
      requires (parent.left == child && parent.right == other) || (parent.right == child && parent.left == other)
      modifies this`min, parent`left, parent`right, parent`parent, child`left, child`right, child`parent
      modifies Those(up)`left, Those(up)`right, Those(other)`parent, Those(l)`parent, Those(r)`parent
      ensures LinksOf(parent) == Links(l, r, child)
      ensures LinksOf(child) == if old(parent.left) == child then Links(parent, other, up) else Links(other, parent, up)
      ensures other != null ==> LinksOf(other) == old(LinksOf(other)).(parent := child)
      ensures l != null ==> LinksOf(l) == old(LinksOf(l)).(parent := parent)
      ensures r != null ==> LinksOf(r) == old(LinksOf(r)).(parent := parent)
      ensures up != null ==>
        LinksOf(up) == if old(up.left) == parent then old(LinksOf(up)).(left := child) else old(LinksOf(up)).(right := child)
      ensures min == if up == null then child else old(min)
    {
      var sibling := Exchange(parent, child);
      if sibling != null {
        sibling.parent := child;
      }
      Adopt(parent);
      ReplaceBelow(child.parent, parent, child);
    }

    /** The two nodes trade links, and the child takes the parent below itself. */
    method Exchange(parent: Node, child: Node) returns (sibling: Node?)
      requires parent != child && (parent.left == child || parent.right == child)
      modifies parent`left, parent`right, parent`parent, child`left, child`right, child`parent
      ensures LinksOf(parent) == old(LinksOf(child)).(parent := child)
      ensures sibling == if old(parent.left) == child then old(parent.right) else old(parent.left)
      ensures LinksOf(child) == if old(parent.left) == child then Links(parent, sibling, old(parent.parent))
                                else Links(sibling, parent, old(parent.parent))
    {
      parent.left, child.left := child.left, parent.left;
      parent.right, child.right := child.right, parent.right;
      parent.parent, child.parent := child.parent, parent.parent;
      parent.parent := child;
      if child.left == child {
        child.left := parent;
        sibling := child.right;
      } else {
        child.right := parent;
        sibling := child.left;
      }
    }

    method Adopt(node: Node)
      modifies Those(node.left)`parent, Those(node.right)`parent
      ensures (node.left != null ==> node.left.parent == node) && (node.right != null ==> node.right.parent == node)
    {
      if node.left != null {
        node.left.parent := node;
      }
      if node.right != null {
        node.right.parent := node;
      }
    }

    /** `above` (or the heap, for null) gets `node` where it had `was`. */
    method ReplaceBelow(above: Node?, was: Node, node: Node)
      modifies this`min, Those(above)`left, Those(above)`right
      ensures min == if above == null then node else old(min)
      ensures above != null && old(above.left) == was ==> above.left == node && above.right == old(above.right)
      ensures above != null && old(above.left) != was ==> above.right == node && above.left == old(above.left)
    {
      if above == null {
        min := node;
      } else if above.left == was {
        above.left := node;
      } else {
        above.right := node;
      }
    }

    /** The same by places: the child's is c. */
    method RelinkAt(parent: Node, child: Node, ghost c: nat)
      requires Distinct(nodes) && LinkedAll(nodes) && forall n :: n in nodes ==> n in repr
      requires 0 < c < |nodes| && nodes[c] == child && nodes[Up(c)] == parent
      modifies `min, repr`left, repr`right, repr`parent
      ensures forall i :: 0 <= i < |nodes| ==> MovedAt(nodes, c, i)
      ensures min == if c <= 2 then child else old(min)
    {
      ghost var p := Up(c);
      assert LinkedAt(nodes, p) && LinkedAt(nodes, c) && (p > 0 ==> LinkedAt(nodes, Up(p)));
      NeighboursApart(nodes, c);
      Relink(parent, child, Above(nodes, p), At(nodes, Beside(c)), At(nodes, 2 * c + 1), At(nodes, 2 * c + 2));
      forall i | 0 <= i < |nodes| ensures MovedAt(nodes, c, i) {
        assert old(LinkedAt(nodes, i));
        OthersApart(nodes, c, i);
        if i == p || i == c || i == Beside(c) || i == 2 * c + 1 || i == 2 * c + 2 || p == 2 * i + 1 || p == 2 * i + 2 {
        } else {
          assert LinksOf(nodes[i]) == old(LinksOf(nodes[i]));
        }
      }
    }

    lemma SwapFits(c: nat)
      requires nelts == |nodes| && Distinct(nodes) && RankedAs(nodes, keys) && 0 < c < |nodes|
      requires (forall n :: n in nodes ==> n in repr) && (forall n :: n in repr ==> n in nodes)
      requires min == if c <= 2 then nodes[c] else nodes[0]
      requires forall i :: 0 <= i < |nodes| ==> MovedAt(nodes, c, i)
      ensures Fits(Swapped(nodes, Up(c), c), Swapped(keys, Up(c), c), repr)
    {
      MovedIsLinked(nodes, c);
      SwappedDistinct(nodes, c);
      SwappedRanks(nodes, keys, Up(c), c);
      SwappedAt(nodes, Up(c), c, 0);
    }

    method Swap(parent: Node, child: Node, ghost c: nat)
      requires Linked() && 0 < c < |nodes| && nodes[c] == child && nodes[Up(c)] == parent
      modifies `min, `nodes, `keys, `repr, repr`left, repr`right, repr`parent
      ensures Linked() && nodes == Swapped(old(nodes), Up(c), c) && keys == Swapped(old(keys), Up(c), c)
      ensures repr == old(repr)
    {
      RelinkAt(parent, child, c);
      SwapFits(c);
      Rename(Swapped(nodes, Up(c), c), Swapped(keys, Up(c), c), repr);
    }

    /** Puts `child`, not in the tree, in the place of `node`. */
    method Substitute(node: Node, child: Node, ghost r: nat)
      requires Linked() && r < |nodes| && nodes[r] == node && child !in repr
      modifies `min, `nodes, `keys, `repr, repr`left, repr`right, repr`parent, child`left, child`right, child`parent
      ensures Linked() && nodes == old(nodes)[r := child] && keys == old(keys)[r := child.Rank()]
      ensures repr == old(repr) - {node} + {child}
    {
      SubstituteLinks(node, child, r);
      DistinctReplaced(nodes, r, child);
      Rename(nodes[r := child], keys[r := child.Rank()], repr - {node} + {child});
    }

    method SubstituteLinks(node: Node, child: Node, ghost r: nat)
      requires Distinct(nodes) && LinkedAll(nodes) && r < |nodes| && nodes[r] == node && child !in nodes
      requires forall n :: n in nodes ==> n in repr
      modifies `min, repr`left, repr`right, repr`parent, child`left, child`right, child`parent
      ensures LinkedAll(nodes[r := child]) && min == if r == 0 then child else old(min)
    {
      assert LinkedAt(nodes, r) && (r > 0 ==> LinkedAt(nodes, Up(r)));
      NearApart(nodes, r, r);
      child.left, child.right, child.parent := node.left, node.right, node.parent;
      Adopt(child);
      ReplaceBelow(node.parent, node, child);
      ghost var after := nodes[r := child];
      forall i | 0 <= i < |after| ensures LinkedAt(after, i) {
        ReplacedProper(nodes, r, child, i);
        NearApart(nodes, r, i);
        assert nodes[i] in nodes && (r > 0 ==> nodes[Up(r)] in nodes);
        assert old(LinkedAt(nodes, i));
      }
    }

    /** The walk up: while the node precedes its parent, it takes its parent's place. */
    method WalkUp(node: Node, ghost q0: nat)
      requires Linked() && q0 < |nodes| && nodes[q0] == node && Loose(keys, q0, false)
      modifies `min, `nodes, `keys, `repr, repr`left, repr`right, repr`parent
      ensures repr == old(repr)
      ensures Valid()
    {
      ghost var q: nat := q0;
      assert LinkedAt(nodes, q);
      while node.parent != null && KeyLess(node.Rank(), node.parent.Rank())
        invariant repr == old(repr)
        invariant Linked() && q < |nodes| && nodes[q] == node && Loose(keys, q, false) && LinkedAt(nodes, q)
        decreases q
      {
        SiftUp(keys, q);
        Swap(node.parent, node, q);
        q := Up(q);
      }
      LooseSettles(keys, q);
    }

    /** The child with the smallest key, if one precedes the node; else the node. */
    method SmallestBelow(node: Node, ghost q: nat) returns (smallest: Node, ghost c: nat)
      requires Linked() && q < |nodes| && nodes[q] == node
      ensures c < |nodes| && nodes[c] == smallest && ChildrenAbove(keys, q, keys[c])
      ensures if smallest == node then c == q else c > q && Up(c) == q && KeyLess(keys[c], keys[q])
    {
      assert LinkedAt(nodes, q);
      assert node.Rank() == keys[q];
      smallest, c := node, q;
      if node.left != null && KeyLess(node.left.Rank(), smallest.Rank()) {
        smallest, c := node.left, 2 * q + 1;
      }
      if node.right != null && KeyLess(node.right.Rank(), smallest.Rank()) {
        smallest, c := node.right, 2 * q + 2;
      }
    }

    /** The walk down: while a child precedes the node, the smaller child takes its place. */
    method WalkDown(node: Node, ghost q0: nat) returns (ghost q: nat)
      requires Linked() && q0 < |nodes| && nodes[q0] == node && Loose(keys, q0, true)
      modifies `min, `nodes, `keys, `repr, repr`left, repr`right, repr`parent
      ensures repr == old(repr)
      ensures Linked() && q < |nodes| && nodes[q] == node && Loose(keys, q, false)
    {
      q := q0;
      while true
        invariant repr == old(repr)
        invariant Linked() && q < |nodes| && nodes[q] == node && Loose(keys, q, true)
        decreases |nodes| - q
      {
        var smallest;
        ghost var c;
        smallest, c := SmallestBelow(node, q);
        if smallest == node {
          StopsDown(keys, q);
          break;
        }
        SiftDown(keys, q, c);
        Swap(node, smallest, c);
        q := c;
      }
    }

    /** heap_insert */
    method Insert(node: Node)
      requires Valid() && node !in repr
      modifies `min, `nelts, `nodes, `keys, `repr, repr`left, repr`right, repr`parent
      modifies node`left, node`right, node`parent
      ensures Valid() && repr == old(repr) + {node}
    {
      AppendLoose(keys, node.Rank());
      Append(node);
      WalkUp(node, |nodes| - 1);
    }

    /** heap_remove */
    method Remove(node: Node)
      requires Valid() && (nelts > 0 ==> node in repr)
      modifies `min, `nelts, `nodes, `keys, `repr, repr`left, repr`right, repr`parent
      ensures Valid() && repr == old(repr) - {node}
    {
      if nelts == 0 {
        return;
      }
      ghost var r :| 0 <= r < |nodes| && nodes[r] == node;
      ghost var ks := keys;
      var child := DetachLast();
      if child == node {
        assert child != min;    // clearing the slot has taken care of the root
        PrefixOrdered(ks);
      } else {
        Replace(ks, r);
        assert nodes[r] == node;
        Refill(node, child, r);
      }
    }

    /** Puts the detached node where the removed one was and lets it find its place. */
    method Refill(node: Node, child: Node, ghost r: nat)
      requires Linked() && r < |nodes| && nodes[r] == node && child !in repr
      requires Loose(keys[r := child.Rank()], r, true)
      modifies `min, `nodes, `keys, `repr, repr`left, repr`right, repr`parent, child`left, child`right, child`parent
      ensures Valid() && repr == old(repr) - {node} + {child}
    {
      Substitute(node, child, r);
      ghost var q := WalkDown(child, r);
      WalkUp(child, q);
    }
  }

  lemma PrefixOrdered(ks: seq<Key>)
    requires HeapOrdered(ks) && ks != []
    ensures HeapOrdered(ks[..|ks| - 1])
  {
    var init := ks[..|ks| - 1];
    forall i | 0 < i < |init| ensures InOrder(init, i) { assert InOrder(ks, i); }
  }

  lemma AppendLoose(ks: seq<Key>, k: Key)
    requires HeapOrdered(ks)
    ensures Loose(ks + [k], |ks|, false)
  {
    var ks' := ks + [k];
    forall i | 0 < i < |ks| ensures InOrder(ks', i) { assert InOrder(ks, i); }
  }

  ghost predicate Apart(parent: Node, child: Node, up: Node?, other: Node?, l: Node?, r: Node?) {
    && parent != child
    && up != parent && up != child && other != parent && other != child
    && l != parent && l != child && r != parent && r != child
    && (up != null ==> up != other && up != l && up != r)
    && (other != null ==> other != l && other != r)
    && (l != null ==> l != r)
  }

  function Beside(c: nat): nat
    requires c > 0
  {
    4 * Up(c) + 3 - c
  }

  lemma NeighboursApart(nodes: seq<Node>, c: nat)
    requires Distinct(nodes) && 0 < c < |nodes|
    ensures Apart(nodes[Up(c)], nodes[c], Above(nodes, Up(c)), At(nodes, Beside(c)), At(nodes, 2 * c + 1), At(nodes, 2 * c + 2))
  {
    DistinctPairs(nodes);
  }

  /** Which place a node near place r is at. */
  lemma NearApart(nodes: seq<Node>, r: nat, i: nat)
    requires Distinct(nodes) && r < |nodes| && i < |nodes|
    ensures nodes[i] == nodes[r] <==> i == r
    ensures nodes[i] == Above(nodes, r) <==> r == 2 * i + 1 || r == 2 * i + 2
    ensures At(nodes, 2 * i + 1) == nodes[r] <==> r == 2 * i + 1
    ensures nodes[i] == At(nodes, 2 * r + 1) <==> i == 2 * r + 1
    ensures nodes[i] == At(nodes, 2 * r + 2) <==> i == 2 * r + 2
  {
    DistinctPairs(nodes);
  }

  /** A node at another place is none of the six. */
  lemma OthersApart(nodes: seq<Node>, c: nat, i: nat)
    requires Distinct(nodes) && 0 < c < |nodes| && i < |nodes|
    ensures nodes[i] == nodes[Up(c)] <==> i == Up(c)
    ensures nodes[i] == nodes[c] <==> i == c
    ensures nodes[i] == Above(nodes, Up(c)) <==> Up(c) > 0 && i == Up(Up(c))
    ensures nodes[i] == At(nodes, Beside(c)) <==> i == Beside(c)
    ensures nodes[i] == At(nodes, 2 * c + 1) <==> i == 2 * c + 1
    ensures nodes[i] == At(nodes, 2 * c + 2) <==> i == 2 * c + 2
    ensures At(nodes, 2 * i + 1) == nodes[Up(c)] <==> Up(c) == 2 * i + 1
  {
    DistinctPairs(nodes);
  }

  /** The links of the node once at place i, after the nodes at c and above it swap. */
  ghost function Moved(nodes: seq<Node>, c: nat, i: nat): Links
    requires 0 < c < |nodes| && i < |nodes|
  {
    var p, was := Up(c), Proper(nodes, i);
    if i == p then Links(At(nodes, 2 * c + 1), At(nodes, 2 * c + 2), nodes[c])
    else if i == c then
      if c == 2 * p + 1 then Links(nodes[p], At(nodes, 2 * p + 2), Above(nodes, p)) else Links(At(nodes, 2 * p + 1), nodes[p], Above(nodes, p))
    else if i == Beside(c) then was.(parent := nodes[c])
    else if i == 2 * c + 1 || i == 2 * c + 2 then was.(parent := nodes[p])
    else if p == 2 * i + 1 then was.(left := nodes[c])
    else if p == 2 * i + 2 then was.(right := nodes[c])
    else was
  }

  ghost predicate MovedAt(nodes: seq<Node>, c: nat, i: nat)
    requires 0 < c < |nodes| && i < |nodes|
    reads nodes
  {
    LinksOf(nodes[i]) == Moved(nodes, c, i)
  }

  lemma SwappedAt(nodes: seq<Node>, p: nat, c: nat, j: nat)
    requires p < c < |nodes|
    ensures At(Swapped(nodes, p, c), j) == if j == p then nodes[c] else if j == c then nodes[p] else At(nodes, j)
  {
  }

  lemma SwappedLinks(nodes: seq<Node>, c: nat, k: nat)
    requires 0 < c < |nodes| && k < |nodes|
    ensures Proper(Swapped(nodes, Up(c), c), k) == Moved(nodes, c, if k == Up(c) then c else if k == c then Up(c) else k)
  {
    var p := Up(c);
    SwappedAt(nodes, p, c, 2 * k + 1);
    SwappedAt(nodes, p, c, 2 * k + 2);
    if k > 0 { SwappedAt(nodes, p, c, Up(k)); }
  }

  lemma MovedIsLinked(nodes: seq<Node>, c: nat)
    requires 0 < c < |nodes| && forall i :: 0 <= i < |nodes| ==> MovedAt(nodes, c, i)
    ensures var after := Swapped(nodes, Up(c), c); LinkedAll(after)
  {
    var after := Swapped(nodes, Up(c), c);
    forall k | 0 <= k < |after| ensures LinkedAt(after, k) {
      var i := if k == Up(c) then c else if k == c then Up(c) else k;
      assert after[k] == nodes[i] && MovedAt(nodes, c, i);
      SwappedLinks(nodes, c, k);
    }
  }

  lemma AppendedProper(nodes: seq<Node>, node: Node, i: nat)
    requires i <= |nodes|
    ensures var n, after := |nodes|, nodes + [node];
            Proper(after, i) == if i == n then Links(null, null, Above(after, n))
                                else if n == 2 * i + 1 then Proper(nodes, i).(left := node)
                                else if n == 2 * i + 2 then Proper(nodes, i).(right := node)
                                else Proper(nodes, i)
  {
  }

  /** The links of place i without the one to the last place. */
  function WithoutLast(nodes: seq<Node>, i: nat): Links
    requires i < |nodes|
  {
    if |nodes| - 1 == 2 * i + 1 then Proper(nodes, i).(left := null)
    else if |nodes| - 1 == 2 * i + 2 then Proper(nodes, i).(right := null)
    else Proper(nodes, i)
  }

  /** Only the holder of the link to the last place has it. */
  lemma SlotClears(nodes: seq<Node>, slot: Slot, i: nat)
    requires Distinct(nodes) && i + 1 < |nodes| && IsSlot(nodes, slot, |nodes| - 1)
    ensures WithoutLast(nodes, i)
         == if slot == LeftSlot(nodes[i]) then Proper(nodes, i).(left := null)
            else if slot == RightSlot(nodes[i]) then Proper(nodes, i).(right := null)
            else Proper(nodes, i)
  {
    NearApart(nodes, |nodes| - 1, i);
  }

  lemma DetachedProper(nodes: seq<Node>, i: nat)
    requires i + 1 < |nodes|
    ensures Proper(nodes[..|nodes| - 1], i) == WithoutLast(nodes, i)
  {
  }

  lemma ReplacedProper(nodes: seq<Node>, r: nat, child: Node, i: nat)
    requires r < |nodes| && i < |nodes|
    ensures Proper(nodes[r := child], i) == if i == 2 * r + 1 || i == 2 * r + 2 then Proper(nodes, i).(parent := child)
                                else if r == 2 * i + 1 then Proper(nodes, i).(left := child)
                                else if r == 2 * i + 2 then Proper(nodes, i).(right := child)
                                else Proper(nodes, i)
  {
  }

  lemma DistinctAppended(nodes: seq<Node>, node: Node)
    requires Distinct(nodes) && node !in nodes
    ensures Distinct(nodes + [node])
  {
    assert (nodes + [node])[..|nodes|] == nodes;
  }

  lemma DistinctDetached(nodes: seq<Node>)
    requires Distinct(nodes) && nodes != []
    ensures var init := nodes[..|nodes| - 1];
            Distinct(init) && forall n :: n in init <==> n in nodes && n != nodes[|nodes| - 1]
  {
    assert nodes == nodes[..|nodes| - 1] + [nodes[|nodes| - 1]];
  }

  lemma SwappedRanks(nodes: seq<Node>, keys: seq<Key>, p: nat, c: nat)
    requires RankedAs(nodes, keys) && p < |nodes| && c < |nodes|
    ensures RankedAs(Swapped(nodes, p, c), Swapped(keys, p, c))
  {
  }

  lemma SwappedDistinct(nodes: seq<Node>, c: nat)
    requires 0 < c < |nodes| && Distinct(nodes)
    ensures Distinct(Swapped(nodes, Up(c), c))
    ensures forall n :: n in Swapped(nodes, Up(c), c) <==> n in nodes
  {
    var p, after := Up(c), Swapped(nodes, Up(c), c);
    assert after[p] == nodes[c] && after[c] == nodes[p];
    DistinctPairs(nodes);
    DistinctPairs(after);
    forall n | n in nodes ensures n in after {
      var i :| 0 <= i < |nodes| && nodes[i] == n;
      assert i != p && i != c ==> after[i] == n;
    }
  }

  lemma DistinctReplaced(nodes: seq<Node>, r: nat, n: Node)
    requires Distinct(nodes) && r < |nodes| && n !in nodes
    ensures var after := nodes[r := n];
            Distinct(after) && forall x :: x in after <==> (x in nodes && x != nodes[r]) || x == n
  {
    var after := nodes[r := n];
    DistinctPairs(nodes);
    DistinctPairs(after);
    assert forall i :: 0 <= i < |nodes| ==> nodes[i] in nodes;
    forall x ensures x in after <==> (x in nodes && x != nodes[r]) || x == n {
      if x in nodes && x != nodes[r] {
        var i :| 0 <= i < |nodes| && nodes[i] == x;
        assert after[i] == x;
      }
      assert after[r] == n;
    }
  }
}
