/** The pointer min-heap: a complete binary tree with parent links. `slots` lists the nodes level by level. */
module Heap {
  import opened Arithmetic
  import opened SeqFacts

  /** `key` stands for whatever the comparison reads in the structure around the node. */
  class Node<K> {
    var left: Node?<K>
    var right: Node?<K>
    var parent: Node?<K>
    var key: K

    constructor (key: K)
      ensures this.key == key
    {
      this.key := key;
      left, right, parent := null, null, null;
    }
  }

  type Order<!K> = (K, K) -> bool

  /** What a comparison has to be: asymmetric, with "not less" transitive. */
  ghost predicate StrictWeakOrder<K(!new)>(lt: Order<K>) {
    && (forall a, b :: lt(a, b) ==> !lt(b, a))
    && (forall a, b, c :: NotLessAt(lt, a, b, c))
  }

  predicate NotLessAt<K>(lt: Order<K>, a: K, b: K, c: K) { !lt(a, b) && !lt(b, c) ==> !lt(a, c) }

  // ---- Complete binary trees in level order ----

  /** The node in slot i, counting from 0, or null past the end. */
  ghost function Slot<K>(s: seq<Node<K>>, i: nat): Node?<K> { if i < |s| then s[i] else null }

  function Up(i: nat): nat { if i == 0 then 0 else (i - 1) / 2 }

  /** The links of slot i are those of a complete binary tree in level order. */
  ghost predicate LinkAt<K>(s: seq<Node<K>>, i: nat)
    requires i < |s|
    reads s
  {
    && s[i].left == Slot(s, 2 * i + 1)
    && s[i].right == Slot(s, 2 * i + 2)
    && s[i].parent == if i == 0 then null else s[Up(i)]
  }

  ghost predicate Linked<K>(s: seq<Node<K>>)
    reads s
  {
    NoDup(s) && forall i :: 0 <= i < |s| ==> LinkAt(s, i)
  }

  ghost function Opt<K>(x: Node?<K>): set<Node<K>> { if x == null then {} else {x} }

  ghost function Sibling<K>(p: Node<K>, c: Node<K>): Node?<K>
    reads p
  {
    if p.left == c then p.right else p.left
  }

  /** The node that takes the place of x when p and c change places. */
  ghost function Swapped<K>(x: Node?<K>, p: Node<K>, c: Node<K>): Node?<K> {
    if x == p then c else if x == c then p else x
  }

  /** The node that takes the place of x when c replaces p. */
  ghost function Renamed<K>(x: Node?<K>, p: Node<K>, c: Node<K>): Node?<K> { if x == p then c else x }

  ghost function SwapSlots<K>(s: seq<Node<K>>, p: nat, c: nat): (t: seq<Node<K>>)
    requires p < |s| && c < |s|
    ensures |t| == |s| && t[p] == s[c] && t[c] == s[p]
    ensures forall i :: 0 <= i < |s| && i != p && i != c ==> t[i] == s[i]
  {
    s[p := s[c]][c := s[p]]
  }

  ghost predicate SameNodes<K>(s: seq<Node<K>>, nodes: set<Node<K>>) {
    (forall x :: x in s ==> x in nodes) && (forall x :: x in nodes ==> x in s)
  }

  lemma SnocNodes<K>(s: seq<Node<K>>, x: Node<K>, nodes: set<Node<K>>)
    requires NoDup(s + [x])
    ensures SameNodes(s, nodes) ==> SameNodes(s + [x], nodes + {x})
    ensures SameNodes(s + [x], nodes) ==> SameNodes(s, nodes - {x})
  {
    assert x !in s by {
      forall i | 0 <= i < |s| ensures s[i] != x { assert (s + [x])[i] != (s + [x])[|s|]; }
    }
    assert forall y :: y in s + [x] ==> y in s || y == x;
  }

  lemma ReplacedNodes<K>(s: seq<Node<K>>, i: nat, x: Node<K>, nodes: set<Node<K>>)
    requires i < |s| && NoDup(s) && SameNodes(s, nodes)
    ensures SameNodes(s[i := x], nodes - {s[i]} + {x})
  {
    var t: seq<Node<K>> := s[i := x];
    forall y | y in s && y != s[i] ensures y in t { var j :| 0 <= j < |s| && s[j] == y; assert t[j] == y; }
    assert t[i] == x;
    forall y | y in t && y != x ensures y in s && y != s[i] { var j :| 0 <= j < |t| && t[j] == y; assert s[j] == y; }
  }

  lemma ReplacedSlots<K>(s: seq<Node<K>>, i: nat, x: Node<K>)
    requires i < |s| && NoDup(s)
    ensures forall j: nat :: Slot(s[i := x], j) == Renamed(Slot(s, j), s[i], x)
  {
  }

  lemma SwappedSlots<K>(s: seq<Node<K>>, p: nat, c: nat)
    requires p < |s| && c < |s| && p != c && NoDup(s)
    ensures NoDup(SwapSlots(s, p, c))
    ensures forall i: nat :: Slot(SwapSlots(s, p, c), i) == Swapped(Slot(s, i), s[p], s[c])
  {
  }

  lemma SwapKeepsNodes<K>(s: seq<Node<K>>, p: nat, c: nat, nodes: set<Node<K>>)
    requires p < |s| && c < |s| && SameNodes(s, nodes)
    ensures SameNodes(SwapSlots(s, p, c), nodes)
  {
    var t := SwapSlots(s, p, c);
    forall x | x in s || x in t ensures x in s && x in t {
      if x in s { var i :| 0 <= i < |s| && s[i] == x; assert x == t[if i == p then c else if i == c then p else i]; }
      if x in t { var i :| 0 <= i < |t| && t[i] == x; assert x == s[if i == p then c else if i == c then p else i]; }
    }
  }

  /** A parent and a child with their surroundings; no two of the nodes involved are the same. */
  ghost predicate Neighbours<K>(p: Node<K>, c: Node<K>)
    reads p, Opt(p.parent), c
  {
    && c.parent == p && p != c && (p.left == c || p.right == c)
    && p.left != p.right && (c.left == null || c.left != c.right)
    && p !in Opt(p.left) + Opt(p.right) + Opt(c.left) + Opt(c.right) + Opt(p.parent)
    && c !in Opt(Sibling(p, c)) + Opt(c.left) + Opt(c.right) + Opt(p.parent)
    && Opt(p.left) + Opt(p.right) !! Opt(p.parent)
    && Opt(c.left) + Opt(c.right) !! Opt(p.parent)
    && Opt(c.left) + Opt(c.right) !! Opt(Sibling(p, c))
    && (p.parent != null ==> (p.parent.left == p || p.parent.right == p) && p.parent.left != p.parent.right)
  }

  lemma SwapReady<K>(s: seq<Node<K>>, p: nat, c: nat)
    requires Linked(s) && 0 < c < |s| && p == Up(c)
    ensures Neighbours(s[p], s[c])
    ensures s[p].parent == null <==> p == 0
    ensures Opt(s[p].left) + Opt(s[p].right) + Opt(s[c].left) + Opt(s[c].right) + Opt(s[p].parent) <= set x | x in s
  {
    assert LinkAt(s, p) && LinkAt(s, c);
    if p > 0 { assert LinkAt(s, Up(p)); }
  }

  // ---- Min-order on the slots ----

  /** Slot i is not smaller than its parent. */
  ghost predicate OrderAt<K>(s: seq<Node<K>>, lt: Order<K>, i: nat)
    requires i < |s|
    reads s`key
  {
    !lt(s[i].key, s[Up(i)].key)
  }

  /** Slot i is not smaller than its grandparent. */
  ghost predicate GrandOrderAt<K>(s: seq<Node<K>>, lt: Order<K>, i: nat)
    requires i < |s|
    reads s`key
  {
    !lt(s[i].key, s[Up(Up(i))].key)
  }

  ghost predicate Ordered<K>(s: seq<Node<K>>, lt: Order<K>)
    reads s`key
  {
    forall i :: 0 < i < |s| ==> OrderAt(s, lt, i)
  }

  /** Min-order but for slot c against its children and, unless `up`, against its parent. */
  ghost predicate OrderedBut<K>(s: seq<Node<K>>, lt: Order<K>, c: nat)
    reads s`key
  {
    && (forall i :: 0 < i < |s| && i != c && Up(i) != c ==> OrderAt(s, lt, i))
    && (c > 0 ==> forall i :: 0 < i < |s| && Up(i) == c ==> GrandOrderAt(s, lt, i))
  }

  ghost predicate ChildrenOrdered<K>(s: seq<Node<K>>, lt: Order<K>, c: nat)
    reads s`key
  {
    forall i :: 0 < i < |s| && Up(i) == c ==> OrderAt(s, lt, i)
  }

  /** One swap towards the root moves the hole up and leaves everything below in order. */
  lemma SiftUpStep<K(!new)>(s: seq<Node<K>>, lt: Order<K>, c: nat)
    requires StrictWeakOrder(lt) && 0 < c < |s|
    requires OrderedBut(s, lt, c) && ChildrenOrdered(s, lt, c)
    requires lt(s[c].key, s[Up(c)].key)
    ensures var t := SwapSlots(s, Up(c), c);
      OrderedBut(t, lt, Up(c)) && ChildrenOrdered(t, lt, Up(c))
  {
    var p := Up(c);
    var t := SwapSlots(s, p, c);
    forall i | 0 < i < |t| && Up(i) == p ensures OrderAt(t, lt, i) {
      if i != c {
        assert OrderAt(s, lt, i) && NotLessAt(lt, s[i].key, s[p].key, s[c].key);
      }
    }
    forall i | 0 < i < |t| && i != p && Up(i) != p ensures OrderAt(t, lt, i) {
      if Up(i) == c { assert GrandOrderAt(s, lt, i); } else { assert OrderAt(s, lt, i); }
    }
    if p > 0 {
      assert OrderAt(s, lt, p);
      forall i | 0 < i < |t| && Up(i) == p ensures GrandOrderAt(t, lt, i) {
        if i != c {
          assert OrderAt(s, lt, i) && NotLessAt(lt, s[i].key, s[p].key, s[Up(p)].key);
        }
      }
    }
  }

  /** One swap with the smallest child moves the hole down and leaves everything above in order. */
  lemma SiftDownStep<K(!new)>(s: seq<Node<K>>, lt: Order<K>, c: nat, d: nat)
    requires StrictWeakOrder(lt) && c < d < |s| && Up(d) == c
    requires OrderedBut(s, lt, c)
    requires lt(s[d].key, s[c].key)
    requires forall i :: 0 < i < |s| && Up(i) == c ==> !lt(s[i].key, s[d].key)
    ensures var t := SwapSlots(s, c, d);
      OrderedBut(t, lt, d) && OrderAt(t, lt, d) && (c > 0 ==> OrderAt(t, lt, c))
  {
    var t := SwapSlots(s, c, d);
    if c > 0 { assert GrandOrderAt(s, lt, d); }
    forall i | 0 < i < |t| && i != d && Up(i) != d ensures OrderAt(t, lt, i) {
      if i != c && Up(i) != c { assert OrderAt(s, lt, i); }
    }
    forall i | 0 < i < |t| && Up(i) == d ensures GrandOrderAt(t, lt, i) {
      assert OrderAt(s, lt, i);
    }
  }

  /** The root of an ordered heap is a least element. */
  lemma {:induction false} RootIsLeast<K(!new)>(s: seq<Node<K>>, lt: Order<K>, i: nat)
    requires StrictWeakOrder(lt) && Ordered(s, lt) && i < |s|
    ensures !lt(s[i].key, s[0].key)
    decreases i
  {
    if i > 0 {
      RootIsLeast(s, lt, Up(i));
      assert OrderAt(s, lt, i) && NotLessAt(lt, s[i].key, s[Up(i)].key, s[0].key);
    }
  }

  // ---- Paths from the root, read off the bits of a slot number ----

  /** The slot number, counting from 1, reached from slot `at` by k turns taken from the low bits of `path`. */
  function Walk(at: nat, path: nat, k: nat): (r: nat)
    ensures r >= at
    ensures k > 0 ==> r >= 2 * at
    decreases k
  {
    if k == 0 then at else Walk(2 * at + path % 2, path / 2, k - 1)
  }

  const UINT_RANGE := 0x1_0000_0000

  /** Dropping the low bit of the slot number onto the path does not change where the path leads. */
  lemma WalkBack(n: nat, path: nat, k: nat)
    ensures Walk(n / 2, 2 * path + n % 2, k + 1) == Walk(n, path, k)
  {
    assert (2 * path + n % 2) % 2 == n % 2 && (2 * path + n % 2) / 2 == path;
  }

  lemma {:induction false} HalfTwice(n: nat, times: nat)
    ensures Times(2 * times, n / 2) <= Times(times, n)
    ensures n >= 1 ==> times <= Times(times, n)
  {
    if times > 0 { HalfTwice(n, times - 1); }
  }

  /** The loop that turns a slot number into a path; nothing overflows an unsigned int. */
  method PathTo(target: nat) returns (path: nat, k: nat)
    requires 1 <= target < UINT_RANGE
    ensures Walk(1, path, k) == target
    ensures path < UINT_RANGE
  {
    path, k := 0, 0;
    var n := target;
    ghost var power := 1;
    while n >= 2
      invariant n >= 1 && Walk(n, path, k) == target
      invariant path < power && Times(power, n) <= target
    {
      HalfTwice(n, power);
      WalkBack(n, path, k);
      path := 2 * path + n % 2;
      n := n / 2;
      k := k + 1;
      power := 2 * power;
    }
    HalfTwice(n, power);
  }

  /** A place that holds a node pointer: the heap's root, or a child link. */
  datatype Loc<K> = AtMin | LeftOf(node: Node<K>) | RightOf(node: Node<K>)

  lemma ChildPlace(at: nat, bit: nat)
    requires 1 <= at && bit < 2
    ensures var j := 2 * at + bit - 1; j == 2 * (at - 1) + 1 + bit && Up(j) == at - 1 && (j % 2 == 1 <==> bit == 0)
  {
  }

  /** Place `l` is the one for slot j. */
  ghost predicate LocAt<K>(s: seq<Node<K>>, l: Loc<K>, j: nat) {
    if l.AtMin? then j == 0
    else j > 0 && Up(j) < |s| && s[Up(j)] == l.node && (l.LeftOf? <==> j % 2 == 1)
  }

  class Heap<K(!new)> {
    var min: Node?<K>
    var nelts: nat
    ghost var slots: seq<Node<K>>
    ghost var repr: set<Node<K>>

    ghost predicate Tree()
      reads this, slots
    {
      Linked(slots) && nelts == |slots| && min == Slot(slots, 0) && SameNodes(slots, repr)
    }

    /** The body of `heap_node_swap`: child moves closer to the root, parent moves away. */
    method Rewire(parent: Node<K>, child: Node<K>)
      requires Neighbours(parent, child)
      modifies this`min, parent`left, parent`right, parent`parent, child`left, child`right, child`parent
      modifies Opt(parent.left)`parent, Opt(parent.right)`parent, Opt(child.left)`parent, Opt(child.right)`parent
      modifies Opt(parent.parent)`left, Opt(parent.parent)`right
      ensures child.left == old(Swapped(parent.left, parent, child)) && child.right == old(Swapped(parent.right, parent, child))
      ensures child.parent == old(parent.parent) && parent.parent == child
      ensures parent.left == old(child.left) && parent.right == old(child.right)
      ensures forall x :: x in old(Opt(Sibling(parent, child))) ==> x.parent == child
      ensures forall x :: x in old(Opt(child.left) + Opt(child.right)) ==> x.parent == parent
      ensures forall x :: x in old(Opt(parent.parent)) ==>
        && x.left == (if old(x.left) == parent then child else old(x.left))
        && x.right == (if old(x.right) == parent then child else old(x.right))
      ensures min == (if old(parent.parent) == null then child else old(min))
    {
      var sibling := ExchangeFields(parent, child);
      if sibling != null { sibling.parent := child; }
      if parent.left != null { parent.left.parent := parent; }
      if parent.right != null { parent.right.parent := parent; }
      Reattach(parent, child);
    }

    method ExchangeFields(parent: Node<K>, child: Node<K>) returns (sibling: Node?<K>)
      requires Neighbours(parent, child)
      modifies parent`left, parent`right, parent`parent, child`left, child`right, child`parent
      ensures child.left == old(Swapped(parent.left, parent, child)) && child.right == old(Swapped(parent.right, parent, child))
      ensures child.parent == old(parent.parent) && parent.parent == child
      ensures parent.left == old(child.left) && parent.right == old(child.right)
      ensures sibling == old(Sibling(parent, child))
    {
      var tl, tr, tp := parent.left, parent.right, parent.parent;
      parent.left, parent.right, parent.parent := child.left, child.right, child.parent;
      child.left, child.right, child.parent := tl, tr, tp;
      parent.parent := child;
      if child.left == child {
        child.left := parent;
        sibling := child.right;
      } else {
        child.right := parent;
        sibling := child.left;
      }
    }

    /** Makes the link that led to `parent` lead to `child`. */
    method Reattach(parent: Node<K>, child: Node<K>)
      requires var a := child.parent; a != null ==> (a.left == parent || a.right == parent) && a.left != a.right
      modifies this`min, Opt(child.parent)`left, Opt(child.parent)`right
      ensures child.parent == old(child.parent)
      ensures var a := child.parent;
        && min == (if a == null then child else old(min))
        && (a != null ==>
              && a.left == (if old(a.left) == parent then child else old(a.left))
              && a.right == (if old(a.right) == parent then child else old(a.right)))
    {
      if child.parent == null {
        min := child;
      } else if child.parent.left == parent {
        child.parent.left := child;
      } else {
        child.parent.right := child;
      }
    }

    /** Every link ends up where it was, with the two nodes exchanged. */
    method Exchange(parent: Node<K>, child: Node<K>, ghost p: nat, ghost c: nat)
      requires Linked(slots) && SameNodes(slots, repr)
      requires 0 < c < |slots| && p == Up(c) && slots[p] == parent && slots[c] == child
      modifies this`min, repr`left, repr`right, repr`parent
      ensures forall k :: 0 <= k < |slots| ==>
        && SwapSlots(slots, p, c)[k].left == Swapped(old(slots[k].left), parent, child)
        && SwapSlots(slots, p, c)[k].right == Swapped(old(slots[k].right), parent, child)
        && SwapSlots(slots, p, c)[k].parent == Swapped(old(slots[k].parent), parent, child)
      ensures min == (if p == 0 then child else old(min))
    {
      ghost var s := slots;
      SwapReady(s, p, c);
      PointersTo(s, p);
      PointersTo(s, c);
      Rewire(parent, child);
      forall k | 0 <= k < |s|
        ensures SwapSlots(s, p, c)[k].left == Swapped(old(s[k].left), parent, child)
        ensures SwapSlots(s, p, c)[k].right == Swapped(old(s[k].right), parent, child)
        ensures SwapSlots(s, p, c)[k].parent == Swapped(old(s[k].parent), parent, child)
      {
        assert s[k] in s && (k != p ==> s[k] != parent) && (k != c ==> s[k] != child);
      }
    }

    /** `heap_node_swap`, seen on the slots: the two nodes change places and the tree is linked again. */
    method Swap(parent: Node<K>, child: Node<K>, ghost p: nat, ghost c: nat)
      requires Tree() && 0 < c < |slots| && p == Up(c) && slots[p] == parent && slots[c] == child
      modifies this`min, this`slots, repr`left, repr`right, repr`parent
      ensures Tree() && slots == SwapSlots(old(slots), p, c)
    {
      ghost var s, t := slots, SwapSlots(slots, p, c);
      SwappedSlots(s, p, c);
      SwapKeepsNodes(s, p, c, repr);
      Exchange(parent, child, p, c);
      slots := t;
      forall k | 0 <= k < |s| ensures LinkAt(t, k) {
        assert old(LinkAt(s, k));
      }
    }

    /** The pointer stored at a place. */
    function Deref(l: Loc<K>): Node?<K>
      reads this, if l.AtMin? then {} else {l.node}
    {
      match l
      case AtMin => min
      case LeftOf(x) => x.left
      case RightOf(x) => x.right
    }

    method Store(l: Loc<K>, x: Node?<K>)
      modifies this`min, (if l.AtMin? then {} else {l.node})`left, (if l.AtMin? then {} else {l.node})`right
      ensures Deref(l) == x
      ensures !l.AtMin? ==> min == old(min)
      ensures l.LeftOf? ==> l.node.right == old(l.node.right)
      ensures l.RightOf? ==> l.node.left == old(l.node.left)
    {
      match l
      case AtMin => min := x;
      case LeftOf(n) => n.left := x;
      case RightOf(n) => n.right := x;
    }

    /** Follows a path from the root. `parent` is the place one step before `child`. */
    method Descend(target: nat) returns (parent: Loc<K>, child: Loc<K>)
      requires Tree() && 1 <= target <= |slots| + 1 && target < UINT_RANGE
      ensures LocAt(slots, child, target - 1)
      ensures Deref(child) == Slot(slots, target - 1)
      ensures Deref(parent) == if target == 1 then min else slots[Up(target - 1)]
    {
      var path, k := PathTo(target);
      parent, child := AtMin, AtMin;
      ghost var at := 1;
      while k > 0
        invariant Walk(at, path, k) == target && Reached(parent, child, at)
      {
        parent := child;
        child := Turn(child, path % 2, at);
        at := 2 * at + path % 2;
        path := path / 2;
        k := k - 1;
      }
    }

    /** The walk is at slot number `at`, counting from 1, and `parent` is the place one step before. */
    ghost predicate Reached(parent: Loc<K>, child: Loc<K>, at: nat)
      requires Tree()
      reads this, slots, if child.AtMin? then {} else {child.node}, if parent.AtMin? then {} else {parent.node}
    {
      && 1 <= at && LocAt(slots, child, at - 1) && Deref(child) == Slot(slots, at - 1)
      && Deref(parent) == if at == 1 then min else slots[Up(at - 1)]
    }

    /** One step down from a place, to the right or to the left. */
    method Turn(l: Loc<K>, bit: nat, ghost at: nat) returns (m: Loc<K>)
      requires Tree() && 1 <= at <= |slots| && Deref(l) == slots[at - 1] && bit < 2
      ensures Reached(l, m, 2 * at + bit)
    {
      ChildPlace(at, bit);
      assert LinkAt(slots, at - 1);
      var n := Deref(l);
      m := if bit == 1 then RightOf(n) else LeftOf(n);
    }

    /** Links a new node at the left-most free place of the bottom row. */
    method Append(newnode: Node<K>)
      requires Tree() && newnode !in slots && nelts + 1 < UINT_RANGE
      modifies this, newnode`left, newnode`right, newnode`parent, repr`left, repr`right
      ensures Tree() && slots == old(slots) + [newnode] && repr == old(repr) + {newnode} && nelts == old(nelts) + 1
    {
      newnode.left, newnode.right, newnode.parent := null, null, null;
      var parent, child := Descend(1 + nelts);
      newnode.parent := Deref(parent);
      ghost var s := slots;
      SnocNodes(s, newnode, repr);
      StoreNew(child, newnode);
      nelts := nelts + 1;
      slots, repr := s + [newnode], repr + {newnode};
    }

    method StoreNew(l: Loc<K>, newnode: Node<K>)
      requires Linked(slots) && SameNodes(slots, repr) && newnode !in slots && LocAt(slots, l, |slots|)
      requires newnode.left == null && newnode.right == null
      requires newnode.parent == if slots == [] then null else slots[Up(|slots|)]
      modifies this`min, repr`left, repr`right
      ensures Linked(slots + [newnode])
      ensures min == if slots == [] then newnode else old(min)
    {
      ghost var s, t := slots, slots + [newnode];
      Store(l, newnode);
      forall k | 0 <= k < |t| ensures LinkAt(t, k) {
        if k < |s| { assert old(LinkAt(s, k)); }
      }
    }

    /** Unlinks the last node of the bottom row. */
    method DetachLast() returns (last: Node<K>)
      requires Tree() && 0 < nelts < UINT_RANGE
      modifies this, repr`left, repr`right
      ensures Tree() && old(slots) == slots + [last] && repr == old(repr) - {last} && last in old(repr)
      ensures nelts == old(nelts) - 1
    {
      var _, max := Descend(nelts);
      last := Deref(max);
      ghost var t := slots[..|slots| - 1];
      assert slots == t + [last];
      nelts := nelts - 1;
      UnlinkLast(max, last, t);
    }

    method UnlinkLast(l: Loc<K>, ghost last: Node<K>, ghost t: seq<Node<K>>)
      requires Linked(slots) && SameNodes(slots, repr) && slots == t + [last] && LocAt(slots, l, |t|) && min == Slot(slots, 0)
      modifies this`min, this`slots, this`repr, repr`left, repr`right
      ensures Linked(slots) && SameNodes(slots, repr) && slots == t && repr == old(repr) - {last} && min == Slot(slots, 0)
    {
      ghost var s := slots;
      SnocNodes(t, last, repr);
      Store(l, null);
      slots, repr := t, repr - {last};
      assert forall k :: 0 <= k < |t| ==> t[k] == s[k];
      forall k | 0 <= k < |t| ensures LinkAt(t, k) {
        assert old(LinkAt(s, k));
      }
    }

    /** Puts `child` where `node` is. */
    method Replace(node: Node<K>, child: Node<K>, ghost i: nat)
      requires Tree() && i < |slots| && slots[i] == node && child !in slots
      modifies this`min, this`slots, this`repr, child`left, child`right, child`parent, repr`left, repr`right, repr`parent
      ensures Tree() && slots == old(slots)[i := child] && repr == old(repr) - {node} + {child}
    {
      ghost var s: seq<Node<K>> := slots;
      ghost var t: seq<Node<K>> := s[i := child];
      ReplacedNodes(s, i, child, repr);
      ReplacedSlots(s, i, child);
      Rename(node, child, i);
      slots, repr := t, repr - {node} + {child};
      forall k | 0 <= k < |t| ensures LinkAt(t, k) {
        assert old(LinkAt(s, k));
      }
    }

    /** Every link ends up where it was, with `child` in place of `node`. */
    method Rename(node: Node<K>, child: Node<K>, ghost i: nat)
      requires Tree() && i < |slots| && slots[i] == node && child !in slots
      modifies this`min, child`left, child`right, child`parent, repr`left, repr`right, repr`parent
      ensures forall k :: 0 <= k < |slots| ==>
        && slots[i := child][k].left == Renamed(old(slots[k].left), node, child)
        && slots[i := child][k].right == Renamed(old(slots[k].right), node, child)
        && slots[i := child][k].parent == Renamed(old(slots[k].parent), node, child)
      ensures min == (if i == 0 then child else old(min))
    {
      ghost var s: seq<Node<K>> := slots;
      assert LinkAt(s, i);
      if i > 0 { assert LinkAt(s, Up(i)); }
      PointersTo(s, i);
      TakeOver(node, child);
      forall k | 0 <= k < |s|
        ensures s[i := child][k].left == Renamed(old(s[k].left), node, child)
        ensures s[i := child][k].right == Renamed(old(s[k].right), node, child)
        ensures s[i := child][k].parent == Renamed(old(s[k].parent), node, child)
      {
        assert s[k] in s && (k != i ==> s[k] != node);
      }
    }

    /** The writes of `heap_remove` that give `child` the links of `node`. */
    method TakeOver(node: Node<K>, child: Node<K>)
      requires node.left != node && node.right != node && node.parent != node && node != child
      requires child !in Opt(node.left) + Opt(node.right) + Opt(node.parent)
      requires Opt(node.left) + Opt(node.right) !! Opt(node.parent)
      requires node.parent != null ==>
        (node.parent.left == node || node.parent.right == node) && node.parent.left != node.parent.right
      modifies this`min, child`left, child`right, child`parent
      modifies Opt(node.left)`parent, Opt(node.right)`parent, Opt(node.parent)`left, Opt(node.parent)`right
      ensures child.left == old(node.left) && child.right == old(node.right) && child.parent == old(node.parent)
      ensures forall x :: x in old(Opt(node.left) + Opt(node.right)) ==> x.parent == child
      ensures forall x :: x in old(Opt(node.parent)) ==>
        && x.left == (if old(x.left) == node then child else old(x.left))
        && x.right == (if old(x.right) == node then child else old(x.right))
      ensures min == (if old(node.parent) == null then child else old(min))
    {
      child.left, child.right, child.parent := node.left, node.right, node.parent;
      if child.left != null { child.left.parent := child; }
      if child.right != null { child.right.parent := child; }
      if node.parent == null {
        min := child;
      } else if node.parent.left == node {
        node.parent.left := child;
      } else {
        node.parent.right := child;
      }
    }

    /** Walks a node up while it is smaller than its parent. */
    method SiftUp(child: Node<K>, lt: Order<K>, ghost c0: nat) returns (ghost swaps: nat)
      requires Tree() && StrictWeakOrder(lt) && c0 < |slots| && slots[c0] == child
      requires OrderedBut(slots, lt, c0) && ChildrenOrdered(slots, lt, c0)
      modifies this`min, this`slots, repr`left, repr`right, repr`parent
      ensures Tree() && Ordered(slots, lt)
      ensures c0 > 0 && old(OrderAt(slots, lt, c0)) ==> swaps == 0
    {
      ghost var c: nat := c0;
      swaps := 0;
      ghost var fine := c0 > 0 && OrderAt(slots, lt, c0);
      assert LinkAt(slots, c);
      while child.parent != null && lt(child.key, child.parent.key)
        invariant Tree()
        invariant c < |slots| && slots[c] == child && LinkAt(slots, c)
        invariant OrderedBut(slots, lt, c) && ChildrenOrdered(slots, lt, c)
        invariant fine ==> swaps == 0 && c > 0 && OrderAt(slots, lt, c)
        decreases c
      {
        StepUp(child, lt, c);
        c := Up(c);
        swaps := swaps + 1;
      }
      assert c > 0 ==> OrderAt(slots, lt, c);
    }

    method StepUp(child: Node<K>, lt: Order<K>, ghost c: nat)
      requires Tree() && StrictWeakOrder(lt) && 0 < c < |slots| && slots[c] == child && LinkAt(slots, c)
      requires OrderedBut(slots, lt, c) && ChildrenOrdered(slots, lt, c)
      requires lt(child.key, slots[Up(c)].key)
      modifies this`min, this`slots, repr`left, repr`right, repr`parent
      ensures Tree() && Up(c) < |slots| && slots[Up(c)] == child && LinkAt(slots, Up(c))
      ensures OrderedBut(slots, lt, Up(c)) && ChildrenOrdered(slots, lt, Up(c))
    {
      SiftUpStep(slots, lt, c);
      Swap(child.parent, child, Up(c), c);
      assert LinkAt(slots, Up(c));
    }

    /** The child slot a node has to be swapped with, if any. */
    method Smallest(child: Node<K>, lt: Order<K>, ghost c: nat) returns (smallest: Node<K>, ghost d: nat)
      requires Tree() && StrictWeakOrder(lt) && c < |slots| && slots[c] == child
      ensures d < |slots| && slots[d] == smallest
      ensures smallest == child ==> d == c && ChildrenOrdered(slots, lt, c)
      ensures smallest != child ==> c < d && Up(d) == c && lt(smallest.key, child.key)
      ensures smallest != child ==> forall i :: 0 < i < |slots| && Up(i) == c ==> !lt(slots[i].key, smallest.key)
    {
      assert LinkAt(slots, c);
      assert forall i :: 0 < i && Up(i) == c ==> i == 2 * c + 1 || i == 2 * c + 2;
      smallest, d := child, c;
      if child.left != null && lt(child.left.key, smallest.key) {
        smallest, d := child.left, 2 * c + 1;
      }
      if child.right != null && lt(child.right.key, smallest.key) {
        if child.left != null {
          assert NotLessAt(lt, child.left.key, child.key, child.right.key);
          assert NotLessAt(lt, child.right.key, child.key, child.left.key);
        }
        smallest, d := child.right, 2 * c + 2;
      }
    }

    /** Walks a node down while one of its children is smaller. */
    method SiftDown(child: Node<K>, lt: Order<K>, ghost c0: nat) returns (ghost c: nat, ghost swaps: nat)
      requires Tree() && StrictWeakOrder(lt) && c0 < |slots| && slots[c0] == child
      requires OrderedBut(slots, lt, c0)
      modifies this`min, this`slots, repr`left, repr`right, repr`parent
      ensures Tree()
      ensures c < |slots| && slots[c] == child && OrderedBut(slots, lt, c) && ChildrenOrdered(slots, lt, c)
      ensures swaps > 0 ==> c > 0 && OrderAt(slots, lt, c)
    {
      c, swaps := c0, 0;
      while true
        invariant Tree() && c < |slots| && slots[c] == child && OrderedBut(slots, lt, c)
        invariant swaps > 0 ==> c > 0 && OrderAt(slots, lt, c)
        decreases |slots| - c
      {
        var moved;
        moved, c := StepDown(child, lt, c);
        if !moved {
          break;
        }
        swaps := swaps + 1;
      }
    }

    method StepDown(child: Node<K>, lt: Order<K>, ghost c: nat) returns (moved: bool, ghost d: nat)
      requires Tree() && StrictWeakOrder(lt) && c < |slots| && slots[c] == child
      requires OrderedBut(slots, lt, c)
      modifies this`min, this`slots, repr`left, repr`right, repr`parent
      ensures Tree() && |slots| == old(|slots|) && d < |slots| && slots[d] == child && OrderedBut(slots, lt, d)
      ensures !moved ==> d == c && slots == old(slots) && ChildrenOrdered(slots, lt, d)
      ensures moved ==> c < d && OrderAt(slots, lt, d)
    {
      var smallest;
      smallest, d := Smallest(child, lt, c);
      moved := smallest != child;
      if moved {
        SwapDown(child, smallest, lt, c, d);
      }
    }

    method SwapDown(child: Node<K>, smallest: Node<K>, lt: Order<K>, ghost c: nat, ghost d: nat)
      requires Tree() && StrictWeakOrder(lt) && c < d < |slots| && slots[c] == child && slots[d] == smallest
      requires Up(d) == c && OrderedBut(slots, lt, c) && lt(smallest.key, child.key)
      requires forall i :: 0 < i < |slots| && Up(i) == c ==> !lt(slots[i].key, smallest.key)
      modifies this`min, this`slots, repr`left, repr`right, repr`parent
      ensures Tree() && |slots| == old(|slots|) && slots[d] == child && OrderedBut(slots, lt, d) && OrderAt(slots, lt, d)
    {
      SiftDownStep(slots, lt, c, d);
      Swap(child, smallest, c, d);
    }

    ghost predicate Valid(lt: Order<K>)
      reads this, slots
    {
      StrictWeakOrder(lt) && Tree() && Ordered(slots, lt) && nelts < UINT_RANGE
    }

    /** `heap_init`. */
    constructor (lt: Order<K>)
      requires StrictWeakOrder(lt)
      ensures Valid(lt) && repr == {}
    {
      min, nelts, slots, repr := null, 0, [], {};
    }

    /** `heap_min`: null exactly for the empty heap, otherwise a node no other node is less than. */
    method Min(lt: Order<K>) returns (m: Node?<K>)
      requires Valid(lt)
      ensures m == min && (m == null <==> repr == {})
      ensures m != null ==> m in repr && forall x :: x in repr ==> !lt(x.key, m.key)
    {
      m := min;
      assert slots != [] ==> slots[0] in repr;
      forall x | x in repr ensures m != null && !lt(x.key, m.key) {
        var i :| 0 <= i < |slots| && slots[i] == x;
        RootIsLeast(slots, lt, i);
      }
    }

    /** `heap_insert`. */
    method Insert(newnode: Node<K>, lt: Order<K>)
      requires Valid(lt) && newnode !in repr && nelts + 1 < UINT_RANGE
      modifies this, newnode`left, newnode`right, newnode`parent, repr`left, repr`right, repr`parent
      ensures Valid(lt) && repr == old(repr) + {newnode} && nelts == old(nelts) + 1
    {
      ghost var s := slots;
      Append(newnode);
      AppendedOrder(s, newnode, lt);
      var _ := SiftUp(newnode, lt, |s|);
    }

    /** `heap_remove` of any node. At most one of the two sifting loops does anything. */
    method Remove(node: Node<K>, lt: Order<K>) returns (ghost down: nat, ghost up: nat)
      requires Valid(lt) && (nelts != 0 ==> node in repr)
      modifies this, repr`left, repr`right, repr`parent
      ensures Valid(lt) && repr == old(repr) - {node}
      ensures nelts == if old(nelts) == 0 then 0 else old(nelts) - 1
      ensures down == 0 || up == 0
    {
      down, up := 0, 0;
      if nelts == 0 {
        assert slots == [] && repr == {};
        return;
      }
      ghost var c;
      var child;
      child, c := TakeOut(node, lt);
      if child == node {
        return;
      }
      c, down := SiftDown(child, lt, c);
      up := SiftUp(child, lt, c);
    }

    /** Takes a node out of the tree and puts the last node in its place; slot c may then be out of order. */
    method TakeOut(node: Node<K>, lt: Order<K>) returns (child: Node<K>, ghost c: nat)
      requires Valid(lt) && node in repr
      modifies this, repr`left, repr`right, repr`parent
      ensures Tree() && nelts == old(nelts) - 1 && repr == old(repr) - {node}
      ensures child == node ==> Ordered(slots, lt)
      ensures child != node ==> c < |slots| && slots[c] == child && OrderedBut(slots, lt, c)
    {
      ghost var s := slots;
      c :| 0 <= c < |s| && s[c] == node;
      child := DetachLast();
      ghost var t := slots;
      assert forall k :: 0 <= k < |t| ==> t[k] == s[k];
      if child == node {
        // The root pointer is already cleared when this was the only node.
        forall k | 0 < k < |t| ensures OrderAt(t, lt, k) { assert OrderAt(s, lt, k); }
        return;
      }
      assert s[|s| - 1] == child && c < |t|;
      Replace(node, child, c);
      ReplacedOrder(s, t, child, c, lt);
    }

    /** `heap_dequeue`. */
    method Dequeue(lt: Order<K>) returns (ghost m: Node?<K>)
      requires Valid(lt)
      modifies this, repr`left, repr`right, repr`parent
      ensures Valid(lt)
      ensures m == null <==> old(repr) == {}
      ensures m == null ==> repr == {}
      ensures m != null ==> m in old(repr) && repr == old(repr) - {m}
      ensures m != null ==> forall x :: x in old(repr) ==> !lt(x.key, m.key)
    {
      m := Min(lt);
      if nelts == 0 {
        assert slots == [];
        return;
      }
      assert slots[0] in repr;
      var _, _ := Remove(min, lt);
    }
  }

  lemma AppendedOrder<K(!new)>(s: seq<Node<K>>, x: Node<K>, lt: Order<K>)
    requires Ordered(s, lt)
    ensures OrderedBut(s + [x], lt, |s|) && ChildrenOrdered(s + [x], lt, |s|)
  {
    forall i | 0 < i < |s| ensures OrderAt(s + [x], lt, i) { assert OrderAt(s, lt, i); }
  }

  /** Putting the last node in place of slot i keeps min-order but for slot i. */
  lemma ReplacedOrder<K(!new)>(s: seq<Node<K>>, t: seq<Node<K>>, x: Node<K>, i: nat, lt: Order<K>)
    requires StrictWeakOrder(lt) && Ordered(s, lt) && |t| < |s| && i < |t|
    requires forall k :: 0 <= k < |t| ==> t[k] == s[k]
    ensures OrderedBut(t[i := x], lt, i)
  {
    var u: seq<Node<K>> := t[i := x];
    forall k | 0 < k < |u| && k != i && Up(k) != i ensures OrderAt(u, lt, k) { assert OrderAt(s, lt, k); }
    if i > 0 {
      forall k | 0 < k < |u| && Up(k) == i ensures GrandOrderAt(u, lt, k) {
        assert OrderAt(s, lt, k) && OrderAt(s, lt, i) && NotLessAt(lt, s[k].key, s[i].key, s[Up(i)].key);
      }
    }
  }

  /** Who points to x, and whom x points to, agree. */
  ghost predicate Around<K>(s: seq<Node<K>>, x: Node<K>)
    reads s, x
  {
    && (forall y :: y in s && (y.left == x || y.right == x) ==> x.parent == y)
    && (forall y :: y in s ==> (y.parent == x <==> x.left == y || x.right == y))
  }

  lemma PointersTo<K>(s: seq<Node<K>>, c: nat)
    requires Linked(s) && c < |s|
    ensures Around(s, s[c])
  {
    assert LinkAt(s, c);
    forall y | y in s
      ensures y.left == s[c] || y.right == s[c] ==> s[c].parent == y
      ensures y.parent == s[c] <==> s[c].left == y || s[c].right == y
    {
      var i :| 0 <= i < |s| && s[i] == y;
      assert LinkAt(s, i);
    }
  }
}
