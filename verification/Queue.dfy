/** The intrusive circular doubly linked queues: the macros that rewrite next/prev links, shown to carry out
    operations on sequences. Each `modifies` clause names exactly the nodes a macro writes, so every queue that
    shares none of them is left as it was. */
module Queue {
  import opened SeqFacts

  class Node {
    var next: Node
    var prev: Node

    /** QUEUE_INIT of a fresh node. */
    constructor ()
      ensures next == this && prev == this
    {
      next, prev := this, this;
    }
  }

  /** The nodes of c are linked in a circle, in order. */
  ghost predicate Circle(c: seq<Node>)
    reads c
  {
    && c != [] && NoDup(c)
    && forall i, j :: 0 <= i < |c| && 0 <= j < |c| && (j == i + 1 || (i == |c| - 1 && j == 0)) ==>
         c[i].next == c[j] && c[j].prev == c[i]
  }

  /** h heads a queue that holds s, first to last. */
  ghost predicate Holds(h: Node, s: seq<Node>)
    reads [h] + s
  {
    Circle([h] + s)
  }

  /** QUEUE_EMPTY. */
  method IsEmpty(h: Node, ghost s: seq<Node>) returns (e: bool)
    requires Holds(h, s)
    ensures e <==> s == []
  {
    assert ([h] + s)[0] == h && (s != [] ==> h.next == ([h] + s)[1]);
    e := h == h.next;
  }

  /** QUEUE_HEAD. */
  method Head(h: Node, ghost s: seq<Node>) returns (q: Node)
    requires Holds(h, s) && s != []
    ensures q == s[0]
  {
    assert ([h] + s)[0].next == ([h] + s)[1];
    q := h.next;
  }

  /** QUEUE_INIT. */
  method Init(q: Node)
    modifies q
    ensures Holds(q, [])
  {
    q.next := q;
    q.prev := q;
  }

  /** QUEUE_INSERT_TAIL. */
  method InsertTail(h: Node, q: Node, ghost s: seq<Node>)
    requires Holds(h, s) && q !in [h] + s
    modifies h, q, h.prev
    ensures Holds(h, s + [q])
  {
    ghost var c, d := [h] + s, [h] + (s + [q]);
    assert c[0] == h && h.prev == c[|c| - 1] && c[|c| - 1].next == c[0];
    assert d == c + [q];
    q.next := h;
    q.prev := h.prev;
    q.prev.next := q;
    h.prev := q;
  }

  /** QUEUE_INSERT_HEAD. */
  method InsertHead(h: Node, q: Node, ghost s: seq<Node>)
    requires Holds(h, s) && q !in [h] + s
    modifies h, q, h.next
    ensures Holds(h, [q] + s)
  {
    ghost var c, d := [h] + s, [h] + ([q] + s);
    assert c[0] == h && d[0] == h && d[1] == q;
    assert h.next == (if |c| > 1 then c[1] else c[0]) && h.prev == c[|c| - 1];
    assert forall i :: 2 <= i < |d| ==> d[i] == c[i - 1];
    q.next := h.next;
    q.prev := h;
    q.next.prev := q;
    h.next := q;
  }

  /** QUEUE_REMOVE. The removed node keeps its own links, so QUEUE_EMPTY still says no of it. */
  method Remove(q: Node, ghost h: Node, ghost s: seq<Node>, ghost i: nat)
    requires Holds(h, s) && i < |s| && s[i] == q
    modifies q.prev, q.next
    ensures Holds(h, s[..i] + s[i + 1..])
    ensures q.next == old(q.next) && q.prev == old(q.prev) && q.next != q
  {
    ghost var c, d := [h] + s, [h] + (s[..i] + s[i + 1..]);
    assert c[i + 1] == q;
    assert q.prev == c[i] && q.next == (if i + 2 < |c| then c[i + 2] else c[0]);
    assert forall j :: 0 <= j <= i ==> d[j] == c[j];
    assert forall j :: i < j < |d| ==> d[j] == c[j + 1];
    q.prev.next := q.next;
    q.next.prev := q.prev;
  }

  /** QUEUE_SPLIT: everything from q on goes to n, the rest stays with h. */
  method Split(h: Node, q: Node, n: Node, ghost s: seq<Node>, ghost i: nat)
    requires Holds(h, s) && i < |s| && s[i] == q && n !in [h] + s
    modifies h, n, q, h.prev, q.prev
    ensures Holds(h, s[..i]) && Holds(n, s[i..])
  {
    ghost var c, a, b := [h] + s, [h] + s[..i], [n] + s[i..];
    assert c[0] == h && c[i + 1] == q;
    assert forall j :: 0 <= j <= i ==> a[j] == c[j];
    assert forall j :: 1 <= j < |b| ==> b[j] == c[i + j];
    ghost var last, before := c[|c| - 1], c[i];
    assert h.prev == last && q.prev == before;
    n.prev := h.prev;
    n.prev.next := n;
    n.next := q;
    h.prev := q.prev;
    h.prev.next := h;
    q.prev := n;
  }

  /** QUEUE_MOVE: all nodes go to n, in order, and h is left empty. */
  method Move(h: Node, n: Node, ghost s: seq<Node>)
    requires Holds(h, s) && n !in [h] + s
    modifies h, n, h.next, h.prev
    ensures Holds(h, []) && Holds(n, s)
  {
    var e := IsEmpty(h, s);
    if e {
      Init(n);
    } else {
      var q := Head(h, s);
      assert ([h] + s)[1].prev == ([h] + s)[0];
      assert s[..0] == [] && s[0..] == s;
      Split(h, q, n, s, 0);
    }
  }

  /** QUEUE_ADD: the nodes of n's queue are appended to h's. */
  method Add(h: Node, n: Node, ghost s: seq<Node>, ghost t: seq<Node>)
    requires Holds(h, s) && Holds(n, t) && t != []
    requires forall x :: x in [h] + s ==> x !in [n] + t
    modifies h, h.prev, n.next, n.prev
    ensures Holds(h, s + t)
  {
    ghost var c, e, d := [h] + s, [n] + t, [h] + (s + t);
    assert c[0] == h && e[0] == n;
    assert forall j :: 0 <= j < |c| ==> d[j] == c[j];
    assert forall j :: |c| <= j < |d| ==> d[j] == e[j - |c| + 1];
    forall i, j | 0 <= i < |c| && 0 <= j < |e| ensures c[i] != e[j] { assert c[i] in c && e[j] in e; }
    ghost var last := c[|c| - 1];
    assert h.prev == last && n.next == e[1] && n.prev == e[|e| - 1];
    assert d[|c| - 1] == last && d[|c|] == e[1] && d[|d| - 1] == e[|e| - 1];
    h.prev.next := n.next;
    n.next.prev := h.prev;
    h.prev := n.prev;
    h.prev.next := h;
  }

  /** A node moves from one queue to the tail of another, as a cancelled request does. */
  method Requeue(q: Node, ghost from: Node, to: Node, ghost s: seq<Node>, ghost t: seq<Node>, ghost i: nat)
    requires Holds(from, s) && Holds(to, t) && i < |s| && s[i] == q
    requires forall x :: x in [from] + s ==> x !in [to] + t
    modifies [from] + s, [to] + t
    ensures Holds(from, s[..i] + s[i + 1..]) && Holds(to, t + [q])
  {
    ghost var c, e, r := [from] + s, [to] + t, [from] + (s[..i] + s[i + 1..]);
    assert c[i + 1] == q && e[0] == to;
    assert q.prev == c[i] && q.next == (if i + 2 < |c| then c[i + 2] else c[0]);
    assert q.prev in c && q.next in c && q in c;
    Remove(q, from, s, i);
    assert to.prev == e[|e| - 1] && to.prev in e && to in e;
    forall x | x in r ensures x in c && x != q {
      var j :| 0 <= j < |r| && r[j] == x;
      assert r[j] == if j <= i then c[j] else c[j + 1];
    }
    InsertTail(to, q, t);
  }
}
