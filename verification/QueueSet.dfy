/** Several intrusive queues over one set of nodes, each node in one queue at most: what the queue macros do to them, as
    operations on sequences and on which nodes are linked to themselves. */
module QueueSet {
  import opened SeqFacts
  import opened Queue

  /** A node in a queue is not linked to itself. */
  lemma {:induction false} LinkedElsewhere(h: Node, s: seq<Node>, x: Node)
    requires Holds(h, s) && x in s
    ensures x.next != x && x != h
  {
    var c := [h] + s;
    var i :| 0 <= i < |s| && s[i] == x;
    assert c[0] == h && c[i + 1] == x && x.next == if i + 2 < |c| then c[i + 2] else c[0];
  }

  lemma {:induction false} LastOf(h: Node, s: seq<Node>)
    requires Holds(h, s)
    ensures h.prev in [h] + s && h.next in [h] + s
  {
    var c := [h] + s;
    assert c[0] == h && h.prev == c[|c| - 1] && h.next == if |c| > 1 then c[1] else c[0];
  }

  lemma {:induction false} NeighboursOf(h: Node, s: seq<Node>, i: nat)
    requires Holds(h, s) && i < |s|
    ensures s[i].prev in [h] + s && s[i].next in [h] + s
  {
    var c := [h] + s;
    assert c[i + 1] == s[i] && s[i].prev == c[i] && s[i].next == if i + 2 < |c| then c[i + 2] else c[0];
  }

  lemma {:induction false} NotItsOwn(h: Node, s: seq<Node>)
    requires Holds(h, s)
    ensures h !in s
  {
    var c := [h] + s;
    forall i | 0 <= i < |s| ensures s[i] != h { assert c[0] == h && c[i + 1] == s[i]; }
  }

  class Queues {
    const heads: seq<Node>
    /** All nodes: the heads, and those that are or may be linked. */
    ghost var repr: set<Node>
    ghost var items: seq<seq<Node>>
    /** The queue each linked node and each head is in. */
    ghost var home: map<Node, nat>
    /** Which nodes other than the heads are linked to themselves, which is what QUEUE_EMPTY of a node tells. */
    ghost var flags: map<Node, bool>

    /** Quantified only so that the details stay out of sight until `Detail` is named. */
    ghost predicate Valid()
      reads this, repr
    {
      |items| == |heads| && forall z: int :: Detail(z)
    }

    ghost predicate Detail(z: int)
      reads this, repr
    {
      && |items| == |heads| && home.Keys <= repr && (forall x :: x in home ==> home[x] < |heads|) && Flagged()
      && AllQueues()
    }

    /** The details, for whoever asks. */
    lemma Open()
      requires Valid()
      ensures Detail(0)
    {
    }

    lemma Close()
      requires Detail(0)
      ensures Valid()
    {
      forall z: int ensures Detail(z) { assert Detail(0); }
    }

    ghost predicate AllQueues()
      requires |items| == |heads|
      reads this, repr
    {
      && (forall k :: 0 <= k < |heads| ==> heads[k] in repr && (forall x :: x in items[k] ==> x in repr))
      && (forall k :: 0 <= k < |heads| ==> QueueAt(k))
    }

    ghost predicate QueueAt(k: nat)
      requires k < |heads| && k < |items| && heads[k] in repr && forall x :: x in items[k] ==> x in repr
      reads this, repr
    {
      && Holds(heads[k], items[k]) && heads[k] in home && (forall x :: x in items[k] ==> x in home)
      && forall x :: x in home ==> (home[x] == k <==> x == heads[k] || x in items[k])
    }

    ghost predicate Flagged()
      reads this, repr
    {
      && (forall x :: x in flags ==> x in repr && x !in heads && flags[x] == (x.next == x))
      && (forall x :: x in repr && x !in heads ==> x in flags)
    }

    /** All nodes are linked to themselves at the start. */
    constructor (heads: seq<Node>, ghost others: set<Node>)
      requires forall i, j :: 0 <= i < j < |heads| ==> heads[i] != heads[j]
      requires forall k :: 0 <= k < |heads| ==> heads[k] !in others && heads[k].next == heads[k] && heads[k].prev == heads[k]
      requires forall x :: x in others ==> x.next == x
      ensures Valid() && this.heads == heads && items == seq(|heads|, _ => [])
      ensures repr == others + set k | 0 <= k < |heads| :: heads[k]
      ensures home.Keys == (set k | 0 <= k < |heads| :: heads[k]) && flags == map x | x in others :: true
    {
      this.heads := heads;
      this.items := seq(|heads|, _ => []);
      this.repr := others + set k | 0 <= k < |heads| :: heads[k];
      this.home := map x | x in heads :: var k :| 0 <= k < |heads| && heads[k] == x; k;
      this.flags := map x | x in others :: true;
      new;
      forall k | 0 <= k < |this.heads| ensures QueueAt(k) { assert this.heads[k] in this.heads; }
      assert Detail(0);
    }

    /** A new node, linked to itself. */
    method Adopt(ghost q: Node)
      requires Valid() && q !in repr && q.next == q
      modifies this
      ensures Valid() && items == old(items) && home == old(home) && repr == old(repr) + {q}
      ensures flags == old(flags)[q := true]
    {
      Open();
      repr, flags := repr + {q}, flags[q := true];
      forall k | 0 <= k < |heads| ensures QueueAt(k) { assert old(QueueAt(k)); }
      Close();
    }

    /** QUEUE_EMPTY of a queue. */
    method IsEmpty(k: nat) returns (e: bool)
      requires Valid() && k < |heads|
      ensures e == (items[k] == [])
    {
      Open();
      assert QueueAt(k);
      e := Queue.IsEmpty(heads[k], items[k]);
    }

    /** QUEUE_HEAD. */
    method First(k: nat) returns (q: Node)
      requires Valid() && k < |heads| && items[k] != []
      ensures q == items[k][0]
    {
      Open();
      assert QueueAt(k);
      q := Queue.Head(heads[k], items[k]);
    }

    lemma HeadsApart(k: nat)
      requires |items| == |heads| && AllQueues() && k < |heads|
      ensures forall x :: x in items[k] ==> x !in heads
    {
      assert QueueAt(k);
      NotItsOwn(heads[k], items[k]);
      forall j | 0 <= j < |heads| ensures heads[j] !in items[k] { assert QueueAt(j); }
    }

    /** The nodes of a queue are linked to others. */
    lemma NotSelfLinked(k: nat)
      requires |items| == |heads| && AllQueues() && k < |heads|
      ensures forall x :: x in items[k] ==> x.next != x && x !in heads
    {
      assert QueueAt(k);
      HeadsApart(k);
      forall x | x in items[k] ensures x.next != x { LinkedElsewhere(heads[k], items[k], x); }
    }

    /** A node that is known to be linked to itself or not is one of these nodes. */
    lemma FlaggedIsMember(q: Node)
      requires Valid() && q in flags
      ensures q in repr && flags[q] == (q.next == q)
    {
      Open();
    }

    /** A node that is no head and in no queue has no home. */
    lemma NotQueued(q: Node)
      requires Valid() && q in flags && forall k :: 0 <= k < |heads| ==> q !in items[k]
      ensures q !in home
    {
      Open();
      ghost var k := if q in home then home[q] else 0;
      if k < |heads| { assert QueueAt(k); }
    }

    /** A node that is linked to itself is in no queue. */
    lemma SelfLinkedIsFree(q: Node)
      requires Valid() && q in flags && flags[q]
      ensures q !in home
    {
      Open();
      forall k | 0 <= k < |heads| ensures q !in items[k] { NotSelfLinked(k); }
      NotQueued(q);
    }

    /** The first node is followed by the head exactly when it is the only one. */
    lemma OnlyOne(k: nat)
      requires Valid() && k < |heads| && items[k] != []
      ensures items[k][0] in repr && (items[k][0].next == heads[k] <==> |items[k]| == 1)
    {
      Open();
      assert QueueAt(k);
      var c := [heads[k]] + items[k];
      assert c[1] == items[k][0] && c[1].next == if |c| > 2 then c[2] else c[0];
      NotItsOwn(heads[k], items[k]);
    }

    /** QUEUE_INSERT_TAIL of a node that is in no queue. */
    method Append(k: nat, q: Node)
      requires Valid() && k < |heads| && q in repr && q !in home
      modifies this`items, this`home, this`flags, repr
      ensures Valid() && items == old(items)[k := old(items[k]) + [q]] && home == old(home)[q := k]
      ensures flags == old(flags)[q := false]
    {
      Open();
      assert QueueAt(k);
      ghost var s := items[k];
      forall j | 0 <= j < |heads| ensures q != heads[j] { assert QueueAt(j); }
      LastOf(heads[k], s);
      NotSelfLinked(k);
      Queue.InsertTail(heads[k], q, s);
      forall j | 0 <= j < |heads| && j != k ensures QueueAt(j) {
        assert old(QueueAt(j));
        assert forall x :: x in [heads[j]] + items[j] ==> x in home && home[x] == j;
      }
      forall x | x in s + [q] ensures x.next != x { LinkedElsewhere(heads[k], s + [q], x); }
      NoteAppend(k, q, s);
    }

    /** The books, after a node has been put at the tail of queue k. */
    ghost method NoteAppend(k: nat, q: Node, s: seq<Node>)
      requires |items| == |heads| && home.Keys <= repr && k < |heads| && items[k] == s && q in repr && q !in home
      requires forall x :: x in home ==> home[x] < |heads|
      requires forall i :: 0 <= i < |heads| ==> heads[i] in repr && (forall x :: x in items[i] ==> x in repr)
      requires Holds(heads[k], s + [q]) && forall i :: 0 <= i < |heads| && i != k ==> QueueAt(i)
      requires heads[k] in home && (forall x :: x in s ==> x in home)
      requires forall x :: x in home ==> (home[x] == k <==> x == heads[k] || x in s)
      requires q !in heads && q.next != q && (forall x :: x in flags && x != q ==> x in repr && x !in heads && flags[x] == (x.next == x))
      requires forall x :: x in repr && x !in heads ==> x in flags
      modifies this`items, this`home, this`flags
      ensures Valid() && items == old(items)[k := s + [q]] && home == old(home)[q := k] && flags == old(flags)[q := false]
    {
      items, home, flags := items[k := s + [q]], home[q := k], flags[q := false];
      forall i | 0 <= i < |heads| ensures QueueAt(i) {
        if i != k { assert old(QueueAt(i)); }
      }
      Close();
    }

    /** QUEUE_REMOVE: the node is in no queue then, but not linked to itself either. */
    method Remove(q: Node, ghost k: nat, ghost i: nat)
      requires Valid() && k < |heads| && i < |items[k]| && items[k][i] == q
      modifies this`items, this`home, this`flags, repr
      ensures Valid() && items == old(items)[k := old(items[k])[..i] + old(items[k])[i + 1..]]
      ensures home == old(home) - {q} && flags == old(flags) && q in flags && !flags[q]
    {
      Open();
      assert QueueAt(k);
      ghost var s := items[k];
      ghost var t := s[..i] + s[i + 1..];
      NeighboursOf(heads[k], s, i);
      NotSelfLinked(k);
      Taken([heads[k]] + s, heads[k], s, i);
      Queue.Remove(q, heads[k], s, i);
      items, home := items[k := t], home - {q};
      forall j | 0 <= j < |heads| ensures QueueAt(j) {
        assert old(QueueAt(j));
        if j != k { assert forall x :: x in [heads[j]] + items[j] ==> x in home && home[x] == j; }
      }
      NotSelfLinked(k);
      Close();
    }

    /** QUEUE_INIT of a node that is in no queue. */
    method InitNode(q: Node)
      requires Valid() && q in repr && q !in home
      modifies q, this`flags
      ensures Valid() && flags == old(flags)[q := true]
    {
      Open();
      forall j | 0 <= j < |heads| ensures q != heads[j] && q !in items[j] { assert QueueAt(j); }
      Queue.Init(q);
      assert ([q] + [])[0].next == q;
      flags := flags[q := true];
      forall j | 0 <= j < |heads| ensures QueueAt(j) {
        assert old(QueueAt(j));
        assert forall x :: x in [heads[j]] + items[j] ==> x in home;
      }
      Close();
    }

    /** QUEUE_HEAD, QUEUE_REMOVE and QUEUE_INIT: the first node comes off, and is linked to itself. */
    method PopFirst(k: nat) returns (q: Node)
      requires Valid() && k < |heads| && items[k] != []
      modifies this`items, this`home, this`flags, repr
      ensures Valid() && q == old(items[k][0]) && items == old(items)[k := old(items[k])[..0] + old(items[k])[1..]]
      ensures home == old(home) - {q} && flags == old(flags)[q := true]
    {
      Open();
      q := First(k);
      Remove(q, k, 0);
      InitNode(q);
    }

    /** QUEUE_MOVE to an empty queue. */
    method MoveAll(j: nat, k: nat)
      requires Valid() && j < |heads| && k < |heads| && j != k && items[k] == []
      modifies this`items, this`home, this`flags, repr
      ensures Valid() && items == old(items)[j := []][k := old(items[j])] && flags == old(flags)
      ensures home.Keys == old(home.Keys)
    {
      Open();
      assert QueueAt(j) && QueueAt(k);
      ghost var s := items[j];
      LastOf(heads[j], s);
      NotSelfLinked(j);
      assert heads[k] !in [heads[j]] + s;
      Queue.Move(heads[j], heads[k], s);
      forall i | 0 <= i < |heads| && i != j && i != k ensures QueueAt(i) {
        assert old(QueueAt(i));
        assert forall x :: x in [heads[i]] + items[i] ==> x in home && home[x] == i;
      }
      forall x | x in s ensures x.next != x { LinkedElsewhere(heads[k], s, x); }
      Rehome(j, k, s);
    }

    /** The books, after the nodes s have gone from queue j to the empty queue k. */
    ghost method Rehome(j: nat, k: nat, s: seq<Node>)
      requires |items| == |heads| && home.Keys <= repr && Flagged() && j < |heads| && k < |heads| && j != k
      requires forall x :: x in home ==> home[x] < |heads|
      requires forall i :: 0 <= i < |heads| ==> heads[i] in repr && (forall x :: x in items[i] ==> x in repr)
      requires items[j] == s && items[k] == [] && Holds(heads[j], []) && Holds(heads[k], s)
      requires forall i :: 0 <= i < |heads| && i != j && i != k ==> QueueAt(i)
      requires heads[j] in home && heads[k] in home && home[heads[k]] == k && forall x :: x in s ==> x in home && x != heads[j]
      requires forall x :: x in home ==> (home[x] == j <==> x == heads[j] || x in s) && (home[x] == k <==> x == heads[k])
      modifies this`items, this`home
      ensures Valid() && items == old(items)[j := []][k := s] && home.Keys == old(home.Keys)
    {
      items := items[j := []][k := s];
      home := map x | x in home :: if home[x] == j && x != heads[j] then k else home[x];
      forall i | 0 <= i < |heads| ensures QueueAt(i) {
        if i != j && i != k { assert old(QueueAt(i)); }
      }
      Close();
    }
  }

  /** Taking one node out of a queue without duplicates. */
  lemma {:induction false} Taken(c: seq<Node>, h: Node, s: seq<Node>, i: nat)
    requires i < |s| && c == [h] + s && NoDup(c)
    ensures var t := s[..i] + s[i + 1..];
      s[i] !in t && s[i] != h && forall x :: x in s && x != s[i] ==> x in t
    ensures forall x :: x in s[..i] + s[i + 1..] ==> x in s
  {
    var t := s[..i] + s[i + 1..];
    assert c[0] == h && forall k :: 0 <= k < |s| ==> c[k + 1] == s[k];
    OthersStay(s, i);
  }

  lemma {:induction false} OthersStay(s: seq<Node>, i: nat)
    requires i < |s|
    ensures forall x :: x in s && x != s[i] ==> x in s[..i] + s[i + 1..]
  {
    var t := s[..i] + s[i + 1..];
    forall x | x in s && x != s[i] ensures x in t {
      var k :| 0 <= k < |s| && s[k] == x;
      assert t[if k < i then k else k - 1] == x;
    }
  }
}
